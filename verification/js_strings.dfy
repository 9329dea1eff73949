/** The JavaScript string operations the certificate pipeline relies on:
    `split` on a one-character separator, `join`, `trim`, `toLowerCase`,
    `toUpperCase`, `includes`, `substr` and the decimal rendering of a
    non-negative integer. */
module JsStrings {
  import opened Wrappers

  // ---------------------------------------------------------------------
  // Whitespace and trim
  // ---------------------------------------------------------------------

  /** The characters `String.prototype.trim` strips: ECMAScript's WhiteSpace
      (tab, vertical tab, form feed, space, no-break space, byte-order mark
      and the other space separators) and LineTerminator (LF, CR, LS, PS). */
  predicate IsWhitespace(c: char) {
    || c == ' ' || c == '\t' || c == '\n' || c == '\r'
    || c == '\U{000B}' || c == '\U{000C}' || c == '\U{00A0}' || c == '\U{FEFF}'
    || c == '\U{1680}' || ('\U{2000}' <= c <= '\U{200A}')
    || c == '\U{2028}' || c == '\U{2029}' || c == '\U{202F}' || c == '\U{205F}'
    || c == '\U{3000}'
  }

  predicate AllWhitespace(s: string) {
    forall i :: 0 <= i < |s| ==> IsWhitespace(s[i])
  }

  /** `s` with its leading whitespace removed: the longest suffix of `s`
      that does not start with whitespace (`TrimStartSlice`). */
  function TrimStart(s: string): (r: string)
    ensures |r| <= |s|
    ensures r == [] || !IsWhitespace(r[0])
  {
    if |s| > 0 && IsWhitespace(s[0]) then TrimStart(s[1..]) else s
  }

  /** What `TrimStart` removes is whitespace, and it keeps the rest. */
  lemma {:induction false} TrimStartSlice(s: string)
    ensures var r := TrimStart(s);
      r == s[|s| - |r|..] && AllWhitespace(s[..|s| - |r|])
  {
    if |s| > 0 && IsWhitespace(s[0]) {
      TrimStartSlice(s[1..]);
      var r := TrimStart(s[1..]);
      var k := |s| - |r|;
      assert s[1..][k - 1..] == s[k..];
      forall i | 0 <= i < k ensures IsWhitespace(s[..k][i]) {
        if i > 0 { assert s[..k][i] == s[1..][..k - 1][i - 1]; }
      }
    } else {
      assert s[..0] == [];
    }
  }

  /** `s` with its trailing whitespace removed: the longest prefix of `s`
      that does not end with whitespace (`TrimEndSlice`). */
  function TrimEnd(s: string): (r: string)
    ensures |r| <= |s|
    ensures r == [] || !IsWhitespace(r[|r| - 1])
  {
    if |s| > 0 && IsWhitespace(s[|s| - 1]) then TrimEnd(s[..|s| - 1]) else s
  }

  /** What `TrimEnd` removes is whitespace, and it keeps the rest. */
  lemma {:induction false} TrimEndSlice(s: string)
    ensures var r := TrimEnd(s);
      r == s[..|r|] && AllWhitespace(s[|r|..])
  {
    if |s| > 0 && IsWhitespace(s[|s| - 1]) {
      var init := s[..|s| - 1];
      TrimEndSlice(init);
      var r := TrimEnd(init);
      assert init[..|r|] == s[..|r|];
      forall i | 0 <= i < |s| - |r| ensures IsWhitespace(s[|r|..][i]) {
        if i < |s| - 1 - |r| { assert s[|r|..][i] == init[|r|..][i]; }
      }
    } else {
      assert s[|s|..] == [];
    }
  }

  /** `String.prototype.trim`: the result is no longer than `s` and has no
      outer whitespace (`TrimEmpty` says when it is empty, `TrimPadded` what
      it removes). */
  function Trim(s: string): (r: string)
    ensures |r| <= |s|
    ensures IsTrimmed(r)
  {
    var t := TrimStart(s);
    var r := TrimEnd(t);
    TrimStartSlice(s);
    TrimEndSlice(t);
    TrimParts(s, t, r);
    r
  }

  /** `trim` gives "" exactly for a string that is all whitespace. */
  lemma TrimEmpty(s: string)
    ensures Trim(s) == [] <==> AllWhitespace(s)
  {
    var t := TrimStart(s);
    var r := TrimEnd(t);
    assert Trim(s) == r;
    TrimStartSlice(s);
    TrimEndSlice(t);
    TrimParts(s, t, r);
  }

  /** The two halves of `trim` put together: leading whitespace, then `r`,
      then trailing whitespace. */
  lemma TrimParts(s: string, t: string, r: string)
    requires |t| <= |s| && t == s[|s| - |t|..] && AllWhitespace(s[..|s| - |t|])
    requires t == [] || !IsWhitespace(t[0])
    requires |r| <= |t| && r == t[..|r|] && AllWhitespace(t[|r|..])
    requires r == [] || !IsWhitespace(r[|r| - 1])
    ensures var k := |s| - |t|;
      && k + |r| <= |s|
      && r == s[k..k + |r|]
      && AllWhitespace(s[..k])
      && AllWhitespace(s[k + |r|..])
    ensures r != [] ==> !IsWhitespace(r[0]) && !IsWhitespace(r[|r| - 1])
    ensures r == [] <==> AllWhitespace(s)
  {
    var k := |s| - |t|;
    assert s[k..k + |r|] == t[..|r|];
    assert s[k + |r|..] == t[|r|..];
    if r != [] {
      assert r[0] == t[0] == s[k];
    }
    WhitespaceAround(s, k, |r|);
  }

  lemma WhitespaceAround(s: string, k: nat, n: nat)
    requires k + n <= |s|
    requires AllWhitespace(s[..k]) && AllWhitespace(s[k + n..])
    ensures n == 0 ==> AllWhitespace(s)
  {
    if n == 0 {
      forall i | 0 <= i < |s| ensures IsWhitespace(s[i]) {
        if i < k { assert s[i] == s[..k][i]; } else { assert s[i] == s[k..][i - k]; }
      }
    }
  }

  /** Neither starts nor ends with whitespace. */
  predicate IsTrimmed(s: string) {
    s == [] || (!IsWhitespace(s[0]) && !IsWhitespace(s[|s| - 1]))
  }

  lemma TrimStartKeeps(s: string)
    requires s == [] || !IsWhitespace(s[0])
    ensures TrimStart(s) == s
  {
  }

  lemma TrimEndKeeps(s: string)
    requires s == [] || !IsWhitespace(s[|s| - 1])
    ensures TrimEnd(s) == s
  {
  }

  /** Trimming a string that has no outer whitespace leaves it unchanged. */
  lemma TrimOfTrimmed(s: string)
    requires IsTrimmed(s)
    ensures Trim(s) == s
  {
    TrimStartKeeps(s);
    TrimEndKeeps(s);
  }

  /** `trim` is idempotent. */
  lemma TrimIdempotent(s: string)
    ensures Trim(Trim(s)) == Trim(s)
  {
    TrimOfTrimmed(Trim(s));
  }

  lemma {:induction false} TrimStartPadded(pad: string, t: string)
    requires AllWhitespace(pad)
    requires t == [] || !IsWhitespace(t[0])
    ensures TrimStart(pad + t) == t
  {
    if pad == [] {
      assert pad + t == t;
    } else {
      assert (pad + t)[0] == pad[0];
      assert (pad + t)[1..] == pad[1..] + t;
      TrimStartPadded(pad[1..], t);
    }
  }

  lemma {:induction false} TrimEndPadded(t: string, pad: string)
    requires AllWhitespace(pad)
    requires t == [] || !IsWhitespace(t[|t| - 1])
    ensures TrimEnd(t + pad) == t
  {
    if pad == [] {
      assert t + pad == t;
    } else {
      var n := |pad| - 1;
      assert (t + pad)[|t + pad| - 1] == pad[n];
      assert (t + pad)[..|t + pad| - 1] == t + pad[..n];
      TrimEndPadded(t, pad[..n]);
    }
  }

  /** `trim` removes exactly the padding: whitespace around a string
      without outer whitespace is all that goes. */
  lemma TrimPadded(before: string, s: string, after: string)
    requires AllWhitespace(before) && AllWhitespace(after)
    requires IsTrimmed(s)
    ensures Trim(before + s + after) == s
  {
    if s == [] {
      assert before + s + after == before + after;
      ConcatAllWhitespace(before, after);
      TrimEmpty(before + after);
    } else {
      assert before + s + after == before + (s + after);
      TrimStartPadded(before, s + after);
      TrimEndPadded(s, after);
    }
  }

  /** Trimming never introduces a character. */
  lemma TrimKeepsAbsent(s: string, c: char)
    requires c !in s
    ensures c !in Trim(s)
  {
    var t := TrimStart(s);
    TrimStartSlice(s);
    assert c !in t by {
      assert t == s[|s| - |t|..];
    }
    var r := TrimEnd(t);
    TrimEndSlice(t);
    assert r == t[..|r|];
    assert Trim(s) == r;
  }

  // ---------------------------------------------------------------------
  // split and join
  // ---------------------------------------------------------------------

  /** `s.split(d)` for a one-character separator `d`: the pieces between
      consecutive occurrences of `d`, in order. There is always at least one
      piece (`"".split(",")` is `[""]`), no piece contains `d`, and
      separators at either end give empty pieces (`"a,".split(",")` is
      `["a", ""]`). */
  function Split(s: string, d: char): (r: seq<string>)
    ensures |r| >= 1
    ensures forall i :: 0 <= i < |r| ==> d !in r[i]
    ensures d !in s ==> r == [s]
  {
    if |s| == 0 then [""]
    else
      var rest := Split(s[1..], d);
      assert s == [s[0]] + s[1..];
      if s[0] == d then [""] + rest
      else [[s[0]] + rest[0]] + rest[1..]
  }

  /** `parts.join(sep)`; the empty array joins to "". */
  function Join(parts: seq<string>, sep: string): (r: string)
    ensures |parts| == 1 ==> r == parts[0]
  {
    if |parts| == 0 then ""
    else if |parts| == 1 then parts[0]
    else parts[0] + sep + Join(parts[1..], sep)
  }

  /** Splitting and joining again on the same separator gives back the string. */
  lemma {:induction false} JoinSplit(s: string, d: char)
    ensures Join(Split(s, d), [d]) == s
  {
    if |s| > 0 {
      var rest := Split(s[1..], d);
      JoinSplit(s[1..], d);
      if s[0] == d {
        assert Split(s, d) == [""] + rest;
        assert (([""] + rest)[1..]) == rest;
        assert s == [d] + s[1..];
      } else {
        var r := Split(s, d);
        assert r == [[s[0]] + rest[0]] + rest[1..];
        if |rest| == 1 {
          assert s == [s[0]] + rest[0];
        } else {
          assert r[1..] == rest[1..];
          assert Join(rest, [d]) == rest[0] + [d] + Join(rest[1..], [d]);
          assert s == [s[0]] + s[1..];
        }
      }
    }
  }

  /** The piece before the first separator: splitting `p + [d] + rest` where
      `p` has no separator yields `p` followed by the pieces of `rest`. */
  lemma {:induction false} SplitAfterPiece(p: string, d: char, rest: string)
    requires d !in p
    ensures Split(p + [d] + rest, d) == [p] + Split(rest, d)
  {
    if p == [] {
      assert p + [d] + rest == [d] + rest;
      assert ([d] + rest)[1..] == rest;
    } else {
      var s := p + [d] + rest;
      assert s[1..] == p[1..] + [d] + rest;
      SplitAfterPiece(p[1..], d, rest);
      assert [p[0]] + p[1..] == p;
    }
  }

  /** Joining pieces that contain no separator and splitting again gives the
      pieces back: the round trip that CSV rows and recipient lines rely on. */
  lemma {:induction false} SplitJoin(parts: seq<string>, d: char)
    requires |parts| >= 1
    requires forall i :: 0 <= i < |parts| ==> d !in parts[i]
    ensures Split(Join(parts, [d]), d) == parts
  {
    if |parts| > 1 {
      SplitJoin(parts[1..], d);
      SplitAfterPiece(parts[0], d, Join(parts[1..], [d]));
      assert [parts[0]] + parts[1..] == parts;
    }
  }

  /** Every part with `prefix` put in front. */
  function Prefixed(parts: seq<string>, prefix: string): (r: seq<string>)
    ensures |r| == |parts|
    ensures forall i :: 0 <= i < |parts| ==> r[i] == prefix + parts[i]
  {
    seq(|parts|, i requires 0 <= i < |parts| => prefix + parts[i])
  }

  /** Joining prefixed parts is the prefix, then the parts joined with the
      prefix added to the separator. */
  lemma {:induction false} JoinPrefixed(parts: seq<string>, sep: string, prefix: string)
    requires |parts| >= 1
    ensures Join(Prefixed(parts, prefix), sep) == prefix + Join(parts, sep + prefix)
  {
    if |parts| > 1 {
      var r := Prefixed(parts, prefix);
      assert r[1..] == Prefixed(parts[1..], prefix);
      JoinPrefixed(parts[1..], sep, prefix);
      assert Join(r, sep) == (prefix + parts[0]) + sep + (prefix + Join(parts[1..], sep + prefix));
    }
  }

  /** Prefixing every part but the first moves the prefix into the
      separator. */
  lemma JoinPrefixedTail(parts: seq<string>, sep: string, prefix: string)
    requires |parts| >= 1
    ensures Join([parts[0]] + Prefixed(parts[1..], prefix), sep) == Join(parts, sep + prefix)
  {
    var rest := parts[1..];
    var pieces := [parts[0]] + Prefixed(rest, prefix);
    if |parts| > 1 {
      JoinPrefixed(rest, sep, prefix);
      assert pieces[1..] == Prefixed(rest, prefix);
      assert Join(pieces, sep) == parts[0] + sep + (prefix + Join(rest, sep + prefix));
    }
  }

  /** A character that is in no piece and not in the separator is not in
      the joined string. */
  lemma {:induction false} JoinAvoids(parts: seq<string>, sep: string, c: char)
    requires c !in sep
    requires forall i :: 0 <= i < |parts| ==> c !in parts[i]
    ensures c !in Join(parts, sep)
  {
    if |parts| > 1 {
      JoinAvoids(parts[1..], sep, c);
    }
  }

  /** A concatenation is all whitespace exactly when both halves are. */
  lemma ConcatAllWhitespace(a: string, b: string)
    ensures AllWhitespace(a + b) <==> AllWhitespace(a) && AllWhitespace(b)
  {
    if AllWhitespace(a + b) {
      forall i | 0 <= i < |a| ensures IsWhitespace(a[i]) {
        assert a[i] == (a + b)[i];
      }
      forall i | 0 <= i < |b| ensures IsWhitespace(b[i]) {
        assert b[i] == (a + b)[|a| + i];
      }
    }
  }

  /** Joined on a whitespace separator, the result is all whitespace exactly
      when every piece is. */
  lemma {:induction false} JoinAllWhitespace(parts: seq<string>, sep: string)
    requires AllWhitespace(sep)
    ensures AllWhitespace(Join(parts, sep)) <==> forall i :: 0 <= i < |parts| ==> AllWhitespace(parts[i])
  {
    if |parts| > 1 {
      var rest := Join(parts[1..], sep);
      JoinAllWhitespace(parts[1..], sep);
      ConcatAllWhitespace(parts[0], sep);
      ConcatAllWhitespace(parts[0] + sep, rest);
      assert forall i :: 1 <= i < |parts| ==> parts[i] == parts[1..][i - 1];
    }
  }

  // ---------------------------------------------------------------------
  // Case mapping
  // ---------------------------------------------------------------------

  /** `toLowerCase` restricted to ASCII letters. */
  function LowerChar(c: char): (r: char)
    ensures 'A' <= c <= 'Z' ==> 'a' <= r <= 'z'
    ensures !('A' <= c <= 'Z') ==> r == c
  {
    if 'A' <= c <= 'Z' then (c as int + 32) as char else c
  }

  /** `toUpperCase` restricted to ASCII letters. */
  function UpperChar(c: char): (r: char)
    ensures 'a' <= c <= 'z' ==> 'A' <= r <= 'Z'
    ensures !('a' <= c <= 'z') ==> r == c
  {
    if 'a' <= c <= 'z' then (c as int - 32) as char else c
  }

  function Lower(s: string): (r: string)
    ensures |r| == |s|
    ensures forall i :: 0 <= i < |s| ==> r[i] == LowerChar(s[i])
  {
    seq(|s|, i requires 0 <= i < |s| => LowerChar(s[i]))
  }

  function Upper(s: string): (r: string)
    ensures |r| == |s|
    ensures forall i :: 0 <= i < |s| ==> r[i] == UpperChar(s[i])
  {
    seq(|s|, i requires 0 <= i < |s| => UpperChar(s[i]))
  }

  /** Lower-casing twice is lower-casing once. */
  lemma LowerIdempotent(s: string)
    ensures Lower(Lower(s)) == Lower(s)
  {
  }

  // ---------------------------------------------------------------------
  // includes
  // ---------------------------------------------------------------------

  ghost predicate OccursAt(hay: string, needle: string, i: nat) {
    i + |needle| <= |hay| && hay[i..i + |needle|] == needle
  }

  function StartsWith(s: string, prefix: string): (r: bool)
    ensures r <==> OccursAt(s, prefix, 0)
  {
    |prefix| <= |s| && s[..|prefix|] == prefix
  }

  /** `hay.includes(needle)`: true exactly when `needle` occurs in `hay` at
      some position; the empty needle occurs everywhere. */
  function Contains(hay: string, needle: string): (r: bool)
    ensures r <==> exists i: nat :: OccursAt(hay, needle, i)
  {
    if StartsWith(hay, needle) then true
    else if |hay| == 0 then false
    else
      var r := Contains(hay[1..], needle);
      assert r ==> exists i: nat :: OccursAt(hay, needle, i) by {
        if r {
          var i: nat :| OccursAt(hay[1..], needle, i);
          assert hay[1..][i..i + |needle|] == hay[i + 1..i + 1 + |needle|];
          assert OccursAt(hay, needle, i + 1);
        }
      }
      assert (exists i: nat :: OccursAt(hay, needle, i)) ==> r by {
        if exists i: nat :: OccursAt(hay, needle, i) {
          var i: nat :| OccursAt(hay, needle, i);
          assert i != 0;
          assert hay[1..][i - 1..i - 1 + |needle|] == hay[i..i + |needle|];
          assert OccursAt(hay[1..], needle, i - 1);
        }
      }
      r
  }

  /** The empty string occurs in every string, and every string in itself. */
  lemma ContainsTrivial(s: string)
    ensures Contains(s, "") && Contains(s, s)
  {
    assert OccursAt(s, "", 0);
    assert OccursAt(s, s, 0);
  }

  /** An occurrence of an occurrence is an occurrence. */
  lemma ContainsTransitive(hay: string, mid: string, needle: string)
    requires Contains(hay, mid) && Contains(mid, needle)
    ensures Contains(hay, needle)
  {
    var i: nat :| OccursAt(hay, mid, i);
    var j: nat :| OccursAt(mid, needle, j);
    assert hay[i..i + |mid|] == mid;
    forall k | 0 <= k < |needle| ensures hay[i + j + k] == needle[k] {
      assert needle[k] == mid[j + k];
      assert mid[j + k] == hay[i..i + |mid|][j + k];
    }
    assert hay[i + j..i + j + |needle|] == needle;
    assert OccursAt(hay, needle, i + j);
  }

  /** Lower-casing both sides keeps an occurrence. */
  lemma LowerKeepsContains(hay: string, needle: string)
    requires Contains(hay, needle)
    ensures Contains(Lower(hay), Lower(needle))
  {
    var i: nat :| OccursAt(hay, needle, i);
    assert Lower(hay)[i..i + |needle|] == Lower(needle);
    assert OccursAt(Lower(hay), Lower(needle), i);
  }

  // ---------------------------------------------------------------------
  // substr and decimal numbers
  // ---------------------------------------------------------------------

  /** `s.substr(start, length)` for non-negative arguments: at most `length`
      characters starting at `start`, clipped to the end of `s`. */
  function Substr(s: string, start: nat, length: nat): (r: string)
    ensures |r| <= length
    ensures start <= |s| ==> start + |r| <= |s| && r == s[start..start + |r|]
    ensures start + length <= |s| ==> |r| == length
    ensures start <= |s| ==> |r| == Min(length, |s| - start)
    ensures start >= |s| ==> r == ""
  {
    if start >= |s| then ""
    else if start + length <= |s| then s[start..start + length]
    else s[start..]
  }

  predicate IsDigit(c: char) {
    '0' <= c <= '9'
  }

  function DigitChar(n: nat): (c: char)
    requires n < 10
    ensures IsDigit(c)
  {
    ('0' as int + n) as char
  }

  /** `${n}` for a non-negative integer: its decimal digits, most significant
      first, without leading zeros. */
  function Decimal(n: nat): (r: string)
    ensures |r| >= 1
    ensures forall i :: 0 <= i < |r| ==> IsDigit(r[i])
    ensures n < 10 <==> |r| == 1
  {
    if n < 10 then [DigitChar(n)] else Decimal(n / 10) + [DigitChar(n % 10)]
  }

  /** Different numbers have different decimal renderings. */
  lemma {:induction false} DecimalInjective(a: nat, b: nat)
    requires Decimal(a) == Decimal(b)
    ensures a == b
  {
    if a >= 10 && b >= 10 {
      var da, db := Decimal(a), Decimal(b);
      assert da[..|da| - 1] == Decimal(a / 10);
      assert db[..|db| - 1] == Decimal(b / 10);
      DecimalInjective(a / 10, b / 10);
      assert da[|da| - 1] == DigitChar(a % 10);
      assert db[|db| - 1] == DigitChar(b % 10);
    }
  }

  /** In `x + [d] + y` with no separator in `x`, the first separator sits
      right after `x`. */
  lemma FirstSeparator(x: string, d: char, y: string)
    requires d !in x
    ensures (x + [d] + y)[|x|] == d
    ensures forall i :: 0 <= i < |x| ==> (x + [d] + y)[i] != d
  {
    forall i | 0 <= i < |x| ensures (x + [d] + y)[i] != d {
      assert (x + [d] + y)[i] == x[i];
    }
  }

  /** A string made of `x`, a separator and `y`, where `x` has no separator,
      determines `x` and `y`. */
  lemma SeparatedPartsUnique(x: string, y: string, x': string, y': string, d: char)
    requires d !in x && d !in x'
    requires x + [d] + y == x' + [d] + y'
    ensures x == x' && y == y'
  {
    var s := x + [d] + y;
    FirstSeparator(x, d, y);
    FirstSeparator(x', d, y');
    assert |x| == |x'|;
    assert x == s[..|x|] == x';
    assert y == s[|x| + 1..] == y';
  }
}
