/** Certificate generation from a template and a list of recipients. The
    clock, the random source and the date formatting are inputs: each record
    draws one `Draw`, and `DateRendering` stands for `toLocaleDateString`
    (long "Month D, YYYY" form, en-US) and `toISOString`. */
module Certificates {
  import opened Wrappers
  import opened JsStrings
  import opened CertificateTypes

  /** Five days in milliseconds: the completion date is this long before
      the issue date. */
  const FiveDaysMillis: int := 5 * 24 * 60 * 60 * 1000

  predicate IsBase36Digit(c: char) {
    '0' <= c <= '9' || 'a' <= c <= 'z'
  }

  predicate IsUpperBase36Digit(c: char) {
    '0' <= c <= '9' || 'A' <= c <= 'Z'
  }

  /** What `Math.random().toString(36)` can produce for a number in [0, 1):
      "0", or "0." followed by base-36 digits. */
  predicate IsRandomText(s: string) {
    s == "0" || (|s| > 2 && s[..2] == "0." && forall i :: 2 <= i < |s| ==> IsBase36Digit(s[i]))
  }

  type RandomText = s: string | IsRandomText(s) witness "0"

  /** The non-deterministic inputs of one record: the instant `now` (ms since
      the epoch) the dates derive from, the later `Date.now()` reading
      embedded in the id, and the two random numbers rendered in base 36. */
  datatype Draw = Draw(now: int, idClock: nat, idRandom: RandomText, codeRandom: RandomText)

  /** Locale and ISO rendering of an instant. */
  datatype DateRendering = DateRendering(longDate: int -> string, iso: int -> string)

  /** `text.substr(2, width).toUpperCase()`: the first `width` digits after
      "0.", upper-cased; fewer when the random number has fewer digits. */
  function RandomFragment(text: RandomText, width: nat): (fragment: string)
    ensures |fragment| <= width
    ensures |text| >= 2 + width ==> |fragment| == width
    ensures forall i :: 0 <= i < |fragment| ==> IsUpperBase36Digit(fragment[i])
  {
    var digits := Substr(text, 2, width);
    assert forall i :: 0 <= i < |digits| ==> IsBase36Digit(digits[i]) by {
      if |text| > 2 {
        forall i | 0 <= i < |digits| ensures IsBase36Digit(digits[i]) {
          assert digits[i] == text[2 + i];
        }
      }
    }
    Upper(digits)
  }

  /** `generateCertificateId`: "CERT-", the clock reading in decimal, "-",
      and up to six upper-case base-36 digits. It contains neither a comma
      nor a line break. */
  function CertificateId(clockMillis: nat, random: RandomText): (id: string)
    ensures |id| >= 7 && id[..5] == "CERT-"
    ensures ',' !in id && '\n' !in id
  {
    var digits := Decimal(clockMillis);
    var fragment := RandomFragment(random, 6);
    IdPartsClean(digits, fragment);
    "CERT-" + digits + "-" + fragment
  }

  /** An id assembled from decimal digits and upper-case base-36 digits
      holds neither a comma nor a line break. */
  lemma IdPartsClean(digits: string, fragment: string)
    requires forall i :: 0 <= i < |digits| ==> IsDigit(digits[i])
    requires forall i :: 0 <= i < |fragment| ==> IsUpperBase36Digit(fragment[i])
    ensures var id := "CERT-" + digits + "-" + fragment; ',' !in id && '\n' !in id
  {
    var id := "CERT-" + digits + "-" + fragment;
    forall i | 0 <= i < |id| ensures id[i] != ',' && id[i] != '\n' {
      if i < 5 {
      } else if i < 5 + |digits| {
        assert id[i] == digits[i - 5];
      } else if i > 5 + |digits| {
        assert id[i] == fragment[i - 6 - |digits|];
      }
    }
  }

  /** `generateVerificationCode`: "VER-" and up to nine upper-case base-36
      digits; no comma and no line break. */
  function VerificationCode(random: RandomText): (code: string)
    ensures 4 <= |code| <= 13 && code[..4] == "VER-"
    ensures forall i :: 4 <= i < |code| ==> IsUpperBase36Digit(code[i])
    ensures ',' !in code && '\n' !in code
  {
    var fragment := RandomFragment(random, 9);
    CodePartsClean(fragment);
    "VER-" + fragment
  }

  /** "VER-" followed by upper-case base-36 digits holds neither a comma
      nor a line break. */
  lemma CodePartsClean(fragment: string)
    requires forall i :: 0 <= i < |fragment| ==> IsUpperBase36Digit(fragment[i])
    ensures var code := "VER-" + fragment;
      && (forall i :: 4 <= i < |code| ==> IsUpperBase36Digit(code[i]))
      && ',' !in code && '\n' !in code
  {
    var code := "VER-" + fragment;
    forall i | 0 <= i < |code| ensures code[i] != ',' && code[i] != '\n' && (i >= 4 ==> IsUpperBase36Digit(code[i])) {
      if i >= 4 {
        assert code[i] == fragment[i - 4];
      }
    }
  }

  /** Two ids are equal only when both the clock readings and the random
      fragments are: uniqueness of ids comes down to uniqueness of the
      (clock, random) pairs. */
  lemma CertificateIdInjective(a: nat, r: RandomText, b: nat, s: RandomText)
    requires CertificateId(a, r) == CertificateId(b, s)
    ensures a == b && RandomFragment(r, 6) == RandomFragment(s, 6)
  {
    IdAfterPrefix(a, r);
    IdAfterPrefix(b, s);
    SeparatedPartsUnique(Decimal(a), RandomFragment(r, 6), Decimal(b), RandomFragment(s, 6), '-');
    DecimalInjective(a, b);
  }

  /** After "CERT-" an id is the clock digits, which hold no '-', then '-'
      and the random fragment. */
  lemma IdAfterPrefix(clockMillis: nat, random: RandomText)
    ensures CertificateId(clockMillis, random)[5..] == Decimal(clockMillis) + "-" + RandomFragment(random, 6)
    ensures '-' !in Decimal(clockMillis)
  {
    var digits, fragment := Decimal(clockMillis), RandomFragment(random, 6);
    assert ("CERT-" + digits + "-" + fragment)[5..] == digits + "-" + fragment;
    assert forall i :: 0 <= i < |digits| ==> digits[i] != '-';
  }

  /** `createCertificate`: the recipient's fields and the template's fields
      copied verbatim, a fresh id and verification code, the issue date at
      `now`, the completion date five days earlier, always verified, and one
      ISO stamp for both `createdAt` and `updatedAt`. */
  function CreateCertificate(recipient: Recipient, template: CertificateTemplate, draw: Draw, dates: DateRendering): (c: Certificate)
    ensures c.recipientName == recipient.name && c.recipientEmail == recipient.email
    ensures c.grade == recipient.grade
    ensures c.courseName == template.courseName && c.issuerName == template.issuerName
    ensures c.duration == template.duration && c.skills == template.skills
    ensures c.instructorName == template.instructorName
    ensures c.id == CertificateId(draw.idClock, draw.idRandom)
    ensures c.verificationCode == VerificationCode(draw.codeRandom)
    ensures c.issueDate == dates.longDate(draw.now)
    ensures c.completionDate == dates.longDate(draw.now - 432000000)
    ensures c.isVerified
    ensures c.createdAt == c.updatedAt == dates.iso(draw.now)
  {
    var completion := draw.now - FiveDaysMillis;
    Certificate(
      id := CertificateId(draw.idClock, draw.idRandom),
      recipientName := recipient.name,
      recipientEmail := recipient.email,
      courseName := template.courseName,
      issuerName := template.issuerName,
      issueDate := dates.longDate(draw.now),
      completionDate := dates.longDate(completion),
      duration := template.duration,
      grade := recipient.grade,
      skills := template.skills,
      instructorName := template.instructorName,
      verificationCode := VerificationCode(draw.codeRandom),
      isVerified := true,
      createdAt := dates.iso(draw.now),
      updatedAt := dates.iso(draw.now))
  }

  /** `generateCertificatesFromTemplate`: one certificate per recipient, in
      recipient order, the k-th built from the k-th draw. */
  function GenerateFromTemplate(template: CertificateTemplate, recipients: seq<Recipient>,
                                draw: nat -> Draw, dates: DateRendering): (certs: seq<Certificate>)
    ensures |certs| == |recipients|
    ensures forall k :: 0 <= k < |certs| ==> certs[k] == CreateCertificate(recipients[k], template, draw(k), dates)
    ensures forall k :: 0 <= k < |certs| ==>
      && certs[k].recipientName == recipients[k].name
      && certs[k].recipientEmail == recipients[k].email
      && certs[k].grade == recipients[k].grade
      && certs[k].courseName == template.courseName
      && certs[k].skills == template.skills
      && certs[k].isVerified
      && certs[k].createdAt == certs[k].updatedAt
  {
    seq(|recipients|, k requires 0 <= k < |recipients| => CreateCertificate(recipients[k], template, draw(k), dates))
  }

  /** Distinct (clock, random fragment) pairs give pairwise distinct ids
      within one batch; the code itself never checks this. */
  lemma BatchIdsDistinct(template: CertificateTemplate, recipients: seq<Recipient>,
                         draw: nat -> Draw, dates: DateRendering)
    requires forall j, k :: 0 <= j < k < |recipients| ==>
      draw(j).idClock != draw(k).idClock
      || RandomFragment(draw(j).idRandom, 6) != RandomFragment(draw(k).idRandom, 6)
    ensures var certs := GenerateFromTemplate(template, recipients, draw, dates);
      forall j, k :: 0 <= j < k < |certs| ==> certs[j].id != certs[k].id
  {
    var certs := GenerateFromTemplate(template, recipients, draw, dates);
    forall j, k | 0 <= j < k < |certs| ensures certs[j].id != certs[k].id {
      if certs[j].id == certs[k].id {
        CertificateIdInjective(draw(j).idClock, draw(j).idRandom, draw(k).idClock, draw(k).idRandom);
      }
    }
  }
}
