/** The stand-alone generation script: a fixed template and five fixed
    recipients run through the same `CreateCertificate` as the library, then
    a CSV of names, ids, URLs and verification codes, and a listing of the
    first three certificate URLs. Writing the files and the console are not
    modelled; the text they would receive is. */
module GenerateScript {
  import opened Wrappers
  import opened JsStrings
  import opened CertificateTypes
  import opened Certificates

  /** The script's template. Its object has no `id` or `name`; certificate
      creation never reads those two fields, so they are left empty here. */
  const ScriptTemplate: CertificateTemplate := CertificateTemplate(
    id := "",
    name := "",
    courseName := "Advanced React Development",
    issuerName := "TechEd Academy",
    duration := "40 hours",
    skills := ["React", "TypeScript", "Next.js", "State Management"],
    instructorName := Some("Dr. Sarah Johnson"))

  const ScriptRecipients: seq<Recipient> := [
    Recipient("Alice Johnson", "alice@example.com", "95%"),
    Recipient("Bob Smith", "bob@example.com", "88%"),
    Recipient("Carol Davis", "carol@example.com", "92%"),
    Recipient("David Wilson", "david@example.com", "87%"),
    Recipient("Eva Brown", "eva@example.com", "94%")]

  /** The script's batch: five certificates, in the order of its recipient
      list, for its one course. */
  function ScriptCertificates(draw: nat -> Draw, dates: DateRendering): (certs: seq<Certificate>)
    ensures |certs| == 5
    ensures forall k :: 0 <= k < 5 ==>
      && certs[k].recipientName == ScriptRecipients[k].name
      && certs[k].recipientEmail == ScriptRecipients[k].email
      && certs[k].grade == ScriptRecipients[k].grade
      && certs[k].courseName == "Advanced React Development"
      && certs[k].instructorName == Some("Dr. Sarah Johnson")
      && certs[k].isVerified
      && certs[k].createdAt == certs[k].updatedAt
  {
    GenerateFromTemplate(ScriptTemplate, ScriptRecipients, draw, dates)
  }

  // ---------------------------------------------------------------------
  // CSV export
  // ---------------------------------------------------------------------

  const CsvColumns: seq<string> := ["Name", "Email", "Certificate ID", "Certificate URL", "Verification Code"]

  /** The header line, "Name,Email,Certificate ID,Certificate URL,Verification Code". */
  const CsvHeader: string := Join(CsvColumns, ",")

  /** The header line is the five column names, comma-separated. */
  lemma CsvHeaderColumns()
    ensures Split(CsvHeader, ',') == CsvColumns
    ensures '\n' !in CsvHeader
  {
    assert forall i :: 0 <= i < |CsvColumns| ==> ',' !in CsvColumns[i] && '\n' !in CsvColumns[i];
    SplitJoin(CsvColumns, ',');
    JoinAvoids(CsvColumns, ",", '\n');
  }

  const UrlPrefix: string := "https://yoursite.com/certificate/"

  /** One CSV line, fields neither quoted nor escaped. */
  function CsvLine(c: Certificate): string {
    c.recipientName + "," + c.recipientEmail + "," + c.id + "," + UrlPrefix + c.id + "," + c.verificationCode
  }

  function CsvLines(certs: seq<Certificate>): (lines: seq<string>)
    ensures |lines| == |certs|
    ensures forall k :: 0 <= k < |certs| ==> lines[k] == CsvLine(certs[k])
  {
    seq(|certs|, k requires 0 <= k < |certs| => CsvLine(certs[k]))
  }

  /** The CSV text: the header line, then one line per certificate, joined
      by line breaks, with no line break at the end. */
  function CsvContent(certs: seq<Certificate>): (csv: string)
    ensures certs == [] ==> csv == CsvHeader
    ensures |csv| >= |CsvHeader| && csv[..|CsvHeader|] == CsvHeader
  {
    var parts := [CsvHeader] + CsvLines(certs);
    assert parts[0] == CsvHeader;
    Join(parts, "\n")
  }

  /** The five fields of a certificate's line. */
  function CsvFields(c: Certificate): seq<string> {
    [c.recipientName, c.recipientEmail, c.id, UrlPrefix + c.id, c.verificationCode]
  }

  /** A certificate whose fields hold neither a comma nor a line break. */
  predicate CsvSafe(c: Certificate) {
    && ',' !in c.recipientName && '\n' !in c.recipientName
    && ',' !in c.recipientEmail && '\n' !in c.recipientEmail
    && ',' !in c.id && '\n' !in c.id
    && ',' !in c.verificationCode && '\n' !in c.verificationCode
  }

  /** A line is its five fields joined by commas. */
  lemma CsvLineIsJoin(c: Certificate)
    ensures CsvLine(c) == Join(CsvFields(c), ",")
  {
    var f := CsvFields(c);
    assert f[1..][1..][1..][1..] == [c.verificationCode];
    assert Join(f[1..][1..][1..], ",") == UrlPrefix + c.id + "," + c.verificationCode;
    assert Join(f[1..][1..], ",") == c.id + "," + (UrlPrefix + c.id + "," + c.verificationCode);
    assert Join(f[1..], ",") == c.recipientEmail + "," + (c.id + "," + (UrlPrefix + c.id + "," + c.verificationCode));
  }

  /** Splitting a safe certificate's line on commas gives back its five
      fields: name, email, id, the certificate URL and the code. */
  lemma CsvLineRoundTrip(c: Certificate)
    requires CsvSafe(c)
    ensures Split(CsvLine(c), ',') == CsvFields(c)
    ensures '\n' !in CsvLine(c)
  {
    CsvLineIsJoin(c);
    var f := CsvFields(c);
    assert ',' !in UrlPrefix && '\n' !in UrlPrefix;
    assert forall i :: 0 <= i < |f| ==> ',' !in f[i];
    SplitJoin(f, ',');
  }

  /** Splitting the CSV of safe certificates on line breaks gives back the
      header and then one line per certificate, in order. */
  lemma CsvLinesRoundTrip(certs: seq<Certificate>)
    requires forall k :: 0 <= k < |certs| ==> CsvSafe(certs[k])
    ensures Split(CsvContent(certs), '\n') == [CsvHeader] + CsvLines(certs)
  {
    var parts := [CsvHeader] + CsvLines(certs);
    CsvHeaderColumns();
    forall i | 0 <= i < |parts| ensures '\n' !in parts[i] {
      if i > 0 {
        assert parts[i] == CsvLine(certs[i - 1]);
        CsvLineRoundTrip(certs[i - 1]);
      }
    }
    SplitJoin(parts, '\n');
  }

  /** Reading a CSV of safe certificates back: the header line splits into
      the column names, and line `k + 1` splits into the fields of
      certificate `k` (its third field is the id, its fourth the URL of that
      id). */
  lemma CsvRoundTrip(certs: seq<Certificate>)
    requires forall k :: 0 <= k < |certs| ==> CsvSafe(certs[k])
    ensures var lines := Split(CsvContent(certs), '\n');
      && |lines| == |certs| + 1
      && Split(lines[0], ',') == CsvColumns
      && forall k :: 0 <= k < |certs| ==> Split(lines[k + 1], ',') == CsvFields(certs[k])
  {
    CsvLinesRoundTrip(certs);
    CsvHeaderColumns();
    var lines := Split(CsvContent(certs), '\n');
    forall k | 0 <= k < |certs| ensures Split(lines[k + 1], ',') == CsvFields(certs[k]) {
      assert lines[k + 1] == CsvLine(certs[k]);
      CsvLineRoundTrip(certs[k]);
    }
  }

  /** Generated ids and codes never break the CSV: a generated certificate is
      safe whenever the recipient's name and email are. */
  lemma GeneratedCertificateCsvSafe(recipient: Recipient, template: CertificateTemplate, draw: Draw, dates: DateRendering)
    requires ',' !in recipient.name && '\n' !in recipient.name
    requires ',' !in recipient.email && '\n' !in recipient.email
    ensures CsvSafe(CreateCertificate(recipient, template, draw, dates))
  {
  }

  /** Neither a comma nor a line break. */
  predicate CsvClean(s: string) {
    ',' !in s && '\n' !in s
  }

  predicate RecipientClean(r: Recipient) {
    CsvClean(r.name) && CsvClean(r.email)
  }

  // One small lemma per script recipient: each checks two literals on its
  // own, which is cheaper for the solver than all ten inside one proof.
  lemma AliceClean() ensures CsvClean("Alice Johnson") && CsvClean("alice@example.com") { }
  lemma BobClean() ensures CsvClean("Bob Smith") && CsvClean("bob@example.com") { }
  lemma CarolClean() ensures CsvClean("Carol Davis") && CsvClean("carol@example.com") { }
  lemma DavidClean() ensures CsvClean("David Wilson") && CsvClean("david@example.com") { }
  lemma EvaClean() ensures CsvClean("Eva Brown") && CsvClean("eva@example.com") { }

  /** No name or email of the script's recipients holds a comma or a line
      break. */
  lemma ScriptRecipientsClean()
    ensures forall k :: 0 <= k < |ScriptRecipients| ==> RecipientClean(ScriptRecipients[k])
  {
    AliceClean(); BobClean(); CarolClean(); DavidClean(); EvaClean();
  }

  /** The script's own CSV reads back exactly: five lines after the header,
      line `k + 1` holding the fields of the k-th certificate. */
  lemma ScriptCsvRoundTrip(draw: nat -> Draw, dates: DateRendering)
    ensures var certs := ScriptCertificates(draw, dates);
            var lines := Split(CsvContent(certs), '\n');
      && |lines| == 6
      && forall k :: 0 <= k < 5 ==> Split(lines[k + 1], ',') == CsvFields(certs[k])
  {
    var certs := ScriptCertificates(draw, dates);
    ScriptRecipientsClean();
    forall k | 0 <= k < 5 ensures CsvSafe(certs[k]) {
      GeneratedCertificateCsvSafe(ScriptRecipients[k], ScriptTemplate, draw(k), dates);
    }
    CsvRoundTrip(certs);
  }

  // ---------------------------------------------------------------------
  // Sample URL listing
  // ---------------------------------------------------------------------

  function SampleUrlLine(c: Certificate): string {
    "   " + c.recipientName + ": /certificate/" + c.id
  }

  /** The sample listing: one line for each of the first three certificates
      (all of them when there are fewer), in order. */
  function SampleUrls(certs: seq<Certificate>): (lines: seq<string>)
    ensures |lines| == Min(3, |certs|)
    ensures forall k :: 0 <= k < |lines| ==> lines[k] == SampleUrlLine(certs[k])
  {
    var shown := certs[..Min(3, |certs|)];
    seq(|shown|, k requires 0 <= k < |shown| => SampleUrlLine(shown[k]))
  }
}
