/** The administration page: a template being edited, a free-text list of
    recipients, and bulk generation over the parsed list. The page's state
    hooks become the fields of `AdminPage`; each event handler is a method
    that runs to completion. */
module AdminPage {
  import opened Wrappers
  import opened JsStrings
  import opened JsArrays
  import opened CertificateTypes
  import opened Certificates

  /** The grade given to a recipient whose line has no grade, or an empty one. */
  const DefaultGrade: string := "Pass"

  // ---------------------------------------------------------------------
  // Parsing the recipients text
  // ---------------------------------------------------------------------

  /** A value that parses back unchanged: no comma and no outer whitespace. */
  predicate PlainField(s: string) {
    ',' !in s && IsTrimmed(s)
  }

  /** A trimmed piece of a comma split is a plain field. */
  lemma TrimmedPiecePlain(piece: string)
    requires ',' !in piece
    ensures PlainField(Trim(piece))
  {
    TrimKeepsAbsent(piece, ',');
  }

  /** `line.split(",").map(item => item.trim())`. */
  function Items(line: string): (items: seq<string>)
    ensures |items| == |Split(line, ',')| >= 1
    ensures forall i :: 0 <= i < |items| ==> items[i] == Trim(Split(line, ',')[i])
  {
    var pieces := Split(line, ',');
    seq(|pieces|, i requires 0 <= i < |pieces| => Trim(pieces[i]))
  }

  /** Every item of a line is a plain field. */
  lemma ItemsPlain(line: string)
    ensures forall i :: 0 <= i < |Items(line)| ==> PlainField(Items(line)[i])
  {
    var pieces := Split(line, ',');
    forall i | 0 <= i < |Items(line)| ensures PlainField(Items(line)[i]) {
      TrimmedPiecePlain(pieces[i]);
    }
  }

  /** Plain fields joined by commas itemize back to themselves. */
  lemma ItemsOfPlainFields(fields: seq<string>)
    requires |fields| >= 1
    requires forall i :: 0 <= i < |fields| ==> PlainField(fields[i])
    ensures Items(Join(fields, ",")) == fields
  {
    SplitJoin(fields, ',');
    forall i | 0 <= i < |fields| ensures Trim(fields[i]) == fields[i] {
      TrimOfTrimmed(fields[i]);
    }
  }

  lemma DefaultGradePlain()
    ensures PlainField(DefaultGrade)
  {
  }

  /** One recipient line: the comma-separated items, each trimmed, are name,
      email and grade. A missing email is left empty, a missing or empty grade
      becomes "Pass", and items after the third are ignored. */
  function ParseRecipientLine(line: string): (r: Recipient)
    ensures r.grade != ""
  {
    RecipientOf(Items(line))
  }

  /** Name, email and grade of a parsed line hold no comma and no outer
      whitespace. */
  lemma ParsedFieldsPlain(line: string)
    ensures var r := ParseRecipientLine(line);
      PlainField(r.name) && PlainField(r.email) && PlainField(r.grade)
  {
    ItemsPlain(line);
    DefaultGradePlain();
  }

  /** The recipient named by a line's items: name, email (empty when
      missing) and grade ("Pass" when missing or empty). */
  function RecipientOf(items: seq<string>): (r: Recipient)
    requires |items| >= 1
    ensures r.grade != ""
  {
    var email := if |items| > 1 then items[1] else "";
    var grade := if |items| > 2 && items[2] != "" then items[2] else DefaultGrade;
    Recipient(items[0], email, grade)
  }

  /** The blank-line filter: a line is kept when its trimmed form is not
      empty. */
  predicate NonBlank(line: string) {
    Trim(line) != ""
  }

  /** The recipients text: one line per recipient, blank lines skipped. */
  function ParseRecipients(text: string): (recipients: seq<Recipient>)
    ensures |recipients| == |Filter(Split(text, '\n'), NonBlank)| <= |Split(text, '\n')|
    ensures forall k :: 0 <= k < |recipients| ==>
      recipients[k] == ParseRecipientLine(Filter(Split(text, '\n'), NonBlank)[k])
  {
    var lines := Filter(Split(text, '\n'), NonBlank);
    seq(|lines|, k requires 0 <= k < |lines| => ParseRecipientLine(lines[k]))
  }

  lemma JoinThree(a: string, b: string, c: string)
    ensures Join([a, b, c], ",") == a + "," + b + "," + c
  {
    var fields := [a, b, c];
    assert fields[1..][1..] == [c];
    assert Join(fields[1..], ",") == b + "," + c;
  }

  lemma JoinTwo(a: string, b: string)
    ensures Join([a, b], ",") == a + "," + b
  {
    assert [a, b][1..] == [b];
  }

  /** A full line reads back as the recipient it was written from. */
  lemma RecipientLineRoundTrip(name: string, email: string, grade: string)
    requires PlainField(name) && PlainField(email) && PlainField(grade) && grade != ""
    ensures ParseRecipientLine(name + "," + email + "," + grade) == Recipient(name, email, grade)
  {
    ThreeItems(name, email, grade);
  }

  /** A line of three plain fields reads as the recipient they name. */
  lemma ThreeItems(a: string, b: string, c: string)
    requires PlainField(a) && PlainField(b) && PlainField(c)
    ensures ParseRecipientLine(a + "," + b + "," + c) == RecipientOf([a, b, c])
  {
    JoinThree(a, b, c);
    ItemsOfPlainFields([a, b, c]);
  }

  /** The first line of the text area's placeholder reads as its recipient. */
  lemma PlaceholderLine()
    ensures ParseRecipientLine("John Smith,john@example.com,95%")
      == Recipient("John Smith", "john@example.com", "95%")
  {
    PlaceholderFieldsPlain();
    PlaceholderJoined();
    RecipientLineRoundTrip("John Smith", "john@example.com", "95%");
  }

  // The two facts below about the placeholder's literals are proved apart
  // from `PlaceholderLine`, which keeps that proof small for the solver.
  lemma PlaceholderFieldsPlain()
    ensures PlainField("John Smith") && PlainField("john@example.com") && PlainField("95%")
  {
  }

  lemma PlaceholderJoined()
    ensures "John Smith" + "," + "john@example.com" + "," + "95%" == "John Smith,john@example.com,95%"
  {
  }

  /** A line without a grade gets the default grade "Pass". */
  lemma MissingGradeDefaults(name: string, email: string)
    requires PlainField(name) && PlainField(email)
    ensures ParseRecipientLine(name + "," + email) == Recipient(name, email, DefaultGrade)
  {
    JoinTwo(name, email);
    ItemsOfPlainFields([name, email]);
  }

  /** Items after the third do not change the parsed recipient. */
  lemma ExtraItemsIgnored(fields: seq<string>)
    requires |fields| >= 3
    requires forall i :: 0 <= i < |fields| ==> PlainField(fields[i])
    ensures ParseRecipientLine(Join(fields, ",")) == ParseRecipientLine(fields[0] + "," + fields[1] + "," + fields[2])
  {
    LineOfFields(fields);
    ThreeItems(fields[0], fields[1], fields[2]);
    assert RecipientOf(fields) == RecipientOf([fields[0], fields[1], fields[2]]);
  }

  /** Plain fields joined by commas read as the recipient they name. */
  lemma LineOfFields(fields: seq<string>)
    requires |fields| >= 1
    requires forall i :: 0 <= i < |fields| ==> PlainField(fields[i])
    ensures ParseRecipientLine(Join(fields, ",")) == RecipientOf(fields)
  {
    ItemsOfPlainFields(fields);
  }

  /** For any line, name, email and grade are the trimmed first, second and
      third comma fragments: a missing email is empty, and a missing or empty
      grade is "Pass". */
  lemma LineFragments(line: string)
    ensures var r, p := ParseRecipientLine(line), Split(line, ',');
      && r.name == Trim(p[0])
      && r.email == (if |p| > 1 then Trim(p[1]) else "")
      && r.grade == (if |p| > 2 && Trim(p[2]) != "" then Trim(p[2]) else DefaultGrade)
  {
  }

  /** Each field with its own whitespace before and after it. */
  function Padded(pads: seq<(string, string)>, fields: seq<string>): seq<string>
    requires |pads| == |fields|
  {
    seq(|fields|, i requires 0 <= i < |fields| => pads[i].0 + fields[i] + pads[i].1)
  }

  lemma WhitespaceHasNoComma(s: string)
    requires AllWhitespace(s)
    ensures ',' !in s
  {
    forall j | 0 <= j < |s| ensures s[j] != ',' {
      assert IsWhitespace(s[j]);
    }
  }

  /** Whitespace around the fields of a line does not reach the recipient:
      each field is read back without its padding. */
  lemma PaddedLine(pads: seq<(string, string)>, fields: seq<string>)
    requires |fields| >= 1 && |pads| == |fields|
    requires forall i :: 0 <= i < |fields| ==>
      PlainField(fields[i]) && AllWhitespace(pads[i].0) && AllWhitespace(pads[i].1)
    ensures ParseRecipientLine(Join(Padded(pads, fields), ",")) == RecipientOf(fields)
  {
    var pieces := Padded(pads, fields);
    forall i | 0 <= i < |pieces| ensures ',' !in pieces[i] && Trim(pieces[i]) == fields[i] {
      TrimPadded(pads[i].0, fields[i], pads[i].1);
      WhitespaceHasNoComma(pads[i].0);
      WhitespaceHasNoComma(pads[i].1);
    }
    SplitJoin(pieces, ',');
    assert Items(Join(pieces, ",")) == fields;
  }

  /** A line written "name, email, grade", with a space after each comma,
      reads as that recipient. */
  lemma SpacedLine(name: string, email: string, grade: string)
    requires PlainField(name) && PlainField(email) && PlainField(grade) && grade != ""
    ensures ParseRecipientLine(name + ", " + email + ", " + grade) == Recipient(name, email, grade)
  {
    var pads := [("", ""), (" ", ""), (" ", "")];
    var fields := [name, email, grade];
    var pieces := Padded(pads, fields);
    assert pieces[0] == "" + name + "" == name;
    assert pieces[1] == " " + email + "" == " " + email;
    assert pieces[2] == " " + grade + "" == " " + grade;
    assert pieces == [name, " " + email, " " + grade];
    JoinThree(name, " " + email, " " + grade);
    assert name + "," + (" " + email) + "," + (" " + grade) == name + ", " + email + ", " + grade;
    PaddedLine(pads, fields);
  }

  /** The text yields at least one recipient exactly when it is not blank:
      the page's guard on the trimmed text is the same test as "some line
      survives the blank-line filter". */
  lemma {:induction false} RecipientsPresentIffText(text: string)
    ensures |ParseRecipients(text)| > 0 <==> Trim(text) != ""
  {
    var lines := Split(text, '\n');
    FilterNonEmpty(lines, NonBlank);
    JoinSplit(text, '\n');
    assert AllWhitespace("\n");
    JoinAllWhitespace(lines, "\n");
    TrimEmpty(text);
    forall i | 0 <= i < |lines| ensures NonBlank(lines[i]) <==> !AllWhitespace(lines[i]) {
      TrimEmpty(lines[i]);
    }
  }

  // ---------------------------------------------------------------------
  // The page
  // ---------------------------------------------------------------------

  /** The template fields bound to a text input. */
  datatype TemplateField = TemplateName | CourseName | IssuerName | Duration | InstructorName

  /** The template with one text field replaced; the skills and the id are
      kept. */
  function WithField(t: CertificateTemplate, field: TemplateField, value: string): (u: CertificateTemplate)
    ensures u.id == t.id && u.skills == t.skills
    ensures u.name == (if field == TemplateName then value else t.name)
    ensures u.courseName == (if field == CourseName then value else t.courseName)
    ensures u.issuerName == (if field == IssuerName then value else t.issuerName)
    ensures u.duration == (if field == Duration then value else t.duration)
    ensures u.instructorName == (if field == InstructorName then Some(value) else t.instructorName)
  {
    match field
    case TemplateName => t.(name := value)
    case CourseName => t.(courseName := value)
    case IssuerName => t.(issuerName := value)
    case Duration => t.(duration := value)
    case InstructorName => t.(instructorName := Some(value))
  }

  /** The test `s !== skill` of the skill filter. */
  function OtherThan(skill: string): string -> bool {
    s => s != skill
  }

  /** `skills.filter(s => s !== skill)`: every occurrence of `skill` goes,
      every other skill stays in its order, and a duplicate-free list stays
      so. */
  function WithoutSkill(skills: seq<string>, skill: string): (r: seq<string>)
    ensures skill !in r
    ensures forall i :: 0 <= i < |skills| && skills[i] != skill ==> skills[i] in r
    ensures forall i :: 0 <= i < |r| ==> r[i] in skills
    ensures IsSubsequence(r, skills)
    ensures forall i :: 0 <= i < |skills| ==>
      multiset(r)[skills[i]] == if skills[i] != skill then multiset(skills)[skills[i]] else 0
    ensures NoDuplicates(skills) ==> NoDuplicates(r)
  {
    var r := Filter(skills, OtherThan(skill));
    FilterCounts(skills, OtherThan(skill));
    assert NoDuplicates(skills) ==> NoDuplicates(r) by {
      if NoDuplicates(skills) {
        FilterNoDuplicates(skills, OtherThan(skill));
      }
    }
    r
  }

  /** Removing a skill that was just added gives back the skills before it. */
  lemma {:induction false} RemoveUndoesAdd(skills: seq<string>, skill: string)
    requires skill !in skills
    ensures WithoutSkill(skills + [skill], skill) == skills
  {
    FilterConcat(skills, [skill], OtherThan(skill));
    assert Filter([skill], OtherThan(skill)) == [];
  }

  /** Each skill is listed once, non-empty and trimmed. */
  predicate WellFormedSkills(skills: seq<string>) {
    && NoDuplicates(skills)
    && forall i :: 0 <= i < |skills| ==> skills[i] != "" && IsTrimmed(skills[i])
  }

  /** Removing a skill keeps the list well formed. */
  lemma WithoutSkillWellFormed(skills: seq<string>, skill: string)
    requires WellFormedSkills(skills)
    ensures WellFormedSkills(WithoutSkill(skills, skill))
  {
    var r := WithoutSkill(skills, skill);
    forall i | 0 <= i < |r| ensures r[i] != "" && IsTrimmed(r[i]) {
      var j :| 0 <= j < |skills| && skills[j] == r[i];
    }
  }

  /** The guard of `addSkill`: the trimmed input is not blank and not
      listed yet. */
  predicate Appends(skills: seq<string>, input: string) {
    Trim(input) != "" && Trim(input) !in skills
  }

  /** The skills after `addSkill`: the trimmed input appended when the guard
      holds, the same skills otherwise. A non-blank input is listed
      afterwards, and a well-formed list stays well formed. */
  function SkillsAfterAdd(skills: seq<string>, input: string): (r: seq<string>)
    ensures Appends(skills, input) ==> r == skills + [Trim(input)]
    ensures !Appends(skills, input) ==> r == skills
    ensures Trim(input) != "" ==> Trim(input) in r
    ensures WellFormedSkills(skills) ==> WellFormedSkills(r)
  {
    var skill := Trim(input);
    if Appends(skills, input) then
      AppendSkill(skills, skill);
      skills + [skill]
    else
      skills
  }

  /** Appending a skill that is new, non-empty and trimmed lists it and keeps
      a well-formed list well formed. */
  lemma AppendSkill(skills: seq<string>, skill: string)
    requires skill != "" && IsTrimmed(skill) && skill !in skills
    ensures skill in skills + [skill]
    ensures WellFormedSkills(skills) ==> WellFormedSkills(skills + [skill])
  {
    var r := skills + [skill];
    assert r[|skills|] == skill;
    assert forall i :: 0 <= i < |skills| ==> r[i] == skills[i];
  }

  class AdminPage {
    var template: CertificateTemplate
    var recipients: string
    var skillInput: string
    var isGenerating: bool
    var generatedCount: nat

    /** Between events no generation is running and the skills list is well
        formed. */
    predicate Valid()
      reads this
    {
      !isGenerating && WellFormedSkills(template.skills)
    }

    /** The page as first rendered: an empty template, no recipients. */
    constructor ()
      ensures template == CertificateTemplate("", "", "", "", "", [], Some(""))
      ensures recipients == "" && skillInput == ""
      ensures !isGenerating && generatedCount == 0
      ensures Valid()
    {
      template := CertificateTemplate("", "", "", "", "", [], Some(""));
      recipients := "";
      skillInput := "";
      isGenerating := false;
      generatedCount := 0;
    }

    /** The change handler of one template input. */
    method EditTemplate(field: TemplateField, value: string)
      requires Valid()
      modifies this
      ensures Valid()
      ensures template == WithField(old(template), field, value)
      ensures recipients == old(recipients) && skillInput == old(skillInput)
      ensures generatedCount == old(generatedCount)
    {
      template := WithField(template, field, value);
    }

    /** The change handler of the skill input. */
    method SetSkillInput(value: string)
      requires Valid()
      modifies this
      ensures Valid()
      ensures skillInput == value
      ensures template == old(template) && recipients == old(recipients)
      ensures generatedCount == old(generatedCount)
    {
      skillInput := value;
    }

    /** The change handler of the recipients text area. */
    method SetRecipients(value: string)
      requires Valid()
      modifies this
      ensures Valid()
      ensures recipients == value
      ensures template == old(template) && skillInput == old(skillInput)
      ensures generatedCount == old(generatedCount)
    {
      recipients := value;
    }

    /** `addSkill`: the skills become `SkillsAfterAdd` of the input, and the
        input is cleared exactly when a skill was appended. */
    method AddSkill()
      requires Valid()
      modifies this
      ensures Valid()
      ensures template == old(template).(skills := SkillsAfterAdd(old(template.skills), old(skillInput)))
      ensures skillInput == if Appends(old(template.skills), old(skillInput)) then "" else old(skillInput)
      ensures recipients == old(recipients) && generatedCount == old(generatedCount)
    {
      var skills := SkillsAfterAdd(template.skills, skillInput);
      assert WellFormedSkills(skills);
      if Appends(template.skills, skillInput) {
        skillInput := "";
      }
      template := template.(skills := skills);
    }

    /** `removeSkill`: every occurrence of the skill is dropped, the order of
        the others is kept. */
    method RemoveSkill(skillToRemove: string)
      requires Valid()
      modifies this
      ensures Valid()
      ensures template == old(template).(skills := WithoutSkill(old(template.skills), skillToRemove))
      ensures skillToRemove !in template.skills
      ensures recipients == old(recipients) && skillInput == old(skillInput)
      ensures generatedCount == old(generatedCount)
    {
      WithoutSkillWellFormed(template.skills, skillToRemove);
      template := template.(skills := WithoutSkill(template.skills, skillToRemove));
    }

    /** `handleBulkGeneration`: nothing happens without a course name or with
        a blank recipients text; otherwise one certificate is generated per
        recipient line, the count is recorded (and is at least one) and the
        generated batch is handed back. */
    method HandleBulkGeneration(draw: nat -> Draw, dates: DateRendering) returns (batch: Option<seq<Certificate>>)
      requires Valid()
      modifies this
      ensures Valid()
      ensures template == old(template) && recipients == old(recipients) && skillInput == old(skillInput)
      ensures old(template.courseName) == "" || Trim(old(recipients)) == "" ==>
        batch.None? && generatedCount == old(generatedCount)
      ensures old(template.courseName) != "" && Trim(old(recipients)) != "" ==>
        && batch == Some(GenerateFromTemplate(template, ParseRecipients(recipients), draw, dates))
        && generatedCount == |ParseRecipients(recipients)|
        && generatedCount > 0
    {
      if template.courseName == "" || Trim(recipients) == "" {
        batch := None;
      } else {
        var text := recipients;
        isGenerating := true;
        var recipientList := ParseRecipients(text);
        var certificates := GenerateFromTemplate(template, recipientList, draw, dates);
        assert |recipientList| > 0 by {
          RecipientsPresentIffText(text);
        }
        generatedCount := |certificates|;
        isGenerating := false;
        batch := Some(certificates);
      }
    }
  }
}
