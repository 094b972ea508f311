/** The validator: checks parsed documentation against the standard of its
    language and lists every issue found, in the order the checks run. */
module DocValidator {
  import opened Results
  import opened Text
  import opened FileTypes
  import opened DocParser
  import SqlStandard
  import PythonStandard
  import RStandard

  /** The outcome of a validation: valid exactly when no issue was found
      (every validator builds it from its issue list). */
  datatype ValidationResult = ValidationResult(isValid: bool, issues: seq<string>)

  /** Python truthiness of an optional text: set and not empty. */
  predicate Present(v: Option<string>) {
    v.Some? && v.value != []
  }

  /** Set and not blank. */
  predicate Filled(v: Option<string>) {
    v.Some? && Strip(v.value) != []
  }

  /** The shortest description, after stripping, that passes. */
  const MinDescription := 10

  /** A description that is present and long enough. */
  predicate LongEnough(v: Option<string>) {
    Present(v) && |Strip(v.value)| >= MinDescription
  }

  /** One check's contribution to the issue list. */
  function When(fails: bool, msg: string): (r: seq<string>)
    ensures r == [] <==> !fails
    ensures fails ==> r == [msg]
  {
    if fails then [msg] else []
  }

  const TooShort := "Description is too short (minimum 10 characters)"

  /** The description check shared by the three validators: missing when
      not present, otherwise too short below the minimum. */
  function DescriptionIssues(desc: Option<string>, missing: string): (r: seq<string>)
    requires missing != TooShort
    ensures r == [] <==> LongEnough(desc)
    ensures missing in r <==> !Present(desc)
    ensures TooShort in r <==> Present(desc) && !LongEnough(desc)
  {
    if !Present(desc) then [missing]
    else When(|Strip(desc.value)| < MinDescription, TooShort)
  }

  // ---------------------------------------------------------------- SQL

  const SqlStructure := "Documentation does not follow SQL markdown standard structure"
  const SqlMissingName := "Missing function/query name (-- # Header)"
  const SqlMissingDescription := "Missing description section (-- ## Description)"
  const SqlMissingParameters := "Missing parameters section (-- ## Parameters)"
  const SqlMissingReturns := "Missing returns section (-- ## Returns)"
  const SqlMissingExample := "Missing example section (-- ## Example)"

  /** The `Empty {field} section` messages of the four SQL fields. */
  const SqlEmptyDescription := "Empty description section"
  const SqlEmptyParameters := "Empty parameters section"
  const SqlEmptyReturns := "Empty returns section"
  const SqlEmptyExamples := "Empty examples section"

  /** Set but blank: `doc.get(field) is not None and not doc.get(field).strip()`. */
  predicate Blank(v: Option<string>) {
    v.Some? && Strip(v.value) == []
  }

  /** `_validate_sql`: the block's structure, the name, the description and
      its length, the three other sections, then any set but blank section.
      Each message is listed exactly when its check fails, and no other
      message is. Valid exactly when the structure passes, the name is set,
      and every section is set and not blank, the description long enough. */
  function ValidateSql(doc: DocRecord): (r: ValidationResult)
    ensures r.isValid <==> r.issues == []
    ensures r.isValid <==>
              && SqlStandard.ValidateStructure(doc.rawDoc) && Present(doc.name)
              && LongEnough(doc.description) && Filled(doc.parameters)
              && Filled(doc.returnsDoc) && Filled(doc.examples)
    ensures SqlStructure in r.issues <==> !SqlStandard.ValidateStructure(doc.rawDoc)
    ensures SqlMissingName in r.issues <==> !Present(doc.name)
    ensures SqlMissingDescription in r.issues <==> !Present(doc.description)
    ensures TooShort in r.issues <==> Present(doc.description) && !LongEnough(doc.description)
    ensures SqlMissingParameters in r.issues <==> !Present(doc.parameters)
    ensures SqlMissingReturns in r.issues <==> !Present(doc.returnsDoc)
    ensures SqlMissingExample in r.issues <==> !Present(doc.examples)
    ensures SqlEmptyDescription in r.issues <==> Blank(doc.description)
    ensures SqlEmptyParameters in r.issues <==> Blank(doc.parameters)
    ensures SqlEmptyReturns in r.issues <==> Blank(doc.returnsDoc)
    ensures SqlEmptyExamples in r.issues <==> Blank(doc.examples)
    ensures forall m | m in r.issues :: m in SqlFieldMessages || m in SqlEmptyMessages
  {
    var issues := SqlFieldIssues(doc) + SqlEmptyIssues(doc);
    FilledIffPresentNotBlank(doc.parameters);
    FilledIffPresentNotBlank(doc.returnsDoc);
    FilledIffPresentNotBlank(doc.examples);
    LongEnoughNotBlank(doc.description);
    SqlMessagesApart();
    ValidationResult(issues == [], issues)
  }

  const SqlFieldMessages := {SqlStructure, SqlMissingName, SqlMissingDescription, TooShort,
                             SqlMissingParameters, SqlMissingReturns, SqlMissingExample}
  const SqlEmptyMessages := {SqlEmptyDescription, SqlEmptyParameters, SqlEmptyReturns, SqlEmptyExamples}

  /** No `Empty … section` message is a field message. */
  lemma SqlMessagesApart()
    ensures SqlEmptyDescription !in SqlFieldMessages && SqlEmptyParameters !in SqlFieldMessages
    ensures SqlEmptyReturns !in SqlFieldMessages && SqlEmptyExamples !in SqlFieldMessages
    ensures forall m | m in SqlEmptyMessages :: m !in SqlFieldMessages
    ensures SqlStructure !in SqlEmptyMessages && SqlMissingName !in SqlEmptyMessages
    ensures SqlMissingDescription !in SqlEmptyMessages && TooShort !in SqlEmptyMessages
    ensures SqlMissingParameters !in SqlEmptyMessages && SqlMissingReturns !in SqlEmptyMessages
    ensures SqlMissingExample !in SqlEmptyMessages
  {
    SqlMessageLengths();
  }

  /** No head message is a section message, nor the other way round. */
  lemma SqlGroupsApart()
    ensures SqlStructure !in SqlSectionMessages && SqlMissingName !in SqlSectionMessages
    ensures SqlMissingDescription !in SqlSectionMessages && TooShort !in SqlSectionMessages
    ensures SqlMissingParameters !in SqlHeadMessages && SqlMissingReturns !in SqlHeadMessages
    ensures SqlMissingExample !in SqlHeadMessages
  {
    SqlMessageLengths();
  }

  /** The SQL messages tell apart by length, except the two of length 39. */
  lemma SqlMessageLengths()
    ensures |TooShort| == 48 && |SqlStructure| == 61 && |SqlMissingName| == 41
    ensures |SqlMissingDescription| == 47 && |SqlMissingParameters| == 45
    ensures |SqlMissingReturns| == 39 && |SqlMissingExample| == 39
    ensures SqlMissingReturns[8] == 'r' && SqlMissingExample[8] == 'e'
    ensures |SqlEmptyDescription| == 25 && |SqlEmptyParameters| == 24
    ensures |SqlEmptyReturns| == 21 && |SqlEmptyExamples| == 22
  {
  }

  /** The structure check and the required fields, each adding its message
      exactly when it fails. */
  function SqlFieldIssues(doc: DocRecord): (r: seq<string>)
    ensures SqlStructure in r <==> !SqlStandard.ValidateStructure(doc.rawDoc)
    ensures SqlMissingName in r <==> !Present(doc.name)
    ensures SqlMissingDescription in r <==> !Present(doc.description)
    ensures TooShort in r <==> Present(doc.description) && !LongEnough(doc.description)
    ensures SqlMissingParameters in r <==> !Present(doc.parameters)
    ensures SqlMissingReturns in r <==> !Present(doc.returnsDoc)
    ensures SqlMissingExample in r <==> !Present(doc.examples)
    ensures forall m | m in r :: m in SqlFieldMessages
    ensures r == [] <==> SqlStandard.ValidateStructure(doc.rawDoc) && Present(doc.name)
                         && LongEnough(doc.description) && Present(doc.parameters)
                         && Present(doc.returnsDoc) && Present(doc.examples)
  {
    SqlGroupsApart();
    SqlHeadIssues(doc) + SqlSectionIssues(doc)
  }

  const SqlHeadMessages := {SqlStructure, SqlMissingName, SqlMissingDescription, TooShort}
  const SqlSectionMessages := {SqlMissingParameters, SqlMissingReturns, SqlMissingExample}

  /** The structure, name and description checks. */
  function SqlHeadIssues(doc: DocRecord): (r: seq<string>)
    ensures SqlStructure in r <==> !SqlStandard.ValidateStructure(doc.rawDoc)
    ensures SqlMissingName in r <==> !Present(doc.name)
    ensures SqlMissingDescription in r <==> !Present(doc.description)
    ensures TooShort in r <==> Present(doc.description) && !LongEnough(doc.description)
    ensures forall m | m in r :: m in SqlHeadMessages
    ensures r == [] <==> SqlStandard.ValidateStructure(doc.rawDoc) && Present(doc.name)
                         && LongEnough(doc.description)
  {
    SqlMessageLengths();
    When(!SqlStandard.ValidateStructure(doc.rawDoc), SqlStructure)
      + When(!Present(doc.name), SqlMissingName)
      + DescriptionIssues(doc.description, SqlMissingDescription)
  }

  /** The parameters, returns and example checks. */
  function SqlSectionIssues(doc: DocRecord): (r: seq<string>)
    ensures SqlMissingParameters in r <==> !Present(doc.parameters)
    ensures SqlMissingReturns in r <==> !Present(doc.returnsDoc)
    ensures SqlMissingExample in r <==> !Present(doc.examples)
    ensures forall m | m in r :: m in SqlSectionMessages
    ensures r == [] <==> Present(doc.parameters) && Present(doc.returnsDoc) && Present(doc.examples)
  {
    SqlMessageLengths();
    When(!Present(doc.parameters), SqlMissingParameters)
      + When(!Present(doc.returnsDoc), SqlMissingReturns)
      + When(!Present(doc.examples), SqlMissingExample)
  }

  /** The loop over the four fields, adding `Empty {field} section` for each
      set but blank one. */
  function SqlEmptyIssues(doc: DocRecord): (r: seq<string>)
    ensures SqlEmptyDescription in r <==> Blank(doc.description)
    ensures SqlEmptyParameters in r <==> Blank(doc.parameters)
    ensures SqlEmptyReturns in r <==> Blank(doc.returnsDoc)
    ensures SqlEmptyExamples in r <==> Blank(doc.examples)
    ensures forall m | m in r :: m in SqlEmptyMessages
    ensures r == [] <==> !Blank(doc.description) && !Blank(doc.parameters)
                         && !Blank(doc.returnsDoc) && !Blank(doc.examples)
  {
    SqlMessageLengths();
    When(Blank(doc.description), SqlEmptyDescription)
      + When(Blank(doc.parameters), SqlEmptyParameters)
      + When(Blank(doc.returnsDoc), SqlEmptyReturns)
      + When(Blank(doc.examples), SqlEmptyExamples)
  }

  /** A set but blank SQL section is reported as empty; when it is the
      empty text it is falsy too, so it is also reported as missing: one
      field, two issues. */
  lemma SqlEmptyFieldTwice(doc: DocRecord)
    requires doc.parameters.Some? && Strip(doc.parameters.value) == []
    ensures SqlEmptyParameters in ValidateSql(doc).issues
    ensures doc.parameters.value == [] ==> SqlMissingParameters in ValidateSql(doc).issues
  {
  }

  /** Set and not blank is present and not blank. */
  lemma FilledIffPresentNotBlank(v: Option<string>)
    ensures Filled(v) <==> Present(v) && !Blank(v)
  {
    if v.Some? && v.value == [] {
      assert Strip(v.value) == [];
    }
  }

  /** A long enough description is not blank. */
  lemma LongEnoughNotBlank(v: Option<string>)
    ensures LongEnough(v) ==> !Blank(v)
  {
  }

  // ---------------------------------------------------------------- Python

  const PythonStructure := "Documentation does not follow NumPy docstring standard structure"
  const PythonMissingName := "Missing function/class name"
  const PythonMissingDescription := "Missing description section"
  const PythonMissingParameters := "Missing Parameters section"
  const PythonParameterFormat := "Parameters section should follow 'param_name : type' format"
  const PythonMissingReturns := "Missing Returns section"
  const PythonEmptyReturns := "Empty Returns section"
  const PythonParametersUnderline := "Parameters section missing dashed underline (----------)"
  const PythonReturnsUnderline := "Returns section missing dashed underline (-------)"

  const PythonHeadMessages := {PythonStructure, PythonMissingName, PythonMissingDescription, TooShort}
  const PythonSectionMessages := {PythonMissingParameters, PythonParameterFormat, PythonMissingReturns, PythonEmptyReturns}
  const PythonUnderlineMessages := {PythonParametersUnderline, PythonReturnsUnderline}

  /** The Python messages tell apart by length, except the two of length 27. */
  lemma PythonMessageLengths()
    ensures |TooShort| == 48 && |PythonStructure| == 64
    ensures |PythonMissingName| == 27 && |PythonMissingDescription| == 27
    ensures PythonMissingName[8] == 'f' && PythonMissingDescription[8] == 'd'
    ensures |PythonMissingParameters| == 26 && |PythonParameterFormat| == 59
    ensures |PythonMissingReturns| == 23 && |PythonEmptyReturns| == 21
    ensures |PythonParametersUnderline| == 56 && |PythonReturnsUnderline| == 50
  {
  }

  /** Parameters in the `name : type` format, or saying `None`. */
  predicate TypedParameters(v: Option<string>) {
    Present(v) && (Contains(v.value, ":") || Contains(v.value, "None"))
  }

  /** `_validate_python`. Each message is listed exactly when its check
      fails, and no other message is. Valid exactly when the structure
      passes, the name is set, the description long enough, the parameters
      typed and the returns not blank: the two underline checks never
      decide, since the structure check already requires both underlines. */
  function ValidatePython(doc: DocRecord): (r: ValidationResult)
    ensures r.isValid <==> r.issues == []
    ensures r.isValid <==>
              && PythonStandard.ValidateStructure(doc.rawDoc) && Present(doc.name)
              && LongEnough(doc.description) && TypedParameters(doc.parameters) && Filled(doc.returnsDoc)
    ensures PythonStructure in r.issues <==> !PythonStandard.ValidateStructure(doc.rawDoc)
    ensures PythonMissingName in r.issues <==> !Present(doc.name)
    ensures PythonMissingDescription in r.issues <==> !Present(doc.description)
    ensures TooShort in r.issues <==> Present(doc.description) && !LongEnough(doc.description)
    ensures PythonMissingParameters in r.issues <==> !Present(doc.parameters)
    ensures PythonParameterFormat in r.issues <==> Present(doc.parameters) && !TypedParameters(doc.parameters)
    ensures PythonMissingReturns in r.issues <==> !Present(doc.returnsDoc)
    ensures PythonEmptyReturns in r.issues <==> Present(doc.returnsDoc) && Blank(doc.returnsDoc)
    ensures PythonParametersUnderline in r.issues <==>
              Contains(doc.rawDoc, "Parameters") && !Contains(doc.rawDoc, "----------")
    ensures PythonReturnsUnderline in r.issues <==>
              Contains(doc.rawDoc, "Returns") && !Contains(doc.rawDoc, "-------")
    ensures forall m | m in r.issues ::
              m in PythonHeadMessages || m in PythonSectionMessages || m in PythonUnderlineMessages
  {
    var raw := doc.rawDoc;
    var issues := PythonFieldIssues(doc) + PythonUnderlineIssues(raw);
    FilledIffPresentNotBlank(doc.returnsDoc);
    UnderlinesRequired(raw);
    PythonUnderlinesApart();
    ValidationResult(issues == [], issues)
  }

  /** No underline message is a field message, nor the other way round. */
  lemma PythonUnderlinesApart()
    ensures PythonParametersUnderline !in PythonHeadMessages && PythonParametersUnderline !in PythonSectionMessages
    ensures PythonReturnsUnderline !in PythonHeadMessages && PythonReturnsUnderline !in PythonSectionMessages
    ensures forall m | m in PythonUnderlineMessages :: m !in PythonHeadMessages && m !in PythonSectionMessages
    ensures PythonStructure !in PythonUnderlineMessages && PythonMissingName !in PythonUnderlineMessages
    ensures PythonMissingDescription !in PythonUnderlineMessages && TooShort !in PythonUnderlineMessages
    ensures PythonMissingParameters !in PythonUnderlineMessages && PythonParameterFormat !in PythonUnderlineMessages
    ensures PythonMissingReturns !in PythonUnderlineMessages && PythonEmptyReturns !in PythonUnderlineMessages
  {
    PythonMessageLengths();
  }

  /** No head message is a section message, nor the other way round. */
  lemma PythonGroupsApart()
    ensures PythonStructure !in PythonSectionMessages && PythonMissingName !in PythonSectionMessages
    ensures PythonMissingDescription !in PythonSectionMessages && TooShort !in PythonSectionMessages
    ensures PythonMissingParameters !in PythonHeadMessages && PythonParameterFormat !in PythonHeadMessages
    ensures PythonMissingReturns !in PythonHeadMessages && PythonEmptyReturns !in PythonHeadMessages
  {
    PythonMessageLengths();
  }

  /** The structure, name, description, parameters and returns checks. */
  function PythonFieldIssues(doc: DocRecord): (r: seq<string>)
    ensures PythonStructure in r <==> !PythonStandard.ValidateStructure(doc.rawDoc)
    ensures PythonMissingName in r <==> !Present(doc.name)
    ensures PythonMissingDescription in r <==> !Present(doc.description)
    ensures TooShort in r <==> Present(doc.description) && !LongEnough(doc.description)
    ensures PythonMissingParameters in r <==> !Present(doc.parameters)
    ensures PythonParameterFormat in r <==> Present(doc.parameters) && !TypedParameters(doc.parameters)
    ensures PythonMissingReturns in r <==> !Present(doc.returnsDoc)
    ensures PythonEmptyReturns in r <==> Present(doc.returnsDoc) && Blank(doc.returnsDoc)
    ensures forall m | m in r :: m in PythonHeadMessages || m in PythonSectionMessages
    ensures r == [] <==> PythonStandard.ValidateStructure(doc.rawDoc) && Present(doc.name)
                         && LongEnough(doc.description) && TypedParameters(doc.parameters)
                         && Present(doc.returnsDoc) && !Blank(doc.returnsDoc)
  {
    PythonGroupsApart();
    PythonHeadIssues(doc) + PythonSectionIssues(doc)
  }

  /** The structure, name and description checks. */
  function PythonHeadIssues(doc: DocRecord): (r: seq<string>)
    ensures PythonStructure in r <==> !PythonStandard.ValidateStructure(doc.rawDoc)
    ensures PythonMissingName in r <==> !Present(doc.name)
    ensures PythonMissingDescription in r <==> !Present(doc.description)
    ensures TooShort in r <==> Present(doc.description) && !LongEnough(doc.description)
    ensures forall m | m in r :: m in PythonHeadMessages
    ensures r == [] <==> PythonStandard.ValidateStructure(doc.rawDoc) && Present(doc.name)
                         && LongEnough(doc.description)
  {
    PythonMessageLengths();
    When(!PythonStandard.ValidateStructure(doc.rawDoc), PythonStructure)
      + When(!Present(doc.name), PythonMissingName)
      + DescriptionIssues(doc.description, PythonMissingDescription)
  }

  /** The parameters check (missing, else untyped) and the returns check
      (missing, else blank). */
  function PythonSectionIssues(doc: DocRecord): (r: seq<string>)
    ensures PythonMissingParameters in r <==> !Present(doc.parameters)
    ensures PythonParameterFormat in r <==> Present(doc.parameters) && !TypedParameters(doc.parameters)
    ensures PythonMissingReturns in r <==> !Present(doc.returnsDoc)
    ensures PythonEmptyReturns in r <==> Present(doc.returnsDoc) && Blank(doc.returnsDoc)
    ensures forall m | m in r :: m in PythonSectionMessages
    ensures r == [] <==> TypedParameters(doc.parameters) && Present(doc.returnsDoc) && !Blank(doc.returnsDoc)
  {
    PythonMessageLengths();
    (if !Present(doc.parameters) then [PythonMissingParameters]
     else When(!Contains(doc.parameters.value, ":") && !Contains(doc.parameters.value, "None"), PythonParameterFormat))
      + (if !Present(doc.returnsDoc) then [PythonMissingReturns]
         else When(Strip(doc.returnsDoc.value) == [], PythonEmptyReturns))
  }

  /** The two underline checks on the raw docstring. */
  function PythonUnderlineIssues(raw: string): (r: seq<string>)
    ensures PythonParametersUnderline in r <==> Contains(raw, "Parameters") && !Contains(raw, "----------")
    ensures PythonReturnsUnderline in r <==> Contains(raw, "Returns") && !Contains(raw, "-------")
    ensures forall m | m in r :: m in PythonUnderlineMessages
    ensures r == [] <==> !(Contains(raw, "Parameters") && !Contains(raw, "----------"))
                         && !(Contains(raw, "Returns") && !Contains(raw, "-------"))
  {
    PythonMessageLengths();
    When(Contains(raw, "Parameters") && !Contains(raw, "----------"), PythonParametersUnderline)
      + When(Contains(raw, "Returns") && !Contains(raw, "-------"), PythonReturnsUnderline)
  }

  /** A docstring that passes the structure check has both underlines. */
  lemma UnderlinesRequired(raw: string)
    ensures PythonStandard.ValidateStructure(raw) ==> Contains(raw, "----------") && Contains(raw, "-------")
  {
    assert PythonStandard.RequiredSections[1] == "----------";
    assert PythonStandard.RequiredSections[3] == "-------";
  }

  // ---------------------------------------------------------------- R

  const RStructure := "Documentation does not follow Roxygen2 standard structure"
  const RMissingName := "Missing function name (could not extract from code)"
  const RMissingDescription := "Missing description section"
  const RMissingParams := "Missing @param tags"
  const RParamFormat := "Parameters should use @param tag format"
  const RMissingReturn := "Missing @return tag"
  const REmptyReturn := "Empty @return section"

  const RHeadMessages := {RStructure, RMissingName, RMissingDescription, TooShort}
  const RSectionMessages := {RMissingParams, RParamFormat, RMissingReturn, REmptyReturn}

  /** The fixed R messages tell apart by length, except the two of length
      19, and none ends with the `r` of a `Line i` message. */
  lemma RMessageLengths()
    ensures |TooShort| == 48 && |RStructure| == 57 && |RMissingName| == 51
    ensures |RMissingDescription| == 27 && |RParamFormat| == 39 && |REmptyReturn| == 21
    ensures |RMissingParams| == 19 && |RMissingReturn| == 19
    ensures RMissingParams[9] == 'p' && RMissingReturn[9] == 'r'
    ensures TooShort[47] == ')' && RStructure[56] == 'e' && RMissingName[50] == ')'
    ensures RMissingDescription[26] == 'n' && RMissingParams[18] == 's' && RParamFormat[38] == 't'
    ensures RMissingReturn[18] == 'g' && REmptyReturn[20] == 'n'
  {
  }

  const UnmarkedTail := " does not start with #' marker"

  /** The message for line `n` (numbered from 1). */
  function UnmarkedLine(n: nat): (r: string)
    ensures |r| > 0 && r[|r| - 1] == 'r'
  {
    "Line " + DecimalString(n) + UnmarkedTail
  }

  /** Different lines give different messages. */
  lemma UnmarkedLineInjective()
    ensures forall a: nat, b: nat :: UnmarkedLine(a) == UnmarkedLine(b) ==> a == b
  {
    forall a: nat, b: nat | UnmarkedLine(a) == UnmarkedLine(b) ensures a == b {
      var s, t := DecimalString(a), DecimalString(b);
      assert |s| == |t| by {
        assert |UnmarkedLine(a)| == 5 + |s| + |UnmarkedTail|;
        assert |UnmarkedLine(b)| == 5 + |t| + |UnmarkedTail|;
      }
      assert UnmarkedLine(a)[5..5 + |s|] == s;
      assert UnmarkedLine(b)[5..5 + |t|] == t;
      DecimalStringInjective(a, b);
    }
  }

  /** No fixed R message ends like a `Line i` message, so none is one. */
  lemma UnmarkedLineApart()
    ensures forall m | m in RHeadMessages || m in RSectionMessages :: |m| > 0 && m[|m| - 1] != 'r'
  {
    RMessageLengths();
  }

  /** Index of the first non-blank line from `i` on that does not open with
      the marker, if any. */
  function FirstUnmarked(lines: seq<string>, i: nat): (r: Option<nat>)
    requires i <= |lines|
    ensures r.None? <==> forall k :: i <= k < |lines| ==> RStandard.LineMarked(lines[k])
    ensures r.Some? ==> i <= r.value < |lines| && !RStandard.LineMarked(lines[r.value])
                        && forall k :: i <= k < r.value ==> RStandard.LineMarked(lines[k])
    decreases |lines| - i
  {
    if i == |lines| then None
    else if !RStandard.LineMarked(lines[i]) then Some(i)
    else FirstUnmarked(lines, i + 1)
  }

  /** Parameters that carry the `@param` tag. */
  predicate TaggedParameters(v: Option<string>) {
    Present(v) && Contains(v.value, "@param")
  }

  /** `_validate_r`. Each message is listed exactly when its check fails,
      `Line i` only for the first unmarked line `i`, and no other message
      is. Valid exactly when the structure passes, the name is set, the
      description long enough, the parameters tagged and the return not
      blank: the line check never decides, since the structure check
      already requires every non-blank line to be marked. */
  function ValidateR(doc: DocRecord): (r: ValidationResult)
    ensures r.isValid <==> r.issues == []
    ensures r.isValid <==>
              && RStandard.ValidateStructure(doc.rawDoc) && Present(doc.name)
              && LongEnough(doc.description) && TaggedParameters(doc.parameters) && Filled(doc.returnsDoc)
    ensures FirstUnmarked(Split(doc.rawDoc), 0).Some? ==>
              UnmarkedLine(FirstUnmarked(Split(doc.rawDoc), 0).value + 1) in r.issues
              && !RStandard.ValidateStructure(doc.rawDoc)
    ensures RStructure in r.issues <==> !RStandard.ValidateStructure(doc.rawDoc)
    ensures RMissingName in r.issues <==> !Present(doc.name)
    ensures RMissingDescription in r.issues <==> !Present(doc.description)
    ensures TooShort in r.issues <==> Present(doc.description) && !LongEnough(doc.description)
    ensures RMissingParams in r.issues <==> !Present(doc.parameters)
    ensures RParamFormat in r.issues <==> Present(doc.parameters) && !TaggedParameters(doc.parameters)
    ensures RMissingReturn in r.issues <==> !Present(doc.returnsDoc)
    ensures REmptyReturn in r.issues <==> Present(doc.returnsDoc) && Blank(doc.returnsDoc)
    ensures forall n: nat :: UnmarkedLine(n) in r.issues <==>
              n >= 1 && FirstUnmarked(Split(doc.rawDoc), 0) == Some(n - 1)
    ensures forall m | m in r.issues ::
              || m in RHeadMessages || m in RSectionMessages
              || (FirstUnmarked(Split(doc.rawDoc), 0).Some?
                  && m == UnmarkedLine(FirstUnmarked(Split(doc.rawDoc), 0).value + 1))
  {
    var issues := RIssues(doc);
    FilledIffPresentNotBlank(doc.returnsDoc);
    ValidationResult(issues == [], issues)
  }

  /** The field checks, then the line check. */
  function RIssues(doc: DocRecord): (r: seq<string>)
    ensures RStructure in r <==> !RStandard.ValidateStructure(doc.rawDoc)
    ensures RMissingName in r <==> !Present(doc.name)
    ensures RMissingDescription in r <==> !Present(doc.description)
    ensures TooShort in r <==> Present(doc.description) && !LongEnough(doc.description)
    ensures RMissingParams in r <==> !Present(doc.parameters)
    ensures RParamFormat in r <==> Present(doc.parameters) && !TaggedParameters(doc.parameters)
    ensures RMissingReturn in r <==> !Present(doc.returnsDoc)
    ensures REmptyReturn in r <==> Present(doc.returnsDoc) && Blank(doc.returnsDoc)
    ensures forall n: nat :: UnmarkedLine(n) in r <==>
              n >= 1 && FirstUnmarked(Split(doc.rawDoc), 0) == Some(n - 1)
    ensures r == [] <==> RFieldIssues(doc) == [] && FirstUnmarked(Split(doc.rawDoc), 0).None?
    ensures FirstUnmarked(Split(doc.rawDoc), 0).Some? ==> !RStandard.ValidateStructure(doc.rawDoc)
  {
    UnmarkedLineApart();
    RFieldIssues(doc) + RLineIssues(doc.rawDoc)
  }

  /** No head message is a section message, nor the other way round. */
  lemma RGroupsApart()
    ensures RStructure !in RSectionMessages && RMissingName !in RSectionMessages
    ensures RMissingDescription !in RSectionMessages && TooShort !in RSectionMessages
    ensures RMissingParams !in RHeadMessages && RParamFormat !in RHeadMessages
    ensures RMissingReturn !in RHeadMessages && REmptyReturn !in RHeadMessages
  {
    RMessageLengths();
  }

  /** The structure, name, description, `@param` and `@return` checks. */
  function RFieldIssues(doc: DocRecord): (r: seq<string>)
    ensures RStructure in r <==> !RStandard.ValidateStructure(doc.rawDoc)
    ensures RMissingName in r <==> !Present(doc.name)
    ensures RMissingDescription in r <==> !Present(doc.description)
    ensures TooShort in r <==> Present(doc.description) && !LongEnough(doc.description)
    ensures RMissingParams in r <==> !Present(doc.parameters)
    ensures RParamFormat in r <==> Present(doc.parameters) && !TaggedParameters(doc.parameters)
    ensures RMissingReturn in r <==> !Present(doc.returnsDoc)
    ensures REmptyReturn in r <==> Present(doc.returnsDoc) && Blank(doc.returnsDoc)
    ensures forall m | m in r :: m in RHeadMessages || m in RSectionMessages
    ensures r == [] <==> RStandard.ValidateStructure(doc.rawDoc) && Present(doc.name)
                         && LongEnough(doc.description) && TaggedParameters(doc.parameters)
                         && Present(doc.returnsDoc) && !Blank(doc.returnsDoc)
  {
    RGroupsApart();
    RHeadIssues(doc) + RSectionIssues(doc)
  }

  /** The structure, name and description checks. */
  function RHeadIssues(doc: DocRecord): (r: seq<string>)
    ensures RStructure in r <==> !RStandard.ValidateStructure(doc.rawDoc)
    ensures RMissingName in r <==> !Present(doc.name)
    ensures RMissingDescription in r <==> !Present(doc.description)
    ensures TooShort in r <==> Present(doc.description) && !LongEnough(doc.description)
    ensures forall m | m in r :: m in RHeadMessages
    ensures r == [] <==> RStandard.ValidateStructure(doc.rawDoc) && Present(doc.name)
                         && LongEnough(doc.description)
  {
    RMessageLengths();
    When(!RStandard.ValidateStructure(doc.rawDoc), RStructure)
      + When(!Present(doc.name), RMissingName)
      + DescriptionIssues(doc.description, RMissingDescription)
  }

  /** The `@param` check (missing, else untagged) and the `@return` check
      (missing, else blank). */
  function RSectionIssues(doc: DocRecord): (r: seq<string>)
    ensures RMissingParams in r <==> !Present(doc.parameters)
    ensures RParamFormat in r <==> Present(doc.parameters) && !TaggedParameters(doc.parameters)
    ensures RMissingReturn in r <==> !Present(doc.returnsDoc)
    ensures REmptyReturn in r <==> Present(doc.returnsDoc) && Blank(doc.returnsDoc)
    ensures forall m | m in r :: m in RSectionMessages
    ensures r == [] <==> TaggedParameters(doc.parameters) && Present(doc.returnsDoc) && !Blank(doc.returnsDoc)
  {
    RMessageLengths();
    (if !Present(doc.parameters) then [RMissingParams]
     else When(!Contains(doc.parameters.value, "@param"), RParamFormat))
      + (if !Present(doc.returnsDoc) then [RMissingReturn]
         else When(Strip(doc.returnsDoc.value) == [], REmptyReturn))
  }

  /** The line check, which stops at the first unmarked line: `Line i` for
      that line alone, numbered from 1. */
  function RLineIssues(raw: string): (r: seq<string>)
    ensures r == [] <==> FirstUnmarked(Split(raw), 0).None?
    ensures forall n: nat :: UnmarkedLine(n) in r <==> n >= 1 && FirstUnmarked(Split(raw), 0) == Some(n - 1)
    ensures forall m | m in r :: FirstUnmarked(Split(raw), 0).Some?
                                 && m == UnmarkedLine(FirstUnmarked(Split(raw), 0).value + 1)
    ensures r != [] ==> !RStandard.ValidateStructure(raw)
  {
    UnmarkedLineInjective();
    var first := FirstUnmarked(Split(raw), 0);
    if first.Some? then [UnmarkedLine(first.value + 1)] else []
  }

  // ---------------------------------------------------------------- dispatch

  const NoDocumentation := "No documentation found"

  /** `DocValidator.validate`: no documentation and an unsupported suffix are
      invalid with one issue; otherwise the language's validator decides. */
  function Validate(suffix: string, doc: Option<DocRecord>): (r: ValidationResult)
    ensures r.isValid <==> r.issues == []
    ensures doc.None? ==> r == ValidationResult(false, [NoDocumentation])
    ensures doc.Some? && LanguageOf(suffix).None? ==> r == ValidationResult(false, [UnsupportedMessage(suffix)])
    ensures doc.Some? && LanguageOf(suffix) == Some(Sql) ==> r == ValidateSql(doc.value)
    ensures doc.Some? && LanguageOf(suffix) == Some(Python) ==> r == ValidatePython(doc.value)
    ensures doc.Some? && LanguageOf(suffix) == Some(R) ==> r == ValidateR(doc.value)
    ensures r.isValid ==> doc.Some? && LanguageOf(suffix).Some? && Present(doc.value.name)
                          && LongEnough(doc.value.description) && Filled(doc.value.returnsDoc)
  {
    match doc
    case None => ValidationResult(false, [NoDocumentation])
    case Some(d) =>
      match LanguageOf(suffix)
      case None => ValidationResult(false, [UnsupportedMessage(suffix)])
      case Some(Sql) => ValidateSql(d)
      case Some(Python) => ValidatePython(d)
      case Some(R) => ValidateR(d)
  }

  // ------------------------------------------ documentation in the standards

  /** A line of a block contributes its pieces, lower-cased, to the block. */
  lemma LineInBlock(block: seq<string>, k: nat, h: string)
    requires k < |block| && StartsWith(block[k], h)
    ensures Contains(Lower(Join(block)), Lower(h))
  {
    StartsWithContains(block[k], h);
    ContainsLineJoined(block, k, h);
    ContainsLower(Join(block), h);
  }

  /** A block in the SQL format passes the structure check. */
  lemma SqlFormatStructure(name: string, d: seq<string>, p: seq<string>, r: seq<string>, e: seq<string>)
    ensures SqlStandard.ValidateStructure(Join(RenderSql(name, d, p, r, e)))
  {
    var block := RenderSql(name, d, p, r, e);
    var hs := SqlStandard.RequiredHeaders;
    var a := 1 + |d|;
    var b := a + 1 + |p|;
    var c := b + 1 + |r|;
    assert block[0] == "-- # " + name;
    assert block[0][..4] == "-- #";
    LineInBlock(block, 0, hs[0]);
    assert block[1] == hs[1];
    LineInBlock(block, 1, hs[1]);
    assert block[a + 1] == hs[2];
    LineInBlock(block, a + 1, hs[2]);
    assert block[b + 1] == hs[3];
    LineInBlock(block, b + 1, hs[3]);
    assert block[c + 1] == hs[4];
    LineInBlock(block, c + 1, hs[4]);
  }

  /** What a stored section reads as, stripped again: itself. */
  lemma BodyStripped(xs: seq<string>)
    ensures Strip(Body(xs)) == Body(xs)
  {
    StripIdempotent(Join(xs));
  }

  /** A SQL block written in the format validates exactly when its name is
      not empty, its description has at least ten characters and its other
      three sections are not blank. */
  lemma SqlFormatValid(name: string, d: seq<string>, p: seq<string>, r: seq<string>, e: seq<string>)
    requires Trimmed(name) && (name == [] || name[0] != '#')
    requires forall k :: 0 <= k < |d| ==> PlainSqlText(d[k])
    requires forall k :: 0 <= k < |p| ==> PlainSqlText(p[k])
    requires forall k :: 0 <= k < |r| ==> PlainSqlText(r[k])
    requires forall k :: 0 <= k < |e| ==> PlainSqlText(e[k])
    ensures ValidateSql(ParseSqlBlock(RenderSql(name, d, p, r, e))).isValid <==>
              name != [] && |Body(d)| >= MinDescription && Body(p) != [] && Body(r) != [] && Body(e) != []
  {
    SqlRoundTrip(name, d, p, r, e);
    SqlFormatStructure(name, d, p, r, e);
    BodyStripped(d);
    BodyStripped(p);
    BodyStripped(r);
    BodyStripped(e);
    if e == [] {
      assert Body(e) == [];
    }
  }

  /** The lines of a marked block all carry the marker. */
  lemma MarkedBlockLines(texts: seq<string>)
    requires forall k :: 0 <= k < |texts| ==> OneLine(texts[k])
    ensures forall k :: 0 <= k < |Marked(texts)| ==> NoNewline(Marked(texts)[k])
    ensures RStandard.AllLinesMarked(Marked(texts))
  {
    var block := Marked(texts);
    forall k | 0 <= k < |block| ensures NoNewline(block[k]) && RStandard.LineMarked(block[k]) {
      assert NoNewline(texts[k]);
      MarkedLine("#'", texts[k]);
      assert block[k] == "#'" + " " + texts[k];
    }
  }

  /** Joined lines open with the first line. */
  lemma JoinStartsWith(lines: seq<string>, p: string)
    requires |lines| >= 1 && StartsWith(lines[0], p)
    ensures StartsWith(Join(lines), p)
  {
  }

  /** A Roxygen block in the template's layout passes the structure check
      when it has at least one parameter. */
  lemma RFormatStructure(d: seq<string>, ps: seq<string>, r: string, e: seq<string>)
    requires forall k :: 0 <= k < |d| ==> RPlain(d[k])
    requires forall k :: 0 <= k < |e| ==> RPlain(e[k])
    requires forall k :: 0 <= k < |ps| ==> OneLine(ps[k]) && ps[k] != []
    requires OneLine(r) && r != [] && ps != []
    ensures RStandard.ValidateStructure(Join(RenderR(d, ps, r, e)))
  {
    var texts := RDocTexts(d, ps, r, e);
    RTextsShape(d, ps, r, e);
    var a := |d|;
    var b := a + |ps|;
    assert texts[a] == "@param " + ps[0];
    assert texts[a][..6] == "@param";
    assert texts[b] == "@return " + r;
    assert texts[b][..7] == "@return";
    MarkedStructure(texts, a, b);
  }

  /** A marked block with an `@param` text and an `@return` text passes the
      structure check. */
  lemma MarkedStructure(texts: seq<string>, a: nat, b: nat)
    requires forall k :: 0 <= k < |texts| ==> OneLine(texts[k])
    requires a < |texts| && StartsWith(texts[a], "@param")
    requires b < |texts| && StartsWith(texts[b], "@return")
    ensures RStandard.ValidateStructure(Join(Marked(texts)))
  {
    MarkedBlockLines(texts);
    SplitJoin(Marked(texts));
    MarkedTag(texts, a, "@param");
    MarkedTag(texts, b, "@return");
  }

  /** A marked block holds the marker and any tag one of its texts starts
      with. */
  lemma MarkedTag(texts: seq<string>, a: nat, tag: string)
    requires a < |texts| && StartsWith(texts[a], tag)
    ensures Contains(Join(Marked(texts)), tag) && Contains(Join(Marked(texts)), "#'")
  {
    var block := Marked(texts);
    assert block[a] == "#' " + texts[a];
    assert block[a][3..3 + |tag|] == tag;
    ContainsAt(block[a], tag, 3);
    ContainsLineJoined(block, a, tag);
    assert block[a][..2] == "#'";
    StartsWithContains(block[a], "#'");
    ContainsLineJoined(block, a, "#'");
  }

  /** A Roxygen block in the template's layout validates exactly when it
      has at least one parameter and a description of at least ten
      characters. */
  lemma RFormatValid(name: string, d: seq<string>, ps: seq<string>, r: string, e: seq<string>, rule: HeaderRule)
    requires forall k :: 0 <= k < |d| ==> RPlain(d[k])
    requires forall k :: 0 <= k < |e| ==> RPlain(e[k])
    requires forall k :: 0 <= k < |ps| ==> OneLine(ps[k]) && ps[k] != []
    requires OneLine(r) && r != [] && name != []
    ensures ValidateR(ParseRBlock(RenderR(d, ps, r, e), Some(name), rule)).isValid <==>
              ps != [] && |Body(d)| >= MinDescription
  {
    RRenderedBlock(Some(name), d, ps, r, e, rule);
    BodyStripped(d);
    StripUnchanged(r);
    if d == [] {
      assert Body(d) == [];
    }
    if ps != [] {
      RFormatStructure(d, ps, r, e);
      ParamTagged(ps);
    }
  }

  /** The parameters section of a block with parameters mentions `@param`. */
  lemma ParamTagged(ps: seq<string>)
    requires ps != []
    ensures Contains(Body(Tagged(ps)), "@param")
  {
    var tags := Tagged(ps);
    assert tags[0] == "@param " + ps[0];
    assert tags[0][..6] == "@param";
    JoinStartsWith(tags, "@param");
    StartsWithStrip(Join(tags), "@param");
    StartsWithContains(Body(tags), "@param");
  }

  /** No line holds a newline. */
  predicate NewlineFree(xs: seq<string>) {
    forall k :: 0 <= k < |xs| ==> NoNewline(xs[k])
  }

  /** The lines of a canonical layout hold no newline when its parts hold
      none. */
  lemma CanonicalNewlineFree(lines: seq<string>, d: seq<string>, p: seq<string>, r: seq<string>, e: seq<string>)
    requires CanonicalLayout(lines, d, p, r, e)
    requires NewlineFree(d) && NewlineFree(p) && NewlineFree(r) && NewlineFree(e)
    ensures NewlineFree(lines)
  {
    var a := |d|;
    var b := a + 2 + |p|;
    var c := b + 2 + |r|;
    HeadersNewlineFree();
    NewlineFreeSlice(lines, 0, a, d);
    NewlineFreeSlice(lines, a + 2, b, p);
    NewlineFreeSlice(lines, b + 2, c, r);
    NewlineFreeSlice(lines, c + 2, |lines|, e);
  }

  /** The header lines and their underlines hold no newline. */
  lemma HeadersNewlineFree()
    ensures NoNewline("Parameters") && NoNewline("----------")
    ensures NoNewline("Returns") && NoNewline("-------")
    ensures NoNewline("Examples") && NoNewline("--------")
  {
  }

  /** The lines from `i` to `j` hold no newline when they are a section
      that holds none. */
  lemma NewlineFreeSlice(lines: seq<string>, i: nat, j: nat, xs: seq<string>)
    requires i <= j <= |lines| && lines[i..j] == xs && NewlineFree(xs)
    ensures forall k :: i <= k < j ==> NoNewline(lines[k])
  {
    forall k | i <= k < j ensures NoNewline(lines[k]) {
      assert lines[k] == xs[k - i];
    }
  }

  /** A docstring whose lines are in the canonical layout, between triple
      quotes, passes the structure check. */
  lemma CanonicalStructure(lines: seq<string>, d: seq<string>, p: seq<string>, r: seq<string>, e: seq<string>)
    requires CanonicalLayout(lines, d, p, r, e)
    ensures PythonStandard.ValidateStructure("\"\"\"\n" + Join(lines) + "\n\"\"\"")
  {
    var a := |d|;
    var b := a + 2 + |p|;
    HeaderInDocstring(lines, a, "Parameters");
    HeaderInDocstring(lines, a + 1, "----------");
    HeaderInDocstring(lines, b, "Returns");
    PythonStandard.OpeningQuotesSuffice("\n" + Join(lines) + "\n\"\"\"");
    QuotedDocstring(Join(lines));
  }

  /** The docstring between triple quotes is the opening quotes followed by
      the rest. */
  lemma QuotedDocstring(s: string)
    ensures PythonStandard.TripleDouble + ("\n" + s + "\n\"\"\"") == "\"\"\"\n" + s + "\n\"\"\""
  {
    assert PythonStandard.TripleDouble == "\"\"\"";
  }

  /** A line starting with `w` puts `w` in the text between the quotes. */
  lemma HeaderInDocstring(lines: seq<string>, k: nat, w: string)
    requires k < |lines| && StartsWith(lines[k], w)
    ensures Contains("\n" + Join(lines) + "\n\"\"\"", w)
  {
    var doc := Join(lines);
    StartsWithContains(lines[k], w);
    ContainsLineJoined(lines, k, w);
    assert "\n" + doc + "\n\"\"\"" == "\n" + (doc + "\n\"\"\"");
    ContainsAppend(doc, "\n\"\"\"", w);
    ContainsAppend(doc + "\n\"\"\"", "\n", w);
  }

  /** A docstring in the canonical NumPy layout validates exactly when the
      name is not empty, the description has at least ten characters, the
      parameters hold a `:` or `None` and the returns are not blank. */
  lemma PythonFormatValid(name: string, d: seq<string>, p: seq<string>, r: seq<string>, e: seq<string>, rule: HeaderRule)
    requires NoHeaders(d) && NoHeaders(p) && NoHeaders(r) && NoHeaders(e)
    requires NewlineFree(d) && NewlineFree(p) && NewlineFree(r) && NewlineFree(e)
    ensures ValidatePython(ParseNumpy(name, Join(RenderNumpy(d, p, r, e)), rule)).isValid <==>
              && name != [] && |Body(d)| >= MinDescription
              && (Contains(Body(p), ":") || Contains(Body(p), "None")) && Body(r) != []
  {
    PythonFormatFields(name, d, p, r, e, rule);
  }

  /** The record read back from a canonical NumPy docstring, check by check. */
  lemma PythonFormatFields(name: string, d: seq<string>, p: seq<string>, r: seq<string>, e: seq<string>, rule: HeaderRule)
    requires NoHeaders(d) && NoHeaders(p) && NoHeaders(r) && NoHeaders(e)
    requires NewlineFree(d) && NewlineFree(p) && NewlineFree(r) && NewlineFree(e)
    ensures var doc := ParseNumpy(name, Join(RenderNumpy(d, p, r, e)), rule);
            && PythonStandard.ValidateStructure(doc.rawDoc)
            && (Present(doc.name) <==> name != [])
            && (LongEnough(doc.description) <==> |Body(d)| >= MinDescription)
            && (TypedParameters(doc.parameters) <==> Contains(Body(p), ":") || Contains(Body(p), "None"))
            && (Filled(doc.returnsDoc) <==> Body(r) != [])
  {
    var lines := RenderNumpy(d, p, r, e);
    var raw := "\"\"\"\n" + Join(lines) + "\n\"\"\"";
    RenderNumpyShape(d, p, r, e);
    CanonicalNewlineFree(lines, d, p, r, e);
    SplitJoin(lines);
    NumpyCanonical(name, raw, d, p, r, e, rule);
    CanonicalStructure(lines, d, p, r, e);
    BodyStripped(d);
    BodyStripped(r);
    if d == [] {
      assert Body(d) == [];
    }
    if p == [] {
      assert Body(p) == [];
    }
    if r == [] {
      assert Body(r) == [];
    }
  }
}
