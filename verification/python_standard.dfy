/** The NumPy docstring standard: a structure check on the raw docstring. */
module PythonStandard {
  import opened Text

  /** The pieces a NumPy docstring must contain, case-sensitively. */
  const RequiredSections: seq<string> := ["Parameters", "----------", "Returns", "-------"]

  const TripleDouble: string := "\"\"\""
  const TripleSingle: string := "'''"

  /** `PythonStandard.validate_structure`: an empty docstring is rejected;
      the stripped text must open with triple quotes; every required
      section marker must occur somewhere. */
  function ValidateStructure(doc: string): (ok: bool)
    ensures ok <==> && doc != []
                    && (StartsWith(Strip(doc), TripleDouble) || StartsWith(Strip(doc), TripleSingle))
                    && forall k :: 0 <= k < |RequiredSections| ==> Contains(doc, RequiredSections[k])
  {
    if doc == [] then false
    else if !(StartsWith(Strip(doc), TripleDouble) || StartsWith(Strip(doc), TripleSingle)) then false
    else ContainsAll(doc, RequiredSections)
  }

  /** The `-------` requirement adds nothing beside `----------`. */
  lemma ShortUnderlineImplied(doc: string)
    requires Contains(doc, "----------")
    ensures Contains(doc, "-------")
  {
    assert "----------"[..7] == "-------";
    StartsWithContains("----------", "-------");
    ContainsTrans(doc, "----------", "-------");
  }

  /** Neither section order nor a closing quote is checked: opening triple
      quotes followed by any text carrying the markers pass. */
  lemma OpeningQuotesSuffice(body: string)
    requires Contains(body, "Parameters") && Contains(body, "----------") && Contains(body, "Returns")
    ensures ValidateStructure(TripleDouble + body)
  {
    var doc := TripleDouble + body;
    assert doc[0] == '"' && doc[1] == '"' && doc[2] == '"';
    assert LStrip(doc) == doc;
    var r := RStrip(doc);
    RStripSpec(doc);
    assert !IsSpace(doc[2]);
    assert |r| >= 3;
    assert r[..3] == doc[..3] == TripleDouble;
    assert Strip(doc) == r;
    ShortUnderlineImplied(body);
    forall k | 0 <= k < |RequiredSections| ensures Contains(doc, RequiredSections[k]) {
      ContainsAppend(body, TripleDouble, RequiredSections[k]);
    }
  }
}
