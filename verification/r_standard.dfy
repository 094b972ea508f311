/** The Roxygen2 documentation standard: a structure check on the raw
    comment block. */
module RStandard {
  import opened Text

  const Marker: string := "#'"

  /** The tags a Roxygen2 block must contain. */
  const RequiredTags: seq<string> := [Marker, "@param", "@return"]

  /** A line passes when it is blank or its stripped form opens with `#'`. */
  predicate LineMarked(line: string) {
    Strip(line) == [] || StartsWith(Strip(line), Marker)
  }

  /** The line loop: the first unmarked line fails the whole block. */
  function AllLinesMarked(lines: seq<string>): (ok: bool)
    ensures ok <==> forall k :: 0 <= k < |lines| ==> LineMarked(lines[k])
    decreases |lines|
  {
    if |lines| == 0 then true
    else if !LineMarked(lines[0]) then false
    else AllLinesMarked(lines[1..])
  }

  /** `RStandard.validate_structure`: an empty block is rejected; every tag
      must occur; every non-blank line must carry the marker (the line loop's
      own contract spells that out line by line). */
  function ValidateStructure(doc: string): (ok: bool)
    ensures ok <==> && doc != []
                    && Contains(doc, Marker) && Contains(doc, "@param") && Contains(doc, "@return")
                    && AllLinesMarked(Split(doc))
  {
    assert RequiredTags[0] == Marker && RequiredTags[1] == "@param" && RequiredTags[2] == "@return";
    if doc == [] then false
    else if !ContainsAll(doc, RequiredTags) then false
    else AllLinesMarked(Split(doc))
  }

  /** Once every non-blank line carries the marker, the line holding `@param`
      carries it too, so the separate `#'` requirement never decides. */
  lemma MarkerRequirementRedundant(doc: string)
    requires Contains(doc, "@param")
    requires forall k :: 0 <= k < |Split(doc)| ==> LineMarked(Split(doc)[k])
    ensures Contains(doc, Marker)
  {
    var lines := Split(doc);
    JoinSplit(doc);
    assert Contains(Join(lines), "@param");
    var k := ContainsJoinedLine(lines, "@param");
    var line := lines[k];
    NonBlankWhenContains(line, "@param");
    assert LineMarked(line);
    StartsWithContains(Strip(line), Marker);
    ContainsOfStrip(line, Marker);
    ContainsLineJoined(lines, k, Marker);
  }

  /** A line holding a piece that opens with a visible character is not blank. */
  lemma NonBlankWhenContains(line: string, p: string)
    requires |p| > 0 && !IsSpace(p[0]) && Contains(line, p)
    ensures Strip(line) != []
  {
    var i := ContainsIndex(line, p);
    StripSpec(line);
    assert line[i] == line[i..i + |p|][0] == p[0];
  }
}
