/** The SQL markdown documentation standard: a structure check on the raw
    comment block. */
module SqlStandard {
  import opened Text

  /** The headers a SQL documentation block must carry, in the order they are
      checked. */
  const RequiredHeaders: seq<string> :=
    ["-- #", "-- ## Description", "-- ## Parameters", "-- ## Returns", "-- ## Example"]

  /** Every required header, lower-cased, as the check compares them. */
  function LoweredHeaders(hs: seq<string>): (r: seq<string>)
    ensures |r| == |hs| && forall k :: 0 <= k < |hs| ==> r[k] == Lower(hs[k])
  {
    seq(|hs|, k requires 0 <= k < |hs| => Lower(hs[k]))
  }

  /** `SQLStandard.validate_structure`: an empty block is rejected, otherwise
      each header must occur somewhere in the block, ignoring case. */
  function ValidateStructure(doc: string): (ok: bool)
    ensures ok <==> doc != [] && forall k :: 0 <= k < |RequiredHeaders| ==>
                      Contains(Lower(doc), Lower(RequiredHeaders[k]))
  {
    if doc == [] then false
    else ContainsAll(Lower(doc), LoweredHeaders(RequiredHeaders))
  }

  /** Only containment is checked, so text appended after a passing block (or
      placed before it) never makes it fail: order and position are free. */
  lemma AppendKeepsValid(doc: string, before: string, after: string)
    requires ValidateStructure(doc)
    ensures ValidateStructure(before + doc + after)
  {
    var whole := before + doc + after;
    LowerAppend(before + doc, after);
    LowerAppend(before, doc);
    forall k | 0 <= k < |RequiredHeaders|
      ensures Contains(Lower(whole), Lower(RequiredHeaders[k]))
    {
      var h := Lower(RequiredHeaders[k]);
      ContainsAppend(Lower(doc), Lower(before), h);
      ContainsAppend(Lower(before) + Lower(doc), Lower(after), h);
    }
  }

  /** The `-- #` requirement adds nothing: `-- #` is a prefix of
      `-- ## Description`, so any block holding the latter holds the former. */
  lemma NameHeaderImplied(doc: string)
    requires Contains(Lower(doc), Lower("-- ## Description"))
    ensures Contains(Lower(doc), Lower("-- #"))
  {
    var d := Lower("-- ## Description");
    assert d[..4] == Lower("-- #");
    StartsWithContains(d, Lower("-- #"));
    ContainsTrans(Lower(doc), d, Lower("-- #"));
  }
}
