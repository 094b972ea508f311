/** The orchestrator: for one file, extract the items, skip those already
    documented, generate documentation for the rest, splice it into the
    file text and write the result back. The documentation generator and
    Python's syntax check are outside this model and enter as parameters. */
module DocOrchestrator {
  import opened Results
  import opened Text
  import opened Blocks
  import opened FileTypes
  import opened CodeExtractor
  import opened DocParser
  import opened Splice
  import opened Patterns

  /** An item with the documentation generated for it. */
  datatype Documented = Documented(item: CodeItem, documentation: string)

  function StartKey(d: Documented): nat {
    d.item.lineStart
  }

  /** Every item starts on a line of a file of `n` lines. */
  predicate Fits(docs: seq<Documented>, n: nat) {
    forall j :: 0 <= j < |docs| ==> docs[j].item.lineStart <= n
  }

  /** No two items start on the same line. */
  predicate Apart(docs: seq<Documented>) {
    DistinctKeys(docs, StartKey)
  }

  /** The items in the order the injectors visit them: sorted by start line,
      bottom of the file first, ties in their original order. */
  function BottomUp(docs: seq<Documented>): (r: seq<Documented>)
    ensures multiset(r) == multiset(docs)
    ensures KeysDescending(r, StartKey)
  {
    SortDesc(docs, StartKey)
  }

  lemma InFits(docs: seq<Documented>, n: nat, d: Documented)
    requires Fits(docs, n) && d in docs
    ensures d.item.lineStart <= n
  {
    var j :| 0 <= j < |docs| && docs[j] == d;
  }

  /** Reordering the items does not change whether they fit the file. */
  lemma FitsBottomUp(docs: seq<Documented>, n: nat)
    ensures Fits(BottomUp(docs), n) <==> Fits(docs, n)
  {
    var r := BottomUp(docs);
    if Fits(docs, n) {
      forall j | 0 <= j < |r| ensures r[j].item.lineStart <= n {
        assert r[j] in multiset(docs);
        var c :| 0 <= c < |docs| && docs[c] == r[j];
      }
    }
    if Fits(r, n) {
      forall j | 0 <= j < |docs| ensures docs[j].item.lineStart <= n {
        assert docs[j] in multiset(r);
        var c :| 0 <= c < |r| && r[c] == docs[j];
      }
    }
  }

  // ---------------------------------------------------------------- Python

  /** The width of a line's leading whitespace. */
  function IndentWidth(line: string): (w: nat)
    ensures w <= |line|
    ensures forall m :: 0 <= m < w ==> IsSpace(line[m])
    ensures w < |line| ==> !IsSpace(line[w])
  {
    LStripSpec(line);
    |line| - |LStrip(line)|
  }

  /** The docstring indentation: spaces, four more than the definition's
      leading whitespace. */
  function Indent(width: nat): string {
    Repeat(' ', width + 4)
  }

  const Quotes: string := "\"\"\""

  /** The docstring block for a definition indented by `width`: the text
      between two quote lines, each non-blank line indented, blank lines
      emptied. `DocstringLinesSpec` states what each inner line holds. */
  function DocstringLines(width: nat, documentation: string): (r: seq<string>)
    ensures |r| == |Split(documentation)| + 2
    ensures r[0] == Indent(width) + Quotes && r[|r| - 1] == Indent(width) + Quotes
  {
    var body := Split(documentation);
    var indent := Indent(width);
    [indent + Quotes]
      + seq(|body|, k requires 0 <= k < |body| => if Strip(body[k]) == [] then "" else indent + body[k])
      + [indent + Quotes]
  }

  /** Inside the quote lines, line `k` is empty exactly when documentation
      line `k - 1` is blank, and otherwise is the indent followed by that
      documentation line verbatim, so relative indentation survives; each
      agrees with its documentation line once stripped, and no line of the
      block holds a newline. */
  lemma DocstringLinesSpec(width: nat, documentation: string)
    ensures var r := DocstringLines(width, documentation);
            && (forall k :: 1 <= k < |r| - 1 ==> (r[k] == [] <==> Strip(Split(documentation)[k - 1]) == []))
            && (forall k :: 1 <= k < |r| - 1 && r[k] != [] ==>
                  StartsWith(r[k], Indent(width)) && r[k][|Indent(width)|..] == Split(documentation)[k - 1])
            && (forall k :: 1 <= k < |r| - 1 ==> Strip(r[k]) == Strip(Split(documentation)[k - 1]))
            && (forall k :: 0 <= k < |r| ==> NoNewline(r[k]))
  {
    var r := DocstringLines(width, documentation);
    var body := Split(documentation);
    var indent := Indent(width);
    assert forall k :: 1 <= k < |r| - 1 ==> r[k] == if Strip(body[k - 1]) == [] then "" else indent + body[k - 1];
    SplitHasNoNewline(documentation);
    DocstringLinesShape(indent, body, r);
  }

  lemma DocstringLinesShape(indent: string, body: seq<string>, r: seq<string>)
    requires indent == Repeat(' ', |indent|)
    requires forall k :: 0 <= k < |body| ==> NoNewline(body[k])
    requires |r| == |body| + 2 && r[0] == indent + Quotes && r[|r| - 1] == indent + Quotes
    requires forall k :: 1 <= k < |r| - 1 ==> r[k] == if Strip(body[k - 1]) == [] then "" else indent + body[k - 1]
    requires |indent| > 0
    ensures forall k :: 1 <= k < |r| - 1 ==> (r[k] == [] <==> Strip(body[k - 1]) == [])
    ensures forall k :: 1 <= k < |r| - 1 && r[k] != [] ==> StartsWith(r[k], indent) && r[k][|indent|..] == body[k - 1]
    ensures forall k :: 1 <= k < |r| - 1 ==> Strip(r[k]) == Strip(body[k - 1])
    ensures forall k :: 0 <= k < |r| ==> NoNewline(r[k])
  {
    assert IsBlank(indent);
    forall k | 1 <= k < |r| - 1 && r[k] != [] ensures StartsWith(r[k], indent) && r[k][|indent|..] == body[k - 1] {
      assert r[k] == indent + body[k - 1];
      assert r[k][..|indent|] == indent;
    }
    forall k | 1 <= k < |r| - 1 ensures Strip(r[k]) == Strip(body[k - 1]) {
      if Strip(body[k - 1]) != [] {
        StripAfterLeadingSpace(indent, body[k - 1]);
      }
    }
  }

  /** The message of the `IndexError` a definition line past the end of the
      file raises. */
  const IndexOutOfRange: string := "list index out of range"

  /** The Python injection loop as written: each item's definition line is
      read from the list as the earlier insertions left it, and the docstring
      goes in right below it. */
  function PythonLoop(lines: seq<string>, todo: seq<Documented>): (r: Result<seq<string>>)
    ensures r.Err? ==> r.message == IndexOutOfRange
    decreases |todo|
  {
    if todo == [] then Ok(lines)
    else
      var item := todo[0].item;
      if item.lineStart > |lines| then Err(IndexOutOfRange)
      else
        var block := DocstringLines(IndentWidth(lines[item.lineStart - 1]), todo[0].documentation);
        PythonLoop(InsertLines(lines, item.lineStart, block), todo[1..])
  }

  /** Each item's docstring, indented after its definition line in the
      original file, to go in below that line. */
  function PythonSites(lines: seq<string>, todo: seq<Documented>): (sites: seq<Site<string>>)
    requires Fits(todo, |lines|)
    ensures |sites| == |todo|
  {
    seq(|todo|, j requires 0 <= j < |todo| =>
      (todo[j].item.lineStart as nat,
       DocstringLines(IndentWidth(lines[todo[j].item.lineStart - 1]), todo[j].documentation)))
  }

  /** Visited bottom-up, every definition line the loop reads is still where
      the original file had it, so the loop splices the docstrings computed
      from the original file at the original line numbers. */
  lemma {:induction false} PythonLoopSplices(lines: seq<string>, todo: seq<Documented>)
    requires KeysDescending(todo, StartKey) && Fits(todo, |lines|)
    ensures PythonLoop(lines, todo) == Ok(InsertAll(lines, PythonSites(lines, todo)))
    decreases |todo|
  {
    if todo != [] {
      var i := todo[0].item.lineStart;
      var block := DocstringLines(IndentWidth(lines[i - 1]), todo[0].documentation);
      var s1 := InsertLines(lines, i, block);
      var sites := PythonSites(lines, todo);
      DescendingRest(todo, |lines|);
      PythonLoopSplices(s1, todo[1..]);
      PythonSitesAfter(lines, todo);
      assert sites[0] == (i, block);
      assert PythonLoop(lines, todo) == PythonLoop(s1, todo[1..]);
      assert InsertAll(lines, sites) == InsertAll(s1, sites[1..]);
    }
  }

  /** Behind the first item of a bottom-up sequence the rest stays bottom-up
      and starts no lower than it. */
  lemma DescendingRest(todo: seq<Documented>, n: nat)
    requires todo != [] && KeysDescending(todo, StartKey) && Fits(todo, n)
    ensures KeysDescending(todo[1..], StartKey) && Fits(todo[1..], n)
    ensures forall j :: 0 <= j < |todo[1..]| ==> todo[1..][j].item.lineStart <= todo[0].item.lineStart
  {
    forall j | 0 <= j < |todo[1..]| ensures todo[1..][j].item.lineStart <= todo[0].item.lineStart {
      assert todo[1..][j] == todo[j + 1];
      assert StartKey(todo[0]) >= StartKey(todo[j + 1]);
    }
  }

  /** Inserting the first docstring leaves every line above it in place, so
      the later items' docstrings are the ones computed from the original. */
  lemma PythonSitesAfter(lines: seq<string>, todo: seq<Documented>)
    requires todo != [] && Fits(todo, |lines|)
    requires forall j :: 0 <= j < |todo[1..]| ==> todo[1..][j].item.lineStart <= todo[0].item.lineStart
    ensures var i := todo[0].item.lineStart;
            var s1 := InsertLines(lines, i, DocstringLines(IndentWidth(lines[i - 1]), todo[0].documentation));
            Fits(todo[1..], |s1|) && PythonSites(s1, todo[1..]) == PythonSites(lines, todo)[1..]
  {
    var i := todo[0].item.lineStart;
    var s1 := InsertLines(lines, i, DocstringLines(IndentWidth(lines[i - 1]), todo[0].documentation));
    InsertLinesPrefix(lines, i, DocstringLines(IndentWidth(lines[i - 1]), todo[0].documentation));
    PythonSitesAgree(s1, lines, todo[1..], i);
    PythonSitesTail(lines, todo);
  }

  /** Two files that agree above line `i` give the same docstrings to items
      starting no lower than `i`. */
  lemma PythonSitesAgree(l1: seq<string>, l2: seq<string>, docs: seq<Documented>, i: nat)
    requires i <= |l1| && i <= |l2| && forall k :: 0 <= k < i ==> l1[k] == l2[k]
    requires forall j :: 0 <= j < |docs| ==> docs[j].item.lineStart <= i
    ensures Fits(docs, |l1|) && Fits(docs, |l2|)
    ensures PythonSites(l1, docs) == PythonSites(l2, docs)
  {
  }

  lemma PythonSitesTail(lines: seq<string>, todo: seq<Documented>)
    requires todo != [] && Fits(todo, |lines|)
    ensures Fits(todo[1..], |lines|) && PythonSites(lines, todo[1..]) == PythonSites(lines, todo)[1..]
  {
    assert Fits(todo[1..], |lines|) by {
      forall j | 0 <= j < |todo[1..]| ensures todo[1..][j].item.lineStart <= |lines| {
        assert todo[1..][j] == todo[j + 1];
      }
    }
    forall j | 0 <= j < |todo| - 1 ensures PythonSites(lines, todo[1..])[j] == PythonSites(lines, todo)[1..][j] {
      assert todo[1..][j] == todo[j + 1];
    }
  }

  /** The bottom item starts lowest, so the loop fails exactly when some
      item starts past the end of the file. */
  lemma PythonLoopFails(lines: seq<string>, todo: seq<Documented>)
    requires KeysDescending(todo, StartKey)
    ensures PythonLoop(lines, todo).Err? <==> !Fits(todo, |lines|)
  {
    if todo != [] && todo[0].item.lineStart <= |lines| {
      forall j | 0 <= j < |todo| ensures todo[j].item.lineStart <= |lines| {
        if j > 0 {
          assert StartKey(todo[0]) >= StartKey(todo[j]);
        }
      }
      PythonLoopSplices(lines, todo);
    }
  }

  /** `_inject_python_docs`: a docstring below each item's definition line;
      an item past the end of the file raises `IndexError`. */
  function InjectPython(content: string, docs: seq<Documented>): (r: Result<string>)
    ensures r.Err? <==> !Fits(docs, |Split(content)|)
    ensures r.Err? ==> r.message == IndexOutOfRange
  {
    var lines := Split(content);
    PythonLoopFails(lines, BottomUp(docs));
    FitsBottomUp(docs, |lines|);
    match PythonLoop(lines, BottomUp(docs))
    case Err(message) => Err(message)
    case Ok(out) => Ok(Join(out))
  }

  /** The lines of a splice of newline-free lines are the spliced lines. */
  lemma SplitSpliced(lines: seq<string>, sites: seq<Site<string>>)
    requires |lines| >= 1
    requires forall k :: 0 <= k < |lines| ==> NoNewline(lines[k])
    requires forall j, k :: 0 <= j < |sites| && 0 <= k < |sites[j].1| ==> NoNewline(sites[j].1[k])
    ensures Split(Join(InsertAll(lines, sites))) == InsertAll(lines, sites)
  {
    forall j, x | 0 <= j < |sites| && x in sites[j].1 ensures NoNewline(x) {
      var k :| 0 <= k < |sites[j].1| && sites[j].1[k] == x;
    }
    InsertAllHolds(lines, sites, NoNewline);
    var out := InsertAll(lines, sites);
    forall k | 0 <= k < |out| ensures NoNewline(out[k]) {
      assert out[k] in out;
    }
    SplitJoin(out);
  }

  /** The docstrings of all items at their sites in the original file, in
      the order the injector visits them. */
  function PythonPlan(lines: seq<string>, docs: seq<Documented>): (sites: seq<Site<string>>)
    requires Fits(docs, |lines|)
    ensures Descending(sites) && Within(sites, |lines|)
  {
    FitsBottomUp(docs, |lines|);
    var todo := BottomUp(docs);
    var sites := PythonSites(lines, todo);
    assert Descending(sites) by {
      forall a, b | 0 <= a < b < |sites| ensures sites[a].0 >= sites[b].0 {
        assert StartKey(todo[a]) >= StartKey(todo[b]);
      }
    }
    sites
  }

  /** The Python injection is the original file with each docstring spliced
      in at its item's original line number. */
  lemma PythonInjected(content: string, docs: seq<Documented>)
    requires Fits(docs, |Split(content)|)
    ensures InjectPython(content, docs) == Ok(Join(InsertAll(Split(content), PythonPlan(Split(content), docs))))
  {
    var lines := Split(content);
    FitsBottomUp(docs, |lines|);
    PythonLoopSplices(lines, BottomUp(docs));
  }

  /** Read back as lines, the injected file is the spliced line list. */
  lemma PythonInjectedLines(content: string, docs: seq<Documented>)
    requires Fits(docs, |Split(content)|)
    ensures Split(InjectPython(content, docs).value) == InsertAll(Split(content), PythonPlan(Split(content), docs))
  {
    var lines := Split(content);
    var sites := PythonPlan(lines, docs);
    PythonInjected(content, docs);
    SplitHasNoNewline(content);
    PlanNoNewline(lines, docs);
    SplitSpliced(lines, sites);
  }

  lemma PlanNoNewline(lines: seq<string>, docs: seq<Documented>)
    requires Fits(docs, |lines|)
    ensures var sites := PythonPlan(lines, docs);
            forall j, k :: 0 <= j < |sites| && 0 <= k < |sites[j].1| ==> NoNewline(sites[j].1[k])
  {
    var sites := PythonPlan(lines, docs);
    var todo := BottomUp(docs);
    FitsBottomUp(docs, |lines|);
    forall j, k | 0 <= j < |sites| && 0 <= k < |sites[j].1| ensures NoNewline(sites[j].1[k]) {
      DocstringLinesSpec(IndentWidth(lines[todo[j].item.lineStart - 1]), todo[j].documentation);
    }
  }

  /** Python injection never alters, drops or reorders an original line:
      line `k` survives, moved down by the docstrings inserted above it. */
  lemma PythonKeepsLines(content: string, docs: seq<Documented>, k: nat)
    requires Fits(docs, |Split(content)|) && k < |Split(content)|
    ensures var lines := Split(content);
            var sites := PythonPlan(lines, docs);
            var out := Split(InjectPython(content, docs).value);
            |out| == |lines| + Total(sites)
            && k + Shift(sites, k) < |out| && out[k + Shift(sites, k)] == lines[k]
  {
    var lines := Split(content);
    var sites := PythonPlan(lines, docs);
    PythonInjectedLines(content, docs);
    InsertAllKeeps(lines, sites, k);
  }

  /** Items on distinct lines are visited in strictly descending order. */
  lemma BottomUpStrict(docs: seq<Documented>)
    requires Apart(docs)
    ensures forall a, b :: 0 <= a < b < |BottomUp(docs)| ==>
              BottomUp(docs)[a].item.lineStart > BottomUp(docs)[b].item.lineStart
  {
    SortDescDistinct(docs, StartKey);
    var r := BottomUp(docs);
    forall a, b | 0 <= a < b < |r| ensures r[a].item.lineStart > r[b].item.lineStart {
      assert StartKey(r[a]) >= StartKey(r[b]) && StartKey(r[a]) != StartKey(r[b]);
    }
  }

  /** The position the injector visits an item at. */
  lemma VisitedAt(docs: seq<Documented>, d: Documented) returns (t: nat)
    requires d in docs
    ensures t < |BottomUp(docs)| && BottomUp(docs)[t] == d
  {
    assert d in multiset(BottomUp(docs));
    t :| 0 <= t < |BottomUp(docs)| && BottomUp(docs)[t] == d;
  }

  /** With the items on distinct lines, each docstring lands whole in the
      spliced lines (which are the injected file's lines, by
      `PythonInjectedLines`), after every line above its item's definition
      and every docstring inserted above it. */
  lemma PythonDocstringPlaced(lines: seq<string>, docs: seq<Documented>, d: Documented)
    requires Fits(docs, |lines|) && Apart(docs) && d in docs
    ensures d.item.lineStart <= |lines|
    ensures var out := InsertAll(lines, PythonPlan(lines, docs));
            var block := DocstringLines(IndentWidth(lines[d.item.lineStart - 1]), d.documentation);
            var p := d.item.lineStart + Below(PythonPlan(lines, docs), d.item.lineStart);
            p + |block| <= |out| && out[p..p + |block|] == block
  {
    var t := PythonSiteOf(lines, docs, d);
    PythonPlanStrict(lines, docs);
    BlockPlaced(lines, PythonPlan(lines, docs), t, d.item.lineStart,
                DocstringLines(IndentWidth(lines[d.item.lineStart - 1]), d.documentation));
  }

  /** The line directly above each docstring placed by
      `PythonDocstringPlaced` is its item's definition line, so the
      docstring sits right below the definition, indented from it. */
  lemma PythonDocstringBelowDefinition(lines: seq<string>, docs: seq<Documented>, d: Documented)
    requires Fits(docs, |lines|) && Apart(docs) && d in docs
    ensures d.item.lineStart <= |lines|
    ensures var out := InsertAll(lines, PythonPlan(lines, docs));
            var p := d.item.lineStart + Below(PythonPlan(lines, docs), d.item.lineStart);
            p - 1 < |out| && out[p - 1] == lines[d.item.lineStart - 1]
  {
    var t := PythonSiteOf(lines, docs, d);
    PythonPlanStrict(lines, docs);
    LineAboveKept(lines, PythonPlan(lines, docs), t, d.item.lineStart);
  }

  /** The site the Python injector makes for an item. */
  lemma PythonSiteOf(lines: seq<string>, docs: seq<Documented>, d: Documented) returns (t: nat)
    requires Fits(docs, |lines|) && d in docs
    ensures d.item.lineStart <= |lines|
    ensures t < |PythonPlan(lines, docs)|
    ensures PythonPlan(lines, docs)[t]
              == (d.item.lineStart as nat, DocstringLines(IndentWidth(lines[d.item.lineStart - 1]), d.documentation))
  {
    t := VisitedAt(docs, d);
    FitsBottomUp(docs, |lines|);
  }

  lemma PythonPlanStrict(lines: seq<string>, docs: seq<Documented>)
    requires Fits(docs, |lines|) && Apart(docs)
    ensures StrictlyDescending(PythonPlan(lines, docs))
  {
    BottomUpStrict(docs);
  }

  // ---------------------------------------------------------------- R

  /** Each item's documentation lines, to go in above its declaration line. */
  function RSites(todo: seq<Documented>): (sites: seq<Site<string>>)
    ensures |sites| == |todo|
  {
    seq(|todo|, j requires 0 <= j < |todo| =>
      ((todo[j].item.lineStart - 1) as nat, Split(todo[j].documentation)))
  }

  /** The documentation of all items at their sites, in the order the
      injector visits them. */
  function RPlan(docs: seq<Documented>): (sites: seq<Site<string>>)
    ensures Descending(sites)
  {
    var todo := BottomUp(docs);
    var sites := RSites(todo);
    assert Descending(sites) by {
      forall a, b | 0 <= a < b < |sites| ensures sites[a].0 >= sites[b].0 {
        assert StartKey(todo[a]) >= StartKey(todo[b]);
      }
    }
    sites
  }

  /** `_inject_r_docs`: each item's documentation, verbatim and without
      re-indenting, inserted above its declaration line. `list.insert` past
      the end appends, so no item makes it fail. */
  function InjectR(content: string, docs: seq<Documented>): (r: string)
    ensures Split(r) == InsertAll(Split(content), RPlan(docs))
  {
    var lines := Split(content);
    var out := InsertAll(lines, RPlan(docs));
    SplitHasNoNewline(content);
    RInjectedLines(lines, docs);
    Join(out)
  }

  lemma RInjectedLines(lines: seq<string>, docs: seq<Documented>)
    requires |lines| >= 1 && forall k :: 0 <= k < |lines| ==> NoNewline(lines[k])
    ensures Fits(docs, |lines|) ==> Within(RPlan(docs), |lines|)
    ensures Split(Join(InsertAll(lines, RPlan(docs)))) == InsertAll(lines, RPlan(docs))
  {
    var sites := RPlan(docs);
    FitsBottomUp(docs, |lines|);
    forall j, k | 0 <= j < |sites| && 0 <= k < |sites[j].1| ensures NoNewline(sites[j].1[k]) {
      SplitHasNoNewline(BottomUp(docs)[j].documentation);
    }
    SplitSpliced(lines, sites);
  }

  /** R injection never alters, drops or reorders an original line: line
      `k` survives, moved down by the documentation inserted above it. */
  lemma RKeepsLines(content: string, docs: seq<Documented>, k: nat)
    requires Fits(docs, |Split(content)|) && k < |Split(content)|
    ensures var lines := Split(content);
            var sites := RPlan(docs);
            var out := Split(InjectR(content, docs));
            |out| == |lines| + Total(sites)
            && k + Shift(sites, k) < |out| && out[k + Shift(sites, k)] == lines[k]
  {
    SplitHasNoNewline(content);
    RInjectedLines(Split(content), docs);
    InsertAllKeeps(Split(content), RPlan(docs), k);
  }

  /** With the items on distinct lines, each item's documentation lands
      whole, verbatim, directly above its declaration line. */
  lemma RDocAboveDeclaration(content: string, docs: seq<Documented>, d: Documented)
    requires Fits(docs, |Split(content)|) && Apart(docs) && d in docs
    ensures d.item.lineStart <= |Split(content)|
    ensures var out := Split(InjectR(content, docs));
            RBlockEnd(docs, d) < |out|
            && out[RBlockStart(docs, d)..RBlockEnd(docs, d)] == Split(d.documentation)
            && out[RBlockEnd(docs, d)] == Split(content)[d.item.lineStart - 1]
  {
    var lines := Split(content);
    RDocPlaced(lines, docs, d);
    RDeclarationBelow(lines, docs, d);
  }

  /** Where the R injector's block for `d` starts and ends in the spliced
      lines: after the lines above its declaration and the blocks inserted
      above it. */
  function RBlockStart(docs: seq<Documented>, d: Documented): nat {
    d.item.lineStart - 1 + Below(RPlan(docs), d.item.lineStart - 1)
  }

  function RBlockEnd(docs: seq<Documented>, d: Documented): nat {
    RBlockStart(docs, d) + |Split(d.documentation)|
  }

  /** The documentation block of each item lands whole in the spliced lines. */
  lemma RDocPlaced(lines: seq<string>, docs: seq<Documented>, d: Documented)
    requires Fits(docs, |lines|) && Apart(docs) && d in docs
    ensures d.item.lineStart <= |lines|
    ensures RBlockEnd(docs, d) <= |InsertAll(lines, RPlan(docs))|
    ensures InsertAll(lines, RPlan(docs))[RBlockStart(docs, d)..RBlockEnd(docs, d)] == Split(d.documentation)
  {
    var t := RSiteIn(lines, docs, d);
    BlockPlaced(lines, RPlan(docs), t, d.item.lineStart - 1, Split(d.documentation));
  }

  /** The line right after each block placed by `RDocPlaced` is its item's
      declaration line. */
  lemma RDeclarationBelow(lines: seq<string>, docs: seq<Documented>, d: Documented)
    requires Fits(docs, |lines|) && Apart(docs) && d in docs
    ensures d.item.lineStart <= |lines|
    ensures RBlockEnd(docs, d) < |InsertAll(lines, RPlan(docs))|
    ensures InsertAll(lines, RPlan(docs))[RBlockEnd(docs, d)] == lines[d.item.lineStart - 1]
  {
    var t := RSiteIn(lines, docs, d);
    LineBelowKept(lines, RPlan(docs), t, d.item.lineStart - 1, Split(d.documentation));
  }

  lemma RPlanWithin(docs: seq<Documented>, n: nat)
    requires Fits(docs, n)
    ensures Within(RPlan(docs), n)
  {
    FitsBottomUp(docs, n);
  }

  /** The site the R injector makes for an item. */
  lemma RSiteOf(docs: seq<Documented>, d: Documented) returns (t: nat)
    requires d in docs
    ensures t < |RPlan(docs)| && RPlan(docs)[t] == (d.item.lineStart - 1, Split(d.documentation))
  {
    t := VisitedAt(docs, d);
  }

  /** Everything the splice lemmas need about an item's R site. */
  lemma RSiteIn(lines: seq<string>, docs: seq<Documented>, d: Documented) returns (t: nat)
    requires Fits(docs, |lines|) && Apart(docs) && d in docs
    ensures d.item.lineStart <= |lines|
    ensures Within(RPlan(docs), |lines|) && StrictlyDescending(RPlan(docs))
    ensures t < |RPlan(docs)| && RPlan(docs)[t] == (d.item.lineStart - 1, Split(d.documentation))
  {
    t := RSiteOf(docs, d);
    InFits(docs, |lines|, d);
    RPlanWithin(docs, |lines|);
    RPlanStrict(docs);
  }

  lemma RPlanStrict(docs: seq<Documented>)
    requires Apart(docs)
    ensures StrictlyDescending(RPlan(docs))
  {
    BottomUpStrict(docs);
  }

  // ---------------------------------------------------------------- SQL

  lemma SqlSplit(doc: string, content: string)
    ensures Split(doc + "\n\n" + content) == Split(doc) + [""] + Split(content)
  {
    SplitAppend(doc, "\n" + content);
    assert "" + "\n" + content == "\n" + content;
    SplitAppend("", content);
    assert doc + "\n\n" + content == doc + "\n" + ("\n" + content);
  }

  /** `_inject_sql_docs`: the first item's documentation, a blank line, then
      the file unchanged; later items are ignored (a SQL file has one). */
  function InjectSql(content: string, docs: seq<Documented>): (r: string)
    ensures docs == [] ==> r == content
    ensures docs != [] ==> Split(r) == Split(docs[0].documentation) + [""] + Split(content)
    ensures |content| <= |r| && r[|r| - |content|..] == content
  {
    if docs == [] then content
    else
      var doc := docs[0].documentation;
      SqlSplit(doc, content);
      doc + "\n\n" + content
  }

  /** A generated SQL block with a `-- #` header is what the parser reads
      back from the injected file, whatever the file held before. */
  lemma SqlInjectReadsBack(content: string, docs: seq<Documented>)
    requires docs != [] && HasLine(Split(docs[0].documentation), SqlHeader)
    ensures ParseSql(InjectSql(content, docs)) == ParseSql(docs[0].documentation)
  {
    SqlBlockAfterBlank(Split(docs[0].documentation), Split(content));
    SameBlockSameParse(InjectSql(content, docs), docs[0].documentation);
  }

  /** After such an injection the extractor counts the file as documented. */
  lemma SqlInjectMarksDocumented(content: string, docs: seq<Documented>)
    requires docs != [] && HasLine(Split(docs[0].documentation), SqlHeader)
    ensures ExtractSql(InjectSql(content, docs))[0].hasDocumentation
  {
    var a := Split(docs[0].documentation);
    HasLinePrefix(a, [""], SqlHeader);
    HasLinePrefix(a + [""], Split(content), SqlHeader);
  }

  /** Two files with the same SQL documentation block parse alike. */
  lemma SameBlockSameParse(x: string, y: string)
    requires SqlBlock(Split(x)) == SqlBlock(Split(y))
    ensures ParseSql(x) == ParseSql(y)
  {
  }

  lemma HasLinePrefix(a: seq<string>, b: seq<string>, c: LineClass)
    requires HasLine(a, c)
    ensures HasLine(a + b, c)
  {
    var k :| 0 <= k < |a| && Is(c, a[k]);
    assert (a + b)[k] == a[k];
  }

  // ---------------------------------------------------------------- dispatch

  /** `_inject_multiple_docs`: the injector for the (lower-cased) suffix;
      any other suffix raises `ValueError`. */
  function InjectMultiple(content: string, docs: seq<Documented>, fileType: string): (r: Result<string>)
    ensures r.Err? <==> fileType !in {".py", ".sql", ".r"} || (fileType == ".py" && !Fits(docs, |Split(content)|))
    ensures fileType !in {".py", ".sql", ".r"} ==> r == Err("Unsupported file type: " + fileType)
    ensures fileType == ".sql" ==> r == Ok(InjectSql(content, docs))
    ensures fileType == ".r" ==> r == Ok(InjectR(content, docs))
    ensures fileType == ".py" ==> r == InjectPython(content, docs)
  {
    if fileType == ".py" then InjectPython(content, docs)
    else if fileType == ".sql" then Ok(InjectSql(content, docs))
    else if fileType == ".r" then Ok(InjectR(content, docs))
    else Err("Unsupported file type: " + fileType)
  }

  // ---------------------------------------------------------------- process_file

  /** The counts and error `process_file` reports for one file. */
  datatype FileResult = FileResult(
    success: bool,
    processed: nat,
    documented: nat,
    skipped: nat,
    error: Option<string>)

  /** The report, and the text written back to the file if any. */
  datatype Outcome = Outcome(result: FileResult, written: Option<string>)

  const NoneGenerated: string := "Failed to generate documentation for any items"
  const Corrupted: string := "Documentation injection corrupted Python syntax: "

  /** The report of the outer exception handler: nothing counted. */
  function Crashed(message: string): FileResult {
    FileResult(false, 0, 0, 0, Some(message))
  }

  /** The items without documentation, in file order. */
  function Undocumented(items: seq<CodeItem>): (r: seq<CodeItem>)
    ensures |r| <= |items|
    ensures forall x | x in r :: x in items && !x.hasDocumentation
    ensures forall x | x in items && !x.hasDocumentation :: x in r
    decreases |items|
  {
    if items == [] then []
    else (if items[0].hasDocumentation then [] else [items[0]]) + Undocumented(items[1..])
  }

  /** The number of items skipped as already documented. */
  function CountDocumented(items: seq<CodeItem>): (n: nat)
    ensures n + |Undocumented(items)| == |items|
    ensures n == |items| <==> forall x | x in items :: x.hasDocumentation
    decreases |items|
  {
    if items == [] then 0
    else
      assert items == [items[0]] + items[1..];
      (if items[0].hasDocumentation then 1 else 0) + CountDocumented(items[1..])
  }

  /** The generation loop: each item's documentation from `generate`, which
      sees only the item's code (`None` stands for an exception); items it
      fails on are left out, the rest keep their order. */
  function GenerateAll(todo: seq<CodeItem>, generate: string -> Option<string>): (r: seq<Documented>)
    ensures |r| <= |todo|
    ensures forall d | d in r :: d.item in todo && generate(d.item.code) == Some(d.documentation)
    decreases |todo|
  {
    if todo == [] then []
    else
      var rest := GenerateAll(todo[1..], generate);
      match generate(todo[0].code)
      case None => rest
      case Some(doc) => [Documented(todo[0], doc)] + rest
  }

  /** No item the generator succeeds on is lost. */
  lemma {:induction false} GenerateAllKeeps(todo: seq<CodeItem>, generate: string -> Option<string>, x: CodeItem)
    requires x in todo && generate(x.code).Some?
    ensures Documented(x, generate(x.code).value) in GenerateAll(todo, generate)
    decreases |todo|
  {
    if todo[0] != x {
      GenerateAllKeeps(todo[1..], generate, x);
    }
  }

  /** `process_file` on a file with suffix `suffix` and text `content`.
      `pythonItems` is what the Python extractor reports, `generate` the
      documentation generator and `syntaxError` Python's parser (`Some`
      carries the `SyntaxError` text); file reads and the final write are
      the `content` parameter and the `written` result. */
  function ProcessFile(suffix: string, content: string, pythonItems: seq<CodeItem>,
                       generate: string -> Option<string>, syntaxError: string -> Option<string>,
                       dryRun: bool): (out: Outcome)
    ensures out.result.success <==> out.result.error.None?
    ensures out.written.Some? ==> out.result.success && !dryRun && out.result.documented >= 1
    ensures out.result.documented + out.result.skipped <= out.result.processed
    ensures out.written.Some? && LanguageOf(suffix) == Some(Python) ==> syntaxError(out.written.value).None?
  {
    match Extract(suffix, content, pythonItems)
    case Err(message) => Outcome(Crashed(message), None)
    case Ok(items) =>
      var todo := Undocumented(items);
      var skipped := CountDocumented(items);
      if items == [] then Outcome(FileResult(true, 0, 0, 0, None), None)
      else if todo == [] || dryRun then Outcome(FileResult(true, |items|, 0, skipped, None), None)
      else
        var documented := GenerateAll(todo, generate);
        if documented == [] then Outcome(FileResult(false, |items|, 0, skipped, Some(NoneGenerated)), None)
        else match InjectMultiple(content, documented, Lower(suffix))
          case Err(message) => Outcome(Crashed(message), None)
          case Ok(modified) =>
            if Lower(suffix) == ".py" && syntaxError(modified).Some? then
              Outcome(FileResult(false, |items|, 0, skipped, Some(Corrupted + syntaxError(modified).value)), None)
            else Outcome(FileResult(true, |items|, |documented|, skipped, None), Some(modified))
  }

  /** Whenever extraction succeeds every item is counted: `processed` is the
      number of items, `skipped` the documented ones, and at most the others
      are documented. Only the Python injector's `IndexError`, caught by the
      outer handler, reports zeros instead. */
  lemma ProcessFileCounts(suffix: string, content: string, pythonItems: seq<CodeItem>,
                          generate: string -> Option<string>, syntaxError: string -> Option<string>,
                          dryRun: bool)
    requires Extract(suffix, content, pythonItems).Ok?
    ensures var items := Extract(suffix, content, pythonItems).value;
            var r := ProcessFile(suffix, content, pythonItems, generate, syntaxError, dryRun).result;
            (r.processed == |items| && r.skipped == CountDocumented(items)
             && r.documented <= |Undocumented(items)|)
            || (LanguageOf(suffix) == Some(Python) && r == Crashed(IndexOutOfRange))
  {
    var items := Extract(suffix, content, pythonItems).value;
    var todo := Undocumented(items);
    if items != [] && todo != [] && !dryRun {
      var documented := GenerateAll(todo, generate);
      if documented != [] {
        InjectionFails(suffix, content, documented);
      }
    }
  }

  /** Once extraction has accepted the suffix, only the Python injector can
      fail, and only with `IndexError`. */
  lemma InjectionFails(suffix: string, content: string, docs: seq<Documented>)
    requires LanguageOf(suffix).Some?
    ensures InjectMultiple(content, docs, Lower(suffix)).Err? ==>
              LanguageOf(suffix) == Some(Python)
              && InjectMultiple(content, docs, Lower(suffix)).message == IndexOutOfRange
  {
    assert Lower(suffix) == SuffixOf(LanguageOf(suffix).value);
  }

  /** A file whose items are all documented (or that has none) is reported
      as processed, nothing is generated and nothing is written. */
  lemma AllDocumentedSkipped(suffix: string, content: string, pythonItems: seq<CodeItem>,
                             generate: string -> Option<string>, syntaxError: string -> Option<string>,
                             dryRun: bool)
    requires Extract(suffix, content, pythonItems).Ok?
    ensures var items := Extract(suffix, content, pythonItems).value;
            (forall x | x in items :: x.hasDocumentation) ==>
              ProcessFile(suffix, content, pythonItems, generate, syntaxError, dryRun)
                == Outcome(FileResult(true, |items|, 0, |items|, None), None)
  {
    var items := Extract(suffix, content, pythonItems).value;
    if forall x | x in items :: x.hasDocumentation {
      NoneUndocumented(items);
    }
  }

  /** When every item is documented, none is left to generate for. */
  lemma NoneUndocumented(items: seq<CodeItem>)
    requires forall x | x in items :: x.hasDocumentation
    ensures Undocumented(items) == [] && CountDocumented(items) == |items|
  {
  }

  /** A dry run reports success with the counts and writes nothing. */
  lemma DryRunWritesNothing(suffix: string, content: string, pythonItems: seq<CodeItem>,
                            generate: string -> Option<string>, syntaxError: string -> Option<string>)
    requires Extract(suffix, content, pythonItems).Ok?
    ensures var items := Extract(suffix, content, pythonItems).value;
            ProcessFile(suffix, content, pythonItems, generate, syntaxError, true)
              == Outcome(FileResult(true, |items|, 0, CountDocumented(items), None), None)
  {
  }

  lemma {:induction false} GenerateAllAgree(todo: seq<CodeItem>, g1: string -> Option<string>, g2: string -> Option<string>)
    requires forall x | x in todo :: g1(x.code) == g2(x.code)
    ensures GenerateAll(todo, g1) == GenerateAll(todo, g2)
    decreases |todo|
  {
    if todo != [] {
      assert todo[0] in todo;
      GenerateAllAgree(todo[1..], g1, g2);
    }
  }

  /** Documented items never reach the generator: two generators that agree
      on the undocumented items' code give the same outcome. */
  lemma GeneratorSeesOnlyUndocumented(suffix: string, content: string, pythonItems: seq<CodeItem>,
                                      g1: string -> Option<string>, g2: string -> Option<string>,
                                      syntaxError: string -> Option<string>, dryRun: bool)
    requires Extract(suffix, content, pythonItems).Ok?
    ensures (forall x | x in Undocumented(Extract(suffix, content, pythonItems).value) :: g1(x.code) == g2(x.code)) ==>
              ProcessFile(suffix, content, pythonItems, g1, syntaxError, dryRun)
                == ProcessFile(suffix, content, pythonItems, g2, syntaxError, dryRun)
  {
    var todo := Undocumented(Extract(suffix, content, pythonItems).value);
    if forall x | x in todo :: g1(x.code) == g2(x.code) {
      GenerateAllAgree(todo, g1, g2);
    }
  }

  /** The generator as `process_file` calls it: three arguments to a method
      that takes two, so every call raises `TypeError`, which the loop
      catches as a failure of that item. */
  function GenerateAsCalled(code: string): Option<string> {
    None
  }

  /** With the call as written, no file is ever written: a file with an
      undocumented item (outside a dry run) always fails to generate. */
  lemma AsWrittenNeverWrites(suffix: string, content: string, pythonItems: seq<CodeItem>,
                             syntaxError: string -> Option<string>, dryRun: bool)
    requires Extract(suffix, content, pythonItems).Ok?
    ensures ProcessFile(suffix, content, pythonItems, GenerateAsCalled, syntaxError, dryRun).written == None
    ensures var items := Extract(suffix, content, pythonItems).value;
            Undocumented(items) != [] && !dryRun ==>
              ProcessFile(suffix, content, pythonItems, GenerateAsCalled, syntaxError, dryRun).result
                == FileResult(false, |items|, 0, CountDocumented(items), Some(NoneGenerated))
  {
    var r := GenerateAll(Undocumented(Extract(suffix, content, pythonItems).value), GenerateAsCalled);
  }

  /** With a working generator, an undocumented SQL file whose generated
      block has a `-- #` header gets that block on top, reads back as that
      block, and a second run skips it: running twice writes once. */
  lemma SqlDocumentedOnce(suffix: string, content: string, pythonItems: seq<CodeItem>,
                          generate: string -> Option<string>, syntaxError: string -> Option<string>,
                          doc: string, generate2: string -> Option<string>,
                          syntaxError2: string -> Option<string>, dryRun2: bool)
    requires LanguageOf(suffix) == Some(Sql)
    requires !HasLine(Split(content), SqlHeader)
    requires generate(content) == Some(doc) && HasLine(Split(doc), SqlHeader)
    ensures ProcessFile(suffix, content, pythonItems, generate, syntaxError, false)
              == Outcome(FileResult(true, 1, 1, 0, None), Some(doc + "\n\n" + content))
    ensures ParseSql(doc + "\n\n" + content) == ParseSql(doc)
    ensures ProcessFile(suffix, doc + "\n\n" + content, pythonItems, generate2, syntaxError2, dryRun2)
              == Outcome(FileResult(true, 1, 0, 1, None), None)
  {
    var items := ExtractSql(content);
    var item := items[0];
    JoinSplit(content);
    assert Split(content)[0..|Split(content)|] == Split(content);
    assert item.code == content;
    assert Undocumented(items) == [item];
    assert GenerateAll([item], generate) == [Documented(item, doc)];
    var docs := [Documented(item, doc)];
    SqlInjectReadsBack(content, docs);
    SqlInjectMarksDocumented(content, docs);
    var written := doc + "\n\n" + content;
    AllDocumentedSkipped(suffix, written, pythonItems, generate2, syntaxError2, dryRun2);
  }

  /** Items in strictly increasing order of start line. */
  predicate Rising(items: seq<CodeItem>) {
    forall a, b :: 0 <= a < b < |items| ==> items[a].lineStart < items[b].lineStart
  }

  lemma {:induction false} UndocumentedRising(items: seq<CodeItem>)
    requires Rising(items)
    ensures Rising(Undocumented(items))
    decreases |items|
  {
    if items != [] {
      var rest := Undocumented(items[1..]);
      assert Rising(items[1..]);
      UndocumentedRising(items[1..]);
      forall x | x in rest ensures items[0].lineStart < x.lineStart {
        var j :| 0 <= j < |items[1..]| && items[1..][j] == x;
        assert items[1..][j] == items[j + 1];
      }
    }
  }

  /** Documented items in strictly increasing order of start line. */
  predicate DocsRising(docs: seq<Documented>) {
    forall a, b :: 0 <= a < b < |docs| ==> docs[a].item.lineStart < docs[b].item.lineStart
  }

  lemma {:induction false} GenerateAllRising(todo: seq<CodeItem>, generate: string -> Option<string>)
    requires Rising(todo)
    ensures DocsRising(GenerateAll(todo, generate))
    decreases |todo|
  {
    if todo != [] {
      var rest := GenerateAll(todo[1..], generate);
      assert Rising(todo[1..]);
      GenerateAllRising(todo[1..], generate);
      if generate(todo[0].code).Some? {
        forall d | d in rest ensures todo[0].lineStart < d.item.lineStart {
          var j :| 0 <= j < |todo[1..]| && todo[1..][j] == d.item;
          assert todo[1..][j] == todo[j + 1];
        }
        ConsRising(Documented(todo[0], generate(todo[0].code).value), rest);
      }
    }
  }

  lemma ConsRising(head: Documented, rest: seq<Documented>)
    requires DocsRising(rest)
    requires forall d | d in rest :: head.item.lineStart < d.item.lineStart
    ensures DocsRising([head] + rest)
  {
    var r := [head] + rest;
    forall a, b | 0 <= a < b < |r| ensures r[a].item.lineStart < r[b].item.lineStart {
      assert r[b] == rest[b - 1] && r[b] in rest;
      if a > 0 {
        assert r[a] == rest[a - 1];
      }
    }
  }

  lemma RisingApart(docs: seq<Documented>)
    requires DocsRising(docs)
    ensures Apart(docs)
  {
    forall a, b | 0 <= a < b < |docs| ensures StartKey(docs[a]) != StartKey(docs[b]) {
    }
  }

  /** The R items lie inside the file, in rising order. */
  lemma ExtractedRInside(content: string)
    ensures Rising(ExtractR(content))
    ensures forall x | x in ExtractR(content) :: x.lineStart <= |Split(content)|
  {
    var items := ExtractR(content);
    forall a, b | 0 <= a < b < |items| ensures items[a].lineStart < items[b].lineStart {
      assert items[a] in items;
    }
  }

  /** The documentation generated for an R file fits it, one item per line. */
  lemma RDocsReady(content: string, generate: string -> Option<string>)
    ensures var docs := GenerateAll(Undocumented(ExtractR(content)), generate);
            Fits(docs, |Split(content)|) && Apart(docs)
  {
    var items := ExtractR(content);
    var todo := Undocumented(items);
    var docs := GenerateAll(todo, generate);
    ExtractedRInside(content);
    UndocumentedRising(items);
    GenerateAllRising(todo, generate);
    RisingApart(docs);
    forall j | 0 <= j < |docs| ensures docs[j].item.lineStart <= |Split(content)| {
      assert docs[j] in docs;
    }
  }

  /** When documentation is generated for an R file, the R injection of it
      is what gets written; since the extracted items lie inside the file on
      distinct lines, `RDocAboveDeclaration` places every block directly
      above its declaration. */
  lemma RProcessWrites(suffix: string, content: string, pythonItems: seq<CodeItem>,
                       generate: string -> Option<string>, syntaxError: string -> Option<string>)
    requires LanguageOf(suffix) == Some(R)
    ensures var docs := GenerateAll(Undocumented(ExtractR(content)), generate);
            && Fits(docs, |Split(content)|) && Apart(docs)
            && (docs != [] ==>
                  ProcessFile(suffix, content, pythonItems, generate, syntaxError, false).written
                    == Some(InjectR(content, docs)))
  {
    RDocsReady(content, generate);
    assert Lower(suffix) == ".r";
  }

  /** For a Python file with generated documentation: an item past the end
      of the file crashes the injector (reported by the outer handler);
      otherwise the injected text is written exactly when Python's parser
      accepts it. */
  lemma PythonProcessWrites(suffix: string, content: string, pythonItems: seq<CodeItem>,
                            generate: string -> Option<string>, syntaxError: string -> Option<string>)
    requires LanguageOf(suffix) == Some(Python)
    requires GenerateAll(Undocumented(pythonItems), generate) != []
    ensures var docs := GenerateAll(Undocumented(pythonItems), generate);
            var out := ProcessFile(suffix, content, pythonItems, generate, syntaxError, false);
            && (!Fits(docs, |Split(content)|) ==> out == Outcome(Crashed(IndexOutOfRange), None))
            && (Fits(docs, |Split(content)|) ==>
                  && (out.written.Some? <==> syntaxError(InjectPython(content, docs).value).None?)
                  && (out.written.Some? ==> out.written.value == InjectPython(content, docs).value))
  {
    assert Lower(suffix) == ".py";
  }
}
