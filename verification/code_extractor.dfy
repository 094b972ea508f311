/** The extractor: finds the documentable items of a SQL or R file, and
    dispatches on the file suffix. Python items come from the Python parser,
    which is not part of this model, so they enter as a parameter. */
module CodeExtractor {
  import opened Results
  import opened Text
  import opened Blocks
  import opened FileTypes
  import opened Patterns

  datatype ItemKind = Function | Class | AsyncFunction | Query

  /** A 1-based line number. */
  type LineNo = n: nat | 1 <= n witness 1

  /** A documentable item: its kind, name and source text, the lines it spans
      (1-based, inclusive), and whether documentation already sits with it. */
  datatype CodeItem = CodeItem(
    kind: ItemKind,
    name: string,
    code: string,
    lineStart: LineNo,
    lineEnd: nat,
    hasDocumentation: bool,
    existingDoc: string)

  /** The item's text is exactly lines `lineStart..lineEnd` of the file. */
  predicate Spans(item: CodeItem, lines: seq<string>) {
    item.lineStart <= item.lineEnd <= |lines|
    && item.code == Join(lines[item.lineStart - 1..item.lineEnd])
  }

  // ---------------------------------------------------------------- SQL

  /** Index of the first line at or after `i` on which `f` finds something,
      or `|lines|`. */
  function FirstFound(lines: seq<string>, i: nat, f: string -> Option<string>): (k: nat)
    requires i <= |lines|
    ensures i <= k <= |lines|
    ensures forall m :: i <= m < k ==> f(lines[m]).None?
    ensures k < |lines| ==> f(lines[k]).Some?
    decreases |lines| - i
  {
    if i == |lines| || f(lines[i]).Some? then i else FirstFound(lines, i + 1, f)
  }

  /** The name of a SQL file's item: the first CREATE FUNCTION/PROCEDURE
      name in the file, or the fixed name `SQL Query`. */
  function SqlItemName(lines: seq<string>): (name: string)
    ensures (forall m :: 0 <= m < |lines| ==> SearchCreate(lines[m]).None?) ==> name == "SQL Query"
    ensures forall k :: 0 <= k < |lines| && SearchCreate(lines[k]).Some?
              && (forall m :: 0 <= m < k ==> SearchCreate(lines[m]).None?)
              ==> name == SearchCreate(lines[k]).value
  {
    var k := FirstFound(lines, 0, SearchCreate);
    if k < |lines| then SearchCreate(lines[k]).value else "SQL Query"
  }

  /** The single item of a SQL file: the whole file as one query. */
  function ExtractSql(content: string): (items: seq<CodeItem>)
    ensures |items| == 1
    ensures items[0].kind == Query && items[0].lineStart == 1
    ensures Spans(items[0], Split(content)) && items[0].lineEnd == |Split(content)|
    ensures items[0].hasDocumentation <==> HasLine(Split(content), SqlHeader)
    ensures items[0].name == SqlItemName(Split(content))
    ensures items[0].existingDoc == Join(SqlBlock(Split(content)))
  {
    var lines := Split(content);
    var block := SqlBlock(lines);
    SqlBlockIffHeader(lines);
    JoinSplit(content);
    assert lines[0..|lines|] == lines;
    [CodeItem(Query, SqlItemName(lines), content, 1, |lines|, block != [], if block != [] then Join(block) else "")]
  }

  // ---------------------------------------------------------------- R

  /** The brace counter of the end-of-function search. */
  datatype BraceState = BraceState(depth: int, inFunction: bool)

  /** The character loop over one line from index `k`: `{` opens (and marks
      that the body has begun), `}` closes, and the loop stops, reporting
      `true`, at a `}` that brings the count back to zero inside a body. */
  function ScanChars(line: string, k: nat, st: BraceState): (r: (BraceState, bool))
    requires k <= |line|
    ensures r.1 ==> r.0.inFunction && r.0.depth == 0
    ensures st.inFunction ==> r.0.inFunction
    decreases |line| - k
  {
    if k == |line| then (st, false)
    else if line[k] == '{' then ScanChars(line, k + 1, BraceState(st.depth + 1, true))
    else if line[k] == '}' then
      var st' := BraceState(st.depth - 1, st.inFunction);
      if st'.inFunction && st'.depth == 0 then (st', true) else ScanChars(line, k + 1, st')
    else ScanChars(line, k + 1, st)
  }

  /** The line loop from line `j`: the 1-based number of the line whose
      closing brace ends the function, or `None` when the loop ends without
      one (end of file, or a line that leaves a begun body at depth zero
      without a closing brace, such as `}{`). */
  function FindEnd(lines: seq<string>, j: nat, st: BraceState): (r: Option<nat>)
    requires j <= |lines|
    ensures r.Some? ==> j < r.value <= |lines|
    decreases |lines| - j
  {
    if j == |lines| then None
    else
      var (st', closed) := ScanChars(lines[j], 0, st);
      if closed then Some(j + 1)
      else if st'.inFunction && st'.depth == 0 then None
      else FindEnd(lines, j + 1, st')
  }

  /** The function end search started on the declaration line `i`. */
  function FunctionEnd(lines: seq<string>, i: nat): (r: Option<nat>)
    requires i < |lines|
    ensures r.Some? ==> i < r.value <= |lines|
  {
    FindEnd(lines, i, BraceState(0, false))
  }

  /** A body that opens on the declaration line and closes on a later line,
      with no braces in between, ends on that later line. */
  lemma BracedBodyEnds(lines: seq<string>, i: nat, j: nat)
    requires i < j < |lines|
    requires ScanChars(lines[i], 0, BraceState(0, false)) == (BraceState(1, true), false)
    requires forall m :: i < m < j ==> forall c :: 0 <= c < |lines[m]| ==> lines[m][c] != '{' && lines[m][c] != '}'
    requires lines[j] == "}"
    ensures FunctionEnd(lines, i) == Some(j + 1)
  {
    MiddleLines(lines, i + 1, j);
    assert ScanChars(lines[j], 1, BraceState(1, true)).0 == BraceState(1, true);
  }

  lemma MiddleLines(lines: seq<string>, m: nat, j: nat)
    requires m <= j < |lines|
    requires forall n :: m <= n < j ==> forall c :: 0 <= c < |lines[n]| ==> lines[n][c] != '{' && lines[n][c] != '}'
    ensures FindEnd(lines, m, BraceState(1, true)) == FindEnd(lines, j, BraceState(1, true))
    decreases j - m
  {
    if m < j {
      NoBraces(lines[m], 0, BraceState(1, true));
      MiddleLines(lines, m + 1, j);
    }
  }

  lemma NoBraces(line: string, k: nat, st: BraceState)
    requires k <= |line|
    requires forall c :: 0 <= c < |line| ==> line[c] != '{' && line[c] != '}'
    ensures ScanChars(line, k, st) == (st, false)
    decreases |line| - k
  {
    if k < |line| {
      NoBraces(line, k + 1, st);
    }
  }

  // ------------------------------------------ where an R function ends

  /** What one character does to the brace count. */
  function Delta(c: char): int {
    if c == '{' then 1 else if c == '}' then -1 else 0
  }

  /** Opening minus closing braces in `s`. */
  function Net(s: string): int {
    if s == [] then 0 else Delta(s[0]) + Net(s[1..])
  }

  /** Opening minus closing braces over whole lines. */
  function LinesNet(ls: seq<string>): int {
    if ls == [] then 0 else Net(ls[0]) + LinesNet(ls[1..])
  }

  /** Some line of `ls` holds an opening brace. */
  predicate BegunIn(ls: seq<string>) {
    exists n :: 0 <= n < |ls| && '{' in ls[n]
  }

  /** The counter after whole lines `ls`, starting from `st`. */
  function StateAfter(ls: seq<string>, st: BraceState): BraceState {
    BraceState(st.depth + LinesNet(ls), st.inFunction || BegunIn(ls))
  }

  /** The character at `c` of `line`, scanned from `k` with counter `st`,
      is a `}` that brings the count to zero after a `{` has been seen. */
  predicate ClosesAt(line: string, k: nat, st: BraceState, c: nat) {
    k <= c < |line| && line[c] == '}'
    && (st.inFunction || '{' in line[k..c])
    && st.depth + Net(line[k..c + 1]) == 0
  }

  /** The counter after one character. */
  function Step(st: BraceState, ch: char): BraceState {
    BraceState(st.depth + Delta(ch), st.inFunction || ch == '{')
  }

  /** The character loop stops exactly when some `}` closes the body; when
      it does not stop, the counter holds the net count and whether a `{`
      was seen. */
  lemma {:induction false} ScanCharsSpec(line: string, k: nat, st: BraceState)
    requires k <= |line|
    ensures ScanChars(line, k, st).1 <==> exists c :: ClosesAt(line, k, st, c)
    ensures !ScanChars(line, k, st).1 ==>
              ScanChars(line, k, st).0 == BraceState(st.depth + Net(line[k..]), st.inFunction || '{' in line[k..])
    decreases |line| - k
  {
    if k < |line| {
      var k1 := k + 1;
      var st1 := Step(st, line[k]);
      ScanCharsSpec(line, k1, st1);
      RestShift(line, k);
      CloseHere(line, k, st);
      if !ClosesAt(line, k, st, k) {
        CloseLater(line, k, st, k1, st1);
        assert ScanChars(line, k, st) == ScanChars(line, k1, st1);
      }
    }
  }

  /** The first character of the rest of a line, then the rest after it. */
  lemma RestShift(line: string, k: nat)
    requires k < |line|
    ensures Net(line[k..]) == Delta(line[k]) + Net(line[k + 1..])
    ensures '{' in line[k..] <==> line[k] == '{' || '{' in line[k + 1..]
  {
    assert line[k..][1..] == line[k + 1..];
    assert line[k..] == [line[k]] + line[k + 1..];
  }

  /** The character at `k` itself closes the body. */
  lemma CloseHere(line: string, k: nat, st: BraceState)
    requires k < |line|
    ensures ClosesAt(line, k, st, k) <==> line[k] == '}' && st.inFunction && st.depth - 1 == 0
  {
    assert line[k..k] == [];
    assert line[k..k + 1] == [line[k]];
    assert line[k..k + 1][1..] == [];
    assert Net(line[k..k + 1]) == Delta(line[k]);
  }

  /** A later character closes the body scanned from `k` exactly when it
      closes the body scanned from `k + 1` with the counter stepped over `k`. */
  lemma CloseShift(line: string, k: nat, st: BraceState, c: nat)
    requires k < c < |line|
    ensures ClosesAt(line, k, st, c) <==> ClosesAt(line, k + 1, Step(st, line[k]), c)
  {
    assert line[k..c + 1][1..] == line[k + 1..c + 1];
    assert line[k..c] == [line[k]] + line[k + 1..c];
  }

  /** When `k` does not close the body, a close from `k` is a close from `k + 1`. */
  lemma CloseLater(line: string, k: nat, st: BraceState, k1: nat, st1: BraceState)
    requires k < |line| && !ClosesAt(line, k, st, k)
    requires k1 == k + 1 && st1 == Step(st, line[k])
    ensures (exists c :: ClosesAt(line, k, st, c)) <==> exists c :: ClosesAt(line, k1, st1, c)
  {
    if exists c :: ClosesAt(line, k, st, c) {
      var c :| ClosesAt(line, k, st, c);
      CloseShift(line, k, st, c);
    }
    if exists c :: ClosesAt(line, k1, st1, c) {
      var c :| ClosesAt(line, k1, st1, c);
      CloseShift(line, k, st, c);
    }
  }

  /** Line `m`, scanned with the counter left by lines `j..m`, closes the body. */
  ghost predicate LineCloses(lines: seq<string>, j: nat, st: BraceState, m: nat)
    requires j <= m < |lines|
  {
    exists c :: ClosesAt(lines[m], 0, StateAfter(lines[j..m], st), c)
  }

  /** After line `m` a body has begun and the count is back to zero. */
  predicate LineStalls(lines: seq<string>, j: nat, st: BraceState, m: nat)
    requires j <= m < |lines|
  {
    var s := StateAfter(lines[j..m + 1], st);
    s.inFunction && s.depth == 0
  }

  /** Scanning from line `j` with counter `st`, line `e` (1-based) is the
      first whose closing brace ends the body, and no earlier line left a
      begun body at depth zero. */
  ghost predicate EndsAt(lines: seq<string>, j: nat, st: BraceState, e: nat) {
    j < e <= |lines|
    && LineCloses(lines, j, st, e - 1)
    && forall m :: j <= m < e - 1 ==> !LineCloses(lines, j, st, m) && !LineStalls(lines, j, st, m)
  }

  /** The counter after lines `j..m` is the counter after line `j` carried
      over lines `j + 1..m`. */
  lemma StateShift(lines: seq<string>, j: nat, m: nat, st: BraceState)
    requires j < m <= |lines|
    ensures StateAfter(lines[j..m], st)
              == StateAfter(lines[j + 1..m], BraceState(st.depth + Net(lines[j]), st.inFunction || '{' in lines[j]))
  {
    var ls := lines[j..m];
    assert ls[0] == lines[j] && ls[1..] == lines[j + 1..m];
    assert BegunIn(ls) <==> '{' in lines[j] || BegunIn(lines[j + 1..m]) by {
      if BegunIn(ls) {
        var n :| 0 <= n < |ls| && '{' in ls[n];
        if n > 0 {
          assert lines[j + 1..m][n - 1] == ls[n];
        }
      }
      if BegunIn(lines[j + 1..m]) {
        var n :| 0 <= n < |lines[j + 1..m]| && '{' in lines[j + 1..m][n];
        assert ls[n + 1] == lines[j + 1..m][n];
      }
    }
  }

  /** What the character loop says about line `j` in terms of the line
      predicates. */
  lemma LineScan(lines: seq<string>, j: nat, st: BraceState)
    requires j < |lines|
    ensures ScanChars(lines[j], 0, st).1 <==> LineCloses(lines, j, st, j)
    ensures !ScanChars(lines[j], 0, st).1 ==>
              ScanChars(lines[j], 0, st).0 == BraceState(st.depth + Net(lines[j]), st.inFunction || '{' in lines[j])
    ensures LineStalls(lines, j, st, j) <==> (st.inFunction || '{' in lines[j]) && st.depth + Net(lines[j]) == 0
  {
    ScanCharsSpec(lines[j], 0, st);
    assert lines[j][0..] == lines[j];
    assert StateAfter(lines[j..j], st) == st;
    StateShift(lines, j, j + 1, st);
    assert StateAfter(lines[j + 1..j + 1], BraceState(st.depth + Net(lines[j]), st.inFunction || '{' in lines[j]))
             == BraceState(st.depth + Net(lines[j]), st.inFunction || '{' in lines[j]);
  }

  /** Past a line that neither closes nor stalls, the end is the same
      whether counted from that line or from the next with the counter
      carried over it. */
  lemma EndsShift(lines: seq<string>, j: nat, st: BraceState, e: nat)
    requires j < |lines| && !LineCloses(lines, j, st, j) && !LineStalls(lines, j, st, j)
    ensures EndsAt(lines, j, st, e) <==> EndsAt(lines, j + 1, BraceState(st.depth + Net(lines[j]), st.inFunction || '{' in lines[j]), e)
  {
    var j1 := j + 1;
    var st1 := BraceState(st.depth + Net(lines[j]), st.inFunction || '{' in lines[j]);
    forall m | j1 <= m < |lines|
      ensures LineCloses(lines, j, st, m) <==> LineCloses(lines, j1, st1, m)
      ensures LineStalls(lines, j, st, m) <==> LineStalls(lines, j1, st1, m)
    {
      StateShift(lines, j, m, st);
      StateShift(lines, j, m + 1, st);
    }
    if EndsAt(lines, j, st, e) {
      assert e != j1;
      forall m | j1 <= m < e - 1 ensures !LineCloses(lines, j1, st1, m) && !LineStalls(lines, j1, st1, m) {
        assert !LineCloses(lines, j, st, m) && !LineStalls(lines, j, st, m);
      }
      assert LineCloses(lines, j1, st1, e - 1);
    }
  }

  /** The line loop returns `Some(e)` exactly when line `e` ends the body. */
  lemma {:induction false} FindEndSpec(lines: seq<string>, j: nat, st: BraceState, e: nat)
    requires j <= |lines|
    ensures FindEnd(lines, j, st) == Some(e) <==> EndsAt(lines, j, st, e)
    decreases |lines| - j
  {
    if j < |lines| {
      LineScan(lines, j, st);
      var st1 := BraceState(st.depth + Net(lines[j]), st.inFunction || '{' in lines[j]);
      if !LineCloses(lines, j, st, j) && !LineStalls(lines, j, st, j) {
        FindEndSpec(lines, j + 1, st1, e);
        EndsShift(lines, j, st, e);
      }
    }
  }

  /** Line `e` (1-based) ends the function declared on line `i`: braces are
      counted from the start of the declaration line. */
  ghost predicate BodyEndsAt(lines: seq<string>, i: nat, e: nat) {
    EndsAt(lines, i, BraceState(0, false), e)
  }

  /** No line ends the function declared on line `i`. */
  ghost predicate NeverEnds(lines: seq<string>, i: nat) {
    forall e: nat :: !BodyEndsAt(lines, i, e)
  }

  /** The search for the end of the function declared on line `i` finds
      line `e` exactly when the braces first balance there, and finds
      nothing exactly when they never do. */
  lemma FunctionEndSpec(lines: seq<string>, i: nat)
    requires i < |lines|
    ensures forall e: nat :: FunctionEnd(lines, i) == Some(e) <==> BodyEndsAt(lines, i, e)
    ensures FunctionEnd(lines, i).None? <==> NeverEnds(lines, i)
  {
    forall e: nat ensures FunctionEnd(lines, i) == Some(e) <==> BodyEndsAt(lines, i, e) {
      FindEndSpec(lines, i, BraceState(0, false), e);
    }
  }

  /** The item for the function `name` declared on line `i` whose body ends
      on line `end`, with the Roxygen lines directly above it as existing
      documentation. */
  function RItem(lines: seq<string>, i: nat, end: nat, name: string): (item: CodeItem)
    requires i < end <= |lines|
    ensures item.lineStart == i + 1 && item.lineEnd == end && item.name == name
    ensures Spans(item, lines)
    ensures item.hasDocumentation <==> i > 0 && IsRoxygen(lines[i - 1])
    ensures item.existingDoc == DocAbove(lines, i)
  {
    var k := DocRunStart(lines, i);
    CodeItem(Function, name, Join(lines[i..end]), i + 1, end, k < i, if k < i then Join(lines[k..i]) else "")
  }

  /** What the R extractor promises about one item of the file `lines`, with
      `decl` the declaration matcher (`MatchRDecl` in the extractor). */
  predicate IsRItem(lines: seq<string>, item: CodeItem, decl: string -> Option<string>) {
    && item.kind == Function
    && Spans(item, lines)
    && decl(lines[item.lineStart - 1]) == Some(item.name)
    && (item.hasDocumentation <==> item.lineStart >= 2 && IsRoxygen(lines[item.lineStart - 2]))
    && RDocAndEnd(lines, item.lineStart - 1, item)
  }

  /** The item declared on line `i` carries the Roxygen run directly above
      that line as its existing documentation, and ends on the line where
      the end search stops (`FunctionEndSpec`: where the braces first
      balance), or on the declaration line itself when it finds none. */
  predicate RDocAndEnd(lines: seq<string>, i: nat, item: CodeItem)
    requires i < |lines|
  {
    item.existingDoc == DocAbove(lines, i) && item.lineEnd == FunctionEnd(lines, i).GetOr(i + 1)
  }

  /** The maximal run of Roxygen lines directly above line `i`, joined. */
  function DocAbove(lines: seq<string>, i: nat): string
    requires i <= |lines|
  {
    Join(lines[DocRunStart(lines, i)..i])
  }

  /** Items in file order that do not overlap. */
  predicate Ordered(items: seq<CodeItem>) {
    forall a, b :: 0 <= a < b < |items| ==> items[a].lineEnd < items[b].lineStart
  }

  /** The line loop of the R extractor from line `i`, with `decl` matching
      declaration lines. The end of a function that never closes is taken to
      be its declaration line (`end_line = i + 1`), so the loop always moves
      forward. */
  function ScanR(lines: seq<string>, i: nat, decl: string -> Option<string>): (items: seq<CodeItem>)
    requires i <= |lines|
    decreases |lines| - i
  {
    if i == |lines| then []
    else match decl(lines[i])
      case None => ScanR(lines, i + 1, decl)
      case Some(name) =>
        var end := FunctionEnd(lines, i).GetOr(i + 1);
        [RItem(lines, i, end, name)] + ScanR(lines, end, decl)
  }

  /** What the scan promises about the items it reports from line `i`. */
  predicate ScannedFrom(lines: seq<string>, i: nat, items: seq<CodeItem>, decl: string -> Option<string>) {
    && (forall x | x in items :: IsRItem(lines, x, decl) && i < x.lineStart)
    && Ordered(items)
  }

  /** Every item the scan reports is a declaration with its span, they come
      in file order without overlap, and all lie below line `i`. */
  lemma {:induction false} ScanRSpec(lines: seq<string>, i: nat, decl: string -> Option<string>)
    requires i <= |lines|
    ensures ScannedFrom(lines, i, ScanR(lines, i, decl), decl)
    decreases |lines| - i
  {
    if i < |lines| {
      match decl(lines[i])
      case None =>
        ScanRSpec(lines, i + 1, decl);
      case Some(name) =>
        var end := FunctionEnd(lines, i).GetOr(i + 1);
        ScanRSpec(lines, end, decl);
        ConsItem(lines, i, end, RItem(lines, i, end, name), ScanR(lines, end, decl), decl);
    }
  }

  /** A declaration item followed by what the scan finds after its end. */
  lemma ConsItem(lines: seq<string>, i: nat, end: nat, head: CodeItem, rest: seq<CodeItem>, decl: string -> Option<string>)
    requires i < end <= |lines|
    requires IsRItem(lines, head, decl) && head.lineStart == i + 1 && head.lineEnd == end
    requires ScannedFrom(lines, end, rest, decl)
    ensures ScannedFrom(lines, i, [head] + rest, decl)
  {
    ConsAll(head, rest, x => IsRItem(lines, x, decl) && i < x.lineStart);
    OrderedCons(head, rest);
  }

  lemma ConsAll(head: CodeItem, rest: seq<CodeItem>, ok: CodeItem -> bool)
    requires ok(head) && forall x | x in rest :: ok(x)
    ensures forall x | x in [head] + rest :: ok(x)
  {
    assert forall x | x in [head] + rest :: x == head || x in rest;
  }

  /** An item ending above every item of an ordered list can go in front. */
  lemma OrderedCons(head: CodeItem, rest: seq<CodeItem>)
    requires Ordered(rest) && forall x | x in rest :: head.lineEnd < x.lineStart
    ensures Ordered([head] + rest)
  {
    var items := [head] + rest;
    forall a, b | 0 <= a < b < |items| ensures items[a].lineEnd < items[b].lineStart {
      assert items[b] == rest[b - 1];
      if a > 0 {
        assert items[a] == rest[a - 1];
      }
    }
  }

  /** Every declaration line from `i` on lies inside one of the items found:
      the scan misses no function except those nested in another's body. */
  lemma {:induction false} ScanRCovers(lines: seq<string>, i: nat, k: nat, decl: string -> Option<string>)
    requires i <= k < |lines| && decl(lines[k]).Some?
    ensures exists t :: 0 <= t < |ScanR(lines, i, decl)|
              && ScanR(lines, i, decl)[t].lineStart - 1 <= k < ScanR(lines, i, decl)[t].lineEnd
    decreases |lines| - i
  {
    var items := ScanR(lines, i, decl);
    match decl(lines[i])
    case None =>
      assert k != i;
      ScanRCovers(lines, i + 1, k, decl);
    case Some(name) =>
      var end := FunctionEnd(lines, i).GetOr(i + 1);
      var rest := ScanR(lines, end, decl);
      assert items == [RItem(lines, i, end, name)] + rest;
      if k < end {
        assert items[0].lineStart - 1 <= k < items[0].lineEnd;
      } else {
        ScanRCovers(lines, end, k, decl);
        var t :| 0 <= t < |rest| && rest[t].lineStart - 1 <= k < rest[t].lineEnd;
        assert items[t + 1] == rest[t];
      }
  }

  /** The R extractor's items: every declaration with its span and
      documentation flag, in file order, missing no top-level declaration. */
  function ExtractR(content: string): (items: seq<CodeItem>)
    ensures forall x | x in items :: x.kind == Function && 1 <= x.lineStart <= x.lineEnd <= |Split(content)|
    ensures ScannedFrom(Split(content), 0, items, MatchRDecl)
  {
    ScanRSpec(Split(content), 0, MatchRDecl);
    ScanR(Split(content), 0, MatchRDecl)
  }

  /** Each extracted R function ends on the line where its braces, counted
      from the start of its declaration line, first balance; when they never
      do, it is the declaration line alone. */
  lemma ExtractedREnds(content: string)
    ensures forall x | x in ExtractR(content) ::
              && 1 <= x.lineStart <= |Split(content)|
              && (|| BodyEndsAt(Split(content), x.lineStart - 1, x.lineEnd)
                  || (x.lineEnd == x.lineStart && NeverEnds(Split(content), x.lineStart - 1)))
  {
    var lines := Split(content);
    forall x | x in ExtractR(content)
      ensures && 1 <= x.lineStart <= |lines|
              && (|| BodyEndsAt(lines, x.lineStart - 1, x.lineEnd)
                  || (x.lineEnd == x.lineStart && NeverEnds(lines, x.lineStart - 1)))
    {
      assert IsRItem(lines, x, MatchRDecl);
      FunctionEndSpec(lines, x.lineStart - 1);
    }
  }

  /** The loop as the source writes it: `end_line` starts at `i`, so a
      declaration whose body never closes sends the loop back to the same
      line, appending one more item on every pass until the interpreter runs
      out of memory. `fuel` bounds the iterations; `None` means the fuel ran
      out, and the items of an unfinished run are not kept. */
  function ScanRAsWritten(lines: seq<string>, i: nat, decl: string -> Option<string>, fuel: nat): (r: Option<seq<CodeItem>>)
    requires i <= |lines|
    decreases fuel
  {
    if fuel == 0 then None
    else if i == |lines| then Some([])
    else match decl(lines[i])
      case None => ScanRAsWritten(lines, i + 1, decl, fuel - 1)
      case Some(name) =>
        var end := FunctionEnd(lines, i).GetOr(i);
        if end == i then ScanRAsWritten(lines, i, decl, fuel - 1)
        else
          var rest := ScanRAsWritten(lines, end, decl, fuel - 1);
          if rest.None? then None else Some([RItem(lines, i, end, name)] + rest.value)
  }

  /** Once the loop reaches a declaration that never closes, no amount of
      fuel lets it finish. */
  lemma {:induction false} AsWrittenHangs(lines: seq<string>, i: nat, decl: string -> Option<string>, fuel: nat)
    requires i < |lines| && decl(lines[i]).Some? && FunctionEnd(lines, i).None?
    ensures ScanRAsWritten(lines, i, decl, fuel) == None
    decreases fuel
  {
    if fuel > 0 {
      AsWrittenHangs(lines, i, decl, fuel - 1);
    }
  }

  /** A body search that meets no brace before the end of the file finds
      no end. */
  lemma {:induction false} NoBracesToEnd(lines: seq<string>, j: nat)
    requires j <= |lines|
    requires forall m, c :: j <= m < |lines| && 0 <= c < |lines[m]| ==> lines[m][c] != '{' && lines[m][c] != '}'
    ensures FindEnd(lines, j, BraceState(0, false)) == None
    decreases |lines| - j
  {
    if j < |lines| {
      NoBraces(lines[j], 0, BraceState(0, false));
      NoBracesToEnd(lines, j + 1);
    }
  }

  /** A declaration such as `f <- function(x) x` whose body has no braces,
      with no brace anywhere below it, is such a declaration: the loop as
      written never gets past it. */
  lemma AsWrittenHangsOnBracelessDecl(lines: seq<string>, i: nat, name: string, rest: string, fuel: nat)
    requires i < |lines| && lines[i] == name + " <- function(" + rest
    requires Captured(name, NameStart, NameChar)
    requires forall m, c :: i <= m < |lines| && 0 <= c < |lines[m]| ==> lines[m][c] != '{' && lines[m][c] != '}'
    ensures ScanRAsWritten(lines, i, MatchRDecl, fuel) == None
  {
    RDeclNamed(name, rest);
    NoBracesToEnd(lines, i);
    AsWrittenHangs(lines, i, MatchRDecl, fuel);
  }

  /** Whenever the loop as written does finish, it agrees with `ScanR`. */
  lemma {:induction false} AsWrittenAgrees(lines: seq<string>, i: nat, decl: string -> Option<string>, fuel: nat)
    requires i <= |lines| && ScanRAsWritten(lines, i, decl, fuel).Some?
    ensures ScanRAsWritten(lines, i, decl, fuel) == Some(ScanR(lines, i, decl))
    decreases fuel
  {
    if i < |lines| {
      match decl(lines[i])
      case None =>
        AsWrittenAgrees(lines, i + 1, decl, fuel - 1);
      case Some(name) =>
        var fe := FunctionEnd(lines, i);
        if fe.None? {
          AsWrittenHangs(lines, i, decl, fuel);
          assert false;
        } else {
          AsWrittenAgrees(lines, fe.value, decl, fuel - 1);
        }
    }
  }

  /** When every declaration from `i` on closes its body, the loop as written
      finishes within `|lines| - i + 1` iterations. */
  lemma {:induction false} AsWrittenFinishes(lines: seq<string>, i: nat, decl: string -> Option<string>)
    requires i <= |lines|
    requires forall k :: i <= k < |lines| && decl(lines[k]).Some? ==> FunctionEnd(lines, k).Some?
    ensures ScanRAsWritten(lines, i, decl, |lines| - i + 1).Some?
    decreases |lines| - i
  {
    if i < |lines| {
      match decl(lines[i])
      case None =>
        AsWrittenFinishes(lines, i + 1, decl);
      case Some(name) =>
        var end := FunctionEnd(lines, i).value;
        AsWrittenFinishes(lines, end, decl);
        FuelMonotone(lines, end, decl, |lines| - end + 1, |lines| - i);
    }
  }

  /** More fuel never changes a finished result. */
  lemma {:induction false} FuelMonotone(lines: seq<string>, i: nat, decl: string -> Option<string>, f: nat, g: nat)
    requires i <= |lines| && f <= g && ScanRAsWritten(lines, i, decl, f).Some?
    ensures ScanRAsWritten(lines, i, decl, g) == ScanRAsWritten(lines, i, decl, f)
    decreases f
  {
    if i < |lines| {
      match decl(lines[i])
      case None =>
        FuelMonotone(lines, i + 1, decl, f - 1, g - 1);
      case Some(name) =>
        var end := FunctionEnd(lines, i).GetOr(i);
        FuelMonotone(lines, end, decl, f - 1, g - 1);
    }
  }

  // ---------------------------------------------------------------- dispatch

  /** `extract`: the items of a file with the given suffix and content;
      `pythonItems` stands for what the Python parser finds in `content`.
      An unsupported suffix raises, modelled as `Err`. */
  function Extract(suffix: string, content: string, pythonItems: seq<CodeItem>): (r: Result<seq<CodeItem>>)
    ensures r.Err? <==> LanguageOf(suffix).None?
    ensures r.Err? ==> r.message == UnsupportedMessage(suffix)
    ensures LanguageOf(suffix) == Some(Sql) ==> r == Ok(ExtractSql(content))
    ensures LanguageOf(suffix) == Some(R) ==> r == Ok(ExtractR(content))
    ensures LanguageOf(suffix) == Some(Python) ==> r == Ok(pythonItems)
  {
    match LanguageOf(suffix)
    case None => Err(UnsupportedMessage(suffix))
    case Some(Python) => Ok(pythonItems)
    case Some(Sql) => Ok(ExtractSql(content))
    case Some(R) => Ok(ExtractR(content))
  }
}
