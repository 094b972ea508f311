/** Line scanners that find documentation comment blocks. The same block
    rules serve the extractor (which only asks whether a block exists) and
    the parser (which splits it into sections). */
module Blocks {
  import opened Results
  import opened Text

  /** The line classes the scanners test for. */
  datatype LineClass = SqlHeader | SqlComment | Roxygen

  predicate Is(c: LineClass, line: string) {
    match c
    case SqlHeader => IsSqlHeader(line)
    case SqlComment => IsSqlComment(line)
    case Roxygen => IsRoxygen(line)
  }

  /** Index of the first line at or after `i` of class `p`, or `|lines|`
      when none is. */
  function FirstIndex(lines: seq<string>, i: nat, p: LineClass): (h: nat)
    requires i <= |lines|
    ensures i <= h <= |lines|
    ensures forall k :: i <= k < h ==> !Is(p, lines[k])
    ensures h < |lines| ==> Is(p, lines[h])
    decreases |lines| - i
  {
    if i == |lines| || Is(p, lines[i]) then i else FirstIndex(lines, i + 1, p)
  }

  /** End (exclusive) of the run of lines of class `p` that starts at `k`. */
  function RunEnd(lines: seq<string>, k: nat, p: LineClass): (e: nat)
    requires k <= |lines|
    ensures k <= e <= |lines|
    ensures forall j :: k <= j < e ==> Is(p, lines[j])
    ensures e < |lines| ==> !Is(p, lines[e])
    decreases |lines| - k
  {
    if k == |lines| || !Is(p, lines[k]) then k else RunEnd(lines, k + 1, p)
  }

  /** Some line of `lines` is of class `c`. */
  predicate HasLine(lines: seq<string>, c: LineClass) {
    exists k :: 0 <= k < |lines| && Is(c, lines[k])
  }

  /** The named states of the forward block scanners. */
  datatype ScanState = Outside | InBlock

  // ---------------------------------------------------------------- SQL

  /** A line that opens a SQL documentation block (its stripped form starts
      with `-- #`). */
  predicate IsSqlHeader(line: string) {
    StartsWith(Strip(line), "-- #")
  }

  /** A line that continues a SQL documentation block. */
  predicate IsSqlComment(line: string) {
    StartsWith(Strip(line), "--")
  }

  lemma SqlHeaderIsComment(line: string)
    requires IsSqlHeader(line)
    ensures IsSqlComment(line)
  {
    var s := Strip(line);
    assert s[..2] == s[..4][..2] == "-- #"[..2];
  }

  /** The SQL block loop from line `i`: outside a block, a header line opens
      one; inside, header and comment lines are collected and the first other
      line ends the scan. */
  function SqlBlockScan(lines: seq<string>, i: nat, st: ScanState): seq<string>
    requires i <= |lines|
    decreases |lines| - i
  {
    if i == |lines| then []
    else if IsSqlHeader(lines[i]) then [lines[i]] + SqlBlockScan(lines, i + 1, InBlock)
    else if st == InBlock && IsSqlComment(lines[i]) then [lines[i]] + SqlBlockScan(lines, i + 1, InBlock)
    else if st == InBlock then []
    else SqlBlockScan(lines, i + 1, Outside)
  }

  /** The documentation block of a SQL file, as both the extractor and the
      parser find it. */
  function SqlBlock(lines: seq<string>): seq<string> {
    SqlBlockScan(lines, 0, Outside)
  }

  /** Inside a block the scanner keeps exactly the run of comment lines. */
  lemma {:induction false} SqlRunShape(lines: seq<string>, i: nat)
    requires i <= |lines|
    ensures SqlBlockScan(lines, i, InBlock) == lines[i..RunEnd(lines, i, SqlComment)]
    decreases |lines| - i
  {
    if i < |lines| {
      if IsSqlHeader(lines[i]) {
        SqlHeaderIsComment(lines[i]);
      }
      if IsSqlComment(lines[i]) {
        SqlRunShape(lines, i + 1);
        var e := RunEnd(lines, i, SqlComment);
        assert lines[i..e] == [lines[i]] + lines[i + 1..e];
      }
    }
  }

  /** The SQL block is the first header line at or after `i` together with
      the comment lines that follow it, up to the first line that is not a
      comment; it is empty exactly when no line is a header. */
  lemma {:induction false} SqlBlockShapeFrom(lines: seq<string>, i: nat)
    requires i <= |lines|
    ensures var h := FirstIndex(lines, i, SqlHeader);
            SqlBlockScan(lines, i, Outside)
              == if h == |lines| then [] else lines[h..RunEnd(lines, h + 1, SqlComment)]
    decreases |lines| - i
  {
    if i == |lines| {
      assert FirstIndex(lines, i, SqlHeader) == |lines|;
    } else if IsSqlHeader(lines[i]) {
      SqlHeaderStep(lines, i);
    } else {
      SqlSkipStep(lines, i);
      SqlBlockShapeFrom(lines, i + 1);
    }
  }

  lemma SqlHeaderStep(lines: seq<string>, i: nat)
    requires i < |lines| && IsSqlHeader(lines[i])
    ensures FirstIndex(lines, i, SqlHeader) == i
    ensures SqlBlockScan(lines, i, Outside) == lines[i..RunEnd(lines, i + 1, SqlComment)]
  {
    SqlRunShape(lines, i + 1);
    var e := RunEnd(lines, i + 1, SqlComment);
    assert SqlBlockScan(lines, i, Outside) == [lines[i]] + SqlBlockScan(lines, i + 1, InBlock);
    assert lines[i..e] == [lines[i]] + lines[i + 1..e];
  }

  lemma SqlSkipStep(lines: seq<string>, i: nat)
    requires i < |lines| && !IsSqlHeader(lines[i])
    ensures FirstIndex(lines, i, SqlHeader) == FirstIndex(lines, i + 1, SqlHeader)
    ensures SqlBlockScan(lines, i, Outside) == SqlBlockScan(lines, i + 1, Outside)
  {
  }

  lemma SqlBlockShape(lines: seq<string>)
    ensures var h := FirstIndex(lines, 0, SqlHeader);
            SqlBlock(lines) == if h == |lines| then [] else lines[h..RunEnd(lines, h + 1, SqlComment)]
  {
    var h := FirstIndex(lines, 0, SqlHeader);
    calc {
      SqlBlock(lines);
      SqlBlockScan(lines, 0, Outside);
    == { SqlBlockShapeFrom(lines, 0); }
      if h == |lines| then [] else lines[h..RunEnd(lines, h + 1, SqlComment)];
    }
  }

  /** A SQL file has a documentation block exactly when one of its lines is a
      header line. */
  lemma SqlBlockIffHeader(lines: seq<string>)
    ensures SqlBlock(lines) != [] <==> HasLine(lines, SqlHeader)
  {
    SqlBlockShape(lines);
    var h := FirstIndex(lines, 0, SqlHeader);
    if h < |lines| {
      assert Is(SqlHeader, lines[h]);
      assert lines[h..RunEnd(lines, h + 1, SqlComment)] != [] by {
        assert RunEnd(lines, h + 1, SqlComment) >= h + 1;
      }
    }
  }

  // ---------------------------------------------------------------- Roxygen

  /** A Roxygen line: its stripped form starts with `#'`. */
  predicate IsRoxygen(line: string) {
    StartsWith(Strip(line), "#'")
  }

  /** Start of the maximal run of Roxygen lines that ends just above line `i`
      (0-based); equal to `i` when the line above is not Roxygen. */
  function DocRunStart(lines: seq<string>, i: nat): (k: nat)
    requires i <= |lines|
    ensures k <= i
    ensures forall j :: k <= j < i ==> IsRoxygen(lines[j])
    ensures k > 0 ==> !IsRoxygen(lines[k - 1])
    decreases i
  {
    if i == 0 || !IsRoxygen(lines[i - 1]) then i else DocRunStart(lines, i - 1)
  }

  /** The forward Roxygen scan from line `i`: the first contiguous run of
      Roxygen lines, paired with the line that ends it (none when the run
      reaches the end of the file). */
  function RoxygenBlockScan(lines: seq<string>, i: nat, st: ScanState): (seq<string>, Option<string>)
    requires i <= |lines|
    decreases |lines| - i
  {
    if i == |lines| then ([], None)
    else if IsRoxygen(lines[i]) then
      var (rest, next) := RoxygenBlockScan(lines, i + 1, InBlock);
      ([lines[i]] + rest, next)
    else if st == InBlock then ([], Some(lines[i]))
    else RoxygenBlockScan(lines, i + 1, Outside)
  }

  /** The Roxygen block of a file and the line that follows it. */
  function RoxygenBlock(lines: seq<string>): (seq<string>, Option<string>) {
    RoxygenBlockScan(lines, 0, Outside)
  }

  lemma {:induction false} RoxygenRunShape(lines: seq<string>, i: nat, st: ScanState)
    requires i <= |lines|
    requires st == InBlock || (i < |lines| && IsRoxygen(lines[i]))
    ensures var e := RunEnd(lines, i, Roxygen);
            RoxygenBlockScan(lines, i, st) == (lines[i..e], if e < |lines| then Some(lines[e]) else None)
    decreases |lines| - i
  {
    var e := RunEnd(lines, i, Roxygen);
    if i < |lines| && IsRoxygen(lines[i]) {
      RoxygenRunShape(lines, i + 1, InBlock);
      assert e == RunEnd(lines, i + 1, Roxygen);
      var r := RoxygenBlockScan(lines, i + 1, InBlock);
      assert RoxygenBlockScan(lines, i, st) == ([lines[i]] + r.0, r.1);
      assert lines[i..e] == [lines[i]] + lines[i + 1..e];
    } else {
      assert e == i;
      assert lines[i..e] == [];
    }
  }

  /** The Roxygen block is the run of marker lines that starts at the first
      marker line; the line right after it (if any) is the one the function
      name is read from. */
  lemma {:induction false} RoxygenBlockShapeFrom(lines: seq<string>, i: nat)
    requires i <= |lines|
    ensures var h := FirstIndex(lines, i, Roxygen);
            var e := if h == |lines| then h else RunEnd(lines, h, Roxygen);
            RoxygenBlockScan(lines, i, Outside) == (lines[h..e], if h < e < |lines| then Some(lines[e]) else None)
    decreases |lines| - i
  {
    if i < |lines| {
      if IsRoxygen(lines[i]) {
        assert FirstIndex(lines, i, Roxygen) == i;
        RoxygenRunShape(lines, i, Outside);
      } else {
        assert FirstIndex(lines, i, Roxygen) == FirstIndex(lines, i + 1, Roxygen);
        assert RoxygenBlockScan(lines, i, Outside) == RoxygenBlockScan(lines, i + 1, Outside);
        RoxygenBlockShapeFrom(lines, i + 1);
      }
    } else {
      assert lines[i..i] == [];
    }
  }

  lemma RoxygenBlockShape(lines: seq<string>)
    ensures var h := FirstIndex(lines, 0, Roxygen);
            var e := if h == |lines| then h else RunEnd(lines, h, Roxygen);
            RoxygenBlock(lines) == (lines[h..e], if h < e < |lines| then Some(lines[e]) else None)
  {
    RoxygenBlockShapeFrom(lines, 0);
  }

  /** A file has a Roxygen block exactly when one of its lines is a marker
      line. */
  lemma RoxygenBlockIffMarker(lines: seq<string>)
    ensures RoxygenBlock(lines).0 != [] <==> HasLine(lines, Roxygen)
  {
    RoxygenBlockShape(lines);
    var h := FirstIndex(lines, 0, Roxygen);
    if h < |lines| {
      assert Is(Roxygen, lines[h]);
      assert RunEnd(lines, h, Roxygen) > h by {
        assert RunEnd(lines, h, Roxygen) != h;
      }
      assert lines[h..RunEnd(lines, h, Roxygen)][0] == lines[h];
    } else {
      assert lines[h..h] == [];
    }
  }

  /** A run of class `p` from `k` that stops at `n` ends at `n`. */
  lemma {:induction false} RunEndAt(lines: seq<string>, k: nat, n: nat, p: LineClass)
    requires k <= n < |lines|
    requires forall j :: k <= j < n ==> Is(p, lines[j])
    requires !Is(p, lines[n])
    ensures RunEnd(lines, k, p) == n
    decreases n - k
  {
    if k < n {
      RunEndAt(lines, k + 1, n, p);
    }
  }

  /** The first line of class `p` found from `i` is the one at `h` when all
      lines between are of another class. */
  lemma {:induction false} FirstIndexAt(lines: seq<string>, i: nat, h: nat, p: LineClass)
    requires i <= h < |lines|
    requires forall j :: i <= j < h ==> !Is(p, lines[j])
    requires Is(p, lines[h])
    ensures FirstIndex(lines, i, p) == h
    decreases h - i
  {
    if i < h {
      FirstIndexAt(lines, i + 1, h, p);
    }
  }

  /** Lines appended after a file that already has a SQL documentation block
      do not change its block, provided the first of them cannot continue it. */
  lemma SqlBlockOfPrefix(a: seq<string>, b: seq<string>)
    requires HasLine(a, SqlHeader)
    requires b != [] && !IsSqlComment(b[0])
    ensures SqlBlock(a + b) == SqlBlock(a)
  {
    var h := FirstIndex(a, 0, SqlHeader);
    assert h < |a| by {
      var k :| 0 <= k < |a| && Is(SqlHeader, a[k]);
    }
    FirstIndexExtend(a, b, SqlHeader);
    assert !Is(SqlComment, b[0]);
    RunEndExtend(a, b, h + 1, SqlComment);
    var e := RunEnd(a, h + 1, SqlComment);
    SliceOfPrefix(a, b, h, e);
    SqlBlockShape(a);
    SqlBlockShape(a + b);
  }

  lemma SliceOfPrefix<T>(a: seq<T>, b: seq<T>, i: nat, j: nat)
    requires i <= j <= |a|
    ensures (a + b)[i..j] == a[i..j]
  {
    assert forall k :: i <= k < j ==> (a + b)[k] == a[k];
  }

  /** Lines appended after a file do not move its first line of class `p`. */
  lemma FirstIndexExtend(a: seq<string>, b: seq<string>, p: LineClass)
    requires FirstIndex(a, 0, p) < |a|
    ensures FirstIndex(a + b, 0, p) == FirstIndex(a, 0, p)
  {
    var h := FirstIndex(a, 0, p);
    assert (a + b)[h] == a[h];
    forall j | 0 <= j < h ensures !Is(p, (a + b)[j]) {
      assert (a + b)[j] == a[j];
    }
    FirstIndexAt(a + b, 0, h, p);
  }

  /** Lines appended after a file do not move the end of a run of class `p`
      in it, provided the first of them is not of class `p`. */
  lemma RunEndExtend(a: seq<string>, b: seq<string>, k: nat, p: LineClass)
    requires k <= |a| && b != [] && !Is(p, b[0])
    ensures RunEnd(a + b, k, p) == RunEnd(a, k, p)
  {
    var e := RunEnd(a, k, p);
    assert (a + b)[e] == if e < |a| then a[e] else b[0];
    forall j | k <= j < e ensures Is(p, (a + b)[j]) {
      assert (a + b)[j] == a[j];
    }
    RunEndAt(a + b, k, e, p);
  }

  /** A blank line and any lines after a file with a SQL documentation block
      leave its block alone. */
  lemma SqlBlockAfterBlank(a: seq<string>, s: seq<string>)
    requires HasLine(a, SqlHeader)
    ensures SqlBlock(a + [""] + s) == SqlBlock(a)
  {
    StripUnchanged("");
    assert a + [""] + s == a + ([""] + s);
    SqlBlockOfPrefix(a, [""] + s);
  }
}
