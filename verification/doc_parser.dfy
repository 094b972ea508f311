/** The parser: reads the existing documentation of a file back into its
    sections. SQL and R documentation is found in the file text; a Python
    docstring is located by the Python parser, which is not part of this
    model, and enters as a parameter. */
module DocParser {
  import opened Results
  import opened Text
  import opened Blocks
  import opened FileTypes
  import opened Patterns

  /** The parsed documentation: each section is `None` until the parser
      stores a value for it; `rawDoc` is the documentation text as found. */
  datatype DocRecord = DocRecord(
    name: Option<string>,
    description: Option<string>,
    parameters: Option<string>,
    returnsDoc: Option<string>,  // the `returns` section
    examples: Option<string>,
    rawDoc: string)

  datatype Section = Description | Parameters | Returns | Examples

  /** `result[section] = value` */
  function Store(rec: DocRecord, sec: Section, value: string): (r: DocRecord)
    ensures r.rawDoc == rec.rawDoc && r.name == rec.name
  {
    match sec
    case Description => rec.(description := Some(value))
    case Parameters => rec.(parameters := Some(value))
    case Returns => rec.(returnsDoc := Some(value))
    case Examples => rec.(examples := Some(value))
  }

  /** The value stored for a section made of `lines`:
      `'\n'.join(lines).strip()`. */
  function Body(lines: seq<string>): string {
    Strip(Join(lines))
  }

  /** A record with every section unset. */
  function EmptyRecord(name: Option<string>, rawDoc: string): DocRecord {
    DocRecord(name, None, None, None, None, rawDoc)
  }

  // ---------------------------------------------------------------- SQL

  /** The section a stripped SQL line announces; the four tests are
      substring tests, tried in this order, and `Example` also matches
      `Examples`. */
  function SqlMarker(stripped: string): Option<Section> {
    if Contains(stripped, "-- ## Description") then Some(Description)
    else if Contains(stripped, "-- ## Parameters") then Some(Parameters)
    else if Contains(stripped, "-- ## Returns") then Some(Returns)
    else if Contains(stripped, "-- ## Example") then Some(Examples)
    else None
  }

  /** The marker line that opens each section in the SQL format. */
  function SqlMarkerText(sec: Section): string {
    match sec
    case Description => "-- ## Description"
    case Parameters => "-- ## Parameters"
    case Returns => "-- ## Returns"
    case Examples => "-- ## Example"
  }

  /** A stripped line that names the function: it starts with `-- #` but not
      with `-- ##`. */
  predicate IsSqlNameLine(stripped: string) {
    StartsWith(stripped, "-- #") && !StartsWith(stripped, "-- ##")
  }

  /** The state of the SQL section loop: the record so far, the open section
      (none before the first marker) and the content lines collected for it. */
  datatype SqlState = SqlState(rec: DocRecord, current: Option<Section>, content: seq<string>)

  /** One line of the SQL section loop. A name line sets the name (the last
      one wins); a marker stores the open section's content, even when there
      is none, and opens the new section; any other comment line inside a
      section contributes its text after `--`, stripped. */
  function SqlStep(st: SqlState, line: string): (r: SqlState)
    ensures r.rec.rawDoc == st.rec.rawDoc
  {
    var s := Strip(line);
    if IsSqlNameLine(s) then st.(rec := st.rec.(name := Some(Strip(s[4..]))))
    else match SqlMarker(s)
      case Some(sec) =>
        if st.current.Some? then SqlState(Store(st.rec, st.current.value, Body(st.content)), Some(sec), [])
        else st.(current := Some(sec))
      case None =>
        if st.current.Some? && StartsWith(s, "--") then st.(content := st.content + [Strip(s[2..])])
        else st
  }

  /** The SQL section loop over `lines`. */
  function SqlSections(st: SqlState, lines: seq<string>): (r: SqlState)
    ensures r.rec.rawDoc == st.rec.rawDoc
    decreases |lines|
  {
    if lines == [] then st else SqlSections(SqlStep(st, lines[0]), lines[1..])
  }

  /** The loop over two pieces is the loop over the second, started where the
      first left off. */
  lemma {:induction false} SqlSectionsAppend(st: SqlState, a: seq<string>, b: seq<string>)
    ensures SqlSections(st, a + b) == SqlSections(SqlSections(st, a), b)
    decreases |a|
  {
    if a != [] {
      assert (a + b)[1..] == a[1..] + b;
      SqlSectionsAppend(SqlStep(st, a[0]), a[1..], b);
    } else {
      assert a + b == b;
    }
  }

  /** The last open section is stored only when it has content. */
  function SqlFinish(st: SqlState): DocRecord {
    if st.current.Some? && st.content != [] then Store(st.rec, st.current.value, Body(st.content))
    else st.rec
  }

  /** The sections of a SQL documentation block. */
  function ParseSqlBlock(block: seq<string>): (rec: DocRecord)
    ensures rec.rawDoc == Join(block)
  {
    SqlFinish(SqlSections(SqlState(EmptyRecord(None, Join(block)), None, []), block))
  }

  /** `_parse_sql`: the documentation block of a SQL file, or `None` when the
      file has none. */
  function ParseSql(content: string): (r: Option<DocRecord>)
    ensures r.Some? <==> HasLine(Split(content), SqlHeader)
    ensures r.Some? ==> r.value.rawDoc == Join(SqlBlock(Split(content)))
  {
    var lines := Split(content);
    SqlBlockIffHeader(lines);
    var block := SqlBlock(lines);
    if block == [] then None else Some(ParseSqlBlock(block))
  }

  // ------------------------------------------------- SQL documentation format

  /** A content line the SQL format can carry unchanged: no whitespace at
      either end and no `#` (which would make it a name or marker line). */
  predicate PlainSqlText(x: string) {
    Trimmed(x) && '#' !in x
  }

  /** Each line with `prefix` in front of it. */
  function Prefixed(prefix: string, xs: seq<string>): (r: seq<string>)
    ensures |r| == |xs| && forall k :: 0 <= k < |xs| ==> r[k] == prefix + xs[k]
  {
    seq(|xs|, k requires 0 <= k < |xs| => prefix + xs[k])
  }

  /** Each text line as a SQL comment line. */
  function Commented(xs: seq<string>): seq<string> {
    Prefixed("-- ", xs)
  }

  /** A section in the SQL format: its marker line, then its lines. */
  function SqlSectionLines(marker: string, xs: seq<string>): seq<string> {
    [marker] + Commented(xs)
  }

  /** A SQL documentation block in the markdown comment format: the name
      header and the four section markers, each followed by its lines. */
  function RenderSql(name: string, d: seq<string>, p: seq<string>, r: seq<string>, e: seq<string>): seq<string> {
    ["-- # " + name]
      + SqlSectionLines("-- ## Description", d)
      + SqlSectionLines("-- ## Parameters", p)
      + SqlSectionLines("-- ## Returns", r)
      + SqlSectionLines("-- ## Example", e)
  }

  /** A whole section in the format, met while another section is open:
      the open one is stored and the new one holds the section's lines. */
  lemma SqlSectionStep(st: SqlState, marker: string, sec: Section, xs: seq<string>)
    requires st.current.Some?
    requires marker == SqlMarkerText(sec)
    requires forall k :: 0 <= k < |xs| ==> PlainSqlText(xs[k])
    ensures SqlSections(st, SqlSectionLines(marker, xs))
              == SqlState(Store(st.rec, st.current.value, Body(st.content)), Some(sec), xs)
  {
    SqlMarkerStep(st, marker, sec);
    var st' := SqlState(Store(st.rec, st.current.value, Body(st.content)), Some(sec), []);
    SqlSectionsAppend(st, [marker], Commented(xs));
    SqlContentRun(st', xs);
    assert [] + xs == xs;
  }

  /** Inside a section, plain comment lines only add their text. */
  lemma {:induction false} SqlContentRun(st: SqlState, xs: seq<string>)
    requires st.current.Some?
    requires forall k :: 0 <= k < |xs| ==> PlainSqlText(xs[k])
    ensures SqlSections(st, Commented(xs)) == st.(content := st.content + xs)
    decreases |xs|
  {
    if xs == [] {
      assert st.content + xs == st.content;
    } else {
      CommentedTail(xs);
      SqlPlainStep(st, xs[0]);
      SqlContentRun(st.(content := st.content + [xs[0]]), xs[1..]);
      HeadThenRest(st.content, xs);
    }
  }

  lemma CommentedTail(xs: seq<string>)
    requires xs != []
    ensures Commented(xs)[0] == "-- " + xs[0] && Commented(xs)[1..] == Commented(xs[1..])
  {
  }

  lemma HeadThenRest<T>(c: seq<T>, xs: seq<T>)
    requires xs != []
    ensures c + [xs[0]] + xs[1..] == c + xs
  {
    assert [xs[0]] + xs[1..] == xs;
  }

  lemma SqlPlainStep(st: SqlState, x: string)
    requires st.current.Some? && PlainSqlText(x)
    ensures SqlStep(st, "-- " + x) == st.(content := st.content + [x])
  {
    PlainCommentLine(x);
  }

  /** A commented plain line is neither a name line nor a marker; it
      starts with `--` and holds `x` after it. */
  lemma PlainCommentLine(x: string)
    requires PlainSqlText(x)
    ensures var s := Strip("-- " + x);
            && !IsSqlNameLine(s) && SqlMarker(s).None?
            && StartsWith(s, "--") && Strip(s[2..]) == x
  {
    MarkedLine("--", x);
    assert "-- " + x == "--" + " " + x;
    var s := Strip("-- " + x);
    assert '#' !in s;
    HashFreeNotMarker(s);
  }

  /** A stripped line without `#` is neither a name line nor a marker. */
  lemma HashFreeNotMarker(s: string)
    requires '#' !in s
    ensures !IsSqlNameLine(s) && SqlMarker(s).None?
  {
    NotContainsMissingChar(s, "-- #", 3);
    NotContainsMissingChar(s, "-- ## Description", 3);
    NotContainsMissingChar(s, "-- ## Parameters", 3);
    NotContainsMissingChar(s, "-- ## Returns", 3);
    NotContainsMissingChar(s, "-- ## Example", 3);
    assert !StartsWith(s, "-- #") by {
      if StartsWith(s, "-- #") {
        StartsWithContains(s, "-- #");
      }
    }
  }

  /** A marker line closes the open section, storing its content, and opens
      its own. */
  lemma SqlMarkerStep(st: SqlState, marker: string, sec: Section)
    requires st.current.Some?
    requires marker == SqlMarkerText(sec)
    ensures SqlStep(st, marker) == SqlState(Store(st.rec, st.current.value, Body(st.content)), Some(sec), [])
  {
    StripUnchanged(marker);
    assert !StartsWith(marker, "-- #") || StartsWith(marker, "-- ##") by {
      assert marker[..5] == "-- ##";
    }
    SqlMarkerOf(marker, sec);
  }

  lemma SqlMarkerOf(marker: string, sec: Section)
    requires marker == SqlMarkerText(sec)
    ensures SqlMarker(marker) == Some(sec)
  {
    match sec
    case Description => ContainsItself(marker);
    case Parameters => ParametersMarker();
    case Returns => ReturnsMarker();
    case Examples => ExamplesMarker();
  }

  lemma ContainsItself(s: string)
    ensures Contains(s, s)
  {
    assert StartsWith(s, s);
    StartsWithContains(s, s);
  }

  lemma ParametersMarker()
    ensures SqlMarker("-- ## Parameters") == Some(Parameters)
  {
    ContainsItself("-- ## Parameters");
    NotLonger("-- ## Parameters", "-- ## Description");
  }

  lemma ReturnsMarker()
    ensures SqlMarker("-- ## Returns") == Some(Returns)
  {
    ContainsItself("-- ## Returns");
    NotLonger("-- ## Returns", "-- ## Description");
    NotLonger("-- ## Returns", "-- ## Parameters");
  }

  lemma ExamplesMarker()
    ensures SqlMarker("-- ## Example") == Some(Examples)
  {
    ContainsItself("-- ## Example");
    NotLonger("-- ## Example", "-- ## Description");
    NotLonger("-- ## Example", "-- ## Parameters");
    ExampleNotReturns();
  }

  /** The two markers have the same length and differ in their seventh
      character. */
  lemma ExampleNotReturns()
    ensures !Contains("-- ## Example", "-- ## Returns")
  {
    assert "-- ## Example"[6] == 'E' && "-- ## Returns"[6] == 'R';
    NotLonger("-- ## Example", "-- ## Returns");
  }

  /** A string does not contain a longer one, nor a different one of its
      own length. */
  lemma NotLonger(s: string, p: string)
    requires |s| < |p| || (|s| == |p| && s != p)
    ensures !Contains(s, p)
  {
    if Contains(s, p) {
      ContainsLength(s, p);
    }
  }

  /** A name header opening a block sets the name and leaves the rest. */
  lemma SqlNameStep(st: SqlState, name: string)
    requires Trimmed(name) && (name == [] || name[0] != '#')
    ensures SqlStep(st, "-- # " + name) == st.(rec := st.rec.(name := Some(name)))
  {
    MarkedLine("-- #", name);
    assert "-- # " + name == "-- #" + " " + name;
    var s := Strip("-- # " + name);
    assert s[..4] == "-- #";
    if |s| >= 5 {
      assert s[4] == ' ';
    }
  }

  /** A block written in the format reads back as its parts: the name, each
      section's lines joined and stripped, and the example section only when
      it has lines (a section is stored when the next marker is met, but the
      last one only when it has content). */
  lemma SqlRoundTrip(name: string, d: seq<string>, p: seq<string>, r: seq<string>, e: seq<string>)
    requires Trimmed(name) && (name == [] || name[0] != '#')
    requires forall k :: 0 <= k < |d| ==> PlainSqlText(d[k])
    requires forall k :: 0 <= k < |p| ==> PlainSqlText(p[k])
    requires forall k :: 0 <= k < |r| ==> PlainSqlText(r[k])
    requires forall k :: 0 <= k < |e| ==> PlainSqlText(e[k])
    ensures var block := RenderSql(name, d, p, r, e);
            ParseSqlBlock(block)
              == DocRecord(Some(name), Some(Body(d)), Some(Body(p)), Some(Body(r)),
                           if e == [] then None else Some(Body(e)), Join(block))
  {
    var block := RenderSql(name, d, p, r, e);
    var a0 := ["-- # " + name];
    var a1 := a0 + SqlSectionLines("-- ## Description", d);
    var a2 := a1 + SqlSectionLines("-- ## Parameters", p);
    var a3 := a2 + SqlSectionLines("-- ## Returns", r);
    var rec0 := EmptyRecord(None, Join(block));
    var s0 := SqlState(rec0, None, []);
    var s1 := SqlState(rec0.(name := Some(name)), None, []);
    var s2 := SqlState(s1.rec, Some(Description), d);
    assert SqlSections(s0, a1) == s2 by {
      SqlNameStep(s0, name);
      assert SqlSections(s0, a0) == s1;
      SqlFirstSection(s1, d);
      SqlSectionsAppend(s0, a0, SqlSectionLines("-- ## Description", d));
    }
    var s3 := SqlState(Store(s2.rec, Description, Body(d)), Some(Parameters), p);
    assert SqlSections(s0, a2) == s3 by {
      SqlSectionStep(s2, "-- ## Parameters", Parameters, p);
      SqlSectionsAppend(s0, a1, SqlSectionLines("-- ## Parameters", p));
    }
    var s4 := SqlState(Store(s3.rec, Parameters, Body(p)), Some(Returns), r);
    assert SqlSections(s0, a3) == s4 by {
      SqlSectionStep(s3, "-- ## Returns", Returns, r);
      SqlSectionsAppend(s0, a2, SqlSectionLines("-- ## Returns", r));
    }
    var s5 := SqlState(Store(s4.rec, Returns, Body(r)), Some(Examples), e);
    assert SqlSections(s0, block) == s5 by {
      SqlSectionStep(s4, "-- ## Example", Examples, e);
      SqlSectionsAppend(s0, a3, SqlSectionLines("-- ## Example", e));
    }
  }

  /** The description marker right after the name opens the first section. */
  lemma SqlFirstSection(st: SqlState, d: seq<string>)
    requires st.current.None? && st.content == []
    requires forall k :: 0 <= k < |d| ==> PlainSqlText(d[k])
    ensures SqlSections(st, SqlSectionLines("-- ## Description", d)) == st.(current := Some(Description), content := d)
  {
    StripUnchanged("-- ## Description");
    assert "-- ## Description"[..5] == "-- ##";
    SqlMarkerOf("-- ## Description", Description);
    var st' := st.(current := Some(Description));
    assert SqlStep(st, "-- ## Description") == st';
    SqlSectionsAppend(st, ["-- ## Description"], Commented(d));
    SqlContentRun(st', d);
    assert [] + d == d;
  }
  // ---------------------------------------------------------------- NumPy

  /** The section a stripped docstring line heads, if it is a header. */
  function NumpyHeader(stripped: string): Option<Section> {
    if stripped == "Parameters" then Some(Parameters)
    else if stripped == "Returns" then Some(Returns)
    else if stripped == "Examples" || stripped == "Example" then Some(Examples)
    else None
  }

  /** A docstring line that is not a section header. */
  predicate NotHeader(line: string) {
    NumpyHeader(Strip(line)).None?
  }

  /** The state of the docstring loop: the record so far, the open section,
      the lines collected for it, and the description lines (collected
      separately while the description is open). */
  datatype NumpyState = NumpyState(rec: DocRecord, current: Section, content: seq<string>, desc: seq<string>)

  /** Which sections a header stores before it opens its own.
      `AsWritten`: `Parameters` stores the description, `Returns` stores the
      parameters only when they are open and `Examples` the returns only when
      they are open, so other open content is dropped.
      `EveryHeader`: every header stores whatever section is open. */
  datatype HeaderRule = AsWritten | EveryHeader

  /** The open section stored, when it has lines. */
  function StoreOpen(st: NumpyState): (r: DocRecord)
    ensures r.rawDoc == st.rec.rawDoc && r.name == st.rec.name
  {
    if st.current == Description then
      if st.desc != [] then st.rec.(description := Some(Body(st.desc))) else st.rec
    else if st.content != [] then Store(st.rec, st.current, Body(st.content))
    else st.rec
  }

  /** A header line: store under `rule`, then open section `h` empty. */
  function OnHeader(st: NumpyState, h: Section, rule: HeaderRule): (r: NumpyState)
    ensures r.rec.rawDoc == st.rec.rawDoc && r.rec.name == st.rec.name
    ensures r.current == h && r.content == []
  {
    match rule
    case EveryHeader =>
      NumpyState(StoreOpen(st), h, [], if st.current == Description then [] else st.desc)
    case AsWritten =>
      match h
      case Parameters =>
        NumpyState(if st.desc != [] then st.rec.(description := Some(Body(st.desc))) else st.rec, h, [], [])
      case Returns =>
        NumpyState(if st.current == Parameters && st.content != [] then Store(st.rec, Parameters, Body(st.content)) else st.rec,
                   h, [], st.desc)
      case Examples =>
        NumpyState(if st.current == Returns && st.content != [] then Store(st.rec, Returns, Body(st.content)) else st.rec,
                   h, [], st.desc)
      case Description => st.(current := h, content := [])  // no header opens the description
  }

  /** A line that is not a header joins the open section. */
  function AddLines(st: NumpyState, xs: seq<string>): NumpyState {
    if st.current == Description then st.(desc := st.desc + xs) else st.(content := st.content + xs)
  }

  /** The docstring loop from line `i`. A header skips the line after it
      when that line, stripped, starts with `-` (the dashed underline). */
  function NumpyLoop(lines: seq<string>, i: nat, st: NumpyState, rule: HeaderRule): (r: NumpyState)
    requires i <= |lines|
    ensures r.rec.rawDoc == st.rec.rawDoc && r.rec.name == st.rec.name
    decreases |lines| - i
  {
    if i == |lines| then st
    else match NumpyHeader(Strip(lines[i]))
      case Some(h) =>
        var next := if i + 1 < |lines| && StartsWith(Strip(lines[i + 1]), "-") then i + 2 else i + 1;
        NumpyLoop(lines, next, OnHeader(st, h, rule), rule)
      case None =>
        NumpyLoop(lines, i + 1, AddLines(st, [lines[i]]), rule)
  }

  /** After the loop: as written, the description when it is open and has
      lines, otherwise the open section when it has lines. */
  function NumpyFinish(st: NumpyState, rule: HeaderRule): (r: DocRecord)
    ensures r.rawDoc == st.rec.rawDoc && r.name == st.rec.name
  {
    match rule
    case EveryHeader => StoreOpen(st)
    case AsWritten =>
      if st.current == Description && st.desc != [] then st.rec.(description := Some(Body(st.desc)))
      else if st.content != [] then Store(st.rec, st.current, Body(st.content))
      else st.rec
  }

  /** The docstring lines of a function or class named `name`, parsed. */
  function ParseNumpyLines(name: string, rawDoc: string, lines: seq<string>, rule: HeaderRule): (rec: DocRecord)
    ensures rec.name == Some(name) && rec.rawDoc == rawDoc
  {
    NumpyFinish(NumpyLoop(lines, 0, NumpyState(EmptyRecord(Some(name), rawDoc), Description, [], []), rule), rule)
  }

  /** `_parse_numpy_docstring` under `rule`; the record's raw text is the
      docstring between triple quotes on lines of their own. */
  function ParseNumpy(name: string, docstring: string, rule: HeaderRule): (rec: DocRecord)
    ensures rec.name == Some(name)
    ensures rec.rawDoc == "\"\"\"\n" + docstring + "\n\"\"\""
  {
    ParseNumpyLines(name, "\"\"\"\n" + docstring + "\n\"\"\"", Split(docstring), rule)
  }

  /** Lines that are not headers join the open section one by one. */
  lemma {:induction false} NumpyRun(lines: seq<string>, i: nat, j: nat, st: NumpyState, rule: HeaderRule)
    requires i <= j <= |lines|
    requires forall k :: i <= k < j ==> NotHeader(lines[k])
    ensures NumpyLoop(lines, i, st, rule) == NumpyLoop(lines, j, AddLines(st, lines[i..j]), rule)
    decreases j - i
  {
    if i == j {
      assert lines[i..j] == [];
      assert AddLines(st, []) == st;
    } else {
      NumpyRun(lines, i + 1, j, AddLines(st, [lines[i]]), rule);
      assert lines[i..j] == [lines[i]] + lines[i + 1..j];
      AddLinesTwice(st, [lines[i]], lines[i + 1..j]);
    }
  }

  /** Adding two runs of lines is adding them joined. */
  lemma AddLinesTwice(st: NumpyState, xs: seq<string>, ys: seq<string>)
    ensures AddLines(AddLines(st, xs), ys) == AddLines(st, xs + ys)
  {
    if st.current == Description {
      assert st.desc + xs + ys == st.desc + (xs + ys);
    } else {
      assert st.content + xs + ys == st.content + (xs + ys);
    }
  }

  /** A header followed by its dashed underline. */
  predicate HeaderPair(word: string, dashes: string, h: Section) {
    (word, dashes, h) in {("Parameters", "----------", Parameters), ("Returns", "-------", Returns),
                          ("Examples", "--------", Examples)}
  }

  lemma NumpyHeaderStep(lines: seq<string>, i: nat, word: string, dashes: string, h: Section, st: NumpyState, rule: HeaderRule)
    requires i + 2 <= |lines| && lines[i] == word && lines[i + 1] == dashes && HeaderPair(word, dashes, h)
    ensures NumpyLoop(lines, i, st, rule) == NumpyLoop(lines, i + 2, OnHeader(st, h, rule), rule)
  {
    StripUnchanged(word);
    StripUnchanged(dashes);
    assert NumpyHeader(Strip(lines[i])) == Some(h);
    assert StartsWith(Strip(lines[i + 1]), "-");
  }

  /** What a section made of `xs` reads back as: nothing when it is empty. */
  function SectionValue(xs: seq<string>): Option<string> {
    if xs == [] then None else Some(Body(xs))
  }

  /** A docstring in the NumPy layout: the description, then the three
      headers in order, each underlined and followed by its lines. */
  function RenderNumpy(d: seq<string>, p: seq<string>, r: seq<string>, e: seq<string>): seq<string> {
    d + ["Parameters", "----------"] + p + ["Returns", "-------"] + r + ["Examples", "--------"] + e
  }

  predicate NoHeaders(xs: seq<string>) {
    forall k :: 0 <= k < |xs| ==> NotHeader(xs[k])
  }

  /** Under either rule, a docstring in the canonical layout reads back as
      its sections, each joined and stripped, and unset when empty. */
  lemma NumpyCanonical(name: string, rawDoc: string, d: seq<string>, p: seq<string>, r: seq<string>, e: seq<string>, rule: HeaderRule)
    requires NoHeaders(d) && NoHeaders(p) && NoHeaders(r) && NoHeaders(e)
    ensures ParseNumpyLines(name, rawDoc, RenderNumpy(d, p, r, e), rule)
              == DocRecord(Some(name), SectionValue(d), SectionValue(p), SectionValue(r), SectionValue(e), rawDoc)
  {
    RenderNumpyShape(d, p, r, e);
    NumpyLayout(RenderNumpy(d, p, r, e), name, rawDoc, d, p, r, e, rule);
  }

  /** The canonical shape of `lines`: `d`, then each header with its
      underline followed by its lines. */
  predicate CanonicalLayout(lines: seq<string>, d: seq<string>, p: seq<string>, r: seq<string>, e: seq<string>) {
    var a := |d|;
    var b := a + 2 + |p|;
    var c := b + 2 + |r|;
    && |lines| == c + 2 + |e|
    && lines[0..a] == d
    && lines[a] == "Parameters" && lines[a + 1] == "----------"
    && lines[a + 2..b] == p
    && lines[b] == "Returns" && lines[b + 1] == "-------"
    && lines[b + 2..c] == r
    && lines[c] == "Examples" && lines[c + 1] == "--------"
    && lines[c + 2..|lines|] == e
  }

  /** Lines `i` to `j` hold the header-free section `xs`, and line `j` is the
      header `word` underlined by `dashes`. */
  predicate SectionThen(lines: seq<string>, i: nat, j: nat, xs: seq<string>, word: string, dashes: string) {
    && i <= j && j + 2 <= |lines| && lines[i..j] == xs && NoHeaders(xs)
    && lines[j] == word && lines[j + 1] == dashes
  }

  /** The lines from `i` to the end are the header-free section `xs`. */
  predicate TailFrom(lines: seq<string>, i: nat, xs: seq<string>) {
    i <= |lines| && lines[i..|lines|] == xs && NoHeaders(xs)
  }

  /** A canonical layout cut into its sections. */
  lemma CanonicalSections(lines: seq<string>, d: seq<string>, p: seq<string>, r: seq<string>, e: seq<string>)
    requires NoHeaders(d) && NoHeaders(p) && NoHeaders(r) && NoHeaders(e)
    requires CanonicalLayout(lines, d, p, r, e)
    ensures SectionThen(lines, 0, |d|, d, "Parameters", "----------")
    ensures SectionThen(lines, |d| + 2, |d| + 2 + |p|, p, "Returns", "-------")
    ensures SectionThen(lines, |d| + 2 + |p| + 2, |d| + 2 + |p| + 2 + |r|, r, "Examples", "--------")
    ensures TailFrom(lines, |d| + 2 + |p| + 2 + |r| + 2, e)
  {
  }

  /** `NumpyCanonical` for any line sequence laid out canonically. */
  lemma NumpyLayout(lines: seq<string>, name: string, rawDoc: string, d: seq<string>, p: seq<string>, r: seq<string>, e: seq<string>, rule: HeaderRule)
    requires NoHeaders(d) && NoHeaders(p) && NoHeaders(r) && NoHeaders(e)
    requires CanonicalLayout(lines, d, p, r, e)
    ensures ParseNumpyLines(name, rawDoc, lines, rule)
              == DocRecord(Some(name), SectionValue(d), SectionValue(p), SectionValue(r), SectionValue(e), rawDoc)
  {
    var rec0 := EmptyRecord(Some(name), rawDoc);
    var rec3 := rec0.(description := SectionValue(d), parameters := SectionValue(p), returnsDoc := SectionValue(r));
    CanonicalSections(lines, d, p, r, e);
    NumpyLayoutLoop(lines, |d|, |d| + 2 + |p|, |d| + 2 + |p| + 2 + |r|, rec0, d, p, r, e, rule);
    FinishExamples(rec3, e, rule);
  }

  /** The loop over a canonical layout ends in the example section, holding
      its lines, with the other three sections stored. */
  lemma NumpyLayoutLoop(lines: seq<string>, a: nat, b: nat, c: nat, rec0: DocRecord,
                        d: seq<string>, p: seq<string>, r: seq<string>, e: seq<string>, rule: HeaderRule)
    requires SectionThen(lines, 0, a, d, "Parameters", "----------")
    requires SectionThen(lines, a + 2, b, p, "Returns", "-------")
    requires SectionThen(lines, b + 2, c, r, "Examples", "--------") && TailFrom(lines, c + 2, e)
    requires rec0.description.None? && rec0.parameters.None? && rec0.returnsDoc.None?
    ensures NumpyLoop(lines, 0, NumpyState(rec0, Description, [], []), rule)
              == NumpyState(rec0.(description := SectionValue(d), parameters := SectionValue(p), returnsDoc := SectionValue(r)), Examples, e, [])
  {
    LayoutDescription(lines, a, d, rec0, rule);
    LayoutRest(lines, a + 2, b, c, p, r, e, rec0.(description := SectionValue(d)), rule);
  }

  /** The last three sections of a canonical layout. */
  lemma LayoutRest(lines: seq<string>, i: nat, b: nat, c: nat, p: seq<string>, r: seq<string>, e: seq<string>,
                   rec1: DocRecord, rule: HeaderRule)
    requires SectionThen(lines, i, b, p, "Returns", "-------")
    requires SectionThen(lines, b + 2, c, r, "Examples", "--------") && TailFrom(lines, c + 2, e)
    requires rec1.parameters.None? && rec1.returnsDoc.None?
    ensures NumpyLoop(lines, i, NumpyState(rec1, Parameters, [], []), rule)
              == NumpyState(rec1.(parameters := SectionValue(p), returnsDoc := SectionValue(r)), Examples, e, [])
  {
    LayoutParameters(lines, i, b, p, rec1, rule);
    LayoutLast(lines, b + 2, c, r, e, rec1.(parameters := SectionValue(p)), rule);
  }

  /** The last two sections of a canonical layout: returns, then examples to the end. */
  lemma LayoutLast(lines: seq<string>, i: nat, c: nat, r: seq<string>, e: seq<string>, rec2: DocRecord, rule: HeaderRule)
    requires SectionThen(lines, i, c, r, "Examples", "--------") && TailFrom(lines, c + 2, e)
    requires rec2.returnsDoc.None?
    ensures NumpyLoop(lines, i, NumpyState(rec2, Returns, [], []), rule)
              == NumpyState(rec2.(returnsDoc := SectionValue(r)), Examples, e, [])
  {
    LayoutReturns(lines, i, c, r, rec2, rule);
    ExamplesTail(lines, c + 2, rec2.(returnsDoc := SectionValue(r)), e, rule);
  }

  /** The example lines to the end join the open example section. */
  lemma ExamplesTail(lines: seq<string>, i: nat, rec: DocRecord, e: seq<string>, rule: HeaderRule)
    requires TailFrom(lines, i, e)
    ensures NumpyLoop(lines, i, NumpyState(rec, Examples, [], []), rule) == NumpyState(rec, Examples, e, [])
  {
    NumpyTail(lines, i, NumpyState(rec, Examples, [], []), e, rule);
    assert [] + e == e;
  }

  lemma LayoutDescription(lines: seq<string>, a: nat, d: seq<string>, rec0: DocRecord, rule: HeaderRule)
    requires SectionThen(lines, 0, a, d, "Parameters", "----------")
    requires rec0.description.None?
    ensures NumpyLoop(lines, 0, NumpyState(rec0, Description, [], []), rule)
              == NumpyLoop(lines, a + 2, NumpyState(rec0.(description := SectionValue(d)), Parameters, [], []), rule)
  {
    var st0 := NumpyState(rec0, Description, [], []);
    NumpySegment(lines, 0, a, st0, d, "Parameters", "----------", Parameters, rule);
    assert [] + d == d;
    assert AddLines(st0, d) == st0.(desc := d);
    if d == [] {
      assert rec0.(description := None) == rec0;
    }
  }

  lemma LayoutParameters(lines: seq<string>, i: nat, j: nat, p: seq<string>, rec1: DocRecord, rule: HeaderRule)
    requires SectionThen(lines, i, j, p, "Returns", "-------")
    requires rec1.parameters.None?
    ensures NumpyLoop(lines, i, NumpyState(rec1, Parameters, [], []), rule)
              == NumpyLoop(lines, j + 2, NumpyState(rec1.(parameters := SectionValue(p)), Returns, [], []), rule)
  {
    StoredSection(lines, i, j, NumpyState(rec1, Parameters, [], []), p, "Returns", "-------", Returns, rule);
    if p == [] {
      assert rec1.(parameters := None) == rec1;
    }
  }

  lemma LayoutReturns(lines: seq<string>, i: nat, j: nat, r: seq<string>, rec2: DocRecord, rule: HeaderRule)
    requires SectionThen(lines, i, j, r, "Examples", "--------")
    requires rec2.returnsDoc.None?
    ensures NumpyLoop(lines, i, NumpyState(rec2, Returns, [], []), rule)
              == NumpyLoop(lines, j + 2, NumpyState(rec2.(returnsDoc := SectionValue(r)), Examples, [], []), rule)
  {
    StoredSection(lines, i, j, NumpyState(rec2, Returns, [], []), r, "Examples", "--------", Examples, rule);
    if r == [] {
      assert rec2.(returnsDoc := None) == rec2;
    }
  }

  /** A section's lines, then the next header in canonical order: the
      section is stored (when it has lines) and the next one opened. */
  lemma StoredSection(lines: seq<string>, i: nat, j: nat, st: NumpyState, xs: seq<string>,
                      word: string, dashes: string, h: Section, rule: HeaderRule)
    requires SectionThen(lines, i, j, xs, word, dashes) && HeaderPair(word, dashes, h)
    requires (st.current, h) in {(Parameters, Returns), (Returns, Examples)} && st.desc == [] && st.content == []
    ensures NumpyLoop(lines, i, st, rule)
              == NumpyLoop(lines, j + 2, NumpyState(if xs == [] then st.rec else Store(st.rec, st.current, Body(xs)), h, [], []), rule)
  {
    NumpySegment(lines, i, j, st, xs, word, dashes, h, rule);
    assert [] + xs == xs;
    assert AddLines(st, xs) == st.(content := xs);
    NextHeader(st, xs, h, rule);
  }

  /** Lines without headers up to the end all join the open section. */
  lemma NumpyTail(lines: seq<string>, i: nat, st: NumpyState, xs: seq<string>, rule: HeaderRule)
    requires TailFrom(lines, i, xs)
    ensures NumpyLoop(lines, i, st, rule) == AddLines(st, xs)
  {
    NoHeadersSlice(lines, i, |lines|, xs);
    NumpyRun(lines, i, |lines|, st, rule);
  }

  /** A run of non-header lines `xs` from `i` to `j`, then a header pair. */
  lemma NumpySegment(lines: seq<string>, i: nat, j: nat, st: NumpyState, xs: seq<string>,
                     word: string, dashes: string, h: Section, rule: HeaderRule)
    requires SectionThen(lines, i, j, xs, word, dashes) && HeaderPair(word, dashes, h)
    ensures NumpyLoop(lines, i, st, rule) == NumpyLoop(lines, j + 2, OnHeader(AddLines(st, xs), h, rule), rule)
  {
    NoHeadersSlice(lines, i, j, xs);
    NumpyRun(lines, i, j, st, rule);
    NumpyHeaderStep(lines, j, word, dashes, h, AddLines(st, xs), rule);
  }

  lemma NoHeadersSlice(lines: seq<string>, i: nat, j: nat, xs: seq<string>)
    requires i <= j <= |lines| && lines[i..j] == xs && NoHeaders(xs)
    ensures forall k :: i <= k < j ==> NotHeader(lines[k])
  {
    forall k | i <= k < j ensures NotHeader(lines[k]) {
      assert lines[k] == xs[k - i];
    }
  }

  /** The canonical rendering has the canonical layout. */
  lemma RenderNumpyShape(d: seq<string>, p: seq<string>, r: seq<string>, e: seq<string>)
    ensures CanonicalLayout(RenderNumpy(d, p, r, e), d, p, r, e)
  {
    var lines := RenderNumpy(d, p, r, e);
    var a := |d|;
    var b := a + 2 + |p|;
    var c := b + 2 + |r|;
    assert lines[0..a] == d;
    assert lines[a + 2..b] == p;
    assert lines[b + 2..c] == r;
    assert lines[c + 2..|lines|] == e;
  }

  /** In the canonical order, the header after a section stores it under
      either rule. */
  lemma NextHeader(st: NumpyState, xs: seq<string>, h: Section, rule: HeaderRule)
    requires (st.current, h) in {(Parameters, Returns), (Returns, Examples)} && st.desc == []
    ensures OnHeader(st.(content := xs), h, rule)
              == NumpyState(if xs == [] then st.rec else Store(st.rec, st.current, Body(xs)), h, [], [])
  {
  }

  // ------------------------------------------------- NumPy sections dropped

  /** A docstring whose parameters are followed directly by examples. As
      written, the `Examples` header only stores an open returns section, so
      the parameters are lost; storing on every header keeps them. */
  lemma ParamsThenExamples(name: string, rawDoc: string, d: seq<string>, p: seq<string>, e: seq<string>, rule: HeaderRule)
    requires NoHeaders(d) && NoHeaders(p) && NoHeaders(e)
    ensures var lines := d + ["Parameters", "----------"] + p + ["Examples", "--------"] + e;
            ParseNumpyLines(name, rawDoc, lines, rule)
              == DocRecord(Some(name), SectionValue(d), if rule == AsWritten then None else SectionValue(p),
                           None, SectionValue(e), rawDoc)
  {
    var lines := d + ["Parameters", "----------"] + p + ["Examples", "--------"] + e;
    var a := |d|;
    var b := a + 2 + |p|;
    assert lines[0..a] == d;
    assert lines[a + 2..b] == p;
    assert lines[b + 2..|lines|] == e;
    ParamsThenExamplesLayout(lines, name, rawDoc, d, p, e, rule);
  }

  lemma ParamsThenExamplesLayout(lines: seq<string>, name: string, rawDoc: string, d: seq<string>, p: seq<string>, e: seq<string>, rule: HeaderRule)
    requires NoHeaders(d) && NoHeaders(p) && NoHeaders(e)
    requires var a := |d|;
             var b := a + 2 + |p|;
             && |lines| == b + 2 + |e|
             && lines[0..a] == d && lines[a] == "Parameters" && lines[a + 1] == "----------"
             && lines[a + 2..b] == p && lines[b] == "Examples" && lines[b + 1] == "--------"
             && lines[b + 2..|lines|] == e
    ensures ParseNumpyLines(name, rawDoc, lines, rule)
              == DocRecord(Some(name), SectionValue(d), if rule == AsWritten then None else SectionValue(p),
                           None, SectionValue(e), rawDoc)
  {
    var a := |d|;
    var b := a + 2 + |p|;
    var rec0 := EmptyRecord(Some(name), rawDoc);
    var rec1 := rec0.(description := SectionValue(d));
    var rec2 := if rule == AsWritten then rec1 else rec1.(parameters := SectionValue(p));
    assert SectionThen(lines, 0, a, d, "Parameters", "----------");
    assert SectionThen(lines, a + 2, b, p, "Examples", "--------") && TailFrom(lines, b + 2, e);
    ParamsThenExamplesLoop(lines, a, b, d, p, e, rec0, rule);
    FinishExamples(rec2, e, rule);
  }

  /** The loop over a description, parameters and examples. */
  lemma ParamsThenExamplesLoop(lines: seq<string>, a: nat, b: nat, d: seq<string>, p: seq<string>, e: seq<string>,
                               rec0: DocRecord, rule: HeaderRule)
    requires SectionThen(lines, 0, a, d, "Parameters", "----------")
    requires SectionThen(lines, a + 2, b, p, "Examples", "--------") && TailFrom(lines, b + 2, e)
    requires rec0.description.None? && rec0.parameters.None?
    ensures var rec1 := rec0.(description := SectionValue(d));
            NumpyLoop(lines, 0, NumpyState(rec0, Description, [], []), rule)
              == NumpyState(if rule == AsWritten then rec1 else rec1.(parameters := SectionValue(p)), Examples, e, [])
  {
    LayoutDescription(lines, a, d, rec0, rule);
    ExamplesRest(lines, a + 2, b, p, e, rec0.(description := SectionValue(d)), rule);
  }

  /** Finishing in the example section stores its lines. */
  lemma FinishExamples(rec: DocRecord, e: seq<string>, rule: HeaderRule)
    requires rec.examples.None?
    ensures NumpyFinish(NumpyState(rec, Examples, e, []), rule) == rec.(examples := SectionValue(e))
  {
    if e == [] {
      assert rec.(examples := None) == rec;
    }
  }

  /** The parameters section closed by the examples header, then the
      examples to the end. */
  lemma ExamplesRest(lines: seq<string>, i: nat, j: nat, p: seq<string>, e: seq<string>, rec1: DocRecord, rule: HeaderRule)
    requires SectionThen(lines, i, j, p, "Examples", "--------") && TailFrom(lines, j + 2, e)
    requires rec1.parameters.None?
    ensures NumpyLoop(lines, i, NumpyState(rec1, Parameters, [], []), rule)
              == NumpyState(if rule == AsWritten then rec1 else rec1.(parameters := SectionValue(p)), Examples, e, [])
  {
    var st4 := NumpyState(if rule == AsWritten then rec1 else rec1.(parameters := SectionValue(p)), Examples, [], []);
    ParametersThenExamples(lines, i, j, p, rec1, rule);
    NumpyTail(lines, j + 2, st4, e, rule);
    assert [] + e == e;
  }

  /** The parameters section closed by the examples header: stored only
      under `EveryHeader`. */
  lemma ParametersThenExamples(lines: seq<string>, i: nat, j: nat, p: seq<string>, rec1: DocRecord, rule: HeaderRule)
    requires SectionThen(lines, i, j, p, "Examples", "--------")
    requires rec1.parameters.None?
    ensures NumpyLoop(lines, i, NumpyState(rec1, Parameters, [], []), rule)
              == NumpyLoop(lines, j + 2, NumpyState(if rule == AsWritten then rec1 else rec1.(parameters := SectionValue(p)),
                                                    Examples, [], []), rule)
  {
    var st2 := NumpyState(rec1, Parameters, [], []);
    NumpySegment(lines, i, j, st2, p, "Examples", "--------", Examples, rule);
    assert [] + p == p;
    assert AddLines(st2, p) == st2.(content := p);
    if p == [] {
      assert rec1.(parameters := None) == rec1;
    }
  }

  /** A docstring whose description is followed directly by the returns.
      As written, only the `Parameters` header stores the description, so it
      is lost; storing on every header keeps it. */
  lemma DescriptionThenReturns(name: string, rawDoc: string, d: seq<string>, r: seq<string>, rule: HeaderRule)
    requires NoHeaders(d) && NoHeaders(r)
    ensures var lines := d + ["Returns", "-------"] + r;
            ParseNumpyLines(name, rawDoc, lines, rule)
              == DocRecord(Some(name), if rule == AsWritten then None else SectionValue(d), None,
                           SectionValue(r), None, rawDoc)
  {
    var lines := d + ["Returns", "-------"] + r;
    var a := |d|;
    assert lines[0..a] == d;
    assert lines[a + 2..|lines|] == r;
    var rec0 := EmptyRecord(Some(name), rawDoc);
    var rec1 := if rule == AsWritten then rec0 else rec0.(description := SectionValue(d));
    var st2 := NumpyState(rec1, Returns, [], if rule == AsWritten then d else []);
    DescriptionClosedByReturns(lines, a, d, rec0, rule);
    NumpyTail(lines, a + 2, st2, r, rule);
    assert [] + r == r;
    assert NumpyFinish(st2.(content := r), rule) == rec1.(returnsDoc := SectionValue(r)) by {
      if r == [] {
        assert rec1.(returnsDoc := None) == rec1;
      }
    }
  }

  /** A description closed directly by the returns header: stored only
      under `EveryHeader`; as written its lines stay behind. */
  lemma DescriptionClosedByReturns(lines: seq<string>, a: nat, d: seq<string>, rec0: DocRecord, rule: HeaderRule)
    requires SectionThen(lines, 0, a, d, "Returns", "-------")
    requires rec0.description.None?
    ensures NumpyLoop(lines, 0, NumpyState(rec0, Description, [], []), rule)
              == NumpyLoop(lines, a + 2, NumpyState(if rule == AsWritten then rec0 else rec0.(description := SectionValue(d)),
                                                    Returns, [], if rule == AsWritten then d else []), rule)
  {
    var st0 := NumpyState(rec0, Description, [], []);
    NumpySegment(lines, 0, a, st0, d, "Returns", "-------", Returns, rule);
    assert [] + d == d;
    assert AddLines(st0, d) == st0.(desc := d);
    if d == [] {
      assert rec0.(description := None) == rec0;
    }
  }

  // ---------------------------------------------------------------- R

  /** The state of the Roxygen loop: the record so far, the open section,
      the lines of an open returns or examples section, and the description
      and parameter lines, which are collected apart. */
  datatype RState = RState(rec: DocRecord, current: Section, content: seq<string>,
                           desc: seq<string>, params: seq<string>)

  /** Under `EveryHeader`, an open returns or examples section with lines is
      stored before a tag opens another section. */
  function FlushContent(st: RState, rule: HeaderRule): (r: RState)
    ensures r.rec.rawDoc == st.rec.rawDoc && r.rec.name == st.rec.name
    ensures r.current == st.current && r.desc == st.desc && r.params == st.params
  {
    if rule == EveryHeader && (st.current == Returns || st.current == Examples) && st.content != [] then
      st.(rec := Store(st.rec, st.current, Body(st.content)), content := [])
    else st
  }

  /** One Roxygen text (what follows `#'`, stripped). `@param` stores the
      description lines and starts or extends the parameter lines with its
      own text; `@return` stores the parameter lines and opens the returns
      with the rest of its line; `@examples` stores open returns with lines
      and opens the examples; `@export` is skipped; other text joins the
      open section (the parameters only once an `@param` was seen). As
      written, only `@examples` stores returns, so returns text still open
      when an `@param` follows is kept in the open content. */
  function RText(st: RState, t: string, rule: HeaderRule): (r: RState)
    ensures r.rec.rawDoc == st.rec.rawDoc && r.rec.name == st.rec.name
  {
    if StartsWith(t, "@param") then
      var s1 := FlushContent(st, rule);
      var s2 := if s1.desc != [] then s1.(rec := Store(s1.rec, Description, Body(s1.desc)), desc := []) else s1;
      s2.(current := Parameters, params := s2.params + [t])
    else if StartsWith(t, "@return") then
      var s1 := FlushContent(st, rule);
      var s2 := if s1.params != [] then s1.(rec := Store(s1.rec, Parameters, Body(s1.params)), params := []) else s1;
      s2.(current := Returns, content := [Strip(t[7..])])
    else if StartsWith(t, "@examples") then
      var s1 :=
        if rule == EveryHeader then FlushContent(st, rule)
        else if st.current == Returns && st.content != [] then st.(rec := Store(st.rec, Returns, Body(st.content)))
        else st;
      s1.(current := Examples, content := [])
    else if StartsWith(t, "@export") then st
    else match st.current
      case Description => st.(desc := st.desc + [t])
      case Parameters => if st.params != [] then st.(params := st.params + [t]) else st
      case _ => st.(content := st.content + [t])
  }

  /** One line of the Roxygen block: its text after `#'`. */
  function RStep(st: RState, line: string, rule: HeaderRule): (r: RState)
    ensures r.rec.rawDoc == st.rec.rawDoc && r.rec.name == st.rec.name
  {
    var s := Strip(line);
    if StartsWith(s, "#'") then RText(st, Strip(s[2..]), rule) else st
  }

  /** The Roxygen loop over the block's lines. */
  function RLoop(st: RState, lines: seq<string>, rule: HeaderRule): (r: RState)
    ensures r.rec.rawDoc == st.rec.rawDoc && r.rec.name == st.rec.name
    decreases |lines|
  {
    if lines == [] then st else RLoop(RStep(st, lines[0], rule), lines[1..], rule)
  }

  /** After the loop: the description lines, then the parameter lines, then
      the open content under the open section, each when it has lines. */
  function RFinish(st: RState): (r: DocRecord)
    ensures r.rawDoc == st.rec.rawDoc && r.name == st.rec.name
  {
    var r1 := if st.desc != [] then Store(st.rec, Description, Body(st.desc)) else st.rec;
    var r2 := if st.params != [] then Store(r1, Parameters, Body(st.params)) else r1;
    if st.content != [] then Store(r2, st.current, Body(st.content)) else r2
  }

  /** The function name read from the line after the block: the line,
      stripped, must contain `<-` and `function`, and then start with
      `(\w+)\s*<-\s*function`. */
  function RFunctionName(next: Option<string>): (r: Option<string>)
    ensures r.Some? ==> next.Some? && Captured(r.value, Word, Word)
    ensures r.Some? ==> Contains(Strip(next.value), "<-") && Contains(Strip(next.value), "function")
  {
    match next
    case None => None
    case Some(line) =>
      var s := Strip(line);
      if Contains(s, "<-") && Contains(s, "function") then MatchRName(s) else None
  }

  /** The sections of a Roxygen block, for a function named `name`. */
  function ParseRBlock(block: seq<string>, name: Option<string>, rule: HeaderRule): (rec: DocRecord)
    ensures rec.rawDoc == Join(block) && rec.name == name
  {
    RFinish(RLoop(RState(EmptyRecord(name, Join(block)), Description, [], [], []), block, rule))
  }

  /** `_parse_r` under `rule`: the first Roxygen block of the file, named
      after the line that ends it, or `None` when the file has no Roxygen
      line. */
  function ParseR(content: string, rule: HeaderRule): (r: Option<DocRecord>)
    ensures r.Some? <==> HasLine(Split(content), Roxygen)
    ensures r.Some? ==> r.value.rawDoc == Join(RoxygenBlock(Split(content)).0)
    ensures r.Some? ==> r.value.name == RFunctionName(RoxygenBlock(Split(content)).1)
  {
    var lines := Split(content);
    RoxygenBlockIffMarker(lines);
    var block := RoxygenBlock(lines).0;
    if block == [] then None
    else Some(ParseRBlock(block, RFunctionName(RoxygenBlock(lines).1), rule))
  }

  // ------------------------------------------------ Roxygen documentation format

  /** Each text as a Roxygen line. */
  function Marked(ts: seq<string>): seq<string> {
    Prefixed("#' ", ts)
  }

  /** Each parameter entry (a name and its description) as an `@param` text. */
  function Tagged(ps: seq<string>): seq<string> {
    Prefixed("@param ", ps)
  }

  /** A single-line text the format carries unchanged: no whitespace at
      either end and no newline. */
  predicate OneLine(x: string) {
    Trimmed(x) && NoNewline(x)
  }

  /** A description or example text: a line that is not a tag. */
  predicate RPlain(x: string) {
    OneLine(x) && (x == [] || x[0] != '@')
  }

  /** The texts of a Roxygen block in the layout of the R standard's
      template: description lines, one `@param` per entry, `@return`,
      `@examples` and its lines, and `@export`. */
  function RDocTexts(d: seq<string>, ps: seq<string>, r: string, e: seq<string>): seq<string> {
    d + Tagged(ps) + ["@return " + r, "@examples"] + e + ["@export"]
  }

  /** The Roxygen loop over texts rather than lines. */
  function RTexts(st: RState, ts: seq<string>, rule: HeaderRule): RState
    decreases |ts|
  {
    if ts == [] then st else RTexts(RText(st, ts[0], rule), ts[1..], rule)
  }

  lemma {:induction false} RTextsAppend(st: RState, a: seq<string>, b: seq<string>, rule: HeaderRule)
    ensures RTexts(st, a + b, rule) == RTexts(RTexts(st, a, rule), b, rule)
    decreases |a|
  {
    if a != [] {
      assert (a + b)[1..] == a[1..] + b;
      RTextsAppend(RText(st, a[0], rule), a[1..], b, rule);
    } else {
      assert a + b == b;
    }
  }

  /** A line `#' x` contributes the text `x`. */
  lemma {:induction false} RMarkedLoop(st: RState, ts: seq<string>, rule: HeaderRule)
    requires forall k :: 0 <= k < |ts| ==> Trimmed(ts[k])
    ensures RLoop(st, Marked(ts), rule) == RTexts(st, ts, rule)
    decreases |ts|
  {
    if ts != [] {
      MarkedLine("#'", ts[0]);
      assert "#' " + ts[0] == "#'" + " " + ts[0];
      assert Marked(ts)[1..] == Marked(ts[1..]);
      RMarkedLoop(RText(st, ts[0], rule), ts[1..], rule);
    }
  }

  /** A plain text joins the open section. */
  lemma RPlainText(st: RState, x: string, rule: HeaderRule)
    requires RPlain(x) && st.current in {Description, Examples}
    ensures RText(st, x, rule)
              == if st.current == Description then st.(desc := st.desc + [x]) else st.(content := st.content + [x])
  {
    if x != [] {
      assert x[0] != '@';
      assert !StartsWith(x, "@param") && !StartsWith(x, "@return") by {
        assert "@param"[0] == '@' && "@return"[0] == '@';
      }
      assert !StartsWith(x, "@examples") && !StartsWith(x, "@export") by {
        assert "@examples"[0] == '@' && "@export"[0] == '@';
      }
    }
  }

  /** Plain texts join the open description or examples one by one. */
  lemma {:induction false} RPlainRun(st: RState, xs: seq<string>, rule: HeaderRule)
    requires st.current in {Description, Examples}
    requires forall k :: 0 <= k < |xs| ==> RPlain(xs[k])
    ensures RTexts(st, xs, rule)
              == if st.current == Description then st.(desc := st.desc + xs) else st.(content := st.content + xs)
    decreases |xs|
  {
    if xs == [] {
      assert st.desc + xs == st.desc && st.content + xs == st.content;
    } else {
      RPlainText(st, xs[0], rule);
      var st' := RText(st, xs[0], rule);
      RPlainRun(st', xs[1..], rule);
      assert st.desc + [xs[0]] + xs[1..] == st.desc + xs;
      assert st.content + [xs[0]] + xs[1..] == st.content + xs;
    }
  }

  /** An `@param` text, with no returns or examples lines open, stores the
      description lines and adds itself to the parameter lines. */
  lemma RParamStep(st: RState, p: string, rule: HeaderRule)
    requires st.content == []
    ensures RText(st, "@param " + p, rule)
              == st.(rec := if st.desc != [] then Store(st.rec, Description, Body(st.desc)) else st.rec,
                     desc := [], current := Parameters, params := st.params + ["@param " + p])
  {
    assert ("@param " + p)[..6] == "@param";
  }

  /** The `@param` texts, once the parameters are open, only add their
      lines. */
  lemma {:induction false} RParamRun(st: RState, ps: seq<string>, rule: HeaderRule)
    requires st.content == [] && st.desc == [] && st.current == Parameters
    ensures RTexts(st, Tagged(ps), rule) == st.(params := st.params + Tagged(ps))
    decreases |ps|
  {
    if ps == [] {
      assert st.params + Tagged(ps) == st.params;
    } else {
      RParamStep(st, ps[0], rule);
      assert Tagged(ps)[1..] == Tagged(ps[1..]);
      RParamRun(st.(params := st.params + ["@param " + ps[0]]), ps[1..], rule);
      assert st.params + ["@param " + ps[0]] + Tagged(ps[1..]) == st.params + Tagged(ps);
    }
  }

  /** From the description, the `@param` texts store the description (when
      there are parameters) and collect the parameter lines. */
  lemma RParams(st: RState, ps: seq<string>, rule: HeaderRule)
    requires st.content == [] && st.params == [] && st.current == Description
    ensures RTexts(st, Tagged(ps), rule)
              == if ps == [] then st
                 else RState(if st.desc != [] then Store(st.rec, Description, Body(st.desc)) else st.rec,
                             Parameters, [], [], Tagged(ps))
  {
    if ps != [] {
      RParamStep(st, ps[0], rule);
      assert Tagged(ps) == [Tagged(ps)[0]] + Tagged(ps[1..]);
      RTextsAppend(st, [Tagged(ps)[0]], Tagged(ps[1..]), rule);
      var s1 := RText(st, "@param " + ps[0], rule);
      RParamRun(s1, ps[1..], rule);
      assert s1.params + Tagged(ps[1..]) == Tagged(ps);
    }
  }

  /** `@return r` stores the parameter lines and opens the returns with
      `r`; `@examples` then stores the returns and opens the examples. */
  lemma RReturnsStep(st: RState, r: string, rule: HeaderRule)
    requires OneLine(r) && r != [] && st.content == [] && st.current in {Description, Parameters}
    ensures var rec1 := if st.params != [] then Store(st.rec, Parameters, Body(st.params)) else st.rec;
            RTexts(st, ["@return " + r, "@examples"], rule)
              == RState(rec1.(returnsDoc := Some(r)), Examples, [], st.desc, [])
  {
    var t := "@return " + r;
    assert t[..7] == "@return";
    assert !StartsWith(t, "@param") by {
      assert t[1] == 'r';
    }
    assert t[7..] == " " + r;
    StripAfterLeadingSpace(" ", r);
    StripUnchanged(r);
    assert Body([r]) == r by {
      assert Join([r]) == r;
    }
    var s1 := RText(st, t, rule);
    assert !StartsWith("@examples", "@param") && !StartsWith("@examples", "@return") by {
      assert "@examples"[1] == 'e';
    }
    assert StartsWith("@examples", "@examples");
    assert RTexts(st, [t, "@examples"], rule) == RText(s1, "@examples", rule) by {
      assert [t, "@examples"][1..] == ["@examples"];
      assert ["@examples"][1..] == [];
    }
  }

  /** The `@export` text changes nothing. */
  lemma RExportStep(st: RState, rule: HeaderRule)
    ensures RText(st, "@export", rule) == st
  {
    assert "@export"[1] == 'e';
    assert !StartsWith("@export", "@examples");
    assert StartsWith("@export", "@export");
  }

  /** Under either rule, a block in the template's layout reads back as its
      parts: the description and example lines joined and stripped (unset
      when there are none), the `@param` lines joined (unset when there are
      none) and the return text. */
  lemma RRoundTripTexts(name: Option<string>, rawDoc: string, d: seq<string>, ps: seq<string>, r: string,
                        e: seq<string>, rule: HeaderRule)
    requires forall k :: 0 <= k < |d| ==> RPlain(d[k])
    requires forall k :: 0 <= k < |e| ==> RPlain(e[k])
    requires OneLine(r) && r != []
    ensures RFinish(RTexts(RState(EmptyRecord(name, rawDoc), Description, [], [], []), RDocTexts(d, ps, r, e), rule))
              == DocRecord(name, SectionValue(d), if ps == [] then None else Some(Body(Tagged(ps))),
                           Some(r), SectionValue(e), rawDoc)
  {
    var rec0 := EmptyRecord(name, rawDoc);
    var s0 := RState(rec0, Description, [], [], []);
    var a1 := d + Tagged(ps);
    var a2 := a1 + ["@return " + r, "@examples"];
    var a3 := a2 + e;
    assert RDocTexts(d, ps, r, e) == a3 + ["@export"];
    var s1 := s0.(desc := d);
    assert RTexts(s0, d, rule) == s1 by {
      RPlainRun(s0, d, rule);
    }
    var recP := if ps != [] && d != [] then rec0.(description := Some(Body(d))) else rec0;
    var s2 := if ps == [] then s1 else RState(recP, Parameters, [], [], Tagged(ps));
    assert RTexts(s0, a1, rule) == s2 by {
      RParams(s1, ps, rule);
      RTextsAppend(s0, d, Tagged(ps), rule);
    }
    var recR := (if ps != [] then recP.(parameters := Some(Body(Tagged(ps)))) else recP).(returnsDoc := Some(r));
    var s3 := RState(recR, Examples, [], if ps == [] then d else [], []);
    assert RTexts(s0, a2, rule) == s3 by {
      RReturnsStep(s2, r, rule);
      RTextsAppend(s0, a1, ["@return " + r, "@examples"], rule);
    }
    var s4 := s3.(content := e);
    assert RTexts(s0, a3, rule) == s4 by {
      RPlainRun(s3, e, rule);
      assert [] + e == e;
      RTextsAppend(s0, a2, e, rule);
    }
    assert RTexts(s0, a3 + ["@export"], rule) == s4 by {
      RExportStep(s4, rule);
      RTextsAppend(s0, a3, ["@export"], rule);
      assert RTexts(s4, ["@export"], rule) == RTexts(RText(s4, "@export", rule), [], rule);
    }
  }

  /** A Roxygen block in the template's layout. */
  function RenderR(d: seq<string>, ps: seq<string>, r: string, e: seq<string>): seq<string> {
    Marked(RDocTexts(d, ps, r, e))
  }

  /** A file made of a block in the template's layout, the declaration line
      `name <- function...` and any further lines reads back as the block's
      parts under the declared name. */
  lemma RRoundTrip(d: seq<string>, ps: seq<string>, r: string, e: seq<string>,
                   name: string, args: string, tail: seq<string>, rule: HeaderRule)
    requires forall k :: 0 <= k < |d| ==> RPlain(d[k])
    requires forall k :: 0 <= k < |e| ==> RPlain(e[k])
    requires forall k :: 0 <= k < |ps| ==> OneLine(ps[k]) && ps[k] != []
    requires OneLine(r) && r != []
    requires Captured(name, Word, Word) && OneLine(args)
    requires forall k :: 0 <= k < |tail| ==> NoNewline(tail[k])
    ensures var block := RenderR(d, ps, r, e);
            ParseR(Join(block + [name + " <- function" + args] + tail), rule)
              == Some(DocRecord(Some(name), SectionValue(d), if ps == [] then None else Some(Body(Tagged(ps))),
                                Some(r), SectionValue(e), Join(block)))
  {
    var texts := RDocTexts(d, ps, r, e);
    var block := RenderR(d, ps, r, e);
    var decl := name + " <- function" + args;
    RTextsShape(d, ps, r, e);
    DeclLine(name, args);
    RFileOf(block, texts, decl, tail, rule);
    RNameNamed(name, args);
    RRenderedBlock(Some(name), d, ps, r, e, rule);
  }

  /** The block of the template's layout, parsed. */
  lemma RRenderedBlock(name: Option<string>, d: seq<string>, ps: seq<string>, r: string, e: seq<string>, rule: HeaderRule)
    requires forall k :: 0 <= k < |d| ==> RPlain(d[k])
    requires forall k :: 0 <= k < |e| ==> RPlain(e[k])
    requires forall k :: 0 <= k < |ps| ==> OneLine(ps[k]) && ps[k] != []
    requires OneLine(r) && r != []
    ensures var block := RenderR(d, ps, r, e);
            ParseRBlock(block, name, rule)
              == DocRecord(name, SectionValue(d), if ps == [] then None else Some(Body(Tagged(ps))),
                           Some(r), SectionValue(e), Join(block))
  {
    var texts := RDocTexts(d, ps, r, e);
    var block := RenderR(d, ps, r, e);
    RTextsShape(d, ps, r, e);
    RMarkedLoop(RState(EmptyRecord(name, Join(block)), Description, [], [], []), texts, rule);
    RRoundTripTexts(name, Join(block), d, ps, r, e, rule);
  }

  /** A file of a marked block, a declaration line that is its own strip and
      holds `<-` and `function`, and newline-free further lines parses as
      the block, named by the declaration. */
  lemma RFileOf(block: seq<string>, texts: seq<string>, decl: string, tail: seq<string>, rule: HeaderRule)
    requires block == Marked(texts) && texts != []
    requires forall k :: 0 <= k < |texts| ==> OneLine(texts[k])
    requires NoNewline(decl) && Strip(decl) == decl && !IsRoxygen(decl)
    requires Contains(decl, "<-") && Contains(decl, "function")
    requires forall k :: 0 <= k < |tail| ==> NoNewline(tail[k])
    ensures ParseR(Join(block + [decl] + tail), rule) == Some(ParseRBlock(block, MatchRName(decl), rule))
  {
    var lines := block + [decl] + tail;
    assert Split(Join(lines)) == lines by {
      FileLinesNoNewline(block, texts, decl, tail);
      SplitJoin(lines);
    }
    assert RoxygenBlock(lines) == (block, Some(decl)) by {
      assert lines[..|block|] == block;
      assert lines[|block|] == decl;
      RBlockOf(lines, block, texts);
    }
    ParseRFound(Join(lines), rule);
  }

  /** A file with a Roxygen block parses as that block. */
  lemma ParseRFound(content: string, rule: HeaderRule)
    requires RoxygenBlock(Split(content)).0 != []
    ensures ParseR(content, rule)
              == Some(ParseRBlock(RoxygenBlock(Split(content)).0, RFunctionName(RoxygenBlock(Split(content)).1), rule))
  {
  }

  lemma FileLinesNoNewline(block: seq<string>, texts: seq<string>, decl: string, tail: seq<string>)
    requires block == Marked(texts)
    requires forall k :: 0 <= k < |texts| ==> OneLine(texts[k])
    requires NoNewline(decl)
    requires forall k :: 0 <= k < |tail| ==> NoNewline(tail[k])
    ensures forall k :: 0 <= k < |block + [decl] + tail| ==> NoNewline((block + [decl] + tail)[k])
  {
    var lines := block + [decl] + tail;
    forall k | 0 <= k < |lines| ensures NoNewline(lines[k]) {
      if k < |block| {
        assert lines[k] == "#' " + texts[k];
        assert NoNewline(texts[k]);
      } else if k > |block| {
        assert lines[k] == tail[k - |block| - 1];
      }
    }
  }

  /** Every text of the layout is a single trimmed line. */
  lemma RTextsShape(d: seq<string>, ps: seq<string>, r: string, e: seq<string>)
    requires forall k :: 0 <= k < |d| ==> RPlain(d[k])
    requires forall k :: 0 <= k < |e| ==> RPlain(e[k])
    requires forall k :: 0 <= k < |ps| ==> OneLine(ps[k]) && ps[k] != []
    requires OneLine(r) && r != []
    ensures forall k :: 0 <= k < |RDocTexts(d, ps, r, e)| ==> OneLine(RDocTexts(d, ps, r, e)[k])
  {
    var texts := RDocTexts(d, ps, r, e);
    forall k | 0 <= k < |texts| ensures OneLine(texts[k]) {
      var a := |d|;
      var b := a + |ps|;
      if k < a {
        assert texts[k] == d[k];
      } else if k < b {
        assert texts[k] == "@param " + ps[k - a];
      } else if k == b {
        assert texts[k] == "@return " + r;
      } else if k == b + 1 {
        assert texts[k] == "@examples";
      } else if k < b + 2 + |e| {
        assert texts[k] == e[k - b - 2];
      } else {
        assert texts[k] == "@export";
      }
    }
  }

  /** The declaration line is its own strip, holds `<-` and `function`, and
      is not a Roxygen line. */
  lemma DeclLine(name: string, args: string)
    requires Captured(name, Word, Word) && OneLine(args)
    ensures var decl := name + " <- function" + args;
            && NoNewline(decl) && Strip(decl) == decl && !IsRoxygen(decl)
            && Contains(decl, "<-") && Contains(decl, "function")
  {
    var decl := name + " <- function" + args;
    assert NoNewline(name) by {
      forall m | 0 <= m < |name| ensures name[m] != '\n' {
        assert InClass(name[m], Word);
      }
    }
    NoNewlineConcat(name, " <- function", args);
    DeclTrimmed(name, args);
    DeclMarkers(name, args);
  }

  lemma NoNewlineConcat(a: string, b: string, c: string)
    requires NoNewline(a) && NoNewline(b) && NoNewline(c)
    ensures NoNewline(a + b + c)
  {
  }

  lemma DeclTrimmed(name: string, args: string)
    requires name != [] && InClass(name[0], Word) && Trimmed(args)
    ensures var decl := name + " <- function" + args;
            Strip(decl) == decl && !IsRoxygen(decl)
  {
    var decl := name + " <- function" + args;
    assert decl[0] == name[0];
    StripUnchanged(decl);
  }

  lemma DeclMarkers(name: string, args: string)
    ensures var decl := name + " <- function" + args;
            Contains(decl, "<-") && Contains(decl, "function")
  {
    var decl := name + " <- function" + args;
    var n := |name|;
    assert decl[n + 1..n + 3] == "<-";
    ContainsAt(decl, "<-", n + 1);
    assert decl[n + 4..n + 12] == "function";
    ContainsAt(decl, "function", n + 4);
  }

  /** A file whose lines start with the Roxygen lines of `texts`, followed
      by a line that is not Roxygen, has those lines as its block and that
      line as the one after it. */
  lemma RBlockOf(lines: seq<string>, block: seq<string>, texts: seq<string>)
    requires block == Marked(texts) && texts != []
    requires forall k :: 0 <= k < |texts| ==> Trimmed(texts[k])
    requires |block| < |lines| && lines[..|block|] == block && !IsRoxygen(lines[|block|])
    ensures RoxygenBlock(lines) == (block, Some(lines[|block|]))
  {
    forall k | 0 <= k < |block| ensures IsRoxygen(lines[k]) {
      assert lines[k] == block[k];
      MarkedLine("#'", texts[k]);
      assert "#' " + texts[k] == "#'" + " " + texts[k];
    }
    RoxygenBlockShape(lines);
    assert FirstIndex(lines, 0, Roxygen) == 0 by {
      assert Is(Roxygen, lines[0]);
    }
    RunEndAt(lines, 0, |block|, Roxygen);
    assert lines[0..|block|] == block;
  }

  // ---------------------------------------------- Roxygen returns overwritten

  /** A block whose `@return` comes before its `@param`. As written, the
      returns text stays in the open content while the `@param` opens the
      parameters, and the final store puts it under the parameters: the
      parameters are overwritten and the returns lost. When every tag stores
      the open returns first, both read back. */
  lemma ReturnThenParam(name: Option<string>, r: string, p: string, rule: HeaderRule)
    requires OneLine(r) && r != [] && OneLine(p) && p != []
    ensures var block := Marked(["@return " + r, "@param " + p]);
            ParseRBlock(block, name, rule)
              == DocRecord(name, None, if rule == AsWritten then Some(r) else Some("@param " + p),
                           if rule == AsWritten then None else Some(r), None, Join(block))
  {
    var texts := ["@return " + r, "@param " + p];
    var block := Marked(texts);
    var s0 := RState(EmptyRecord(name, Join(block)), Description, [], [], []);
    var q := "@param " + p;
    assert Trimmed("@return " + r) && Trimmed(q);
    RMarkedLoop(s0, texts, rule);
    RTwo(s0, "@return " + r, q, rule);
    RReturnOpens(s0, r, rule);
    var s1 := RState(s0.rec, Returns, [r], [], []);
    RParamAfterReturn(s1, r, p, rule);
  }

  lemma RTwo(st: RState, a: string, b: string, rule: HeaderRule)
    ensures RTexts(st, [a, b], rule) == RText(RText(st, a, rule), b, rule)
  {
    var s1 := RText(st, a, rule);
    var s2 := RText(s1, b, rule);
    assert [a, b][1..] == [b];
    assert RTexts(st, [a, b], rule) == RTexts(s1, [b], rule);
    var rest: seq<string> := [b][1..];
    assert rest == [];
    assert RTexts(s1, [b], rule) == RTexts(s2, rest, rule);
  }

  /** `@return r` with no parameter lines opens the returns with `r`. */
  lemma RReturnOpens(st: RState, r: string, rule: HeaderRule)
    requires OneLine(r) && r != [] && st.content == [] && st.params == []
    ensures RText(st, "@return " + r, rule) == st.(current := Returns, content := [r])
  {
    var t := "@return " + r;
    assert t[..7] == "@return" && t[7..] == " " + r;
    assert !StartsWith(t, "@param") by {
      assert t[1] == 'r';
    }
    StripAfterLeadingSpace(" ", r);
    StripUnchanged(r);
  }

  /** An `@param` right after `@return r`, then the end of the block. */
  lemma RParamAfterReturn(st: RState, r: string, p: string, rule: HeaderRule)
    requires OneLine(r) && r != [] && OneLine(p) && p != []
    requires st.current == Returns && st.content == [r] && st.desc == [] && st.params == []
    ensures RFinish(RText(st, "@param " + p, rule))
              == st.rec.(parameters := if rule == AsWritten then Some(r) else Some("@param " + p),
                         returnsDoc := if rule == AsWritten then st.rec.returnsDoc else Some(r))
  {
    var q := "@param " + p;
    assert q[..6] == "@param";
    StripUnchanged(r);
    StripUnchanged(q);
    assert Join([r]) == r && Join([q]) == q;
  }

  // ---------------------------------------------------------------- dispatch

  /** `DocParser.parse`: `file` is the file's text, `None` when the file is
      missing or cannot be read; `pythonDoc` is the name and docstring of the
      first function or class whose docstring is non-empty, as the Python
      parser finds them. `rule` says how the NumPy and Roxygen parsers store
      sections on a header: `AsWritten` is the program as written,
      `EveryHeader` the corrected parser of "## Findings". */
  function Parse(suffix: string, file: Option<string>, pythonDoc: Option<(string, string)>, rule: HeaderRule): (r: Option<DocRecord>)
    ensures file.None? || LanguageOf(suffix).None? ==> r.None?
    ensures LanguageOf(suffix) == Some(Sql) && file.Some? ==>
              r == ParseSql(file.value) && (r.Some? <==> HasLine(Split(file.value), SqlHeader))
    ensures LanguageOf(suffix) == Some(R) && file.Some? ==>
              r == ParseR(file.value, rule) && (r.Some? <==> HasLine(Split(file.value), Roxygen))
    ensures LanguageOf(suffix) == Some(Python) && file.Some? ==>
              (r.Some? <==> pythonDoc.Some?)
              && (r.Some? ==> r == Some(ParseNumpy(pythonDoc.value.0, pythonDoc.value.1, rule))
                              && r.value.name == Some(pythonDoc.value.0))
  {
    match file
    case None => None
    case Some(content) =>
      match LanguageOf(suffix)
      case None => None
      case Some(Sql) => ParseSql(content)
      case Some(R) => ParseR(content, rule)
      case Some(Python) =>
        match pythonDoc
        case None => None
        case Some((name, docstring)) => Some(ParseNumpy(name, docstring, rule))
  }
}
