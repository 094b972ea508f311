/** The two regular expressions of the extractor, written as a sequence of
    tokens, one capturing group, and a further sequence of tokens, matched
    left to right. Each token is greedy, and in both patterns every greedy
    run is followed by a token that cannot begin with a character of that
    run, so the greedy match is the only match and the regex engine's
    backtracking never finds another. */
module Patterns {
  import opened Results
  import opened Text

  datatype Tok =
    | Lit(text: string)              // the text itself
    | LitIgnoreCase(text: string)    // the (lower-case) text, any letter case
    | Run(cls: CharClass, min: nat)  // a greedy run of at least `min` characters

  /** Tokens, then the group (one `first` character and a greedy run of
      `rest`), then tokens. */
  datatype Pattern = Pattern(before: seq<Tok>, first: CharClass, rest: CharClass, after: seq<Tok>)

  /** End of the match of the single token `tok` at index `i` of `s`. */
  function TokEnd(s: string, i: nat, tok: Tok): (r: Option<nat>)
    requires i <= |s|
    ensures r.Some? ==> i <= r.value <= |s|
  {
    match tok
    case Lit(t) => if At(s, i, t) then Some(i + |t|) else None
    case LitIgnoreCase(t) => if AtIgnoreCase(s, i, t) then Some(i + |t|) else None
    case Run(k, min) =>
      var j := Skip(s, i, k);
      if j - i < min then None else Some(j)
  }

  /** End of the match of `toks` at index `i` of `s`. */
  function MatchToks(s: string, i: nat, toks: seq<Tok>): (r: Option<nat>)
    requires i <= |s|
    ensures r.Some? ==> i <= r.value <= |s|
    decreases |toks|
  {
    if toks == [] then Some(i)
    else
      var e := TokEnd(s, i, toks[0]);
      if e.None? then None else MatchToks(s, e.value, toks[1..])
  }

  /** A capture is made of the characters its group admits. */
  predicate Captured(w: string, f: CharClass, k: CharClass) {
    |w| >= 1 && InClass(w[0], f) && forall m :: 1 <= m < |w| ==> InClass(w[m], k)
  }

  /** The pattern matched at index `i`: the text of its group. */
  function MatchAt(s: string, i: nat, pat: Pattern): (r: Option<string>)
    requires i <= |s|
    ensures r.Some? ==> Captured(r.value, pat.first, pat.rest)
  {
    var a := MatchToks(s, i, pat.before);
    if a.None? || a.value == |s| || !InClass(s[a.value], pat.first) then None
    else
      var j := Skip(s, a.value + 1, pat.rest);
      if MatchToks(s, j, pat.after).None? then None
      else
        assert forall m :: 1 <= m < j - a.value ==> s[a.value..j][m] == s[a.value + m];
        Some(s[a.value..j])
  }

  /** Tokens that match the whole of `t` at `i` when followed by `u`. */
  lemma {:induction false} MatchToksAppend(s: string, i: nat, t: seq<Tok>, u: seq<Tok>, j: nat)
    requires i <= |s| && MatchToks(s, i, t) == Some(j)
    ensures MatchToks(s, i, t + u) == MatchToks(s, j, u)
    decreases |t|
  {
    if t == [] {
      assert t + u == u;
    } else {
      var tu := t + u;
      assert tu[0] == t[0] && tu[1..] == t[1..] + u;
      var e := TokEnd(s, i, t[0]);
      MatchToksAppend(s, e.value, t[1..], u, j);
    }
  }

  /** A run of class `k` from `i` to `j`, followed by a character outside the
      class (or the end), is exactly what `Skip` consumes. */
  lemma SkipPast(s: string, i: nat, j: nat, k: CharClass)
    requires i <= j <= |s|
    requires forall m :: i <= m < j ==> InClass(s[m], k)
    requires j < |s| ==> !InClass(s[j], k)
    ensures Skip(s, i, k) == j
    decreases j - i
  {
    if i < j {
      SkipPast(s, i + 1, j, k);
    }
  }

  /** A token that matches from `i` to `e` hands the remaining tokens index `e`. */
  lemma TokStep(s: string, i: nat, toks: seq<Tok>, e: nat)
    requires i <= |s| && toks != [] && TokEnd(s, i, toks[0]) == Some(e)
    ensures MatchToks(s, i, toks) == MatchToks(s, e, toks[1..])
  {
  }

  /** A token that does not match fails the whole sequence. */
  lemma TokFails(s: string, i: nat, toks: seq<Tok>)
    requires i <= |s| && toks != [] && TokEnd(s, i, toks[0]).None?
    ensures MatchToks(s, i, toks).None?
  {
  }

  lemma LitEnd(s: string, i: nat, t: string)
    requires i + |t| <= |s| && s[i..i + |t|] == t
    ensures TokEnd(s, i, Lit(t)) == Some(i + |t|)
  {
  }

  /** A case-insensitive literal matches text `u` that lower-cases to it. */
  lemma LitIgnoreCaseEnd(s: string, i: nat, t: string, u: string)
    requires i + |u| <= |s| && s[i..i + |u|] == u && Lower(u) == t
    ensures TokEnd(s, i, LitIgnoreCase(t)) == Some(i + |t|)
  {
  }

  /** A case-insensitive literal fails on a first character that does not
      lower-case to its own. */
  lemma LitIgnoreCaseFails(s: string, i: nat, t: string)
    requires i < |s| && |t| >= 1 && LowerChar(s[i]) != t[0]
    ensures TokEnd(s, i, LitIgnoreCase(t)).None?
  {
    if i + |t| <= |s| {
      assert Lower(s[i..i + |t|])[0] == LowerChar(s[i..i + |t|][0]);
    }
  }

  lemma RunEnd(s: string, i: nat, j: nat, k: CharClass, min: nat)
    requires i <= j <= |s| && j - i >= min
    requires forall m :: i <= m < j ==> InClass(s[m], k)
    requires j < |s| ==> !InClass(s[j], k)
    ensures TokEnd(s, i, Run(k, min)) == Some(j)
  {
    SkipPast(s, i, j, k);
  }

  /** Where `s` holds `w` from index `i`, it holds each slice of `w` at the
      matching place. */
  lemma Window(s: string, i: nat, w: string, k: nat, m: nat)
    requires i + |w| <= |s| && s[i..i + |w|] == w && k <= m <= |w|
    ensures s[i + k..i + m] == w[k..m]
  {
    forall x | 0 <= x < m - k ensures s[i + k..i + m][x] == w[k..m][x] {
      assert s[i + k + x] == s[i..i + |w|][k + x];
    }
  }

  lemma WindowChar(s: string, i: nat, w: string, k: nat)
    requires i + |w| <= |s| && s[i..i + |w|] == w && k < |w|
    ensures s[i + k] == w[k]
  {
    assert s[i + k] == s[i..i + |w|][k];
  }

  /** The pattern matches at `i` with the group from `a` to `j` when its
      leading tokens end at `a`, the group's run stops at `j` and the
      trailing tokens match from `j`. */
  lemma MatchAtSpan(s: string, i: nat, pat: Pattern, a: nat, j: nat)
    requires i <= |s| && MatchToks(s, i, pat.before) == Some(a)
    requires a < j <= |s| && InClass(s[a], pat.first)
    requires forall m :: a + 1 <= m < j ==> InClass(s[m], pat.rest)
    requires j < |s| ==> !InClass(s[j], pat.rest)
    requires MatchToks(s, j, pat.after).Some?
    ensures MatchAt(s, i, pat) == Some(s[a..j])
  {
    SkipPast(s, a + 1, j, pat.rest);
  }

  /** A pattern whose leading tokens fail does not match. */
  lemma MatchAtFails(s: string, i: nat, pat: Pattern)
    requires i <= |s| && MatchToks(s, i, pat.before).None?
    ensures MatchAt(s, i, pat).None?
  {
  }

  // ---------------------------------------------------------------- R declarations

  /** `^\s*([a-zA-Z_][\w.]*)\s*<-\s*function\s*\(` */
  const RDecl: Pattern :=
    Pattern([Run(Space, 0)], NameStart, NameChar,
            [Run(Space, 0), Lit("<-"), Run(Space, 0), Lit("function"), Run(Space, 0), Lit("(")])

  /** `re.match` of the R declaration pattern: the declared name. */
  function MatchRDecl(line: string): (r: Option<string>)
    ensures r.Some? ==> Captured(r.value, NameStart, NameChar)
  {
    MatchAt(line, 0, RDecl)
  }

  /** A declaration written the usual way is recognised, with its name. */
  lemma RDeclNamed(name: string, rest: string)
    requires Captured(name, NameStart, NameChar)
    ensures MatchRDecl(name + " <- function(" + rest) == Some(name)
  {
    var s := name + " <- function(" + rest;
    assert s[..|name|] == name;
    assert s[|name|..|name| + 13] == " <- function(";
    RDeclAt(s, |name|);
  }

  lemma RDeclAt(s: string, n: nat)
    requires n + 13 <= |s| && Captured(s[..n], NameStart, NameChar)
    requires s[n..n + 13] == " <- function("
    ensures MatchRDecl(s) == Some(s[..n])
  {
    assert InClass(s[0], NameStart) by {
      assert s[0] == s[..n][0];
    }
    assert MatchToks(s, 0, RDecl.before) == Some(0) by {
      RunEnd(s, 0, 0, Space, 0);
      TokStep(s, 0, RDecl.before, 0);
      assert RDecl.before[1..] == [];
    }
    assert !InClass(s[n], NameChar) by {
      WindowChar(s, n, " <- function(", 0);
    }
    forall m | 1 <= m < n ensures InClass(s[m], NameChar) {
      assert s[m] == s[..n][m];
    }
    RDeclTail(s, n);
    MatchAtSpan(s, 0, RDecl, 0, n);
    assert s[0..n] == s[..n];
  }

  /** The part of the declaration pattern after the name matches
      ` <- function(`: the parser's name pattern, then `\s*\(`. */
  lemma RDeclTail(s: string, n: nat)
    requires n + 13 <= |s| && s[n..n + 13] == " <- function("
    ensures MatchToks(s, n, RDecl.after) == Some(n + 13)
  {
    var w := " <- function(";
    var u := [Run(Space, 0), Lit("(")];
    Window(s, n, w, 0, 12);
    assert w[0..12] == " <- function";
    RNameTail(s, n);
    assert RDecl.after == RName.after + u;
    MatchToksAppend(s, n, RName.after, u, n + 12);
    WindowChar(s, n, w, 12);
    Window(s, n, w, 12, 13);
    assert w[12..13] == "(";
    RunEnd(s, n + 12, n + 12, Space, 0);
    LitEnd(s, n + 12, "(");
    TokStep(s, n + 12, u, n + 12);
    TokStep(s, n + 12, u[1..], n + 13);
    assert u[1..][1..] == [];
  }

  /** `(\w+)\s*<-\s*function`, the parser's pattern for the line after a
      Roxygen block (matched at the start of the stripped line). */
  const RName: Pattern :=
    Pattern([], Word, Word, [Run(Space, 0), Lit("<-"), Run(Space, 0), Lit("function")])

  /** `re.match` of the parser's name pattern: the function name. */
  function MatchRName(line: string): (r: Option<string>)
    ensures r.Some? ==> Captured(r.value, Word, Word)
  {
    MatchAt(line, 0, RName)
  }

  /** A line `name <- function...` yields `name`. */
  lemma RNameNamed(name: string, rest: string)
    requires Captured(name, Word, Word)
    ensures MatchRName(name + " <- function" + rest) == Some(name)
  {
    var s := name + " <- function" + rest;
    assert s[..|name|] == name;
    assert s[|name|..|name| + 12] == " <- function";
    RNameAt(s, |name|);
  }

  lemma RNameAt(s: string, n: nat)
    requires n + 12 <= |s| && Captured(s[..n], Word, Word)
    requires s[n..n + 12] == " <- function"
    ensures MatchRName(s) == Some(s[..n])
  {
    WindowChar(s, n, " <- function", 0);
    assert s[0] == s[..n][0];
    forall m | 1 <= m < n ensures InClass(s[m], Word) {
      assert s[m] == s[..n][m];
    }
    RNameTail(s, n);
    MatchAtSpan(s, 0, RName, 0, n);
    assert s[0..n] == s[..n];
  }

  lemma RNameTail(s: string, n: nat)
    requires n + 12 <= |s| && s[n..n + 12] == " <- function"
    ensures MatchToks(s, n, RName.after) == Some(n + 12)
  {
    var w := " <- function";
    var t := RName.after;
    calc {
      MatchToks(s, n, t);
      == { WindowChar(s, n, w, 0);
           WindowChar(s, n, w, 1);
           RunEnd(s, n, n + 1, Space, 0);
           TokStep(s, n, t, n + 1); }
      MatchToks(s, n + 1, t[1..]);
      == { Window(s, n, w, 1, 3);
           assert w[1..3] == "<-";
           LitEnd(s, n + 1, "<-");
           TokStep(s, n + 1, t[1..], n + 3); }
      MatchToks(s, n + 3, t[2..]);
      == { WindowChar(s, n, w, 3);
           WindowChar(s, n, w, 4);
           RunEnd(s, n + 3, n + 4, Space, 0);
           TokStep(s, n + 3, t[2..], n + 4); }
      MatchToks(s, n + 4, t[3..]);
      == { Window(s, n, w, 4, 12);
           assert w[4..12] == "function";
           LitEnd(s, n + 4, "function");
           TokStep(s, n + 4, t[3..], n + 12);
           assert t[3..][1..] == []; }
      Some(n + 12);
    }
  }

  // ---------------------------------------------------------------- SQL CREATE

  /** One alternative of `CREATE\s+(?:OR\s+REPLACE\s+)?(?:FUNCTION|PROCEDURE)\s+(\w+)`
      under `IGNORECASE`: with or without the optional group, and with one of
      the two keywords. */
  function CreateAlternative(withGroup: bool, keyword: string): Pattern {
    var group := if withGroup then [LitIgnoreCase("or"), Run(Space, 1), LitIgnoreCase("replace"), Run(Space, 1)] else [];
    Pattern([LitIgnoreCase("create"), Run(Space, 1)] + group + [LitIgnoreCase(keyword), Run(Space, 1)], Word, Word, [])
  }

  /** The alternatives in the order the engine tries them: the optional
      group first, `FUNCTION` before `PROCEDURE`. */
  const CreateAlternatives: seq<Pattern> :=
    [CreateAlternative(true, "function"), CreateAlternative(true, "procedure"),
     CreateAlternative(false, "function"), CreateAlternative(false, "procedure")]

  /** The capture of the first of `alts` that matches at `p`. */
  function FirstAlternative(s: string, p: nat, alts: seq<Pattern>): (r: Option<string>)
    requires p <= |s|
    decreases |alts|
  {
    if alts == [] then None
    else
      var m := MatchAt(s, p, alts[0]);
      if m.Some? then m else FirstAlternative(s, p, alts[1..])
  }

  /** The first alternative that matches decides the result; none matching
      means no result. */
  lemma {:induction false} FirstAlternativeSpec(s: string, p: nat, alts: seq<Pattern>) returns (a: nat)
    requires p <= |s|
    ensures a <= |alts|
    ensures forall b :: 0 <= b < a ==> MatchAt(s, p, alts[b]).None?
    ensures a < |alts| ==> FirstAlternative(s, p, alts) == MatchAt(s, p, alts[a]) && MatchAt(s, p, alts[a]).Some?
    ensures a == |alts| ==> FirstAlternative(s, p, alts).None?
    decreases |alts|
  {
    if alts == [] {
      a := 0;
    } else if MatchAt(s, p, alts[0]).Some? {
      a := 0;
    } else {
      var a' := FirstAlternativeSpec(s, p, alts[1..]);
      a := a' + 1;
      assert FirstAlternative(s, p, alts) == FirstAlternative(s, p, alts[1..]);
      if a < |alts| {
        assert alts[a] == alts[1..][a'];
      }
      forall b | 0 <= b < a ensures MatchAt(s, p, alts[b]).None? {
        if b > 0 {
          assert alts[b] == alts[1..][b - 1];
        }
      }
    }
  }

  /** The CREATE pattern tried at index `p`: the name its first matching
      alternative captures. */
  function MatchCreateAt(s: string, p: nat): Option<string>
    requires p <= |s|
  {
    FirstAlternative(s, p, CreateAlternatives)
  }

  /** `re.search` with the alternatives `alts` from index `p` on: the name
      captured at the leftmost index where one of them matches. */
  function SearchFrom(s: string, p: nat, alts: seq<Pattern>): (r: Option<string>)
    requires p <= |s|
    decreases |s| - p
  {
    var m := FirstAlternative(s, p, alts);
    if m.Some? || p == |s| then m else SearchFrom(s, p + 1, alts)
  }

  /** `re.search` of the CREATE pattern in one line. */
  function SearchCreate(line: string): Option<string> {
    SearchFrom(line, 0, CreateAlternatives)
  }

  /** The search fails exactly when the pattern matches at no index. */
  lemma {:induction false} SearchNone(s: string, p: nat, alts: seq<Pattern>)
    requires p <= |s|
    ensures SearchFrom(s, p, alts).None? ==> forall m :: p <= m <= |s| ==> FirstAlternative(s, m, alts).None?
    ensures (forall m :: p <= m <= |s| ==> FirstAlternative(s, m, alts).None?) ==> SearchFrom(s, p, alts).None?
    decreases |s| - p
  {
    if FirstAlternative(s, p, alts).None? && p < |s| {
      SearchNone(s, p + 1, alts);
      assert SearchFrom(s, p, alts) == SearchFrom(s, p + 1, alts);
      if SearchFrom(s, p + 1, alts).None? {
        forall m | p <= m <= |s| ensures FirstAlternative(s, m, alts).None? {
          if m > p {
            assert p + 1 <= m;
          }
        }
      }
    } else if FirstAlternative(s, p, alts).Some? {
      assert SearchFrom(s, p, alts) == FirstAlternative(s, p, alts);
      assert !(p <= p <= |s| ==> FirstAlternative(s, p, alts).None?);
    } else {
      assert SearchFrom(s, p, alts) == FirstAlternative(s, p, alts);
      forall m | p <= m <= |s| ensures FirstAlternative(s, m, alts).None? {
        assert m == p;
      }
    }
  }

  /** The search reports the match at the leftmost index where one exists. */
  lemma {:induction false} SearchLeftmost(s: string, p: nat, q: nat, alts: seq<Pattern>)
    requires p <= q <= |s| && FirstAlternative(s, q, alts).Some?
    requires forall m :: p <= m < q ==> FirstAlternative(s, m, alts).None?
    ensures SearchFrom(s, p, alts) == FirstAlternative(s, q, alts)
    decreases q - p
  {
    if p < q {
      SearchLeftmost(s, p + 1, q, alts);
    }
  }

  /** What the search reports is what the pattern captures somewhere. */
  lemma {:induction false} SearchFound(s: string, p: nat, alts: seq<Pattern>) returns (q: nat)
    requires p <= |s| && SearchFrom(s, p, alts).Some?
    ensures p <= q <= |s| && SearchFrom(s, p, alts) == FirstAlternative(s, q, alts)
    decreases |s| - p
  {
    if FirstAlternative(s, p, alts).Some? || p == |s| {
      q := p;
    } else {
      q := SearchFound(s, p + 1, alts);
    }
  }

  /** A found CREATE name is made of word characters. */
  lemma SearchCreateWord(line: string)
    requires SearchCreate(line).Some?
    ensures Captured(SearchCreate(line).value, Word, Word)
  {
    var q := SearchFound(line, 0, CreateAlternatives);
    var a := FirstAlternativeSpec(line, q, CreateAlternatives);
    CreateCapturesWords(a);
  }

  /** Every alternative captures `\w+`. */
  lemma CreateCapturesWords(a: nat)
    requires a < |CreateAlternatives|
    ensures CreateAlternatives[a].first == Word && CreateAlternatives[a].rest == Word
  {
  }

  /** A plain `CREATE FUNCTION name` line yields `name`. */
  lemma CreateFunctionNamed(name: string, rest: string)
    requires Captured(name, Word, Word)
    requires rest == [] || !IsWordChar(rest[0])
    ensures MatchCreateAt("CREATE FUNCTION " + name + rest, 0) == Some(name)
  {
    var s := "CREATE FUNCTION " + name + rest;
    var n := |name|;
    assert s[..16] == "CREATE FUNCTION ";
    assert s[16..16 + n] == name;
    assert 16 + n < |s| ==> s[16 + n] == rest[0];
    CreateFunctionAt(s, n);
  }

  lemma CreateFunctionAt(s: string, n: nat)
    requires 16 + n <= |s| && s[..16] == "CREATE FUNCTION "
    requires Captured(s[16..16 + n], Word, Word)
    requires 16 + n < |s| ==> !IsWordChar(s[16 + n])
    ensures MatchCreateAt(s, 0) == Some(s[16..16 + n])
  {
    var c := CreateAlternative(false, "function");
    var g := CreateAlternative(true, "function");
    var h := CreateAlternative(true, "procedure");
    var alts := CreateAlternatives;
    assert s[16] == s[16..16 + n][0];
    CreateFunctionPrefix(s);
    forall m | 17 <= m < 16 + n ensures InClass(s[m], Word) {
      assert s[m] == s[16..16 + n][m - 16];
    }
    MatchAtSpan(s, 0, c, 16, 16 + n);
    MatchAtFails(s, 0, g);
    MatchAtFails(s, 0, h);
    assert alts[0] == g && alts[1..][0] == h && alts[2..][0] == c;
    calc {
      FirstAlternative(s, 0, alts);
      == { assert alts[1..] == alts[1..]; }
      FirstAlternative(s, 0, alts[1..]);
      == { assert alts[1..][1..] == alts[2..]; }
      FirstAlternative(s, 0, alts[2..]);
    }
  }

  /** The tokens before the group: only the alternative without
      `OR REPLACE` and with `FUNCTION` gets past them. */
  lemma CreateFunctionPrefix(s: string)
    requires 16 < |s| && s[..16] == "CREATE FUNCTION " && !IsSpace(s[16])
    ensures MatchToks(s, 0, CreateAlternative(false, "function").before) == Some(16)
    ensures MatchToks(s, 0, CreateAlternative(true, "function").before) == None
    ensures MatchToks(s, 0, CreateAlternative(true, "procedure").before) == None
  {
    var w := "CREATE FUNCTION ";
    assert s[0..16] == s[..16];
    CreateAt(s, w);
    WindowChar(s, 0, w, 6);
    WindowChar(s, 0, w, 7);
    WindowChar(s, 0, w, 15);
    Window(s, 0, w, 7, 15);
    assert w[7..15] == "FUNCTION";
    assert Lower("FUNCTION") == "function";
    RunEnd(s, 6, 7, Space, 1);
    LitIgnoreCaseEnd(s, 7, "function", "FUNCTION");
    RunEnd(s, 15, 16, Space, 1);
    LitIgnoreCaseFails(s, 7, "or");
    CreateBefore(s, "function");
    CreateBefore(s, "procedure");
    var t := CreateAlternative(false, "function").before;
    calc {
      MatchToks(s, 0, t);
      == { TokStep(s, 0, t, 6); }
      MatchToks(s, 6, t[1..]);
      == { TokStep(s, 6, t[1..], 7); }
      MatchToks(s, 7, t[2..]);
      == { TokStep(s, 7, t[2..], 15); }
      MatchToks(s, 15, t[3..]);
      == { TokStep(s, 15, t[3..], 16); assert t[3..][1..] == []; }
      Some(16);
    }
  }

  /** `CREATE` at the start of the line. */
  lemma CreateAt(s: string, w: string)
    requires w == "CREATE FUNCTION " && 16 <= |s| && s[0..16] == w
    ensures TokEnd(s, 0, LitIgnoreCase("create")) == Some(6)
  {
    Window(s, 0, w, 0, 6);
    assert w[0..6] == "CREATE";
    assert Lower("CREATE") == "create";
    LitIgnoreCaseEnd(s, 0, "create", "CREATE");
  }

  /** With `OR REPLACE`, the alternative stops at the keyword where `or`
      is expected. */
  lemma CreateBefore(s: string, keyword: string)
    requires 7 < |s| && TokEnd(s, 0, LitIgnoreCase("create")) == Some(6)
    requires TokEnd(s, 6, Run(Space, 1)) == Some(7) && TokEnd(s, 7, LitIgnoreCase("or")).None?
    ensures MatchToks(s, 0, CreateAlternative(true, keyword).before).None?
  {
    var t := CreateAlternative(true, keyword).before;
    TokStep(s, 0, t, 6);
    TokStep(s, 6, t[1..], 7);
    TokFails(s, 7, t[2..]);
  }
}
