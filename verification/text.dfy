/** The few Python `str` operations the core is built from, over `seq<char>`:
    `strip`, `lstrip`, `startswith`, `in`, `lower`, `split('\n')` and
    `'\n'.join`. */
module Text {

  /** Python's `str.isspace`, which is also what the regex class `\s` matches. */
  predicate IsSpace(c: char) {
    || c == ' ' || c == '\t' || c == '\n' || c == '\r' || c == '\U{000B}' || c == '\U{000C}'
    || ('\U{001C}' <= c <= '\U{001F}')
    || c == '\U{0085}' || c == '\U{00A0}' || c == '\U{1680}'
    || ('\U{2000}' <= c <= '\U{200A}')
    || c == '\U{2028}' || c == '\U{2029}' || c == '\U{202F}' || c == '\U{205F}' || c == '\U{3000}'
  }

  /** The regex class `\w`, restricted to ASCII. */
  predicate IsWordChar(c: char) {
    ('a' <= c <= 'z') || ('A' <= c <= 'Z') || ('0' <= c <= '9') || c == '_'
  }

  /** True when every character of `s` is whitespace (so `s.strip()` is empty). */
  predicate IsBlank(s: string) {
    forall i :: 0 <= i < |s| ==> IsSpace(s[i])
  }

  /** `s.lstrip()` */
  function LStrip(s: string): (r: string)
    ensures |r| <= |s|
  {
    if |s| > 0 && IsSpace(s[0]) then LStrip(s[1..]) else s
  }

  /** `s.rstrip()` */
  function RStrip(s: string): (r: string)
    ensures |r| <= |s|
  {
    if |s| > 0 && IsSpace(s[|s| - 1]) then RStrip(s[..|s| - 1]) else s
  }

  /** `s.strip()` */
  function Strip(s: string): string {
    RStrip(LStrip(s))
  }

  /** `lstrip` removes exactly the leading whitespace. */
  lemma {:induction false} LStripSpec(s: string)
    ensures LStrip(s) == s[|s| - |LStrip(s)|..]
    ensures forall i :: 0 <= i < |s| - |LStrip(s)| ==> IsSpace(s[i])
    ensures LStrip(s) != [] ==> !IsSpace(LStrip(s)[0])
    decreases |s|
  {
    if |s| > 0 && IsSpace(s[0]) {
      var t := s[1..];
      LStripSpec(t);
      var r := LStrip(t);
      assert LStrip(s) == r;
      assert t[|t| - |r|..] == s[|s| - |r|..];
      forall i | 0 <= i < |s| - |r| ensures IsSpace(s[i]) {
        if i > 0 {
          assert s[i] == t[i - 1];
        }
      }
    }
  }

  /** `rstrip` removes exactly the trailing whitespace. */
  lemma {:induction false} RStripSpec(s: string)
    ensures RStrip(s) == s[..|RStrip(s)|]
    ensures forall i :: |RStrip(s)| <= i < |s| ==> IsSpace(s[i])
    ensures RStrip(s) != [] ==> !IsSpace(RStrip(s)[|RStrip(s)| - 1])
    decreases |s|
  {
    if |s| > 0 && IsSpace(s[|s| - 1]) {
      var t := s[..|s| - 1];
      RStripSpec(t);
      assert RStrip(s) == RStrip(t);
      forall i | |RStrip(s)| <= i < |s| ensures IsSpace(s[i]) {
        if i < |s| - 1 {
          assert s[i] == t[i];
        }
      }
    }
  }

  /** `s.strip()` is empty exactly for blank strings; otherwise it starts and
      ends with a visible character. */
  lemma StripSpec(s: string)
    ensures Strip(s) == [] <==> IsBlank(s)
    ensures Strip(s) != [] ==> !IsSpace(Strip(s)[0]) && !IsSpace(Strip(s)[|Strip(s)| - 1])
  {
    var l := LStrip(s);
    var r := RStrip(l);
    LStripSpec(s);
    RStripSpec(l);
    if r == [] {
      assert l == [];
    } else {
      assert r[0] == l[0];
      assert !IsBlank(s) by {
        assert s[|s| - |l|] == l[0];
      }
    }
  }

  /** A string with no whitespace at either end is its own strip. */
  lemma StripUnchanged(s: string)
    requires s != [] ==> !IsSpace(s[0]) && !IsSpace(s[|s| - 1])
    ensures Strip(s) == s
  {
    LStripSpec(s);
    RStripSpec(s);
  }

  /** Stripping only whitespace from the front keeps the strip unchanged. */
  lemma StripAfterLeadingSpace(w: string, s: string)
    requires IsBlank(w)
    ensures LStrip(w + s) == LStrip(s) && Strip(w + s) == Strip(s)
    decreases |w|
  {
    if w != [] {
      assert (w + s)[1..] == w[1..] + s;
      StripAfterLeadingSpace(w[1..], s);
    } else {
      assert w + s == s;
    }
  }

  /** `s.startswith(p)` */
  predicate StartsWith(s: string, p: string) {
    |p| <= |s| && s[..|p|] == p
  }

  /** `p in s`: `p` occurs in `s` as a contiguous substring. */
  predicate Contains(s: string, p: string)
    decreases |s|
  {
    StartsWith(s, p) || (|s| > 0 && Contains(s[1..], p))
  }

  lemma ContainsAt(s: string, p: string, i: nat)
    requires i + |p| <= |s| && s[i..i + |p|] == p
    ensures Contains(s, p)
    decreases i
  {
    if i > 0 {
      assert s[1..][i - 1..i - 1 + |p|] == s[i..i + |p|];
      ContainsAt(s[1..], p, i - 1);
    }
  }

  /** Every occurrence of `p` in `s` sits at some index. */
  lemma ContainsIndex(s: string, p: string) returns (i: nat)
    requires Contains(s, p)
    ensures i + |p| <= |s| && s[i..i + |p|] == p
    decreases |s|
  {
    if StartsWith(s, p) {
      i := 0;
    } else {
      var j := ContainsIndex(s[1..], p);
      assert s[1..][j..j + |p|] == s[j + 1..j + 1 + |p|];
      i := j + 1;
    }
  }

  /** Appending text on either side never destroys an occurrence. */
  lemma ContainsAppend(s: string, t: string, p: string)
    requires Contains(s, p)
    ensures Contains(s + t, p) && Contains(t + s, p)
  {
    var i := ContainsIndex(s, p);
    assert (s + t)[i..i + |p|] == s[i..i + |p|];
    ContainsAt(s + t, p, i);
    assert (t + s)[|t| + i..|t| + i + |p|] == s[i..i + |p|];
    ContainsAt(t + s, p, |t| + i);
  }

  /** Containment is transitive. */
  lemma ContainsTrans(s: string, p: string, q: string)
    requires Contains(s, p) && Contains(p, q)
    ensures Contains(s, q)
  {
    var i := ContainsIndex(s, p);
    var j := ContainsIndex(p, q);
    forall k | 0 <= k < |q| ensures s[i + j + k] == q[k] {
      assert q[k] == p[j..j + |q|][k] == p[j + k];
      assert p[j + k] == s[i..i + |p|][j + k] == s[i + j + k];
    }
    assert s[i + j..i + j + |q|] == q;
    ContainsAt(s, q, i + j);
  }

  /** `p` cannot occur in `s` when its first character never does. */
  lemma NotContainsFirstChar(s: string, p: string)
    requires |p| > 0 && forall i :: 0 <= i < |s| ==> s[i] != p[0]
    ensures !Contains(s, p)
    decreases |s|
  {
    if |s| > 0 {
      NotContainsFirstChar(s[1..], p);
    }
  }

  /** `p` cannot occur in `s` when one of its characters never does. */
  lemma NotContainsMissingChar(s: string, p: string, j: nat)
    requires j < |p| && p[j] !in s
    ensures !Contains(s, p)
  {
    if Contains(s, p) {
      var i := ContainsIndex(s, p);
    }
  }

  /** A string contains only strings no longer than itself, and one of the
      same length only when equal to it. */
  lemma ContainsLength(s: string, p: string)
    requires Contains(s, p)
    ensures |p| <= |s|
    ensures |p| == |s| ==> s == p
  {
    var i := ContainsIndex(s, p);
    if |p| == |s| {
      assert s == s[i..i + |p|];
    }
  }

  /** A string with no whitespace at either end. */
  predicate Trimmed(x: string) {
    x != [] ==> !IsSpace(x[0]) && !IsSpace(x[|x| - 1])
  }

  /** A comment line `m + " " + x`, stripped, starts with the marker `m`,
      and what follows the marker, stripped again, is `x` itself. */
  lemma MarkedLine(m: string, x: string)
    requires m != [] && !IsSpace(m[0]) && !IsSpace(m[|m| - 1]) && Trimmed(x)
    ensures StartsWith(Strip(m + " " + x), m)
    ensures Strip(Strip(m + " " + x)[|m|..]) == x
    ensures Strip(m + " " + x) == if x == [] then m else m + " " + x
  {
    var line := m + " " + x;
    if x == [] {
      StripUnchanged(m);
      assert LStrip(line) == line;
      assert line[..|line| - 1] == m;
      assert RStrip(line) == RStrip(m);
      assert Strip(m)[|m|..] == [];
    } else {
      StripUnchanged(line);
      assert line[|m|..] == " " + x;
      StripAfterLeadingSpace(" ", x);
      StripUnchanged(x);
    }
  }

  /** The loop `for x in required: if x not in doc: return False`, run to
      completion: true when every required piece occurs in `doc`. */
  function ContainsAll(doc: string, required: seq<string>): (ok: bool)
    ensures ok <==> forall k :: 0 <= k < |required| ==> Contains(doc, required[k])
    decreases |required|
  {
    if |required| == 0 then true
    else if !Contains(doc, required[0]) then false
    else ContainsAll(doc, required[1..])
  }

  /** `s.strip()` is a slice of `s`. */
  lemma StripOffset(s: string) returns (a: nat)
    ensures a + |Strip(s)| <= |s| && s[a..a + |Strip(s)|] == Strip(s)
  {
    var l := LStrip(s);
    a := |s| - |l|;
    LStripSpec(s);
    RStripSpec(l);
    var r := Strip(s);
    assert r == RStrip(l) == l[..|r|];
  }

  /** An occurrence in a stripped string is an occurrence in the original. */
  lemma ContainsOfStrip(s: string, p: string)
    requires Contains(Strip(s), p)
    ensures Contains(s, p)
  {
    var a := StripOffset(s);
    ContainsAt(s, Strip(s), a);
    ContainsTrans(s, Strip(s), p);
  }

  lemma StartsWithContains(s: string, p: string)
    requires StartsWith(s, p)
    ensures Contains(s, p)
  {
  }

  /** A newline-free piece found in a joined text lies inside one line. */
  lemma {:induction false} ContainsJoinedLine(lines: seq<string>, p: string) returns (k: nat)
    requires |lines| >= 1 && NoNewline(p) && Contains(Join(lines), p)
    ensures k < |lines| && Contains(lines[k], p)
    decreases |lines|
  {
    if |lines| == 1 {
      k := 0;
    } else {
      var a := lines[0];
      var b := Join(lines[1..]);
      assert Join(lines) == a + "\n" + b;
      var i := ContainsIndex(a + "\n" + b, p);
      assert (a + "\n" + b)[|a|] == '\n';
      assert forall j :: i <= j < i + |p| ==> (a + "\n" + b)[j] == p[j - i];
      if i + |p| <= |a| {
        assert (a + "\n" + b)[i..i + |p|] == a[i..i + |p|];
        ContainsAt(a, p, i);
        k := 0;
      } else if i > |a| {
        assert (a + "\n" + b)[i..i + |p|] == b[i - |a| - 1..i - |a| - 1 + |p|];
        ContainsAt(b, p, i - |a| - 1);
        var k' := ContainsJoinedLine(lines[1..], p);
        k := k' + 1;
      } else {
        assert false;
      }
    }
  }

  /** A piece found in one line is found in the joined text. */
  lemma {:induction false} ContainsLineJoined(lines: seq<string>, k: nat, p: string)
    requires k < |lines| && Contains(lines[k], p)
    ensures Contains(Join(lines), p)
    decreases |lines|
  {
    if |lines| > 1 {
      assert Join(lines) == lines[0] + "\n" + Join(lines[1..]);
      if k == 0 {
        ContainsAppend(lines[0], "\n" + Join(lines[1..]), p);
        assert lines[0] + ("\n" + Join(lines[1..])) == Join(lines);
      } else {
        ContainsLineJoined(lines[1..], k - 1, p);
        ContainsAppend(Join(lines[1..]), lines[0] + "\n", p);
        assert (lines[0] + "\n") + Join(lines[1..]) == Join(lines);
      }
    }
  }

  /** Python's `str.lower`, restricted to ASCII letters. */
  function LowerChar(c: char): char {
    if 'A' <= c <= 'Z' then (c as int + 32) as char else c
  }

  function Lower(s: string): (r: string)
    ensures |r| == |s|
    ensures forall i :: 0 <= i < |s| ==> r[i] == LowerChar(s[i])
  {
    seq(|s|, i requires 0 <= i < |s| => LowerChar(s[i]))
  }

  lemma LowerAppend(s: string, t: string)
    ensures Lower(s + t) == Lower(s) + Lower(t)
  {
  }

  /** `p` occurs in `s` at index `i`. */
  predicate At(s: string, i: nat, p: string) {
    i + |p| <= |s| && s[i..i + |p|] == p
  }

  /** `p` (given in lower case) occurs in `s` at index `i` when case is
      ignored, as under the regex flag `IGNORECASE`. */
  predicate AtIgnoreCase(s: string, i: nat, p: string) {
    i + |p| <= |s| && Lower(s[i..i + |p|]) == p
  }

  /** The character classes the hand-written matchers skip over. */
  datatype CharClass = Space | Word | NameStart | NameChar

  /** `\s`, `\w`, `[a-zA-Z_]` and `[\w.]` */
  predicate InClass(c: char, k: CharClass) {
    match k
    case Space => IsSpace(c)
    case Word => IsWordChar(c)
    case NameStart => ('a' <= c <= 'z') || ('A' <= c <= 'Z') || c == '_'
    case NameChar => IsWordChar(c) || c == '.'
  }

  /** End of the run of class `k` starting at `i`: what a greedy `\s*`,
      `\w*` or `[\w.]*` consumes. */
  function Skip(s: string, i: nat, k: CharClass): (j: nat)
    requires i <= |s|
    ensures i <= j <= |s|
    ensures forall m :: i <= m < j ==> InClass(s[m], k)
    ensures j < |s| ==> !InClass(s[j], k)
    decreases |s| - i
  {
    if i < |s| && InClass(s[i], k) then Skip(s, i + 1, k) else i
  }

  /** `s.split('\n')`: never empty, and no piece holds a newline. */
  function Split(s: string): (r: seq<string>)
    ensures |r| >= 1
    decreases |s|
  {
    if |s| == 0 then [""]
    else
      var rest := Split(s[1..]);
      if s[0] == '\n' then [""] + rest else [[s[0]] + rest[0]] + rest[1..]
  }

  /** `'\n'.join(lines)` */
  function Join(lines: seq<string>): string
    decreases |lines|
  {
    if |lines| == 0 then ""
    else if |lines| == 1 then lines[0]
    else lines[0] + "\n" + Join(lines[1..])
  }

  predicate NoNewline(s: string) {
    forall i :: 0 <= i < |s| ==> s[i] != '\n'
  }

  lemma SplitHasNoNewline(s: string)
    ensures forall k :: 0 <= k < |Split(s)| ==> NoNewline(Split(s)[k])
    decreases |s|
  {
    if |s| > 0 {
      SplitHasNoNewline(s[1..]);
    }
  }

  /** Joining the pieces of a split gives the text back. */
  lemma {:induction false} JoinSplit(s: string)
    ensures Join(Split(s)) == s
    decreases |s|
  {
    if |s| > 0 {
      var rest := Split(s[1..]);
      JoinSplit(s[1..]);
      if s[0] == '\n' {
        assert Split(s) == [""] + rest;
        assert Join(Split(s)) == "" + "\n" + Join(rest);
        assert s == [s[0]] + s[1..];
      } else {
        var r := Split(s);
        assert r == [[s[0]] + rest[0]] + rest[1..];
        if |rest| == 1 {
          assert Join(r) == [s[0]] + rest[0];
        } else {
          assert r[1..] == rest[1..];
          assert Join(r) == [s[0]] + rest[0] + "\n" + Join(rest[1..]);
          assert Join(rest) == rest[0] + "\n" + Join(rest[1..]);
        }
        assert s == [s[0]] + s[1..];
      }
    }
  }

  /** Splitting at a newline separates the two sides exactly. */
  lemma {:induction false} SplitAppend(a: string, b: string)
    ensures Split(a + "\n" + b) == Split(a) + Split(b)
    decreases |a|
  {
    if |a| == 0 {
      assert a + "\n" + b == ['\n'] + b;
      SplitCons('\n', b);
    } else {
      var t := a[1..] + "\n" + b;
      assert a + "\n" + b == [a[0]] + t;
      assert a == [a[0]] + a[1..];
      SplitCons(a[0], t);
      SplitCons(a[0], a[1..]);
      SplitAppend(a[1..], b);
      ConsAppend(a[0], Split(a[1..]), Split(b));
    }
  }

  /** `Split` of a string is decided by its first character and the split
      of the rest. */
  lemma SplitCons(c: char, t: string)
    ensures Split([c] + t) == if c == '\n' then [""] + Split(t) else [[c] + Split(t)[0]] + Split(t)[1..]
  {
    assert ([c] + t)[0] == c && ([c] + t)[1..] == t;
  }

  /** Prefixing the first line of a join of two splits. */
  lemma ConsAppend(c: char, p: seq<string>, q: seq<string>)
    requires |p| >= 1
    ensures (if c == '\n' then [""] + (p + q) else [[c] + (p + q)[0]] + (p + q)[1..])
              == (if c == '\n' then [""] + p else [[c] + p[0]] + p[1..]) + q
  {
    assert (p + q)[0] == p[0] && (p + q)[1..] == p[1..] + q;
  }

  /** A newline-free line splits to itself. */
  lemma {:induction false} SplitNoNewline(s: string)
    requires NoNewline(s)
    ensures Split(s) == [s]
    decreases |s|
  {
    if |s| > 0 {
      SplitNoNewline(s[1..]);
      assert [s[0]] + s[1..] == s;
    }
  }

  /** Splitting a join of newline-free lines gives the lines back. */
  lemma {:induction false} SplitJoin(lines: seq<string>)
    requires |lines| >= 1
    requires forall k :: 0 <= k < |lines| ==> NoNewline(lines[k])
    ensures Split(Join(lines)) == lines
    decreases |lines|
  {
    if |lines| == 1 {
      SplitNoNewline(lines[0]);
    } else {
      SplitJoin(lines[1..]);
      SplitNoNewline(lines[0]);
      SplitAppend(lines[0], Join(lines[1..]));
      assert [lines[0]] + lines[1..] == lines;
    }
  }

  /** Joining two non-empty runs of lines puts one newline between them. */
  lemma {:induction false} JoinAppend(a: seq<string>, b: seq<string>)
    requires |a| >= 1 && |b| >= 1
    ensures Join(a + b) == Join(a) + "\n" + Join(b)
    decreases |a|
  {
    if |a| == 1 {
      assert (a + b)[1..] == b;
    } else {
      assert (a + b)[1..] == a[1..] + b;
      JoinAppend(a[1..], b);
    }
  }

  /** The number of newlines in `s`. */
  function CountNewlines(s: string): nat
    decreases |s|
  {
    if |s| == 0 then 0 else (if s[0] == '\n' then 1 else 0) + CountNewlines(s[1..])
  }

  /** `len(s.split('\n'))` is one more than the number of newlines. */
  lemma {:induction false} SplitLength(s: string)
    ensures |Split(s)| == CountNewlines(s) + 1
    decreases |s|
  {
    if |s| > 0 {
      SplitLength(s[1..]);
    }
  }

  /** `c * n` for a one-character string `c`. */
  function Repeat(c: char, n: nat): (r: string)
    ensures |r| == n && forall i :: 0 <= i < n ==> r[i] == c
  {
    seq(n, _ => c)
  }

  /** Decimal digits only. */
  predicate AllDigits(s: string) {
    forall i :: 0 <= i < |s| ==> '0' <= s[i] <= '9'
  }

  /** The number a string of decimal digits denotes, most significant first. */
  function DigitsValue(s: string): nat
    requires AllDigits(s)
  {
    if s == [] then 0 else DigitsValue(s[..|s| - 1]) * 10 + (s[|s| - 1] - '0') as nat
  }

  /** Python's `str(n)` for a natural number: the digits of `n`, with no
      leading zero unless `n` is zero. */
  function DecimalString(n: nat): (r: string)
    ensures |r| >= 1 && AllDigits(r)
    ensures DigitsValue(r) == n
    ensures r[0] == '0' ==> r == "0"
  {
    var d := ['0' + (n % 10) as char];
    if n < 10 then d
    else
      var p := DecimalString(n / 10);
      assert (p + d)[..|p + d| - 1] == p;
      p + d
  }

  /** Different numbers print differently. */
  lemma DecimalStringInjective(a: nat, b: nat)
    requires DecimalString(a) == DecimalString(b)
    ensures a == b
  {
  }

  /** Containment survives lower-casing both sides. */
  lemma ContainsLower(s: string, p: string)
    requires Contains(s, p)
    ensures Contains(Lower(s), Lower(p))
  {
    var i := ContainsIndex(s, p);
    assert Lower(s)[i..i + |p|] == Lower(p) by {
      forall m | 0 <= m < |p| ensures Lower(s)[i..i + |p|][m] == Lower(p)[m] {
        assert s[i + m] == s[i..i + |p|][m];
      }
    }
    ContainsAt(Lower(s), Lower(p), i);
  }

  /** Stripping twice strips once. */
  lemma StripIdempotent(s: string)
    ensures Strip(Strip(s)) == Strip(s)
  {
    StripSpec(s);
    StripUnchanged(Strip(s));
  }

  /** A prefix with visible characters at both ends survives the strip. */
  lemma StartsWithStrip(s: string, p: string)
    requires StartsWith(s, p) && p != [] && !IsSpace(p[0]) && !IsSpace(p[|p| - 1])
    ensures StartsWith(Strip(s), p)
  {
    assert s[0] == p[0];
    assert LStrip(s) == s;
    RStripSpec(s);
    assert s[|p| - 1] == p[|p| - 1];
    assert |RStrip(s)| >= |p|;
    assert RStrip(s)[..|p|] == s[..|p|];
  }
}
