/** Line splicing as the injectors do it with `list.insert`, and the stable
    descending sort they order their items with. */
module Splice {

  /** `s.insert(i, x)` for `i >= 0`: an index past the end appends. */
  function Insert1<T>(s: seq<T>, i: nat, x: T): (r: seq<T>)
    ensures |r| == |s| + 1
  {
    var j := if i <= |s| then i else |s|;
    s[..j] + [x] + s[j..]
  }

  /** `for x in reversed(block): s.insert(i, x)` */
  function InsertLines<T>(s: seq<T>, i: nat, block: seq<T>): (r: seq<T>)
    ensures |r| == |s| + |block|
    decreases |block|
  {
    if block == [] then s
    else InsertLines(Insert1(s, i, block[|block| - 1]), i, block[..|block| - 1])
  }

  /** Inserting a block's lines one by one, last first, at an index inside
      the list puts the block there whole, in order. */
  lemma {:induction false} InsertLinesSplice<T>(s: seq<T>, i: nat, block: seq<T>)
    requires i <= |s|
    ensures InsertLines(s, i, block) == s[..i] + block + s[i..]
    decreases |block|
  {
    if block == [] {
      assert s[..i] + block + s[i..] == s;
    } else {
      var x := block[|block| - 1];
      var front := block[..|block| - 1];
      var s1 := Insert1(s, i, x);
      InsertLinesSplice(s1, i, front);
      assert s1[..i] == s[..i];
      assert s1[i..] == [x] + s[i..];
      assert front + [x] == block;
    }
  }

  /** Lines above the insertion point stay where they were. */
  lemma InsertLinesPrefix<T>(s: seq<T>, i: nat, block: seq<T>)
    requires i <= |s|
    ensures |InsertLines(s, i, block)| >= |s|
    ensures forall k :: 0 <= k < i ==> InsertLines(s, i, block)[k] == s[k]
  {
    InsertLinesSplice(s, i, block);
  }


  /** A list of insertion sites, each an index and the lines to insert. */
  type Site<T> = (nat, seq<T>)

  /** The sites processed in order, each against the list the previous ones
      left. */
  function InsertAll<T>(s: seq<T>, sites: seq<Site<T>>): (r: seq<T>)
    ensures |r| == |s| + Total(sites)
    decreases |sites|
  {
    if sites == [] then s
    else InsertAll(InsertLines(s, sites[0].0, sites[0].1), sites[1..])
  }

  /** The number of lines all sites insert. */
  function Total<T>(sites: seq<Site<T>>): nat
    decreases |sites|
  {
    if sites == [] then 0 else |sites[0].1| + Total(sites[1..])
  }

  /** The number of lines inserted at sites whose index is at most `k`:
      how far original line `k` moves down. */
  function Shift<T>(sites: seq<Site<T>>, k: nat): nat
    decreases |sites|
  {
    if sites == [] then 0
    else (if sites[0].0 <= k then |sites[0].1| else 0) + Shift(sites[1..], k)
  }

  /** The number of lines inserted at sites whose index is below `k`. */
  function Below<T>(sites: seq<Site<T>>, k: nat): nat
    decreases |sites|
  {
    if sites == [] then 0
    else (if sites[0].0 < k then |sites[0].1| else 0) + Below(sites[1..], k)
  }

  /** Sites ordered by index from the bottom of the file up. */
  predicate Descending<T>(sites: seq<Site<T>>) {
    forall a, b :: 0 <= a < b < |sites| ==> sites[a].0 >= sites[b].0
  }

  /** Every site indexes into the list (or its end). */
  predicate Within<T>(sites: seq<Site<T>>, n: nat) {
    forall a :: 0 <= a < |sites| ==> sites[a].0 <= n
  }

  /** When every site is at or above `k`, all inserted lines count. */
  lemma {:induction false} ShiftAll<T>(sites: seq<Site<T>>, k: nat)
    requires Within(sites, k)
    ensures Shift(sites, k) == Total(sites)
    decreases |sites|
  {
    if sites != [] {
      ShiftAll(sites[1..], k);
    }
  }

  /** Sites below `k` all count for `Below`. */
  lemma {:induction false} BelowAll<T>(sites: seq<Site<T>>, k: nat)
    requires forall a :: 0 <= a < |sites| ==> sites[a].0 < k
    ensures Below(sites, k) == Total(sites)
    decreases |sites|
  {
    if sites != [] {
      BelowAll(sites[1..], k);
    }
  }

  /** Processed bottom-up, the sites never disturb one another: every
      original line `k` survives, moved down by exactly the lines inserted
      at or above it in the original numbering. */
  lemma {:induction false} InsertAllKeeps<T>(s: seq<T>, sites: seq<Site<T>>, k: nat)
    requires Descending(sites) && Within(sites, |s|) && k < |s|
    ensures k + Shift(sites, k) < |InsertAll(s, sites)|
    ensures InsertAll(s, sites)[k + Shift(sites, k)] == s[k]
    decreases |sites|
  {
    if sites != [] {
      var (i, block) := sites[0];
      var rest := sites[1..];
      var s1 := InsertLines(s, i, block);
      InsertLinesSplice(s, i, block);
      assert Descending(rest) && Within(rest, |s1|) by {
        forall a | 0 <= a < |rest| ensures rest[a].0 <= |s1| {
          assert rest[a] == sites[a + 1];
        }
      }
      if k < i {
        assert s1[k] == s[k];
        InsertAllKeeps(s1, rest, k);
      } else {
        var k1 := k + |block|;
        assert s1[k1] == s[k];
        assert Within(rest, k) by {
          forall a | 0 <= a < |rest| ensures rest[a].0 <= k {
            assert rest[a] == sites[a + 1];
          }
        }
        assert Within(rest, k1);
        ShiftAll(rest, k);
        ShiftAll(rest, k1);
        InsertAllKeeps(s1, rest, k1);
      }
    }
  }

  /** Sites strictly ordered from the bottom up. */
  predicate StrictlyDescending<T>(sites: seq<Site<T>>) {
    forall a, b :: 0 <= a < b < |sites| ==> sites[a].0 > sites[b].0
  }

  /** After the first block goes in, the later sites (all above it) push it
      down by everything they insert, leaving it whole. */
  lemma {:induction false} FirstBlockKept<T>(s1: seq<T>, i: nat, block: seq<T>, rest: seq<Site<T>>)
    requires Descending(rest) && Within(rest, |s1|)
    requires i + |block| <= |s1| && s1[i..i + |block|] == block
    requires forall a :: 0 <= a < |rest| ==> rest[a].0 < i
    ensures i + Total(rest) + |block| <= |InsertAll(s1, rest)|
    ensures InsertAll(s1, rest)[i + Total(rest)..i + Total(rest) + |block|] == block
  {
    var r := InsertAll(s1, rest);
    forall m | 0 <= m < |block|
      ensures r[i + Total(rest) + m] == block[m]
    {
      assert s1[i + m] == block[m];
      assert Within(rest, i + m);
      ShiftAll(rest, i + m);
      InsertAllKeeps(s1, rest, i + m);
    }
  }

  /** The later sites keep their order and stay inside the grown list. */
  lemma RestOrdered<T>(sites: seq<Site<T>>, n: nat, m: nat)
    requires sites != [] && StrictlyDescending(sites) && (Within(sites, n) || n == 0) && n <= m
    ensures StrictlyDescending(sites[1..]) && Descending(sites[1..])
    ensures Within(sites, n) ==> Within(sites[1..], m)
    ensures forall a :: 0 <= a < |sites[1..]| ==> sites[1..][a].0 < sites[0].0
  {
    forall a | 0 <= a < |sites[1..]| ensures sites[1..][a].0 < sites[0].0 {
      assert sites[1..][a] == sites[a + 1];
    }
  }

  /** With no two sites at the same index, each block lands whole, just
      below the original line its index names, after the lines inserted
      higher up. */
  lemma {:induction false} InsertAllPlaces<T>(s: seq<T>, sites: seq<Site<T>>, j: nat)
    requires Within(sites, |s|) && j < |sites| && StrictlyDescending(sites)
    ensures var p := sites[j].0 + Below(sites, sites[j].0);
            p + |sites[j].1| <= |InsertAll(s, sites)|
            && InsertAll(s, sites)[p..p + |sites[j].1|] == sites[j].1
    decreases |sites|
  {
    var (i, block) := sites[0];
    var rest := sites[1..];
    var s1 := InsertLines(s, i, block);
    InsertLinesSplice(s, i, block);
    RestOrdered(sites, |s|, |s1|);
    if j == 0 {
      BelowAll(rest, i);
      FirstBlockKept(s1, i, block, rest);
    } else {
      InsertAllPlaces(s1, rest, j - 1);
      assert rest[j - 1] == sites[j];
    }
  }

  /** Inserting adds the block's lines and loses none. */
  lemma {:induction false} InsertLinesElements<T>(s: seq<T>, i: nat, block: seq<T>)
    ensures multiset(InsertLines(s, i, block)) == multiset(s) + multiset(block)
    decreases |block|
  {
    if block != [] {
      var n := |block| - 1;
      var j := if i <= |s| then i else |s|;
      assert s == s[..j] + s[j..];
      InsertLinesElements(Insert1(s, i, block[n]), i, block[..n]);
      assert block == block[..n] + [block[n]];
    }
  }

  /** A property every original line and every inserted line has, every
      line of the result has. */
  lemma {:induction false} InsertAllHolds<T>(s: seq<T>, sites: seq<Site<T>>, P: T -> bool)
    requires forall x | x in s :: P(x)
    requires forall j, x | 0 <= j < |sites| && x in sites[j].1 :: P(x)
    ensures forall x | x in InsertAll(s, sites) :: P(x)
    decreases |sites|
  {
    if sites != [] {
      var s1 := InsertLines(s, sites[0].0, sites[0].1);
      InsertLinesElements(s, sites[0].0, sites[0].1);
      forall x | x in s1 ensures P(x) {
        assert x in multiset(s1);
      }
      forall j, x | 0 <= j < |sites[1..]| && x in sites[1..][j].1 ensures P(x) {
        assert sites[1..][j] == sites[j + 1];
      }
      InsertAllHolds(s1, sites[1..], P);
    }
  }

  /** The lines inserted at or above `k - 1` are those inserted above `k`. */
  lemma {:induction false} ShiftBelow<T>(sites: seq<Site<T>>, k: nat)
    requires k >= 1
    ensures Shift(sites, k - 1) == Below(sites, k)
    decreases |sites|
  {
    if sites != [] {
      ShiftBelow(sites[1..], k);
    }
  }

  /** With no two sites sharing an index, the lines at or above a site's
      index are those above it plus its own block. */
  lemma {:induction false} ShiftAt<T>(sites: seq<Site<T>>, j: nat)
    requires j < |sites| && StrictlyDescending(sites)
    ensures Shift(sites, sites[j].0) == Below(sites, sites[j].0) + |sites[j].1|
    decreases |sites|
  {
    var k := sites[j].0;
    RestOrdered(sites, 0, 0);
    if j == 0 {
      assert Within(sites[1..], k);
      ShiftAll(sites[1..], k);
      BelowAll(sites[1..], k);
    } else {
      assert sites[1..][j - 1] == sites[j];
      ShiftAt(sites[1..], j - 1);
    }
  }

  /** With no two sites sharing an index, the block of the site at index
      `i` lands whole after the lines inserted above it. */
  lemma BlockPlaced<T>(s: seq<T>, sites: seq<Site<T>>, t: nat, i: nat, block: seq<T>)
    requires Within(sites, |s|) && StrictlyDescending(sites)
    requires t < |sites| && sites[t] == (i, block)
    ensures i + Below(sites, i) + |block| <= |InsertAll(s, sites)|
    ensures InsertAll(s, sites)[i + Below(sites, i)..i + Below(sites, i) + |block|] == block
  {
    InsertAllPlaces(s, sites, t);
  }

  /** The line above a site stays directly above the lines it inserts. */
  lemma LineAboveKept<T>(s: seq<T>, sites: seq<Site<T>>, t: nat, i: nat)
    requires Within(sites, |s|) && StrictlyDescending(sites)
    requires t < |sites| && sites[t].0 == i && i >= 1
    ensures i - 1 < |s|
    ensures i + Below(sites, i) - 1 < |InsertAll(s, sites)|
    ensures InsertAll(s, sites)[i + Below(sites, i) - 1] == s[i - 1]
  {
    ShiftBelow(sites, i);
    InsertAllKeeps(s, sites, i - 1);
  }

  /** The line a site names stays directly below the lines it inserts. */
  lemma LineBelowKept<T>(s: seq<T>, sites: seq<Site<T>>, t: nat, i: nat, block: seq<T>)
    requires Within(sites, |s|) && StrictlyDescending(sites)
    requires t < |sites| && sites[t] == (i, block) && i < |s|
    ensures i + Below(sites, i) + |block| < |InsertAll(s, sites)|
    ensures InsertAll(s, sites)[i + Below(sites, i) + |block|] == s[i]
  {
    ShiftAt(sites, t);
    InsertAllKeeps(s, sites, i);
  }

  // ---------------------------------------------------------------- sorting

  /** `x` placed before the first element whose key is not above its own. */
  function InsertByKey<T>(x: T, t: seq<T>, key: T -> nat): (r: seq<T>)
    ensures multiset(r) == multiset(t) + multiset{x}
    decreases |t|
  {
    if t == [] || key(t[0]) <= key(x) then [x] + t
    else
      assert t == [t[0]] + t[1..];
      [t[0]] + InsertByKey(x, t[1..], key)
  }

  /** Keys never increase along the sequence. */
  predicate KeysDescending<T>(s: seq<T>, key: T -> nat) {
    forall a, b :: 0 <= a < b < |s| ==> key(s[a]) >= key(s[b])
  }

  /** `sorted(s, key=key, reverse=True)`: a stable sort by descending key
      (equal keys keep their order). */
  function SortDesc<T>(s: seq<T>, key: T -> nat): (r: seq<T>)
    ensures multiset(r) == multiset(s)
    ensures KeysDescending(r, key)
    decreases |s|
  {
    if s == [] then []
    else
      var t := SortDesc(s[1..], key);
      InsertByKeySorted(s[0], t, key);
      assert s == [s[0]] + s[1..];
      InsertByKey(s[0], t, key)
  }

  lemma {:induction false} InsertByKeySorted<T>(x: T, t: seq<T>, key: T -> nat)
    requires KeysDescending(t, key)
    ensures KeysDescending(InsertByKey(x, t, key), key)
    decreases |t|
  {
    if t != [] && key(t[0]) > key(x) {
      var rest := InsertByKey(x, t[1..], key);
      assert KeysDescending(t[1..], key);
      InsertByKeySorted(x, t[1..], key);
      forall m | 0 <= m < |rest| ensures key(t[0]) >= key(rest[m]) {
        assert rest[m] in multiset(rest);
        assert rest[m] in multiset(t[1..]) + multiset{x};
        if rest[m] in multiset(t[1..]) {
          var b :| 0 <= b < |t[1..]| && t[1..][b] == rest[m];
          assert t[1..][b] == t[b + 1];
        }
      }
    }
  }

  /** The elements of `s` whose key is `v`, in order. */
  function WithKey<T>(s: seq<T>, key: T -> nat, v: nat): seq<T> {
    if s == [] then [] else (if key(s[0]) == v then [s[0]] else []) + WithKey(s[1..], key, v)
  }

  /** The sort is stable: for every key, the elements carrying it come out
      in the order they came in. */
  lemma {:induction false} SortDescStable<T>(s: seq<T>, key: T -> nat, v: nat)
    ensures WithKey(SortDesc(s, key), key, v) == WithKey(s, key, v)
    decreases |s|
  {
    if s != [] {
      SortDescStable(s[1..], key, v);
      InsertByKeyStable(s[0], SortDesc(s[1..], key), key, v);
    }
  }

  /** Inserting `x` puts it in front of every element with its key. */
  lemma {:induction false} InsertByKeyStable<T>(x: T, t: seq<T>, key: T -> nat, v: nat)
    ensures WithKey(InsertByKey(x, t, key), key, v) == (if key(x) == v then [x] else []) + WithKey(t, key, v)
    decreases |t|
  {
    var r := InsertByKey(x, t, key);
    if t == [] || key(t[0]) <= key(x) {
      assert r[0] == x && r[1..] == t;
    } else {
      var rest := InsertByKey(x, t[1..], key);
      assert r[0] == t[0] && r[1..] == rest;
      InsertByKeyStable(x, t[1..], key, v);
    }
  }

  /** No two elements share a key. */
  predicate DistinctKeys<T>(s: seq<T>, key: T -> nat) {
    forall a, b :: 0 <= a < b < |s| ==> key(s[a]) != key(s[b])
  }

  lemma {:induction false} InsertByKeyDistinct<T>(x: T, t: seq<T>, key: T -> nat)
    requires DistinctKeys(t, key)
    requires forall y | y in t :: key(y) != key(x)
    ensures DistinctKeys(InsertByKey(x, t, key), key)
    decreases |t|
  {
    if t == [] || key(t[0]) <= key(x) {
      DistinctCons(x, t, key);
    } else {
      assert DistinctKeys(t[1..], key);
      InsertByKeyDistinct(x, t[1..], key);
      var rest := InsertByKey(x, t[1..], key);
      forall y | y in rest ensures key(y) != key(t[0]) {
        HeadKeyApart(x, t, key, y);
      }
      DistinctCons(t[0], rest, key);
    }
  }

  /** An element with a key of its own in front of distinct keys. */
  lemma DistinctCons<T>(x: T, t: seq<T>, key: T -> nat)
    requires DistinctKeys(t, key)
    requires forall y | y in t :: key(y) != key(x)
    ensures DistinctKeys([x] + t, key)
  {
    var r := [x] + t;
    forall a, b | 0 <= a < b < |r| ensures key(r[a]) != key(r[b]) {
      assert r[b] == t[b - 1];
      if a > 0 {
        assert r[a] == t[a - 1];
      } else {
        assert r[b] in t;
      }
    }
  }

  /** Whatever lands behind the head of `t` has a key other than the head's. */
  lemma HeadKeyApart<T>(x: T, t: seq<T>, key: T -> nat, y: T)
    requires t != [] && DistinctKeys(t, key)
    requires forall z | z in t :: key(z) != key(x)
    requires y in InsertByKey(x, t[1..], key)
    ensures key(y) != key(t[0])
  {
    assert y in multiset(InsertByKey(x, t[1..], key));
    if y in multiset(t[1..]) {
      var c :| 0 <= c < |t[1..]| && t[1..][c] == y;
      assert t[c + 1] == y;
    } else {
      assert t[0] in t;
    }
  }

  /** Sorting keeps distinct keys distinct, so the order becomes strict. */
  lemma {:induction false} SortDescDistinct<T>(s: seq<T>, key: T -> nat)
    requires DistinctKeys(s, key)
    ensures DistinctKeys(SortDesc(s, key), key)
    decreases |s|
  {
    if s != [] {
      var t := SortDesc(s[1..], key);
      assert DistinctKeys(s[1..], key);
      SortDescDistinct(s[1..], key);
      forall y | y in t ensures key(y) != key(s[0]) {
        assert y in multiset(t);
        var c :| 0 <= c < |s[1..]| && s[1..][c] == y;
        assert s[1..][c] == s[c + 1];
      }
      InsertByKeyDistinct(s[0], t, key);
    }
  }
}
