/**
 * The two collection idioms the bot relies on when it renders lists: a
 * dict of lists filled with `d.setdefault(k, []).append(x)`, which keeps
 * its keys in order of first insertion, and sorting by a string key, as
 * done by `sorted(...)` and by SQL `ORDER BY`.
 */
module Collections {
  import opened Wrappers
  import opened Strings

  // ---------------------------------------------------------------------
  // One line per item

  /** `[line(x) for x in xs]`, built the way a loop appends it. */
  function Rendered<T>(xs: seq<T>, line: T -> string): (r: seq<string>)
    ensures |r| == |xs|
  {
    if xs == [] then [] else Rendered(xs[..|xs| - 1], line) + [line(xs[|xs| - 1])]
  }

  /** Line k renders item k. */
  lemma {:induction false} RenderedAt<T>(xs: seq<T>, line: T -> string)
    ensures forall k :: 0 <= k < |xs| ==> Rendered(xs, line)[k] == line(xs[k])
    decreases |xs|
  {
    if xs != [] {
      var init := xs[..|xs| - 1];
      RenderedAt(init, line);
      forall k | 0 <= k < |init| ensures Rendered(xs, line)[k] == line(xs[k]) {
        assert Rendered(xs, line)[k] == Rendered(init, line)[k] && init[k] == xs[k];
      }
    }
  }

  /** `for x in xs: lines.append(line(x))` */
  method AppendRendered<T>(lines: seq<string>, xs: seq<T>, line: T -> string) returns (r: seq<string>)
    ensures r == lines + Rendered(xs, line)
  {
    r := lines;
    var k := 0;
    while k < |xs|
      invariant 0 <= k <= |xs|
      invariant r == lines + Rendered(xs[..k], line)
    {
      assert xs[..k + 1][..k] == xs[..k];
      AppendAssoc(lines, Rendered(xs[..k], line), [line(xs[k])]);
      r := r + [line(xs[k])];
      k := k + 1;
    }
    assert xs[..k] == xs;
  }

  // ---------------------------------------------------------------------
  // Dict of lists

  /** One item of a dict of lists: a key and the values appended under it. */
  datatype Group<T> = Group(key: string, items: seq<T>)

  /** The keys of a dict of lists, in its order. */
  function Keys<T>(gs: seq<Group<T>>): (r: seq<string>)
    ensures |r| == |gs|
    ensures forall i :: 0 <= i < |gs| ==> r[i] == gs[i].key
  {
    seq(|gs|, i requires 0 <= i < |gs| => gs[i].key)
  }

  predicate DistinctKeys<T>(gs: seq<Group<T>>) {
    forall i, j :: 0 <= i < j < |gs| ==> gs[i].key != gs[j].key
  }

  /** The number of values held, over all keys. */
  function Total<T>(gs: seq<Group<T>>): nat {
    if gs == [] then 0 else Total(gs[..|gs| - 1]) + |gs[|gs| - 1].items|
  }

  /** `d.setdefault(k, []).append(x)` */
  function SetDefaultAppend<T>(gs: seq<Group<T>>, k: string, x: T): seq<Group<T>> {
    if gs == [] then [Group(k, [x])]
    else if gs[0].key == k then [Group(k, gs[0].items + [x])] + gs[1..]
    else [gs[0]] + SetDefaultAppend(gs[1..], k, x)
  }

  /** Appending under a key present extends that key's list in place;
      under a new key, adds the key at the end. Returns where `k` is. */
  lemma {:induction false} SetDefaultAppendShape<T>(gs: seq<Group<T>>, k: string, x: T) returns (i: nat)
    ensures i <= |gs|
    ensures i < |gs| ==> gs[i].key == k && SetDefaultAppend(gs, k, x) == gs[i := Group(k, gs[i].items + [x])]
    ensures i == |gs| ==> k !in Keys(gs) && SetDefaultAppend(gs, k, x) == gs + [Group(k, [x])]
    decreases |gs|
  {
    if gs == [] {
      i := 0;
    } else if gs[0].key == k {
      i := 0;
      assert [Group(k, gs[0].items + [x])] + gs[1..] == gs[0 := Group(k, gs[0].items + [x])];
    } else {
      var j := SetDefaultAppendShape(gs[1..], k, x);
      i := j + 1;
      if j < |gs| - 1 {
        assert [gs[0]] + gs[1..][j := Group(k, gs[j + 1].items + [x])] == gs[i := Group(k, gs[i].items + [x])];
      } else {
        assert [gs[0]] + (gs[1..] + [Group(k, [x])]) == gs + [Group(k, [x])];
        assert forall m :: 0 < m < |gs| ==> gs[m].key == Keys(gs[1..])[m - 1];
      }
    }
  }

  lemma {:induction false} TotalAppend<T>(gs: seq<Group<T>>, g: Group<T>)
    ensures Total(gs + [g]) == Total(gs) + |g.items|
  {
    assert (gs + [g])[..|gs|] == gs;
  }

  /** Replacing one list changes the total by the difference in length. */
  lemma {:induction false} TotalUpdate<T>(gs: seq<Group<T>>, i: nat, g: Group<T>)
    requires i < |gs|
    ensures Total(gs[i := g]) + |gs[i].items| == Total(gs) + |g.items|
    decreases |gs|
  {
    var hs := gs[i := g];
    if i < |gs| - 1 {
      assert hs[..|hs| - 1] == gs[..|gs| - 1][i := g];
      TotalUpdate(gs[..|gs| - 1], i, g);
    } else {
      assert hs[..|hs| - 1] == gs[..|gs| - 1];
    }
  }

  /** The dict of lists built by appending every value under its key, in
      order. */
  function GroupBy<T>(xs: seq<T>, key: T -> string): seq<Group<T>> {
    if xs == [] then []
    else SetDefaultAppend(GroupBy(xs[..|xs| - 1], key), key(xs[|xs| - 1]), xs[|xs| - 1])
  }

  /** The values of `xs` whose key is `k`, in order. */
  function Matching<T>(xs: seq<T>, key: T -> string, k: string): (r: seq<T>)
    ensures |r| <= |xs|
  {
    if xs == [] then []
    else Matching(xs[..|xs| - 1], key, k) + (if key(xs[|xs| - 1]) == k then [xs[|xs| - 1]] else [])
  }

  /** The distinct keys of `xs`, in order of first appearance. */
  function FirstKeys<T>(xs: seq<T>, key: T -> string): seq<string> {
    if xs == [] then []
    else
      var ks := FirstKeys(xs[..|xs| - 1], key);
      if key(xs[|xs| - 1]) in ks then ks else ks + [key(xs[|xs| - 1])]
  }

  /** Grouping keeps each key once, in order of first appearance. */
  lemma {:induction false} GroupByKeys<T>(xs: seq<T>, key: T -> string)
    ensures DistinctKeys(GroupBy(xs, key))
    ensures Keys(GroupBy(xs, key)) == FirstKeys(xs, key)
    decreases |xs|
  {
    if xs != [] {
      var init := xs[..|xs| - 1];
      var x := xs[|xs| - 1];
      var gs := GroupBy(init, key);
      GroupByKeys(init, key);
      var i := SetDefaultAppendShape(gs, key(x), x);
      var hs := GroupBy(xs, key);
      if i < |gs| {
        assert Keys(hs) == Keys(gs);
      } else {
        assert Keys(hs) == Keys(gs) + [key(x)];
      }
    }
  }

  /** No value is lost or repeated. */
  lemma {:induction false} GroupByTotal<T>(xs: seq<T>, key: T -> string)
    ensures Total(GroupBy(xs, key)) == |xs|
    decreases |xs|
  {
    if xs != [] {
      var init := xs[..|xs| - 1];
      var x := xs[|xs| - 1];
      var gs := GroupBy(init, key);
      GroupByTotal(init, key);
      var i := SetDefaultAppendShape(gs, key(x), x);
      if i < |gs| {
        TotalUpdate(gs, i, Group(key(x), gs[i].items + [x]));
      } else {
        TotalAppend(gs, Group(key(x), [x]));
      }
    }
  }

  /** The list under a key holds exactly the values with that key, in
      their order. */
  lemma {:induction false} GroupByItems<T>(xs: seq<T>, key: T -> string)
    ensures forall i :: 0 <= i < |GroupBy(xs, key)| ==>
              GroupBy(xs, key)[i].items == Matching(xs, key, GroupBy(xs, key)[i].key)
    decreases |xs|
  {
    if xs != [] {
      var init := xs[..|xs| - 1];
      var x := xs[|xs| - 1];
      var gs := GroupBy(init, key);
      GroupByItems(init, key);
      GroupByKeys(init, key);
      var i := SetDefaultAppendShape(gs, key(x), x);
      var hs := GroupBy(xs, key);
      forall m | 0 <= m < |hs| ensures hs[m].items == Matching(xs, key, hs[m].key) {
        if m < |gs| && m != i {
          assert hs[m] == gs[m];
          assert gs[m].key != key(x);
        } else if i == |gs| {
          assert m == i;
          MatchingEmpty(init, key, key(x));
        }
      }
    }
  }

  /** No value has a key that `FirstKeys` does not list. */
  lemma {:induction false} MatchingEmpty<T>(xs: seq<T>, key: T -> string, k: string)
    requires k !in FirstKeys(xs, key)
    ensures Matching(xs, key, k) == []
    decreases |xs|
  {
    if xs != [] {
      MatchingEmpty(xs[..|xs| - 1], key, k);
    }
  }

  /** A key is listed exactly when some value has it. */
  lemma {:induction false} FirstKeysExact<T>(xs: seq<T>, key: T -> string, k: string)
    ensures k in FirstKeys(xs, key) <==> exists x :: x in xs && key(x) == k
    decreases |xs|
  {
    if xs != [] {
      var init := xs[..|xs| - 1];
      FirstKeysExact(init, key, k);
      assert forall x :: x in xs <==> x in init || x == xs[|xs| - 1];
    }
  }

  /** The loop `for x in xs: d.setdefault(key(x), []).append(x)`, from an
      empty dict. */
  method CollectGroups<T>(xs: seq<T>, key: T -> string) returns (gs: seq<Group<T>>)
    ensures gs == GroupBy(xs, key)
  {
    gs := [];
    var i := 0;
    while i < |xs|
      invariant 0 <= i <= |xs|
      invariant gs == GroupBy(xs[..i], key)
    {
      assert xs[..i + 1][..i] == xs[..i];
      gs := SetDefaultAppend(gs, key(xs[i]), xs[i]);
      i := i + 1;
    }
    assert xs[..i] == xs;
  }

  // ---------------------------------------------------------------------
  // Sorting by a string key

  /** `a` may come before `b`: ascending, or descending when `desc`. */
  predicate InOrder(a: string, b: string, desc: bool) {
    if desc then StrLe(b, a) else StrLe(a, b)
  }

  predicate SortedBy<T>(xs: seq<T>, key: T -> string, desc: bool) {
    forall i, j :: 0 <= i < j < |xs| ==> InOrder(key(xs[i]), key(xs[j]), desc)
  }

  /** Puts `x` before the first value it may precede. */
  function Insert<T>(x: T, xs: seq<T>, key: T -> string, desc: bool): (r: seq<T>)
    ensures |r| == |xs| + 1
  {
    if xs == [] then [x]
    else if InOrder(key(x), key(xs[0]), desc) then [x] + xs
    else [xs[0]] + Insert(x, xs[1..], key, desc)
  }

  /** Insertion sort by key; among equal keys the input order is kept. */
  function SortBy<T>(xs: seq<T>, key: T -> string, desc: bool): (r: seq<T>)
    ensures |r| == |xs|
  {
    if xs == [] then [] else Insert(xs[0], SortBy(xs[1..], key, desc), key, desc)
  }

  lemma InOrderTotal(a: string, b: string, desc: bool)
    ensures InOrder(a, b, desc) || InOrder(b, a, desc)
  {
    StrLeTotal(a, b);
  }

  lemma InOrderTrans(a: string, b: string, c: string, desc: bool)
    requires InOrder(a, b, desc) && InOrder(b, c, desc)
    ensures InOrder(a, c, desc)
  {
    if desc {
      StrLeTrans(c, b, a);
    } else {
      StrLeTrans(a, b, c);
    }
  }

  lemma {:induction false} InsertPerm<T>(x: T, xs: seq<T>, key: T -> string, desc: bool)
    ensures multiset(Insert(x, xs, key, desc)) == multiset(xs) + multiset{x}
    decreases |xs|
  {
    if xs == [] {
    } else if InOrder(key(x), key(xs[0]), desc) {
      assert Insert(x, xs, key, desc) == [x] + xs;
    } else {
      var h, t := xs[0], xs[1..];
      var rest := Insert(x, t, key, desc);
      assert Insert(x, xs, key, desc) == [h] + rest;
      InsertPerm(x, t, key, desc);
      assert multiset(xs) == multiset{h} + multiset(t) by {
        assert xs == [h] + t;
      }
    }
  }

  /** Every value `xs[0]` may precede may follow it in the result. */
  lemma InsertAfterHead<T>(x: T, xs: seq<T>, key: T -> string, desc: bool)
    requires SortedBy(xs, key, desc) && xs != [] && InOrder(key(xs[0]), key(x), desc)
    ensures forall z :: z in Insert(x, xs[1..], key, desc) ==> InOrder(key(xs[0]), key(z), desc)
  {
    var rest := Insert(x, xs[1..], key, desc);
    InsertPerm(x, xs[1..], key, desc);
    forall z | z in rest ensures InOrder(key(xs[0]), key(z), desc) {
      assert z in multiset(rest);
      if z != x {
        assert z in multiset(xs[1..]);
        var j :| 0 <= j < |xs[1..]| && xs[1..][j] == z;
        assert xs[j + 1] == z;
      }
    }
  }

  lemma {:induction false} InsertSorted<T>(x: T, xs: seq<T>, key: T -> string, desc: bool)
    requires SortedBy(xs, key, desc)
    ensures SortedBy(Insert(x, xs, key, desc), key, desc)
    decreases |xs|
  {
    if xs != [] {
      var r := Insert(x, xs, key, desc);
      if InOrder(key(x), key(xs[0]), desc) {
        assert r == [x] + xs;
        forall i, j | 0 <= i < j < |r| ensures InOrder(key(r[i]), key(r[j]), desc) {
          if i == 0 && j > 1 {
            InOrderTrans(key(x), key(xs[0]), key(xs[j - 1]), desc);
          }
        }
      } else {
        var rest := Insert(x, xs[1..], key, desc);
        assert SortedBy(xs[1..], key, desc) by {
          forall i, j | 0 <= i < j < |xs[1..]| ensures InOrder(key(xs[1..][i]), key(xs[1..][j]), desc) {
            assert xs[1..][i] == xs[i + 1] && xs[1..][j] == xs[j + 1];
          }
        }
        InsertSorted(x, xs[1..], key, desc);
        InOrderTotal(key(x), key(xs[0]), desc);
        InsertAfterHead(x, xs, key, desc);
        assert r == [xs[0]] + rest;
        forall i, j | 0 <= i < j < |r| ensures InOrder(key(r[i]), key(r[j]), desc) {
          if i == 0 {
            assert r[j] == rest[j - 1];
            assert rest[j - 1] in rest;
          } else {
            assert r[i] == rest[i - 1] && r[j] == rest[j - 1];
          }
        }
      }
    }
  }

  /** The sort orders the values by key and only reorders them. */
  lemma {:induction false} SortByFacts<T>(xs: seq<T>, key: T -> string, desc: bool)
    ensures SortedBy(SortBy(xs, key, desc), key, desc)
    ensures multiset(SortBy(xs, key, desc)) == multiset(xs)
    decreases |xs|
  {
    if xs != [] {
      SortByFacts(xs[1..], key, desc);
      InsertSorted(xs[0], SortBy(xs[1..], key, desc), key, desc);
      InsertPerm(xs[0], SortBy(xs[1..], key, desc), key, desc);
      assert xs == [xs[0]] + xs[1..];
    }
  }

  /** Values already in order are left as they are. */
  lemma {:induction false} SortBySorted<T>(xs: seq<T>, key: T -> string, desc: bool)
    requires SortedBy(xs, key, desc)
    ensures SortBy(xs, key, desc) == xs
    decreases |xs|
  {
    if xs != [] {
      assert SortedBy(xs[1..], key, desc) by {
        forall i, j | 0 <= i < j < |xs[1..]| ensures InOrder(key(xs[1..][i]), key(xs[1..][j]), desc) {
          assert xs[1..][i] == xs[i + 1] && xs[1..][j] == xs[j + 1];
        }
      }
      SortBySorted(xs[1..], key, desc);
      if |xs| > 1 {
        assert InOrder(key(xs[0]), key(xs[1]), desc);
      }
      assert xs == [xs[0]] + xs[1..];
    }
  }
}
