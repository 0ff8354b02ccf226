/**
 * The list combinators the query layer is written with (lodash `map`,
 * `filter`, `head`, `uniq`, `uniqBy` and `sortBy`) and the string order
 * `sortBy` compares keys with.
 */
module Lists {
  import opened Wrappers
  import opened Strings

  // ---------------------------------------------------------------------------
  // map, filter, head
  // ---------------------------------------------------------------------------

  /** `f` applied to every element, in order. */
  function MapSeq<A, B>(xs: seq<A>, f: A -> B): (ys: seq<B>)
    ensures |ys| == |xs|
    ensures forall i :: 0 <= i < |xs| ==> ys[i] == f(xs[i])
  {
    if xs == [] then []
    else
      var init := MapSeq(xs[..|xs| - 1], f);
      var ys := init + [f(xs[|xs| - 1])];
      assert forall i :: 0 <= i < |xs| - 1 ==> ys[i] == init[i] && xs[..|xs| - 1][i] == xs[i];
      ys
  }

  /** The elements satisfying `p`, in their original order. */
  function Filter<T>(xs: seq<T>, p: T -> bool): (r: seq<T>)
    ensures forall i :: 0 <= i < |r| ==> p(r[i])
    ensures |r| <= |xs|
  {
    if xs == [] then []
    else
      var last := xs[|xs| - 1];
      Filter(xs[..|xs| - 1], p) + if p(last) then [last] else []
  }

  /** Filtering keeps exactly the elements that satisfy `p`, each as often as it occurs. */
  lemma {:induction false} FilterMembers<T>(xs: seq<T>, p: T -> bool)
    ensures forall x :: multiset(Filter(xs, p))[x] == if p(x) then multiset(xs)[x] else 0
  {
    if xs != [] {
      var init := xs[..|xs| - 1];
      FilterMembers(init, p);
      assert xs == init + [xs[|xs| - 1]];
    }
  }

  /** Filtering a concatenation filters each part: the order is kept. */
  lemma {:induction false} FilterAppend<T>(a: seq<T>, b: seq<T>, p: T -> bool)
    ensures Filter(a + b, p) == Filter(a, p) + Filter(b, p)
  {
    if b == [] {
      assert a + b == a;
    } else {
      AppendLast(a, b);
      FilterAppend(a, b[..|b| - 1], p);
    }
  }

  /** The first element of the filtered list is the first element that satisfies `p`. */
  lemma FilterFirst<T>(xs: seq<T>, p: T -> bool, i: nat)
    requires i < |xs| && p(xs[i])
    requires forall j :: 0 <= j < i ==> !p(xs[j])
    ensures Filter(xs, p) != [] && Filter(xs, p)[0] == xs[i]
  {
    var before := xs[..i];
    var after := xs[i + 1..];
    assert xs == before + ([xs[i]] + after);
    FilterAppend(before, [xs[i]] + after, p);
    FilterAppend([xs[i]], after, p);
    assert forall j :: 0 <= j < |before| ==> before[j] == xs[j];
    FilterNone(before, p);
    FilterSingle(xs[i], p);
  }

  lemma FilterSingle<T>(x: T, p: T -> bool)
    ensures Filter([x], p) == if p(x) then [x] else []
  {
    assert [x][..0] == [];
  }

  /** Nothing survives the filter exactly when no element satisfies `p`. */
  lemma {:induction false} FilterNone<T>(xs: seq<T>, p: T -> bool)
    ensures Filter(xs, p) == [] <==> forall j :: 0 <= j < |xs| ==> !p(xs[j])
  {
    if xs != [] {
      var init := xs[..|xs| - 1];
      FilterNone(init, p);
      assert forall j :: 0 <= j < |init| ==> init[j] == xs[j];
    }
  }

  /** `_.head`: the first element, if any. */
  function Head<T>(xs: seq<T>): (r: Option<T>)
    ensures r.None? <==> xs == []
    ensures r.Some? ==> r.value == xs[0]
  {
    if xs == [] then None else Some(xs[0])
  }

  // ---------------------------------------------------------------------------
  // uniqBy: the first element of each key
  // ---------------------------------------------------------------------------

  /** Some element of `xs` has key `k`. */
  predicate KeyIn<T>(xs: seq<T>, key: T -> string, k: string) {
    exists i | 0 <= i < |xs| :: key(xs[i]) == k
  }

  /** The first element of `xs` with key `k`. */
  function FirstWithKey<T>(xs: seq<T>, key: T -> string, k: string): (x: T)
    requires KeyIn(xs, key, k)
    ensures key(x) == k && x in xs
  {
    var init := xs[..|xs| - 1];
    if KeyIn(init, key, k) then
      var x := FirstWithKey(init, key, k);
      assert x in xs;
      x
    else
      xs[|xs| - 1]
  }

  /** `_.uniqBy`: each element whose key has not been seen before, in order. */
  function UniqBy<T>(xs: seq<T>, key: T -> string): (r: seq<T>)
  {
    if xs == [] then []
    else
      var init := UniqBy(xs[..|xs| - 1], key);
      var last := xs[|xs| - 1];
      if KeyIn(init, key, key(last)) then init else init + [last]
  }

  /** Keys are distinct. */
  predicate DistinctKeys<T>(xs: seq<T>, key: T -> string) {
    forall i, j :: 0 <= i < j < |xs| ==> key(xs[i]) != key(xs[j])
  }

  lemma KeyInSnoc<T>(xs: seq<T>, x: T, key: T -> string, k: string)
    ensures KeyIn(xs + [x], key, k) <==> KeyIn(xs, key, k) || key(x) == k
  {
    var ys := xs + [x];
    if KeyIn(xs, key, k) {
      var i :| 0 <= i < |xs| && key(xs[i]) == k;
      assert ys[i] == xs[i];
    }
    if key(x) == k {
      assert ys[|xs|] == x;
    }
    if KeyIn(ys, key, k) {
      var i :| 0 <= i < |ys| && key(ys[i]) == k;
      if i < |xs| {
        assert ys[i] == xs[i];
      }
    }
  }

  /**
   * `uniqBy` keeps one element per key: its keys are distinct, they are the
   * keys of the input, and the element kept for a key is the first with it.
   */
  lemma {:induction false} UniqByKeeps<T>(xs: seq<T>, key: T -> string)
    ensures DistinctKeys(UniqBy(xs, key), key)
    ensures forall k :: KeyIn(UniqBy(xs, key), key, k) <==> KeyIn(xs, key, k)
    ensures forall y :: y in UniqBy(xs, key) <==> KeyIn(xs, key, key(y)) && y == FirstWithKey(xs, key, key(y))
  {
    if xs != [] {
      var init := xs[..|xs| - 1];
      var last := xs[|xs| - 1];
      UniqByKeeps(init, key);
      var u := UniqBy(init, key);
      assert xs == init + [last];
      forall k
        ensures KeyIn(xs, key, k) <==> KeyIn(init, key, k) || key(last) == k
      {
        KeyInSnoc(init, last, key, k);
      }
      if !KeyIn(u, key, key(last)) {
        forall k
          ensures KeyIn(u + [last], key, k) <==> KeyIn(u, key, k) || key(last) == k
        {
          KeyInSnoc(u, last, key, k);
        }
        forall i, j | 0 <= i < j < |u| + 1
          ensures key((u + [last])[i]) != key((u + [last])[j])
        {
          if j == |u| {
            assert (u + [last])[i] == u[i];
          } else {
            assert (u + [last])[i] == u[i] && (u + [last])[j] == u[j];
          }
        }
      }
    }
  }

  // ---------------------------------------------------------------------------
  // String order
  // ---------------------------------------------------------------------------

  /** Lexicographic order on code points: the order JavaScript's `<` gives strings. */
  predicate LessEq(a: string, b: string) {
    if a == [] then true
    else if b == [] then false
    else if a[0] != b[0] then a[0] < b[0]
    else LessEq(a[1..], b[1..])
  }

  /** Strictly before. */
  predicate Less(a: string, b: string) {
    LessEq(a, b) && a != b
  }

  lemma {:induction false} LessEqTotal(a: string, b: string)
    ensures LessEq(a, b) || LessEq(b, a)
  {
    if a != [] && b != [] && a[0] == b[0] {
      LessEqTotal(a[1..], b[1..]);
    }
  }

  lemma {:induction false} LessEqTrans(a: string, b: string, c: string)
    requires LessEq(a, b) && LessEq(b, c)
    ensures LessEq(a, c)
  {
    if a != [] && b != [] && c != [] && a[0] == b[0] && b[0] == c[0] {
      LessEqTrans(a[1..], b[1..], c[1..]);
    }
  }

  lemma {:induction false} LessEqAntisymmetric(a: string, b: string)
    requires LessEq(a, b) && LessEq(b, a)
    ensures a == b
  {
    if a != [] && b != [] {
      LessEqAntisymmetric(a[1..], b[1..]);
      assert a == [a[0]] + a[1..] && b == [b[0]] + b[1..];
    }
  }

  lemma {:induction false} LessEqReflexive(a: string)
    ensures LessEq(a, a)
  {
    if a != [] {
      LessEqReflexive(a[1..]);
    }
  }

  // ---------------------------------------------------------------------------
  // sortBy: a stable ascending sort by a string key
  // ---------------------------------------------------------------------------

  predicate SortedBy<T>(xs: seq<T>, key: T -> string) {
    forall i, j :: 0 <= i < j < |xs| ==> LessEq(key(xs[i]), key(xs[j]))
  }

  /** `x` placed after every element whose key is not greater than its own. */
  function Insert<T>(s: seq<T>, x: T, key: T -> string): (r: seq<T>)
    ensures multiset(r) == multiset(s) + multiset{x}
  {
    if s == [] then [x]
    else if !LessEq(key(s[0]), key(x)) then [x] + s
    else
      var r := [s[0]] + Insert(s[1..], x, key);
      assert s == [s[0]] + s[1..];
      r
  }

  /** `_.sortBy`: insertion of each element in turn, so equal keys keep their input order. */
  function SortBy<T>(xs: seq<T>, key: T -> string): (r: seq<T>)
    ensures multiset(r) == multiset(xs)
  {
    if xs == [] then []
    else
      var r := Insert(SortBy(xs[..|xs| - 1], key), xs[|xs| - 1], key);
      assert xs == xs[..|xs| - 1] + [xs[|xs| - 1]];
      r
  }

  /** A key not above the first key of a sorted list is not above any. */
  lemma BelowSorted<T>(s: seq<T>, key: T -> string, k: string)
    requires SortedBy(s, key) && s != [] && LessEq(k, key(s[0]))
    ensures forall j :: 0 <= j < |s| ==> LessEq(k, key(s[j]))
  {
    forall j | 0 < j < |s|
      ensures LessEq(k, key(s[j]))
    {
      LessEqTrans(k, key(s[0]), key(s[j]));
    }
  }

  lemma SortedCons<T>(x: T, s: seq<T>, key: T -> string)
    requires SortedBy(s, key)
    requires forall j :: 0 <= j < |s| ==> LessEq(key(x), key(s[j]))
    ensures SortedBy([x] + s, key)
  {
    var r := [x] + s;
    forall i, j | 0 <= i < j < |r|
      ensures LessEq(key(r[i]), key(r[j]))
    {
      assert r[j] == s[j - 1];
      if i > 0 {
        assert r[i] == s[i - 1];
      }
    }
  }

  lemma {:induction false} InsertSorted<T>(s: seq<T>, x: T, key: T -> string)
    requires SortedBy(s, key)
    ensures SortedBy(Insert(s, x, key), key)
  {
    if s != [] {
      if !LessEq(key(s[0]), key(x)) {
        LessEqTotal(key(s[0]), key(x));
        BelowSorted(s, key, key(x));
        SortedCons(x, s, key);
      } else {
        var rest := s[1..];
        assert SortedBy(rest, key);
        InsertSorted(rest, x, key);
        var t := Insert(rest, x, key);
        InsertAbove(rest, x, key, key(s[0]));
        SortedCons(s[0], t, key);
      }
    }
  }

  /** Inserting keeps a lower bound that both the list and `x` respect. */
  lemma InsertAbove<T>(s: seq<T>, x: T, key: T -> string, k: string)
    requires forall j :: 0 <= j < |s| ==> LessEq(k, key(s[j]))
    requires LessEq(k, key(x))
    ensures forall j :: 0 <= j < |Insert(s, x, key)| ==> LessEq(k, key(Insert(s, x, key)[j]))
  {
    var t := Insert(s, x, key);
    forall j | 0 <= j < |t|
      ensures LessEq(k, key(t[j]))
    {
      assert t[j] in multiset(t);
      if t[j] != x {
        assert t[j] in multiset(s);
        var m :| 0 <= m < |s| && s[m] == t[j];
      }
    }
  }

  /** The output of `sortBy` is in ascending key order. */
  lemma {:induction false} SortBySorted<T>(xs: seq<T>, key: T -> string)
    ensures SortedBy(SortBy(xs, key), key)
  {
    if xs != [] {
      SortBySorted(xs[..|xs| - 1], key);
      InsertSorted(SortBy(xs[..|xs| - 1], key), xs[|xs| - 1], key);
    }
  }

  /** The elements with key `k`, in order. */
  function WithKey<T>(xs: seq<T>, key: T -> string, k: string): seq<T> {
    if xs == [] then []
    else (if key(xs[0]) == k then [xs[0]] else []) + WithKey(xs[1..], key, k)
  }

  lemma WithKeyCons<T>(x: T, s: seq<T>, key: T -> string, k: string)
    ensures WithKey([x] + s, key, k) == (if key(x) == k then [x] else []) + WithKey(s, key, k)
  {
    var r := [x] + s;
    assert r[0] == x && r[1..] == s;
  }

  lemma {:induction false} WithKeyAppend<T>(a: seq<T>, b: seq<T>, key: T -> string, k: string)
    ensures WithKey(a + b, key, k) == WithKey(a, key, k) + WithKey(b, key, k)
  {
    if a == [] {
      assert a + b == b;
    } else {
      var part := if key(a[0]) == k then [a[0]] else [];
      assert a + b == [a[0]] + (a[1..] + b);
      WithKeyCons(a[0], a[1..] + b, key, k);
      WithKeyAppend(a[1..], b, key, k);
      assert a == [a[0]] + a[1..];
      WithKeyCons(a[0], a[1..], key, k);
      assert part + (WithKey(a[1..], key, k) + WithKey(b, key, k)) == (part + WithKey(a[1..], key, k)) + WithKey(b, key, k);
    }
  }

  /** A sorted list whose first key is greater than `k` has no element with key `k`. */
  lemma {:induction false} WithKeyAbove<T>(s: seq<T>, key: T -> string, k: string)
    requires SortedBy(s, key) && s != [] && !LessEq(key(s[0]), k)
    ensures WithKey(s, key, k) == []
  {
    LessEqReflexive(k);
    assert key(s[0]) != k;
    if |s| > 1 {
      var rest := s[1..];
      assert SortedBy(rest, key) && rest[0] == s[1];
      if LessEq(key(s[1]), k) {
        LessEqTrans(key(s[0]), key(s[1]), k);
      }
      WithKeyAbove(rest, key, k);
    }
  }

  /** Inserting into a sorted list puts `x` after every element with the same key. */
  lemma {:induction false} InsertWithKey<T>(s: seq<T>, x: T, key: T -> string, k: string)
    requires SortedBy(s, key)
    ensures WithKey(Insert(s, x, key), key, k) == WithKey(s, key, k) + if key(x) == k then [x] else []
  {
    if s == [] {
      WithKeyCons(x, [], key, k);
      assert [x] + [] == [x];
    } else if !LessEq(key(s[0]), key(x)) {
      WithKeyCons(x, s, key, k);
      if key(x) == k {
        WithKeyAbove(s, key, k);
      }
    } else {
      var rest := s[1..];
      assert SortedBy(rest, key);
      InsertWithKey(rest, x, key, k);
      WithKeyCons(s[0], Insert(rest, x, key), key, k);
      assert s == [s[0]] + rest;
      WithKeyCons(s[0], rest, key, k);
    }
  }

  /**
   * `sortBy` is stable: the elements with any one key come out in the order
   * they went in.
   */
  lemma {:induction false} SortByStable<T>(xs: seq<T>, key: T -> string, k: string)
    ensures WithKey(SortBy(xs, key), key, k) == WithKey(xs, key, k)
  {
    if xs != [] {
      var init := xs[..|xs| - 1];
      var last := xs[|xs| - 1];
      SortByStable(init, key, k);
      SortBySorted(init, key);
      InsertWithKey(SortBy(init, key), last, key, k);
      SplitLast(xs);
      WithKeyAppend(init, [last], key, k);
      WithKeyCons(last, [], key, k);
      assert [last] + [] == [last];
    }
  }

  /** Mapping a concatenation maps each part. */
  lemma MapSeqAppend<A, B>(a: seq<A>, b: seq<A>, f: A -> B)
    ensures MapSeq(a + b, f) == MapSeq(a, f) + MapSeq(b, f)
  {
    var l, r := MapSeq(a + b, f), MapSeq(a, f) + MapSeq(b, f);
    forall i | 0 <= i < |l| ensures l[i] == r[i] {
      if i < |a| { assert (a + b)[i] == a[i]; } else { assert (a + b)[i] == b[i - |a|]; }
    }
  }

  /**
   * Picking the elements with one key commutes with a projection that
   * keeps the key.
   */
  lemma {:induction false} WithKeyMap<A, B>(xs: seq<A>, f: A -> B, key: A -> string, key2: B -> string, k: string)
    requires forall a :: key2(f(a)) == key(a)
    ensures WithKey(MapSeq(xs, f), key2, k) == MapSeq(WithKey(xs, key, k), f)
    decreases |xs|
  {
    if xs != [] {
      var x, rest := xs[0], xs[1..];
      var head := if key(x) == k then [x] else [];
      assert xs == [x] + rest;
      MapSeqAppend([x], rest, f);
      assert MapSeq(xs, f) == [f(x)] + MapSeq(rest, f);
      WithKeyCons(f(x), MapSeq(rest, f), key2, k);
      WithKeyMap(rest, f, key, key2, k);
      assert WithKey(xs, key, k) == head + WithKey(rest, key, k);
      MapSeqAppend(head, WithKey(rest, key, k), f);
      assert MapSeq(head, f) == if key(x) == k then [f(x)] else [];
    }
  }

  lemma SplitLast<T>(xs: seq<T>)
    requires xs != []
    ensures xs == xs[..|xs| - 1] + [xs[|xs| - 1]]
  {
  }

  /** Inserting an element whose `code` is new keeps the codes distinct. */
  lemma {:induction false} InsertDistinct<T>(s: seq<T>, x: T, key: T -> string, code: T -> string)
    requires DistinctKeys(s, code) && !KeyIn(s, code, code(x))
    ensures DistinctKeys(Insert(s, x, key), code)
  {
    if s != [] {
      if !LessEq(key(s[0]), key(x)) {
        var r := [x] + s;
        forall i, j | 0 <= i < j < |r|
          ensures code(r[i]) != code(r[j])
        {
          assert r[j] == s[j - 1];
          if i > 0 {
            assert r[i] == s[i - 1];
          }
        }
      } else {
        var rest := s[1..];
        assert DistinctKeys(rest, code);
        assert !KeyIn(rest, code, code(x)) by {
          forall m | 0 <= m < |rest|
            ensures code(rest[m]) != code(x)
          {
            assert rest[m] == s[m + 1];
          }
        }
        InsertDistinct(rest, x, key, code);
        var t := Insert(rest, x, key);
        var r := [s[0]] + t;
        forall j | 0 <= j < |t|
          ensures code(s[0]) != code(t[j])
        {
          assert t[j] in multiset(t);
          if t[j] != x {
            assert t[j] in multiset(rest);
            var m :| 0 <= m < |rest| && rest[m] == t[j];
            assert rest[m] == s[m + 1];
          }
        }
        forall i, j | 0 <= i < j < |r|
          ensures code(r[i]) != code(r[j])
        {
          assert r[j] == t[j - 1];
          if i > 0 {
            assert r[i] == t[i - 1];
          }
        }
      }
    }
  }

  /** Sorting by any key keeps distinct codes distinct. */
  lemma {:induction false} SortByDistinct<T>(xs: seq<T>, key: T -> string, code: T -> string)
    requires DistinctKeys(xs, code)
    ensures DistinctKeys(SortBy(xs, key), code)
  {
    if xs != [] {
      var init := xs[..|xs| - 1];
      var last := xs[|xs| - 1];
      assert DistinctKeys(init, code);
      SortByDistinct(init, key, code);
      var sorted := SortBy(init, key);
      assert !KeyIn(sorted, code, code(last)) by {
        forall m | 0 <= m < |sorted|
          ensures code(sorted[m]) != code(last)
        {
          assert sorted[m] in multiset(sorted);
          assert sorted[m] in multiset(init);
          var n :| 0 <= n < |init| && init[n] == sorted[m];
          assert xs[n] == init[n];
        }
      }
      InsertDistinct(sorted, last, key, code);
    }
  }

  /** Sorting neither adds nor drops elements. */
  lemma SortByMembers<T>(xs: seq<T>, key: T -> string)
    ensures forall y :: y in SortBy(xs, key) <==> y in xs
  {
    forall y
      ensures y in SortBy(xs, key) <==> y in xs
    {
      assert y in SortBy(xs, key) <==> y in multiset(SortBy(xs, key));
      assert y in xs <==> y in multiset(xs);
    }
  }

  /**
   * The chain `sortBy(uniqBy(xs, code), name)`: one element per code, the
   * first with it, in ascending name order, equal names in input order.
   */
  lemma UniqSorted<T>(xs: seq<T>, code: T -> string, name: T -> string)
    ensures SortedBy(SortBy(UniqBy(xs, code), name), name)
    ensures DistinctKeys(SortBy(UniqBy(xs, code), name), code)
    ensures forall y :: y in SortBy(UniqBy(xs, code), name) <==> KeyIn(xs, code, code(y)) && y == FirstWithKey(xs, code, code(y))
  {
    var u := UniqBy(xs, code);
    UniqByKeeps(xs, code);
    SortBySorted(u, name);
    SortByDistinct(u, name, code);
    SortByMembers(u, name);
  }
}
