/** JavaScript's insertion-ordered Set and Map as Dafny values: a Set is a sequence
    without repetitions to which `add` appends new elements only, and a Map that is
    only queried with has/get is a Dafny map built by successive `set` calls, so the
    last write to a key wins. */
module Ordered {
  import opened Text

  ghost predicate NoDup<T>(xs: seq<T>) { forall i, j :: 0 <= i < j < |xs| ==> xs[i] != xs[j] }

  /** Set.prototype.add: append x unless it is already present. */
  function AddUnique<T(==,!new)>(xs: seq<T>, x: T): (r: seq<T>)
    ensures x in r
    ensures forall y :: y in r <==> y in xs || y == x
    ensures NoDup(xs) ==> NoDup(r)
    ensures xs <= r
  {
    if x in xs then xs else xs + [x]
  }

  /** Array.from(new Set(xs)): the elements of xs, each once, added in order. */
  function Distinct<T(==,!new)>(xs: seq<T>): (r: seq<T>)
    ensures NoDup(r)
    ensures forall y :: y in r <==> y in xs
    ensures |r| <= |xs|
  {
    if xs == [] then [] else AddUnique(Distinct(xs[..|xs| - 1]), xs[|xs| - 1])
  }

  lemma DistinctSnoc<T(!new)>(xs: seq<T>, x: T)
    ensures Distinct(xs + [x]) == AddUnique(Distinct(xs), x)
  {
    assert (xs + [x])[..|xs|] == xs;
  }

  /** The position of the first occurrence of x (Array.prototype.indexOf). */
  function FirstIndex<T(==)>(xs: seq<T>, x: T): (k: nat)
    requires x in xs
    ensures k < |xs| && xs[k] == x && x !in xs[..k]
  {
    if xs[0] == x then 0 else
      var k := 1 + FirstIndex(xs[1..], x);
      assert xs[..k] == [xs[0]] + xs[1..][..k - 1];
      k
  }

  lemma FirstIndexUnique<T>(xs: seq<T>, x: T, k: nat)
    requires k < |xs| && xs[k] == x && x !in xs[..k]
    ensures FirstIndex(xs, x) == k
  {
    var f := FirstIndex(xs, x);
    assert forall m :: 0 <= m < k ==> xs[..k][m] == xs[m];
    assert forall m :: 0 <= m < f ==> xs[..f][m] == xs[m];
  }

  /** r lists the distinct elements of xs in the order of their first occurrence. */
  ghost predicate FirstSeenOrder<T(!new)>(r: seq<T>, xs: seq<T>) {
    && NoDup(r)
    && (forall y :: y in r <==> y in xs)
    && forall i, j :: 0 <= i < j < |r| ==> FirstIndex(xs, r[i]) < FirstIndex(xs, r[j])
  }

  lemma FirstIndexAppend<T>(ys: seq<T>, x: T, y: T)
    requires y in ys
    ensures FirstIndex(ys + [x], y) == FirstIndex(ys, y)
  {
    var k := FirstIndex(ys, y);
    assert (ys + [x])[..k] == ys[..k];
    FirstIndexUnique(ys + [x], y, k);
  }

  lemma {:induction false} AddUniqueFirstSeen<T(!new)>(acc: seq<T>, ys: seq<T>, x: T)
    requires FirstSeenOrder(acc, ys)
    ensures FirstSeenOrder(AddUnique(acc, x), ys + [x])
  {
    var r := AddUnique(acc, x);
    var zs := ys + [x];
    forall y | y in ys { FirstIndexAppend(ys, x, y); }
    if x !in acc {
      assert zs[..|ys|] == ys;
      FirstIndexUnique(zs, x, |ys|);
      forall i, j | 0 <= i < j < |r|
        ensures FirstIndex(zs, r[i]) < FirstIndex(zs, r[j])
      {
        if j < |acc| {
          assert r[i] == acc[i] && r[j] == acc[j];
        } else {
          assert r[i] == acc[i] && r[i] in ys;
        }
      }
    }
  }

  /** Distinct keeps the first occurrence of every element, in order. */
  lemma {:induction false} DistinctFirstSeen<T(!new)>(xs: seq<T>)
    ensures FirstSeenOrder(Distinct(xs), xs)
  {
    if xs != [] {
      var init := xs[..|xs| - 1];
      DistinctFirstSeen(init);
      AddUniqueFirstSeen(Distinct(init), init, xs[|xs| - 1]);
      assert init + [xs[|xs| - 1]] == xs;
    }
  }

  /** Array.prototype.filter */
  function Filter<T(!new)>(xs: seq<T>, p: T -> bool): (r: seq<T>)
    ensures |r| <= |xs|
    ensures forall y :: y in r <==> y in xs && p(y)
  {
    if xs == [] then []
    else Filter(xs[..|xs| - 1], p) + (if p(xs[|xs| - 1]) then [xs[|xs| - 1]] else [])
  }

  /** A non-empty sequence is its prefix followed by its last element. */
  lemma InitLast<T>(xs: seq<T>)
    requires xs != []
    ensures xs[..|xs| - 1] + [xs[|xs| - 1]] == xs
  {
  }

  /** Filtering a concatenation filters each part: the kept elements stay in order, each
      as often as it occurs. */
  lemma {:induction false} FilterConcat<T(!new)>(a: seq<T>, b: seq<T>, p: T -> bool)
    ensures Filter(a + b, p) == Filter(a, p) + Filter(b, p)
  {
    if b == [] {
      assert a + b == a;
    } else {
      var init, last := b[..|b| - 1], b[|b| - 1];
      var tail := if p(last) then [last] else [];
      FilterConcat(a, init, p);
      assert (a + b)[..|a + b| - 1] == a + init;
      assert (a + b)[|a + b| - 1] == last;
      calc {
        Filter(a + b, p);
        Filter(a + init, p) + tail;
        (Filter(a, p) + Filter(init, p)) + tail;
        Filter(a, p) + (Filter(init, p) + tail);
        Filter(a, p) + Filter(b, p);
      }
    }
  }

  /** The pieces f(x) of every element, one after the other (xs.forEach pushing f(x)). */
  function FlatMap<T, U>(xs: seq<T>, f: T -> seq<U>): seq<U>
  {
    if xs == [] then [] else FlatMap(xs[..|xs| - 1], f) + f(xs[|xs| - 1])
  }

  /** The pieces of a concatenation are the pieces of each part, in order. */
  lemma {:induction false} FlatMapConcat<T, U>(a: seq<T>, b: seq<T>, f: T -> seq<U>)
    ensures FlatMap(a + b, f) == FlatMap(a, f) + FlatMap(b, f)
    decreases |b|
  {
    if b == [] {
      assert a + b == a;
    } else {
      var init, last := b[..|b| - 1], b[|b| - 1];
      FlatMapConcat(a, init, f);
      assert (a + b)[..|a + b| - 1] == a + init;
      assert (a + b)[|a + b| - 1] == last;
    }
  }

  lemma FlatMapSingle<T, U>(x: T, f: T -> seq<U>)
    ensures FlatMap([x], f) == f(x)
  {
    assert [x][..0] == [];
  }

  /** A single element is kept exactly when it satisfies p. */
  lemma FilterSingle<T(!new)>(x: T, p: T -> bool)
    ensures Filter([x], p) == if p(x) then [x] else []
  {
    assert [x][..0] == [];
  }

  /** A Map filled by calling set(k, v) for every pair in order. */
  function LastWins<K, V>(kvs: seq<(K, V)>): map<K, V>
  {
    if kvs == [] then map[] else LastWins(kvs[..|kvs| - 1])[kvs[|kvs| - 1].0 := kvs[|kvs| - 1].1]
  }

  /** The value stored under k comes from the last pair with key k. */
  ghost predicate LastWrite<K, V>(kvs: seq<(K, V)>, k: K, v: V) {
    exists i :: 0 <= i < |kvs| && kvs[i] == (k, v) && forall j :: i < j < |kvs| ==> kvs[j].0 != k
  }

  lemma {:induction false} LastWinsSpec<K, V>(kvs: seq<(K, V)>, k: K)
    ensures k in LastWins(kvs) <==> exists i :: 0 <= i < |kvs| && kvs[i].0 == k
    ensures k in LastWins(kvs) ==> LastWrite(kvs, k, LastWins(kvs)[k])
  {
    if kvs != [] {
      var init := kvs[..|kvs| - 1];
      var last := kvs[|kvs| - 1];
      LastWinsSpec(init, k);
      if last.0 == k {
        assert kvs[|kvs| - 1] == (k, LastWins(kvs)[k]);
      } else if k in LastWins(init) {
        var i :| 0 <= i < |init| && init[i] == (k, LastWins(init)[k]) && forall j :: i < j < |init| ==> init[j].0 != k;
        assert kvs[i] == init[i];
      } else {
        forall i | 0 <= i < |kvs| ensures kvs[i].0 != k {
          if i < |init| { assert kvs[i] == init[i]; }
        }
      }
    }
  }

  /** Setting one more pair on top of a filled Map. */
  lemma LastWinsSnoc<K, V>(kvs: seq<(K, V)>, k: K, v: V)
    ensures LastWins(kvs + [(k, v)]) == LastWins(kvs)[k := v]
  {
    assert (kvs + [(k, v)])[..|kvs|] == kvs;
  }

  /** Adding every element of ys to the Set xs, in order. */
  function AddAll<T(==,!new)>(xs: seq<T>, ys: seq<T>): (r: seq<T>)
    ensures NoDup(xs) ==> NoDup(r)
    ensures forall y :: y in r <==> y in xs || y in ys
    ensures xs <= r
  {
    if ys == [] then xs else AddUnique(AddAll(xs, ys[..|ys| - 1]), ys[|ys| - 1])
  }

  lemma {:induction false} AddAllFirstSeen<T(!new)>(acc: seq<T>, ys: seq<T>, zs: seq<T>)
    requires FirstSeenOrder(acc, ys)
    ensures FirstSeenOrder(AddAll(acc, zs), ys + zs)
  {
    if zs != [] {
      var init := zs[..|zs| - 1];
      AddAllFirstSeen(acc, ys, init);
      AddUniqueFirstSeen(AddAll(acc, init), ys + init, zs[|zs| - 1]);
      assert ys + init + [zs[|zs| - 1]] == ys + zs;
    } else {
      assert ys + zs == ys;
    }
  }

  /** Calling set(k, v) on the Map m for every pair in order. */
  function PutAll<K, V>(m: map<K, V>, kvs: seq<(K, V)>): map<K, V>
  {
    if kvs == [] then m else PutAll(m, kvs[..|kvs| - 1])[kvs[|kvs| - 1].0 := kvs[|kvs| - 1].1]
  }

  lemma PutAllOne<K, V>(m: map<K, V>, a: (K, V))
    ensures PutAll(m, [a]) == m[a.0 := a.1]
  {
    assert [a][..0] == [];
  }

  lemma PutAllTwo<K, V>(m: map<K, V>, a: (K, V), b: (K, V))
    ensures PutAll(m, [a, b]) == m[a.0 := a.1][b.0 := b.1]
  {
    assert [a, b][..1] == [a];
    PutAllOne(m, a);
  }

  lemma {:induction false} LastWinsAppend<K, V>(a: seq<(K, V)>, b: seq<(K, V)>)
    ensures LastWins(a + b) == PutAll(LastWins(a), b)
  {
    if b == [] {
      assert a + b == a;
    } else {
      var init := b[..|b| - 1];
      LastWinsAppend(a, init);
      assert (a + b)[..|a + b| - 1] == a + init;
    }
  }

  /** The values of the present entries, in order (pushing only when there is something to push). */
  function Somes<T(!new)>(os: seq<Option<T>>): (r: seq<T>)
    ensures |r| <= |os|
    ensures forall x :: x in r <==> Some(x) in os
  {
    if os == [] then []
    else Somes(os[..|os| - 1]) + (match os[|os| - 1] case Some(x) => [x] case None => [])
  }

  lemma {:induction false} SomesConcat<T(!new)>(a: seq<Option<T>>, b: seq<Option<T>>)
    ensures Somes(a + b) == Somes(a) + Somes(b)
  {
    if b == [] {
      assert a + b == a;
    } else {
      var init := b[..|b| - 1];
      SomesConcat(a, init);
      assert (a + b)[..|a + b| - 1] == a + init;
    }
  }

  /** A prefix of the options keeps a prefix of the values. */
  lemma SomesPrefix<T(!new)>(os: seq<Option<T>>, n: nat)
    requires n <= |os|
    ensures Somes(os[..n]) <= Somes(os)
  {
    assert os == os[..n] + os[n..];
    SomesConcat(os[..n], os[n..]);
  }

  /** The first element satisfying p (a loop with break, or Array.prototype.find). */
  function Find<T>(xs: seq<T>, p: T -> bool): (r: Option<T>)
    ensures r.Some? ==> IsFirst(xs, p, r.value)
    ensures r.None? <==> forall j :: 0 <= j < |xs| ==> !p(xs[j])
  {
    if xs == [] then None
    else if p(xs[0]) then
      assert IsFirst(xs, p, xs[0]) by { assert p(xs[0]); }
      Some(xs[0])
    else
      var r := Find(xs[1..], p);
      FindShift(xs, p, r);
      r
  }

  /** v is the element at the first position where p holds. */
  ghost predicate IsFirst<T>(xs: seq<T>, p: T -> bool, v: T) {
    exists k :: 0 <= k < |xs| && xs[k] == v && p(xs[k]) && forall j :: 0 <= j < k ==> !p(xs[j])
  }

  lemma FindShift<T>(xs: seq<T>, p: T -> bool, r: Option<T>)
    requires xs != [] && !p(xs[0])
    requires r.Some? ==> IsFirst(xs[1..], p, r.value)
    requires r.None? <==> forall j :: 0 <= j < |xs[1..]| ==> !p(xs[1..][j])
    ensures r.Some? ==> IsFirst(xs, p, r.value)
    ensures r.None? <==> forall j :: 0 <= j < |xs| ==> !p(xs[j])
  {
    assert forall j :: 1 <= j < |xs| ==> xs[j] == xs[1..][j - 1];
    if r.Some? {
      var k :| 0 <= k < |xs[1..]| && xs[1..][k] == r.value && p(xs[1..][k]) && forall j :: 0 <= j < k ==> !p(xs[1..][j]);
      assert xs[k + 1] == r.value;
    }
  }
}
