/** The collection operations the program takes from JavaScript's library:
    `Array.prototype.filter`, `new Map(entries)` and assignment into an object
    used as a dictionary (the last entry for a key wins), the stable
    `Array.prototype.sort` with a descending comparator, and `Set` with its
    insertion order. */
module Collections {

  function Id<T>(x: T): T {
    x
  }

  // ---------- filter ----------

  function Filter<T>(s: seq<T>, p: T -> bool): (r: seq<T>)
    ensures |r| <= |s|
    ensures forall x :: x in r ==> x in s && p(x)
  {
    if s == [] then [] else (if p(s[0]) then [s[0]] else []) + Filter(s[1..], p)
  }

  /** Nothing that passes is lost, and each element keeps its multiplicity. */
  lemma {:induction false} FilterMultiset<T>(s: seq<T>, p: T -> bool, x: T)
    ensures multiset(Filter(s, p))[x] == if p(x) then multiset(s)[x] else 0
  {
    if s != [] {
      FilterMultiset(s[1..], p, x);
      assert s == [s[0]] + s[1..];
    }
  }

  lemma FilterMembership<T>(s: seq<T>, p: T -> bool, x: T)
    ensures x in Filter(s, p) <==> x in s && p(x)
  {
    FilterMultiset(s, p, x);
  }

  /** An empty filter result means that no element passes. */
  lemma FilterEmpty<T>(s: seq<T>, p: T -> bool)
    ensures Filter(s, p) == [] <==> forall i :: 0 <= i < |s| ==> !p(s[i])
  {
    if Filter(s, p) == [] {
      forall i | 0 <= i < |s| ensures !p(s[i]) {
        FilterMembership(s, p, s[i]);
      }
    } else {
      var x := Filter(s, p)[0];
      assert x in s && p(x);
    }
  }

  /** Filters by predicates that agree everywhere agree. */
  lemma {:induction false} FilterExt<T>(s: seq<T>, p: T -> bool, q: T -> bool)
    requires forall x :: p(x) == q(x)
    ensures Filter(s, p) == Filter(s, q)
  {
    if s != [] {
      FilterExt(s[1..], p, q);
    }
  }

  /** A filter every element passes keeps the whole sequence. */
  lemma {:induction false} FilterAllPass<T>(s: seq<T>, p: T -> bool)
    requires forall i :: 0 <= i < |s| ==> p(s[i])
    ensures Filter(s, p) == s
  {
    if s != [] {
      FilterAllPass(s[1..], p);
      assert s == [s[0]] + s[1..];
    }
  }

  /** Filters of two orderings of the same elements hold the same elements. */
  lemma FilterPermutation<T>(a: seq<T>, b: seq<T>, p: T -> bool)
    requires multiset(a) == multiset(b)
    ensures multiset(Filter(a, p)) == multiset(Filter(b, p))
  {
    var fa := multiset(Filter(a, p));
    var fb := multiset(Filter(b, p));
    forall x ensures fa[x] == fb[x] {
      FilterMultiset(a, p, x);
      FilterMultiset(b, p, x);
    }
    MultisetExt(fa, fb);
  }

  lemma MultisetExt<T>(a: multiset<T>, b: multiset<T>)
    requires forall x :: a[x] == b[x]
    ensures a == b
  {
  }

  function And<T>(p: T -> bool, q: T -> bool): T -> bool {
    x => p(x) && q(x)
  }

  /** The filter that applies `p` only when `c` holds. */
  function Guarded<T>(c: bool, p: T -> bool): T -> bool {
    x => !c || p(x)
  }

  /** Two filters in a row are one filter by the conjunction. */
  lemma {:induction false} FilterFilter<T>(s: seq<T>, p: T -> bool, q: T -> bool)
    ensures Filter(Filter(s, p), q) == Filter(s, And(p, q))
  {
    if s != [] {
      FilterFilter(s[1..], p, q);
      var once := Filter(s, p);
      if p(s[0]) {
        assert once == [s[0]] + Filter(s[1..], p);
        assert once[0] == s[0] && once[1..] == Filter(s[1..], p);
      } else {
        assert once == Filter(s[1..], p);
      }
    }
  }

  /** A filter that is applied only under a condition is a guarded filter. */
  lemma {:induction false} FilterGuarded<T>(s: seq<T>, c: bool, p: T -> bool)
    ensures (if c then Filter(s, p) else s) == Filter(s, Guarded(c, p))
  {
    if s != [] {
      FilterGuarded(s[1..], c, p);
      assert Guarded(c, p)(s[0]) == (!c || p(s[0]));
      if !c {
        assert s == [s[0]] + s[1..];
      }
    }
  }

  /** A filter followed by a guarded filter is one filter by the conjunction. */
  lemma FilterThenGuarded<T>(s: seq<T>, p: T -> bool, c: bool, q: T -> bool)
    ensures (if c then Filter(Filter(s, p), q) else Filter(s, p)) == Filter(s, And(p, Guarded(c, q)))
  {
    FilterGuarded(Filter(s, p), c, q);
    FilterFilter(s, p, Guarded(c, q));
  }

  // ---------- sums ----------

  function SumOf<T>(s: seq<T>, val: T -> int): int {
    if s == [] then 0 else SumOf(s[..|s| - 1], val) + val(s[|s| - 1])
  }

  lemma {:induction false} SumOfConcat<T>(s: seq<T>, t: seq<T>, val: T -> int)
    ensures SumOf(s + t, val) == SumOf(s, val) + SumOf(t, val)
  {
    if t == [] {
      assert s + t == s;
    } else {
      SumOfConcat(s, t[..|t| - 1], val);
      assert (s + t)[..|s + t| - 1] == s + t[..|t| - 1];
    }
  }

  /** A sum does not depend on the order of its terms. */
  lemma {:induction false} SumOfPermutation<T>(a: seq<T>, b: seq<T>, val: T -> int)
    requires multiset(a) == multiset(b)
    ensures SumOf(a, val) == SumOf(b, val)
    decreases |a|
  {
    if a != [] {
      var n := |a|;
      var x := a[n - 1];
      assert x in multiset(b);
      var i :| 0 <= i < |b| && b[i] == x;
      SumOfRemove(b, i, val);
      MultisetRemove(b, i);
      assert a == a[..n - 1] + [x];
      assert multiset(a[..n - 1]) == multiset(a) - multiset{x};
      SumOfPermutation(a[..n - 1], b[..i] + b[i + 1..], val);
    }
  }

  /** Taking one term out of a sequence takes its value out of the sum. */
  lemma SumOfRemove<T>(b: seq<T>, i: nat, val: T -> int)
    requires i < |b|
    ensures SumOf(b, val) == SumOf(b[..i] + b[i + 1..], val) + val(b[i])
  {
    var front, x, back := b[..i], b[i], b[i + 1..];
    SplitAt(b, i);
    SumOfConcat(front + [x], back, val);
    SumOfConcat(front, [x], val);
    SumOfConcat(front, back, val);
    assert [x][..0] == [];
  }

  /** Taking one term out of a sequence takes one copy out of its multiset. */
  lemma MultisetRemove<T>(b: seq<T>, i: nat)
    requires i < |b|
    ensures multiset(b[..i] + b[i + 1..]) == multiset(b) - multiset{b[i]}
  {
    SplitAt(b, i);
    assert multiset(b) == multiset(b[..i]) + multiset{b[i]} + multiset(b[i + 1..]);
  }

  lemma SplitAt<T>(b: seq<T>, i: nat)
    requires i < |b|
    ensures b == b[..i] + [b[i]] + b[i + 1..]
  {
    assert b[i..] == [b[i]] + b[i + 1..];
    assert b == b[..i] + b[i..];
  }

  // ---------- loops that push at most one element per item ----------

  /** The result of walking `s` in order and appending `step(x)` for each item. */
  function Gather<A, B>(s: seq<A>, step: A -> seq<B>): seq<B> {
    if s == [] then [] else Gather(s[..|s| - 1], step) + step(s[|s| - 1])
  }

  /** Gathering one more item appends its step. */
  lemma GatherNext<A, B>(s: seq<A>, step: A -> seq<B>, i: int)
    requires 0 <= i < |s|
    ensures Gather(s[..i + 1], step) == Gather(s[..i], step) + step(s[i])
  {
    assert s[..i + 1][..i] == s[..i];
  }

  /** `origin[k]` is the position of `s` whose step produced `r[k]`: positions
      increase along `r`, and every item whose step is not empty produced one. */
  ghost predicate GatheredFrom<A, B>(r: seq<B>, s: seq<A>, step: A -> seq<B>, origin: seq<nat>) {
    && |origin| == |r|
    && (forall k :: 0 <= k < |r| ==> origin[k] < |s| && step(s[origin[k]]) == [r[k]])
    && (forall k, l :: 0 <= k < l < |r| ==> origin[k] < origin[l])
    && (forall p :: 0 <= p < |s| && step(s[p]) != [] ==> p in origin)
  }

  /** When each step yields at most one element, the gathered elements are
      exactly those of the non-empty steps, in the order of their items. */
  lemma {:induction false} GatherOrigins<A, B>(s: seq<A>, step: A -> seq<B>) returns (origin: seq<nat>)
    requires forall x :: |step(x)| <= 1
    ensures GatheredFrom(Gather(s, step), s, step, origin)
  {
    if s == [] {
      origin := [];
    } else {
      var n := |s|;
      var front := s[..n - 1];
      var o := GatherOrigins(front, step);
      if step(s[n - 1]) == [] {
        origin := o;
        GatherSkip(s, step, o);
      } else {
        origin := o + [n - 1];
        GatherTake(s, step, o);
      }
    }
  }

  lemma GatherSkip<A, B>(s: seq<A>, step: A -> seq<B>, o: seq<nat>)
    requires s != [] && step(s[|s| - 1]) == []
    requires GatheredFrom(Gather(s[..|s| - 1], step), s[..|s| - 1], step, o)
    ensures GatheredFrom(Gather(s, step), s, step, o)
  {
    var n := |s|;
    var front := s[..n - 1];
    assert Gather(s, step) == Gather(front, step);
    forall p | 0 <= p < n && step(s[p]) != [] ensures p in o {
      assert p < n - 1 && front[p] == s[p];
    }
  }

  lemma GatherTake<A, B>(s: seq<A>, step: A -> seq<B>, o: seq<nat>)
    requires s != [] && |step(s[|s| - 1])| == 1
    requires GatheredFrom(Gather(s[..|s| - 1], step), s[..|s| - 1], step, o)
    ensures GatheredFrom(Gather(s, step), s, step, o + [|s| - 1])
  {
    var n := |s|;
    var front := s[..n - 1];
    var earlier := Gather(front, step);
    var r := Gather(s, step);
    var origin := o + [n - 1];
    assert r == earlier + step(s[n - 1]);
    forall k | 0 <= k < |r| ensures origin[k] < n && step(s[origin[k]]) == [r[k]] {
      if k < |earlier| {
        assert r[k] == earlier[k] && origin[k] == o[k] && front[o[k]] == s[o[k]];
      } else {
        assert step(s[n - 1]) == [r[k]];
      }
    }
    forall p | 0 <= p < n && step(s[p]) != [] ensures p in origin {
      if p < n - 1 {
        assert front[p] == s[p];
        assert p in o;
      } else {
        assert origin[|o|] == p;
      }
    }
  }

  /** When each step yields at most one element, an element is gathered
      exactly when it is the step of some item. */
  lemma GatherMembership<A, B>(s: seq<A>, step: A -> seq<B>, y: B)
    requires forall x :: |step(x)| <= 1
    ensures y in Gather(s, step) <==> exists i :: 0 <= i < |s| && step(s[i]) == [y]
  {
    var origin := GatherOrigins(s, step);
    var r := Gather(s, step);
    if y in r {
      var k :| 0 <= k < |r| && r[k] == y;
      assert step(s[origin[k]]) == [y];
    }
    if exists i :: 0 <= i < |s| && step(s[i]) == [y] {
      var i :| 0 <= i < |s| && step(s[i]) == [y];
      var k :| 0 <= k < |origin| && origin[k] == i;
      assert r[k] == y;
    }
  }

  /** Everything gathered comes from the step of some item. */
  lemma {:induction false} GatherMembers<A, B>(s: seq<A>, step: A -> seq<B>, y: B)
    requires y in Gather(s, step)
    ensures exists i :: 0 <= i < |s| && y in step(s[i])
  {
    var n := |s|;
    var front := s[..n - 1];
    if y in Gather(front, step) {
      GatherMembers(front, step, y);
      var i :| 0 <= i < |front| && y in step(front[i]);
      assert front[i] == s[i];
    } else {
      assert y in step(s[n - 1]);
    }
  }

  // ---------- dictionaries keyed by a field ----------

  /** The dictionary that results from storing `val(x)` under `key(x)` for each
      `x` of `s` in turn. */
  function IndexBy<T, K, V>(s: seq<T>, key: T -> K, val: T -> V): (m: map<K, V>)
    ensures m.Keys == set i | 0 <= i < |s| :: key(s[i])
  {
    if s == [] then map[]
    else IndexBy(s[..|s| - 1], key, val)[key(s[|s| - 1]) := val(s[|s| - 1])]
  }

  /** Each key holds the value of the LAST element that has that key. */
  lemma {:induction false} IndexByLastWins<T, K, V>(s: seq<T>, key: T -> K, val: T -> V, k: K)
    requires k in IndexBy(s, key, val)
    ensures exists j :: 0 <= j < |s| && key(s[j]) == k && IndexBy(s, key, val)[k] == val(s[j])
                        && forall i :: j < i < |s| ==> key(s[i]) != k
  {
    var n := |s|;
    if key(s[n - 1]) == k {
      assert key(s[n - 1]) == k && IndexBy(s, key, val)[k] == val(s[n - 1]);
    } else {
      var s' := s[..n - 1];
      IndexByLastWins(s', key, val, k);
      var j :| 0 <= j < |s'| && key(s'[j]) == k && IndexBy(s', key, val)[k] == val(s'[j])
               && forall i :: j < i < |s'| ==> key(s'[i]) != k;
      assert s[j] == s'[j];
      assert forall i :: j < i < n ==> key(s[i]) != k by {
        forall i | j < i < n ensures key(s[i]) != k {
          if i < n - 1 {
            assert s[i] == s'[i];
          }
        }
      }
    }
  }

  /** With distinct keys, each element's key holds that element's value. */
  lemma IndexByDistinct<T, K, V>(s: seq<T>, key: T -> K, val: T -> V, i: int)
    requires forall p, q :: 0 <= p < q < |s| ==> key(s[p]) != key(s[q])
    requires 0 <= i < |s|
    ensures key(s[i]) in IndexBy(s, key, val) && IndexBy(s, key, val)[key(s[i])] == val(s[i])
  {
    var k := key(s[i]);
    assert k in IndexBy(s, key, val);
    IndexByLastWins(s, key, val, k);
    var j :| 0 <= j < |s| && key(s[j]) == k && IndexBy(s, key, val)[k] == val(s[j])
             && forall l :: j < l < |s| ==> key(s[l]) != k;
    assert j == i;
  }

  /** With distinct keys, the index has exactly the elements' keys, each
      holding its element's value. */
  lemma IndexByEntries<T, K, V>(s: seq<T>, key: T -> K, val: T -> V)
    requires forall p, q :: 0 <= p < q < |s| ==> key(s[p]) != key(s[q])
    ensures forall x :: x in IndexBy(s, key, val) <==> exists i :: 0 <= i < |s| && key(s[i]) == x
    ensures forall i :: 0 <= i < |s| ==> IndexBy(s, key, val)[key(s[i])] == val(s[i])
  {
    forall i | 0 <= i < |s| ensures IndexBy(s, key, val)[key(s[i])] == val(s[i]) {
      IndexByDistinct(s, key, val, i);
    }
  }

  // ---------- stable descending sort ----------

  ghost predicate SortedDesc<T>(s: seq<T>, key: T -> int) {
    forall i, j :: 0 <= i < j < |s| ==> key(s[i]) >= key(s[j])
  }

  function Insert<T>(x: T, t: seq<T>, key: T -> int): (r: seq<T>)
    ensures |r| == |t| + 1
    ensures multiset(r) == multiset(t) + multiset{x}
    ensures forall y :: y in r ==> y == x || y in t
  {
    if t == [] || key(x) >= key(t[0]) then [x] + t
    else
      assert t == [t[0]] + t[1..];
      [t[0]] + Insert(x, t[1..], key)
  }

  lemma {:induction false} InsertSorted<T>(x: T, t: seq<T>, key: T -> int)
    requires SortedDesc(t, key)
    ensures SortedDesc(Insert(x, t, key), key)
  {
    if t != [] && key(x) < key(t[0]) {
      InsertSorted(x, t[1..], key);
      var rest := Insert(x, t[1..], key);
      var r := [t[0]] + rest;
      forall i, j | 0 <= i < j < |r| ensures key(r[i]) >= key(r[j]) {
        if i == 0 {
          assert r[j] in rest;
          if r[j] != x {
            assert r[j] in t[1..];
            var k :| 0 <= k < |t[1..]| && t[1..][k] == r[j];
            assert t[k + 1] == r[j];
          }
        } else {
          assert r[i] == rest[i - 1] && r[j] == rest[j - 1];
        }
      }
    }
  }

  /** `Array.prototype.sort` with `d3.descending` on `key`: an insertion sort
      that places each element before the equal ones that followed it, so the
      order of equal keys is kept. */
  function SortDesc<T>(s: seq<T>, key: T -> int): (r: seq<T>)
    ensures multiset(r) == multiset(s)
    ensures SortedDesc(r, key)
  {
    if s == [] then []
    else
      assert s == [s[0]] + s[1..];
      InsertSorted(s[0], SortDesc(s[1..], key), key);
      Insert(s[0], SortDesc(s[1..], key), key)
  }

  function KeyIs<T>(key: T -> int, k: int): T -> bool {
    x => key(x) == k
  }

  lemma {:induction false} InsertStable<T>(x: T, t: seq<T>, key: T -> int, k: int)
    ensures Filter(Insert(x, t, key), KeyIs(key, k)) == Filter([x] + t, KeyIs(key, k))
  {
    if t == [] || key(x) >= key(t[0]) {
      assert Insert(x, t, key) == [x] + t;
    } else {
      var p := KeyIs(key, k);
      var keepX: seq<T> := if p(x) then [x] else [];
      var keepHead: seq<T> := if p(t[0]) then [t[0]] else [];
      assert t == [t[0]] + t[1..];
      calc {
        Filter(Insert(x, t, key), p);
        { FilterCons(t[0], Insert(x, t[1..], key), p); }
        keepHead + Filter(Insert(x, t[1..], key), p);
        { InsertStable(x, t[1..], key, k); FilterCons(x, t[1..], p); }
        keepHead + (keepX + Filter(t[1..], p));
        { KeptOnceEach(x, t[0], key, k);  SwapEmpty(keepHead, keepX, Filter(t[1..], p)); }
        keepX + (keepHead + Filter(t[1..], p));
        { FilterCons(t[0], t[1..], p); FilterCons(x, t, p); }
        Filter([x] + t, p);
      }
    }
  }

  /** Two elements with different keys are not both kept by a key test. */
  lemma KeptOnceEach<T>(x: T, y: T, key: T -> int, k: int)
    requires key(x) != key(y)
    ensures !(KeyIs(key, k)(x) && KeyIs(key, k)(y))
  {
  }

  lemma SwapEmpty<T>(a: seq<T>, b: seq<T>, f: seq<T>)
    requires a == [] || b == []
    ensures a + (b + f) == b + (a + f)
  {
    if a == [] {
      assert a + (b + f) == b + f == b + (a + f);
    } else {
      assert a + (b + f) == a + f == b + (a + f);
    }
  }

  lemma FilterCons<T>(h: T, s: seq<T>, p: T -> bool)
    ensures Filter([h] + s, p) == (if p(h) then [h] else []) + Filter(s, p)
  {
    assert ([h] + s)[1..] == s;
  }

  /** The sort is stable: among elements with the same key, the input order is kept. */
  lemma {:induction false} SortDescStable<T>(s: seq<T>, key: T -> int, k: int)
    ensures Filter(SortDesc(s, key), KeyIs(key, k)) == Filter(s, KeyIs(key, k))
  {
    if s != [] {
      SortDescStable(s[1..], key, k);
      InsertStable(s[0], SortDesc(s[1..], key), key, k);
      assert ([s[0]] + SortDesc(s[1..], key))[1..] == SortDesc(s[1..], key);
    }
  }

  // ---------- distinct keys ----------

  ghost predicate DistinctKeys<T, K>(s: seq<T>, key: T -> K) {
    forall i, j :: 0 <= i < j < |s| ==> key(s[i]) != key(s[j])
  }

  lemma {:induction false} DistinctKeysMultiset<T, K>(s: seq<T>, key: T -> K, x: T)
    requires DistinctKeys(s, key)
    ensures multiset(s)[x] <= 1
  {
    if s != [] {
      var n := |s|;
      DistinctKeysMultiset(s[..n - 1], key, x);
      assert s == s[..n - 1] + [s[n - 1]];
    }
  }

  /** Reordering a sequence keeps its keys distinct. */
  lemma PermutationKeepsDistinctKeys<T, K>(a: seq<T>, b: seq<T>, key: T -> K)
    requires multiset(a) == multiset(b)
    requires DistinctKeys(a, key)
    ensures DistinctKeys(b, key)
  {
    forall i, j | 0 <= i < j < |b| ensures key(b[i]) != key(b[j]) {
      if key(b[i]) == key(b[j]) {
        assert b[i] in multiset(a) && b[j] in multiset(a);
        var p :| 0 <= p < |a| && a[p] == b[i];
        var q :| 0 <= q < |a| && a[q] == b[j];
        if p == q {
          assert b == b[..j] + b[j..];
          assert b[i] in b[..j] && b[j] in b[j..];
          assert multiset(b)[b[i]] == multiset(b[..j])[b[i]] + multiset(b[j..])[b[i]];
          DistinctKeysMultiset(a, key, b[i]);
        }
      }
    }
  }

  // ---------- insertion-ordered sets (JavaScript Set) ----------

  predicate NoDup<T(==)>(s: seq<T>) {
    forall i, j :: 0 <= i < j < |s| ==> s[i] != s[j]
  }

  /** `set.add(x)`: a new element goes to the end; an existing one stays where it is. */
  function SetAdd<T(==,!new)>(s: seq<T>, x: T): (r: seq<T>)
    ensures forall y :: y in r <==> y in s || y == x
    ensures NoDup(s) ==> NoDup(r)
  {
    if x in s then s else s + [x]
  }

  /** `set.delete(x)`: every other element keeps its place. */
  function SetDelete<T(==,!new)>(s: seq<T>, x: T): (r: seq<T>)
    ensures forall y :: y in r <==> y in s && y != x
    ensures NoDup(s) ==> NoDup(r)
  {
    if s == [] then []
    else
      var rest := SetDelete(s[1..], x);
      assert NoDup(s) ==> s[0] !in s[1..];
      (if s[0] == x then [] else [s[0]]) + rest
  }

  /** Deleting an absent element changes nothing. */
  lemma {:induction false} SetDeleteAbsent<T(!new)>(s: seq<T>, x: T)
    requires x !in s
    ensures SetDelete(s, x) == s
  {
    if s != [] {
      SetDeleteAbsent(s[1..], x);
      assert s == [s[0]] + s[1..];
    }
  }
}
