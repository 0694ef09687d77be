/** Python's first-wins `min(..., key=...)` and stable `list.sort(key=...)`, over real keys. */
module Ordering {

  function MinIndex<T>(xs: seq<T>, key: T -> real): (m: nat)
    requires |xs| > 0
    ensures m < |xs|
    ensures forall j :: 0 <= j < |xs| ==> key(xs[m]) <= key(xs[j])
    ensures forall j :: 0 <= j < m ==> key(xs[m]) < key(xs[j])
  {
    var n := |xs| - 1;
    if n == 0 then 0
    else
      var m := MinIndex(xs[..n], key);
      if key(xs[n]) < key(xs[m]) then n else m
  }

  /** Position of the first element of that name, or the length. */
  function IndexOf<T>(xs: seq<T>, name: T -> string, id: string): (i: nat)
    ensures i <= |xs|
    ensures i < |xs| ==> name(xs[i]) == id
    ensures forall j :: 0 <= j < i ==> name(xs[j]) != id
  {
    if |xs| == 0 || name(xs[0]) == id then 0 else 1 + IndexOf(xs[1..], name, id)
  }

  function RemoveAt<T>(xs: seq<T>, i: nat): seq<T>
    requires i < |xs|
  {
    xs[..i] + xs[i + 1..]
  }

  function Sort<T>(xs: seq<T>, key: T -> real): seq<T>
    decreases |xs|
  {
    if |xs| == 0 then []
    else
      var m := MinIndex(xs, key);
      [xs[m]] + Sort(RemoveAt(xs, m), key)
  }

  /** The elements whose key is v, in their original order. */
  function WithKey<T>(xs: seq<T>, key: T -> real, v: real): seq<T> {
    if |xs| == 0 then []
    else (if key(xs[0]) == v then [xs[0]] else []) + WithKey(xs[1..], key, v)
  }

  ghost predicate Sorted<T>(xs: seq<T>, key: T -> real) {
    forall i, j :: 0 <= i < j < |xs| ==> key(xs[i]) <= key(xs[j])
  }

  /** ys and xs hold the same elements, and elements with equal keys come in the same order. */
  ghost predicate SameClasses<T(!new)>(xs: seq<T>, ys: seq<T>, key: T -> real) {
    forall v :: WithKey(xs, key, v) == WithKey(ys, key, v)
  }

  lemma {:induction false} WithKeyRemoveAt<T>(xs: seq<T>, i: nat, key: T -> real, v: real)
    requires i < |xs|
    requires key(xs[i]) == v ==> forall j :: 0 <= j < i ==> key(xs[j]) != v
    ensures WithKey(xs, key, v)
         == (if key(xs[i]) == v then [xs[i]] else []) + WithKey(RemoveAt(xs, i), key, v)
  {
    if i == 0 {
      assert RemoveAt(xs, 0) == xs[1..];
    } else {
      var ys := RemoveAt(xs, i);
      assert ys[0] == xs[0] && ys[1..] == RemoveAt(xs[1..], i - 1);
      WithKeyRemoveAt(xs[1..], i - 1, key, v);
    }
  }

  lemma RemoveAtPermutes<T>(xs: seq<T>, i: nat)
    requires i < |xs|
    ensures multiset(xs) == multiset{xs[i]} + multiset(RemoveAt(xs, i))
  {
    assert xs == xs[..i] + [xs[i]] + xs[i + 1..];
  }

  lemma LeastFirst<T>(x: T, tail: seq<T>, key: T -> real)
    requires Sorted(tail, key) && forall y :: y in tail ==> key(x) <= key(y)
    ensures Sorted([x] + tail, key)
  {
    var all := [x] + tail;
    forall i, j | 0 <= i < j < |all| ensures key(all[i]) <= key(all[j]) {
      assert all[j] == tail[j - 1] && tail[j - 1] in tail;
    }
  }

  lemma {:induction false} SortPermutes<T>(xs: seq<T>, key: T -> real)
    ensures multiset(Sort(xs, key)) == multiset(xs) && |Sort(xs, key)| == |xs|
    ensures Sorted(Sort(xs, key), key)
    decreases |xs|
  {
    if |xs| == 0 {
    } else {
      var m := MinIndex(xs, key);
      var tail := Sort(RemoveAt(xs, m), key);
      SortPermutes(RemoveAt(xs, m), key);
      RemoveAtPermutes(xs, m);
      forall y | y in tail ensures key(xs[m]) <= key(y) {
        assert y in multiset(tail);
        var k :| 0 <= k < |xs| && xs[k] == y;
      }
      LeastFirst(xs[m], tail, key);
    }
  }

  /** Sort is a stable sort: a sorted permutation that keeps the order of equal keys. */
  lemma {:induction false} SortIsStable<T(!new)>(xs: seq<T>, key: T -> real)
    ensures multiset(Sort(xs, key)) == multiset(xs) && |Sort(xs, key)| == |xs|
    ensures Sorted(Sort(xs, key), key)
    ensures SameClasses(xs, Sort(xs, key), key)
    decreases |xs|
  {
    SortPermutes(xs, key);
    if |xs| == 0 {
    } else {
      var m := MinIndex(xs, key);
      var rest := RemoveAt(xs, m);
      SortIsStable(rest, key);
      forall v ensures WithKey(xs, key, v) == WithKey(Sort(xs, key), key, v) {
        WithKeyRemoveAt(xs, m, key, v);
        assert WithKey(rest, key, v) == WithKey(Sort(rest, key), key, v);
        assert Sort(xs, key)[1..] == Sort(rest, key);
      }
    }
  }

  // ------------------------------------------------------- lists by positions

  /** ys holds what stands at those places of xs. */
  ghost predicate StandsAt<T>(xs: seq<T>, places: seq<nat>, ys: seq<T>) {
    |ys| == |places| && forall i :: 0 <= i < |places| ==> places[i] < |xs| && ys[i] == xs[places[i]]
  }

  /** The places are visited by key, and among equal keys by position. */
  ghost predicate InOrder<T>(xs: seq<T>, key: T -> real, places: seq<nat>) {
    forall i, j :: 0 <= i < j < |places| ==> Precedes(xs, key, places[i], places[j])
  }

  ghost predicate Precedes<T>(xs: seq<T>, key: T -> real, i: nat, j: nat) {
    i < |xs| && j < |xs| && (key(xs[i]) < key(xs[j]) || (key(xs[i]) == key(xs[j]) && i < j))
  }

  /** Positions among the elements other than the one at m, as positions among all. */
  function Around(m: nat, places: seq<nat>): (r: seq<nat>)
    ensures |r| == |places|
    ensures forall i :: 0 <= i < |r| ==> r[i] == if places[i] < m then places[i] else places[i] + 1
  {
    seq(|places|, i requires 0 <= i < |places| => if places[i] < m then places[i] else places[i] + 1)
  }

  lemma AroundLeast<T>(xs: seq<T>, key: T -> real, m: nat, rest: seq<nat>, ys: seq<T>)
    requires m < |xs| && m == MinIndex(xs, key)
    requires StandsAt(RemoveAt(xs, m), rest, ys) && InOrder(RemoveAt(xs, m), key, rest)
    ensures StandsAt(xs, Around(m, rest), ys) && InOrder(xs, key, Around(m, rest))
    ensures forall i :: 0 <= i < |rest| ==> Precedes(xs, key, m, Around(m, rest)[i])
  {
    var left, places := RemoveAt(xs, m), Around(m, rest);
    forall i | 0 <= i < |rest| ensures places[i] < |xs| && left[rest[i]] == xs[places[i]] && Precedes(xs, key, m, places[i]) {
      assert rest[i] < |left|;
    }
    forall i, j | 0 <= i < j < |rest| ensures Precedes(xs, key, places[i], places[j]) {
      assert Precedes(left, key, rest[i], rest[j]);
    }
  }

  lemma InOrderFirst<T>(xs: seq<T>, key: T -> real, m: nat, places: seq<nat>, ys: seq<T>)
    requires m < |xs| && StandsAt(xs, places, ys) && InOrder(xs, key, places)
    requires forall i :: 0 <= i < |places| ==> Precedes(xs, key, m, places[i])
    ensures StandsAt(xs, [m] + places, [xs[m]] + ys) && InOrder(xs, key, [m] + places)
  {
  }

  /** Said with positions alone: Sort visits every element once, by key and then by position. */
  lemma {:induction false} SortVisits<T>(xs: seq<T>, key: T -> real) returns (places: seq<nat>)
    ensures |places| == |xs| && StandsAt(xs, places, Sort(xs, key)) && InOrder(xs, key, places)
    decreases |xs|
  {
    if |xs| == 0 {
      places := [];
    } else {
      var m := MinIndex(xs, key);
      var rest := SortVisits(RemoveAt(xs, m), key);
      AroundLeast(xs, key, m, rest, Sort(RemoveAt(xs, m), key));
      InOrderFirst(xs, key, m, Around(m, rest), Sort(RemoveAt(xs, m), key));
      places := [m] + Around(m, rest);
    }
  }

  ghost predicate Ascending(places: seq<nat>) {
    forall i, j :: 0 <= i < j < |places| ==> places[i] < places[j]
  }

  /** Positions in xs[1..], as positions in xs. */
  function Shifted(places: seq<nat>): (r: seq<nat>)
    ensures |r| == |places| && forall i :: 0 <= i < |r| ==> r[i] == places[i] + 1
    ensures forall k: nat :: k in r <==> k > 0 && k - 1 in places
  {
    if |places| == 0 then [] else [places[0] + 1] + Shifted(places[1..])
  }

  lemma ShiftedStands<T>(xs: seq<T>, rest: seq<nat>, ys: seq<T>)
    requires |xs| > 0 && StandsAt(xs[1..], rest, ys) && Ascending(rest)
    ensures StandsAt(xs, Shifted(rest), ys) && Ascending(Shifted(rest))
    ensures StandsAt(xs, [0] + Shifted(rest), [xs[0]] + ys) && Ascending([0] + Shifted(rest))
  {
  }

  /** WithKey by positions: those with the key, all of them, in order. */
  lemma {:induction false} WithKeyPlaces<T>(xs: seq<T>, key: T -> real, v: real) returns (places: seq<nat>)
    ensures StandsAt(xs, places, WithKey(xs, key, v)) && Ascending(places)
    ensures forall k: nat :: k in places <==> k < |xs| && key(xs[k]) == v
  {
    if |xs| == 0 {
      places := [];
    } else {
      var rest := WithKeyPlaces(xs[1..], key, v);
      ShiftedStands(xs, rest, WithKey(xs[1..], key, v));
      places := if key(xs[0]) == v then [0] + Shifted(rest) else Shifted(rest);
      forall k: nat ensures k in places <==> k < |xs| && key(xs[k]) == v {
        assert k > 0 ==> (k - 1 in rest <==> k - 1 < |xs[1..]| && key(xs[1..][k - 1]) == v);
      }
    }
  }

  /** Places that are all those below n are 0, ..., n - 1. */
  lemma {:induction false} AllPlaces(places: seq<nat>, n: nat)
    requires Ascending(places) && forall k: nat :: k in places <==> k < n
    ensures |places| == n && forall i :: 0 <= i < n ==> places[i] == i
  {
    if |places| == 0 {
      assert 0 !in places;
    } else {
      var m := |places| - 1;
      assert places[m] in places && n - 1 in places && places[m] == n - 1;
      assert places == places[..m] + [n - 1];
      forall k: nat ensures k in places[..m] <==> k < n - 1 {
        assert k in places <==> k in places[..m] || k == n - 1;
        assert k in places[..m] ==> k < places[m];
      }
      AllPlaces(places[..m], n - 1);
    }
  }

  lemma {:induction false} WithKeyFinds<T>(xs: seq<T>, key: T -> real, v: real)
    ensures WithKey(xs, key, v) != [] ==> exists i :: 0 <= i < |xs| && key(xs[i]) == v
  {
    if |xs| > 0 && key(xs[0]) != v {
      WithKeyFinds(xs[1..], key, v);
      if WithKey(xs, key, v) != [] {
        var i :| 0 <= i < |xs[1..]| && key(xs[1..][i]) == v;
        assert key(xs[i + 1]) == v;
      }
    }
  }

  /** ... and the only one, so the model of `list.sort` leaves no freedom. */
  lemma {:induction false} StableSortIsUnique<T(!new)>(xs: seq<T>, ys: seq<T>, key: T -> real)
    requires Sorted(xs, key) && Sorted(ys, key) && SameClasses(xs, ys, key)
    ensures xs == ys
    decreases |xs|
  {
    if |xs| > 0 {
      assert WithKey(xs, key, key(xs[0])) == WithKey(ys, key, key(xs[0]));
      WithKeyFinds(ys, key, key(xs[0]));
    }
    if |ys| > 0 {
      assert WithKey(xs, key, key(ys[0])) == WithKey(ys, key, key(ys[0]));
      WithKeyFinds(xs, key, key(ys[0]));
    }
    if |xs| > 0 && |ys| > 0 {
      assert key(xs[0]) == key(ys[0]);
      assert WithKey(xs, key, key(xs[0]))[0] == xs[0];
      assert WithKey(ys, key, key(xs[0]))[0] == ys[0];
      forall v ensures WithKey(xs[1..], key, v) == WithKey(ys[1..], key, v) {
        assert WithKey(xs, key, v) == WithKey(ys, key, v);
        if key(xs[0]) == v {
          assert WithKey(xs, key, v)[1..] == WithKey(xs[1..], key, v);
          assert WithKey(ys, key, v)[1..] == WithKey(ys[1..], key, v);
        } else {
          assert WithKey(xs, key, v) == WithKey(xs[1..], key, v);
          assert WithKey(ys, key, v) == WithKey(ys[1..], key, v);
        }
      }
      StableSortIsUnique(xs[1..], ys[1..], key);
      assert xs == [xs[0]] + xs[1..] && ys == [ys[0]] + ys[1..];
    }
  }
}
