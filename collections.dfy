/**
 * Python idioms over sequences: the dict comprehension
 * `{key(x): val(x) for x in xs}` and the scan for the first element that
 * satisfies a test.
 */
module Collections {
  import opened Wrappers

  /** Python's min of two integers. */
  function Min(a: int, b: int): int {
    if a <= b then a else b
  }

  /** The dict comprehension: every key of xs is present, and on a repeated key the later entry wins. */
  function IndexBy<T, K, V>(xs: seq<T>, key: T -> K, val: T -> V): (m: map<K, V>)
    ensures m.Keys == set i | 0 <= i < |xs| :: key(xs[i])
    ensures forall i :: 0 <= i < |xs| && IsLastWithKey(xs, key, i) ==> m[key(xs[i])] == val(xs[i])
  {
    if xs == [] then map[]
    else
      var init := xs[..|xs| - 1];
      var m := IndexBy(init, key, val)[key(xs[|xs| - 1]) := val(xs[|xs| - 1])];
      LastWithKeyInInit(xs, key);
      KeySetSnoc(xs, init, key);
      m
  }

  /** Indexing one more element of xs updates the map at that element's key. */
  lemma IndexBySnoc<T, K, V>(xs: seq<T>, i: nat, key: T -> K, val: T -> V)
    requires i < |xs|
    ensures IndexBy(xs[..i + 1], key, val) == IndexBy(xs[..i], key, val)[key(xs[i]) := val(xs[i])]
  {
    assert xs[..i + 1][..i] == xs[..i];
  }

  /** The keys of xs are those of all but its last element, and the last element's. */
  lemma KeySetSnoc<T, K>(xs: seq<T>, init: seq<T>, key: T -> K)
    requires xs != [] && init == xs[..|xs| - 1]
    ensures (set i | 0 <= i < |xs| :: key(xs[i])) == (set i | 0 <= i < |init| :: key(init[i])) + {key(xs[|xs| - 1])}
  {
    forall i | 0 <= i < |xs| ensures key(xs[i]) in (set i | 0 <= i < |init| :: key(init[i])) + {key(xs[|xs| - 1])} {
      if i < |init| {
        assert key(xs[i]) == key(init[i]);
      }
    }
  }

  /** An element that is last with its key in xs, other than the last element, is last with it in xs without its last element. */
  lemma LastWithKeyInInit<T, K>(xs: seq<T>, key: T -> K)
    requires xs != []
    ensures forall i :: 0 <= i < |xs| - 1 && IsLastWithKey(xs, key, i) ==> IsLastWithKey(xs[..|xs| - 1], key, i)
  {
  }

  /** xs[i] is the last element with its key. */
  ghost predicate IsLastWithKey<T, K>(xs: seq<T>, key: T -> K, i: nat)
    requires i < |xs|
  {
    forall j :: i < j < |xs| ==> key(xs[j]) != key(xs[i])
  }

  /** Every element has a last element with its key, at its own position or later. */
  lemma {:induction false} LastWithKeyExists<T, K>(xs: seq<T>, key: T -> K, i: nat)
    requires i < |xs|
    ensures exists j :: i <= j < |xs| && key(xs[j]) == key(xs[i]) && IsLastWithKey(xs, key, j)
    decreases |xs| - i
  {
    if !IsLastWithKey(xs, key, i) {
      var j :| i < j < |xs| && key(xs[j]) == key(xs[i]);
      LastWithKeyExists(xs, key, j);
    }
  }

  /** With pairwise distinct keys, every element is found under its own key. */
  lemma IndexByDistinct<T, K, V>(xs: seq<T>, key: T -> K, val: T -> V, i: nat)
    requires forall a, b :: 0 <= a < b < |xs| ==> key(xs[a]) != key(xs[b])
    requires i < |xs|
    ensures key(xs[i]) in IndexBy(xs, key, val)
    ensures IndexBy(xs, key, val)[key(xs[i])] == val(xs[i])
  {
    assert IsLastWithKey(xs, key, i);
  }

  /** The position of the first element satisfying p, the `for ...: if ...: return` / `break` scan. */
  function FirstWith<T>(xs: seq<T>, p: T -> bool): (r: Option<nat>)
    ensures r.Some? ==> r.value < |xs| && p(xs[r.value]) && forall j :: 0 <= j < r.value ==> !p(xs[j])
    ensures r.None? ==> forall j :: 0 <= j < |xs| ==> !p(xs[j])
  {
    if xs == [] then None
    else if p(xs[0]) then Some(0)
    else match FirstWith(xs[1..], p)
      case None => None
      case Some(k) => Some(k + 1)
  }

  /** The scan stops at the first element satisfying p, whatever comes after it. */
  lemma FirstWithAt<T>(xs: seq<T>, p: T -> bool, i: nat)
    requires i < |xs| && p(xs[i])
    requires forall j :: 0 <= j < i ==> !p(xs[j])
    ensures FirstWith(xs, p) == Some(i)
  {
  }
}
