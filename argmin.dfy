/** The first-minimum reduction every selector of the pipeline performs.
    Rust's `min_by`/`min_by_key` keep the accumulated item unless the next
    one compares strictly less, so among equal keys the earliest wins; the
    hand-written loop of the sequential pipeline does the same with a strict
    `<`. The reduction is modelled as that left fold, over an arbitrary
    "strictly less" relation. */
module ArgMin {

  /** The two weak-order laws for the keys at positions i, j and l:
      transitivity, and "whenever a < c, b lies above a or below c". */
  ghost predicate WeakAt<K>(keys: seq<K>, less: (K, K) -> bool, i: nat, j: nat, l: nat)
    requires i < |keys| && j < |keys| && l < |keys|
  {
    && (less(keys[i], keys[j]) && less(keys[j], keys[l]) ==> less(keys[i], keys[l]))
    && (less(keys[i], keys[l]) ==> less(keys[i], keys[j]) || less(keys[j], keys[l]))
  }

  /** `less` is a strict weak order on the elements of `keys`. */
  ghost predicate WeakOrderOn<K>(keys: seq<K>, less: (K, K) -> bool) {
    forall i: nat, j: nat, l: nat | i < |keys| && j < |keys| && l < |keys| :: WeakAt(keys, less, i, j, l)
  }

  /** The index the left fold ends on: the accumulator starts at the first
      key and moves to a later one only when that one is strictly less. */
  function FirstMinBy<K>(keys: seq<K>, less: (K, K) -> bool): (k: nat)
    requires |keys| > 0
    ensures k < |keys|
    ensures forall j :: k < j < |keys| ==> !less(keys[j], keys[k])
  {
    if |keys| == 1 then 0
    else
      var m := FirstMinBy(keys[..|keys| - 1], less);
      if less(keys[|keys| - 1], keys[m]) then |keys| - 1 else m
  }

  /** Extending the prefix by one key moves the fold's index to the new key
      exactly when that key is strictly less than the current pick: the
      step of a running-minimum loop. */
  lemma FirstMinByExtend<K>(keys: seq<K>, less: (K, K) -> bool, i: nat)
    requires 0 < i < |keys|
    ensures FirstMinBy(keys[..i + 1], less) ==
      if less(keys[i], keys[FirstMinBy(keys[..i], less)]) then i else FirstMinBy(keys[..i], less)
  {
    assert keys[..i + 1][..i] == keys[..i];
  }

  lemma WeakOrderOnPrefix<K>(keys: seq<K>, less: (K, K) -> bool, n: nat)
    requires n <= |keys|
    requires WeakOrderOn(keys, less)
    ensures WeakOrderOn(keys[..n], less)
  {
    var pre := keys[..n];
    forall i: nat, j: nat, l: nat | i < n && j < n && l < n
      ensures WeakAt(pre, less, i, j, l)
    {
      assert WeakAt(keys, less, i, j, l);
    }
  }

  /** Under a weak order the fold's result is strictly less than every
      earlier key: it is the earliest of the minimal keys. */
  lemma {:induction false} FirstMinByIsEarliest<K>(keys: seq<K>, less: (K, K) -> bool)
    requires |keys| > 0
    requires WeakOrderOn(keys, less)
    ensures forall j :: 0 <= j < FirstMinBy(keys, less) ==> less(keys[FirstMinBy(keys, less)], keys[j])
  {
    if |keys| > 1 {
      var n := |keys| - 1;
      var pre := keys[..n];
      WeakOrderOnPrefix(keys, less, n);
      FirstMinByIsEarliest(pre, less);
      var m := FirstMinBy(pre, less);
      if less(keys[n], keys[m]) {
        forall j | 0 <= j < n
          ensures less(keys[n], keys[j])
        {
          if j < m {
            assert less(pre[m], pre[j]);
            assert WeakAt(keys, less, n, m, j);
          } else if j > m {
            assert !less(pre[j], pre[m]);
            assert WeakAt(keys, less, n, j, m);
          }
        }
      }
    }
  }

  /** The strict order of naturals, as the relation `min_by_key` and the
      sequential loop compare hash distances with. */
  predicate NatLess(a: nat, b: nat) {
    a < b
  }

  /** For natural-number keys the fold returns the earliest minimum:
      no key is below the chosen one, and every earlier key is above it. */
  lemma FirstMinByNat(keys: seq<nat>)
    requires |keys| > 0
    ensures forall j :: 0 <= j < |keys| ==> keys[FirstMinBy(keys, NatLess)] <= keys[j]
    ensures forall j :: 0 <= j < FirstMinBy(keys, NatLess) ==> keys[FirstMinBy(keys, NatLess)] < keys[j]
  {
    FirstMinByIsEarliest(keys, NatLess);
  }
}
