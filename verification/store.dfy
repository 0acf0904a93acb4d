/** The record store the handlers run against: a finite map from identifier
    to ship, standing for the repository table. */
module ShipStore {
  import opened Ships

  type Store = map<int, Ship>

  /** If every identifier 1..k is taken, there are at least k keys. */
  lemma {:induction false} TakenPrefixBound(keys: set<int>, k: nat)
    requires forall j :: 1 <= j <= k ==> j in keys
    ensures k <= |keys|
  {
    if k > 0 {
      var rest := keys - {k};
      assert forall j :: 1 <= j <= k - 1 ==> j in rest;
      TakenPrefixBound(rest, k - 1);
      assert keys == rest + {k};
    }
  }

  /** The least identifier not below `k` that `keys` does not hold, given
      that every identifier below `k` is taken. */
  function FreshFrom(keys: set<int>, k: int): (r: int)
    requires 1 <= k
    requires forall j :: 1 <= j < k ==> j in keys
    ensures k <= r && r !in keys
    ensures forall j :: 1 <= j < r ==> j in keys
    decreases |keys| + 1 - k
  {
    if k !in keys then k
    else
      TakenPrefixBound(keys, k);
      FreshFrom(keys, k + 1)
  }

  /** The identifier a newly created record receives: the least positive
      identifier the store does not use. */
  function FreshId(store: Store): (id: int)
    ensures 0 < id && id !in store
    ensures forall j :: 1 <= j < id ==> j in store
    ensures id <= |store| + 1
  {
    var id := FreshFrom(store.Keys, 1);
    TakenPrefixBound(store.Keys, id - 1);
    id
  }
}
