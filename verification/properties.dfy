/** Properties relating the handlers to one another and to the store
    invariant. */
module ShipControllerProperties {
  import opened Wrappers
  import opened Ships
  import opened ShipValidation
  import opened ShipRating
  import opened ShipStore
  import opened ShipController

  // ---------------------------------------------------------------------
  // Merge

  /** A request that sets nothing leaves the stored record as it is. */
  lemma MergeBlankIsIdentity(stored: Ship)
    ensures Merge(stored, Blank) == stored
  {
  }

  /** Applying the same partial update twice is the same as applying it once. */
  lemma MergeIdempotent(stored: Ship, request: Ship)
    ensures Merge(Merge(stored, request), request) == Merge(stored, request)
  {
  }

  /** A request that sets every client field replaces all of them; only the
      id and rating of the stored record survive. */
  lemma MergeFullRequestReplaces(stored: Ship, request: Ship)
    requires RequiredPresent(request) && request.used.Some?
    ensures Merge(stored, request) == request.(id := stored.id, rating := stored.rating)
  {
  }

  // ---------------------------------------------------------------------
  // The store invariant is preserved by every handler.

  lemma GetPreservesValidStore(id: int, store: Store, yearOf: int -> int)
    requires ValidStore(store, yearOf)
    ensures ValidStore(GetShip(id, store).store, yearOf)
  {
  }

  lemma AddPreservesValidStore(ship: Ship, store: Store, yearOf: int -> int)
    requires YearOfAgrees(yearOf)
    requires ValidStore(store, yearOf)
    ensures ValidStore(AddShip(ship, store, yearOf).store, yearOf)
  {
  }

  lemma UpdatePreservesValidStore(id: int, request: Option<Ship>, store: Store, yearOf: int -> int)
    requires YearOfAgrees(yearOf)
    requires ValidStore(store, yearOf)
    ensures UpdateRateable(id, request, store, yearOf)
    ensures ValidStore(UpdateShip(id, request, store, yearOf).store, yearOf)
  {
    StorableIsUpdateRateable(id, request, store, yearOf);
  }

  lemma DeletePreservesValidStore(id: int, store: Store, yearOf: int -> int)
    requires ValidStore(store, yearOf)
    ensures ValidStore(DeleteShip(id, store).store, yearOf)
  {
  }

  /** A row UpdateShip writes can be updated again by any request, even when
      the row it replaced was not valid for creation. */
  lemma UpdateWritesRateableRow(id: int, request: Ship, next: Option<Ship>, store: Store, yearOf: int -> int)
    requires YearOfAgrees(yearOf)
    requires UpdateRateable(id, Some(request), store, yearOf)
    ensures var r := UpdateShip(id, Some(request), store, yearOf);
            r.status == Ok ==> UpdateRateable(id, next, r.store, yearOf)
  {
    var r := UpdateShip(id, Some(request), store, yearOf);
    if r.status == Ok && next.Some? && IsValidShipUpdated(next.value) {
      var saved := r.body.value;
      assert r.store[id] == saved;
      assert Rateable(saved, yearOf);
      var m := Merge(saved, next.value);
      if next.value.prodDate.Some? {
        assert DateOk(next.value.prodDate.value);
        assert 1 <= YearDivisor(yearOf(m.prodDate.value));
      } else {
        assert m.prodDate == saved.prodDate;
      }
      assert Rateable(m, yearOf);
    }
  }

  // ---------------------------------------------------------------------
  // Handlers composed.

  /** A created record can be read back under its new id. */
  lemma AddThenGet(ship: Ship, store: Store, yearOf: int -> int)
    requires YearOfAgrees(yearOf)
    requires AddShip(ship, store, yearOf).status == Ok
    ensures var r := AddShip(ship, store, yearOf);
            GetShip(r.body.value.id.value, r.store) == Response(Ok, r.body, r.store)
  {
  }

  /** Deleting a record just created restores the store. */
  lemma AddThenDeleteRestores(ship: Ship, store: Store, yearOf: int -> int)
    requires YearOfAgrees(yearOf)
    requires AddShip(ship, store, yearOf).status == Ok
    ensures var r := AddShip(ship, store, yearOf);
            DeleteShip(r.body.value.id.value, r.store) == Response(Ok, None, store)
  {
    var r := AddShip(ship, store, yearOf);
    var id := r.body.value.id.value;
    assert r.store - {id} == store;
  }

  /** An updated record reads back as the update returned it. */
  lemma UpdateThenGet(id: int, request: Ship, store: Store, yearOf: int -> int)
    requires UpdateRateable(id, Some(request), store, yearOf)
    requires UpdateShip(id, Some(request), store, yearOf).status == Ok
    ensures var r := UpdateShip(id, Some(request), store, yearOf);
            GetShip(id, r.store) == Response(Ok, r.body, r.store)
  {
  }

  /** A deleted record is no longer found. */
  lemma DeleteThenGet(id: int, store: Store)
    requires DeleteShip(id, store).status == Ok
    ensures GetShip(id, DeleteShip(id, store).store).status == NotFound
  {
  }

  /** On a store that keeps its invariant, an update that sets no field
      changes nothing: the recomputed rating equals the stored one. */
  lemma BlankUpdateIsNoOp(id: int, store: Store, yearOf: int -> int)
    requires YearOfAgrees(yearOf)
    requires ValidStore(store, yearOf)
    requires 0 < id && id in store
    ensures UpdateRateable(id, Some(Blank), store, yearOf)
    ensures UpdateShip(id, Some(Blank), store, yearOf) == Response(Ok, Some(store[id]), store)
  {
    MergeBlankIsIdentity(store[id]);
    assert store[id := store[id]] == store;
  }

  /** Repeating a successful update changes nothing further. */
  lemma UpdateIdempotent(id: int, request: Ship, store: Store, yearOf: int -> int)
    requires UpdateRateable(id, Some(request), store, yearOf)
    requires UpdateShip(id, Some(request), store, yearOf).status == Ok
    ensures var r := UpdateShip(id, Some(request), store, yearOf);
            UpdateRateable(id, Some(request), r.store, yearOf) &&
            UpdateShip(id, Some(request), r.store, yearOf) == r
  {
    var r := UpdateShip(id, Some(request), store, yearOf);
    MergeIdempotent(store[id], request);
    var saved := r.body.value;
    assert Merge(saved, request) == Merge(store[id], request).(rating := saved.rating);
    assert r.store[id := r.body.value] == r.store;
  }

  /** A bad request wins over a missing record: an invalid update aimed at an
      absent id is refused as a bad request, not as not found. */
  lemma BadRequestBeforeNotFound(id: int, request: Ship, store: Store, yearOf: int -> int)
    requires id !in store
    requires id <= 0 || !IsValidShipUpdated(request)
    ensures UpdateShip(id, Some(request), store, yearOf).status == BadRequest
  {
  }

  // ---------------------------------------------------------------------
  // A worked example: create a ship with `used` omitted, then change its
  // crew size.

  /** 2900-01-01T00:00:00Z in epoch milliseconds. */
  const Year2900: int := 29348006400000

  const Atlas: Ship := Blank.(name := Some("Atlas"), planet := Some("Earth"),
                              shipType := Some(Transport), prodDate := Some(Year2900),
                              speed := Some(50), crewSize := Some(10))

  lemma AtlasExample(yearOf: int -> int)
    requires YearOfAgrees(yearOf)
    requires yearOf(Year2900) == 2900
    ensures var created := AddShip(Atlas, map[], yearOf);
            && created.status == Ok
            && created.body == Some(Atlas.(id := Some(1), used := Some(false), rating := Some(1.0 / 3.0)))
            && var updated := UpdateShip(1, Some(Blank.(crewSize := Some(20))), created.store, yearOf);
            && updated.status == Ok
            && updated.body == Some(Atlas.(id := Some(1), used := Some(false), crewSize := Some(20),
                                            rating := Some(1.0 / 3.0)))
  {
    assert FreshId(map[]) == 1;
  }
}
