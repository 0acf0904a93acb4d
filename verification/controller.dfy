/** The REST handlers for single ships: get, create, partial update and
    delete. Each is a pure function from a request and the current store to
    a status, an optional response body and the store afterwards. */
module ShipController {
  import opened Wrappers
  import opened Ships
  import opened ShipValidation
  import opened ShipRating
  import opened ShipStore

  datatype Status = Ok | BadRequest | NotFound

  datatype Response = Response(status: Status, body: Option<Ship>, store: Store)

  /** What every record the service writes satisfies: valid for creation,
      with `used` set. */
  predicate Storable(ship: Ship) {
    IsValidShipCreated(ship) && ship.used.Some?
  }

  /** The store invariant the handlers maintain: each record sits under a
      positive key equal to its own id, is storable, and carries the rating
      its speed, `used` flag and production year give. */
  ghost predicate ValidStore(store: Store, yearOf: int -> int) {
    forall k :: k in store ==>
      && 0 < k
      && store[k].id == Some(k)
      && Storable(store[k])
      && Rateable(store[k], yearOf)
      && store[k].rating == Some(CountRating(store[k], yearOf))
  }

  /** GET /rest/ships/{id}. */
  function GetShip(id: int, store: Store): (r: Response)
    ensures r.store == store
    ensures r.status == BadRequest <==> id <= 0
    ensures r.status == NotFound <==> 0 < id && id !in store
    ensures r.status == Ok ==> id in store && r.body == Some(store[id])
    ensures r.status != Ok ==> r.body.None?
  {
    if id <= 0 then Response(BadRequest, None, store)
    else if id !in store then Response(NotFound, None, store)
    else Response(Ok, Some(store[id]), store)
  }

  /** POST /rest/ships. An absent `used` becomes false before validation; a
      valid record is rated and saved under a fresh identifier. */
  function AddShip(ship: Ship, store: Store, yearOf: int -> int): (r: Response)
    requires YearOfAgrees(yearOf)
    ensures r.status == Ok <==> IsValidShipCreated(ship)
    ensures r.status != NotFound
    ensures r.status == BadRequest ==> r.store == store && r.body.None?
    ensures r.status == Ok ==>
              && r.body.Some? && r.body.value.id.Some?
              && var saved := r.body.value;
              && var id := saved.id.value;
              && 0 < id && id !in store
              && r.store == store[id := saved]
              && saved.used == Some(ship.used.GetOr(false))
              && saved.(id := ship.id, used := ship.used, rating := ship.rating) == ship
              && Storable(saved)
              && Rateable(saved, yearOf)
              && saved.rating == Some(CountRating(saved, yearOf))
  {
    var withUsed := if ship.used.None? then ship.(used := Some(false)) else ship;
    if !IsValidShipCreated(withUsed) then Response(BadRequest, None, store)
    else
      ValidIsRateable(withUsed, yearOf);
      var id := FreshId(store);
      var saved := withUsed.(id := Some(id), rating := Some(CountRating(withUsed, yearOf)));
      Response(Ok, Some(saved), store[id := saved])
  }

  /** Copies every field the request carries onto the stored record, in the
      order name, ship type, crew size, planet, production date, speed,
      `used`. The id and the rating stay those of the stored record. */
  function Merge(stored: Ship, request: Ship): (m: Ship)
    ensures m.id == stored.id && m.rating == stored.rating
    ensures request.name.Some? ==> m.name == request.name
    ensures request.name.None? ==> m.name == stored.name
    ensures request.shipType.Some? ==> m.shipType == request.shipType
    ensures request.shipType.None? ==> m.shipType == stored.shipType
    ensures request.crewSize.Some? ==> m.crewSize == request.crewSize
    ensures request.crewSize.None? ==> m.crewSize == stored.crewSize
    ensures request.planet.Some? ==> m.planet == request.planet
    ensures request.planet.None? ==> m.planet == stored.planet
    ensures request.prodDate.Some? ==> m.prodDate == request.prodDate
    ensures request.prodDate.None? ==> m.prodDate == stored.prodDate
    ensures request.speed.Some? ==> m.speed == request.speed
    ensures request.speed.None? ==> m.speed == stored.speed
    ensures request.used.Some? ==> m.used == request.used
    ensures request.used.None? ==> m.used == stored.used
  {
    var s1 := stored.(name := request.name.Or(stored.name));
    var s2 := s1.(shipType := request.shipType.Or(s1.shipType));
    var s3 := s2.(crewSize := request.crewSize.Or(s2.crewSize));
    var s4 := s3.(planet := request.planet.Or(s3.planet));
    var s5 := s4.(prodDate := request.prodDate.Or(s4.prodDate));
    var s6 := s5.(speed := request.speed.Or(s5.speed));
    s6.(used := request.used.Or(s6.used))
  }

  /** Merging an accepted partial update into a record valid for creation
      yields a record valid for creation; `used` stays set. */
  lemma MergeKeepsStorable(stored: Ship, request: Ship)
    requires Storable(stored)
    requires IsValidShipUpdated(request)
    ensures Storable(Merge(stored, request))
  {
  }

  /** What rating the merged record needs: when the update would reach the
      merge, the merged record carries the inputs of the formula and a
      non-zero denominator. The stored record itself is never validated, so
      any row meeting this is updated. */
  predicate UpdateRateable(id: int, request: Option<Ship>, store: Store, yearOf: int -> int) {
    request.Some? && 0 < id && id in store && IsValidShipUpdated(request.value)
    ==> Rateable(Merge(store[id], request.value), yearOf)
  }

  /** A stored record valid for creation with `used` set always meets
      `UpdateRateable`. */
  lemma StorableIsUpdateRateable(id: int, request: Option<Ship>, store: Store, yearOf: int -> int)
    requires YearOfAgrees(yearOf)
    requires id in store ==> Storable(store[id])
    ensures UpdateRateable(id, request, store, yearOf)
  {
    if request.Some? && 0 < id && id in store && IsValidShipUpdated(request.value) {
      MergeKeepsStorable(store[id], request.value);
      ValidIsRateable(Merge(store[id], request.value), yearOf);
    }
  }

  /** POST /rest/ships/{id}. With no body the answer is OK with no body.
      A bad id or a failed update validation is a bad request, decided
      before the lookup; a missing record is not found; otherwise the
      merged record is re-rated and saved under the same id. The stored
      record is not validated first. */
  function UpdateShip(id: int, request: Option<Ship>, store: Store, yearOf: int -> int): (r: Response)
    requires UpdateRateable(id, request, store, yearOf)
    ensures request.None? ==> r == Response(Ok, None, store)
    ensures request.Some? ==>
              && (r.status == BadRequest <==> id <= 0 || !IsValidShipUpdated(request.value))
              && (r.status == NotFound <==> 0 < id && IsValidShipUpdated(request.value) && id !in store)
    ensures r.status != Ok ==> r.store == store && r.body.None?
    ensures request.Some? && r.status == Ok ==>
              && id in store
              && r.body.Some?
              && var saved := r.body.value;
              && r.store == store[id := saved]
              && saved.(rating := store[id].rating) == Merge(store[id], request.value)
              && (Storable(store[id]) ==> Storable(saved))
              && Rateable(saved, yearOf)
              && saved.rating == Some(CountRating(saved, yearOf))
  {
    match request
    case None => Response(Ok, None, store)
    case Some(req) =>
      if id <= 0 || !IsValidShipUpdated(req) then Response(BadRequest, None, store)
      else if id !in store then Response(NotFound, None, store)
      else
        var merged := Merge(store[id], req);
        var saved := merged.(rating := Some(CountRating(merged, yearOf)));
        Response(Ok, Some(saved), store[id := saved])
  }

  /** DELETE /rest/ships/{id}. Removes exactly the record under `id`. */
  function DeleteShip(id: int, store: Store): (r: Response)
    ensures r.body.None?
    ensures r.status == BadRequest <==> id <= 0
    ensures r.status == NotFound <==> 0 < id && id !in store
    ensures r.status != Ok ==> r.store == store
    ensures r.status == Ok ==>
              && id in store
              && r.store.Keys == store.Keys - {id}
              && forall k :: k in r.store ==> r.store[k] == store[k]
  {
    if id <= 0 then Response(BadRequest, None, store)
    else if id !in store then Response(NotFound, None, store)
    else Response(Ok, None, store - {id})
  }
}
