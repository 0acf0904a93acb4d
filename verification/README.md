# Ship catalog: validation, rating and single-record handlers

A functional model of the decision logic of the ship catalog service: the two
validators (`isValidShipCreated` for a full record, `isValidShipUpdated` for a
partial update), the derived-rating formula `countRating`, and the four REST
handlers that read, create, partially update and delete one ship. The handlers
run against a record store modelled as `map<int, Ship>` and each returns a
status, an optional body and the store afterwards.

Modelling choices:

- Every field of `Ship` is an `Option`, standing for a nullable Java field.
- Speed is held as its rounded hundredths `r = round(speed * 100)`. The
  validators compare `r / 100` with 0.01 and 0.99, and the model does the
  same over reals (`ShipValidation.SpeedInRange`).
- Production dates are epoch milliseconds. The window bounds are the
  constants `ProdStart` (2800-01-01T00:00Z) and `ProdEnd` (3019-12-31T00:00Z).
- The calendar year of an instant is a function `yearOf: int -> int` passed
  in by the caller. `ShipRating.YearOfAgrees` requires it to send every instant
  of the window to a year in 2800..3019.
- The rating is a real number, `80 * speed * k / (3019 - year + 1)`.
- A created record gets the least positive identifier the store does not use
  (`ShipStore.FreshId`).
- `ShipController.ValidStore` is the store invariant: every record sits under
  its own positive id, is valid for creation, has `used` set, and carries the
  rating its speed, `used` flag and year give. Every handler preserves it.

Files: `wrappers.dfy` (Option), `ships.dfy` (the record), `validation.dfy`,
`rating.dfy`, `store.dfy` (fresh identifiers), `controller.dfy` (handlers and
merge), `properties.dfy` (properties across handlers and a worked example).

## Model

| member | source | states |
|---|---|---|
| ShipValidation.SpeedInRange | src/main/java/com/space/service/ShipServiceImplementation.java:73 | the rounded speed passes iff its hundredths r satisfy 1 <= r <= 99, so both 0.01 and 0.99 are admitted |
| ShipValidation.DateInWindow | src/main/java/com/space/service/ShipServiceImplementation.java:90-94 | a date passes iff it is neither before the start bound nor after the end bound: the window is inclusive at both ends |
| ShipValidation.IsValidShipCreated | src/main/java/com/space/service/ShipServiceImplementation.java:64-77 | valid for creation iff all six required fields are present and every field satisfies its range rule |
| ShipValidation.IsValidShipUpdated | src/main/java/com/space/service/ShipServiceImplementation.java:79-104 | the early-return chain ending in the crew-size return equals the conjunction of the rules of the present fields |
| ShipValidation.MissingFieldRejected | src/main/java/com/space/service/ShipServiceImplementation.java:65-69 | an absent name, planet, date, type, speed or crew size rejects the record whatever the other fields are |
| ShipValidation.CreateRangeRules | src/main/java/com/space/service/ShipServiceImplementation.java:71-76 | with the required fields present, validity is: name and planet length in 1..50, crew in 1..9999, speed hundredths in 1..99, date in the window |
| ShipValidation.BoundariesInclusive | src/main/java/com/space/service/ShipServiceImplementation.java:73-76 | 0.01, 0.99 and both date bounds are admitted; the values one step outside are rejected |
| ShipValidation.BlankUpdateAccepted | src/main/java/com/space/service/ShipServiceImplementation.java:79-103 | an update with every field absent is valid |
| ShipValidation.CreatedImpliesUpdated | src/main/java/com/space/service/ShipServiceImplementation.java:64-104 | a record valid for creation is a valid update |
| ShipValidation.UsedAndTypeUnconstrained | src/main/java/com/space/service/ShipServiceImplementation.java:64-104 | neither validator depends on used, id or rating, nor on which ship type is present |
| ShipRating.YearDivisor | src/main/java/com/space/service/ShipServiceImplementation.java:108-110 | for a production year in 2800..3019 the denominator 3019 - year + 1 lies in 1..220 |
| ShipRating.CountRating | src/main/java/com/space/service/ShipServiceImplementation.java:106-111 | for an admissible speed and year the rating lies between 1/550 and 79.2 |
| ShipRating.ValidIsRateable | src/main/java/com/space/service/ShipServiceImplementation.java:107-110 | a record valid for creation with used set has every input of the formula and a non-zero denominator |
| ShipRating.UsedHalvesRating | src/main/java/com/space/service/ShipServiceImplementation.java:107 | k is 1/2 for a used ship and 1 otherwise, so a used ship rates half of the same ship unused |
| ShipRating.RatingDependsOnlyOnSpeedUsedYear | src/main/java/com/space/service/ShipServiceImplementation.java:106-111 | two records with equal speed, used flag and production year have equal ratings |
| ShipRating.LaterYearRatesHigher | src/main/java/com/space/service/ShipServiceImplementation.java:110 | among admissible years a later production year gives a strictly higher rating |
| ShipStore.FreshId | src/main/java/com/space/service/ShipServiceImplementation.java:39-42 | a new record's identifier is positive, unused, the least such, and at most one more than the store size |
| ShipController.GetShip | src/main/java/com/space/controller/ShipRestController.java:26-36 | id <= 0 is a bad request, an absent id is not found, otherwise OK with the stored record; the store never changes |
| ShipController.AddShip | src/main/java/com/space/controller/ShipRestController.java:39-49 | OK iff the record is valid; an invalid one leaves the store alone; a valid one is saved under a fresh id with used defaulted to false, fields otherwise as sent, and its computed rating |
| ShipController.Merge | src/main/java/com/space/controller/ShipRestController.java:64-84 | each field the request carries replaces the stored one, each absent field and the id are kept |
| ShipController.MergeKeepsStorable | src/main/java/com/space/controller/ShipRestController.java:56-84 | merging a validated partial update into a record valid for creation gives a record valid for creation with used set |
| ShipController.UpdateShip | src/main/java/com/space/controller/ShipRestController.java:52-89 | no body gives OK with no body; bad id or invalid update is a bad request before any lookup; an absent id is not found; otherwise the merged record, whatever the stored row held, is re-rated and saved under the same id, and it is valid for creation whenever the stored row was |
| ShipController.StorableIsUpdateRateable | src/main/java/com/space/controller/ShipRestController.java:59-85 | a stored row valid for creation with used set can always be merged and re-rated by any accepted update |
| ShipControllerProperties.UpdateWritesRateableRow | src/main/java/com/space/controller/ShipRestController.java:56-88 | the row an update saves can be merged and re-rated by any later accepted update, even when the row it replaced was invalid |
| ShipController.DeleteShip | src/main/java/com/space/controller/ShipRestController.java:92-104 | id <= 0 is a bad request, an absent id is not found, otherwise exactly that key is removed and every other entry is kept |
| ShipControllerProperties.MergeBlankIsIdentity | src/main/java/com/space/controller/ShipRestController.java:64-84 | a request with no fields leaves the stored record unchanged |
| ShipControllerProperties.MergeIdempotent | src/main/java/com/space/controller/ShipRestController.java:64-84 | merging the same request twice is merging it once |
| ShipControllerProperties.MergeFullRequestReplaces | src/main/java/com/space/controller/ShipRestController.java:64-84 | a request setting every client field replaces them all; only id and rating of the stored record survive |
| ShipControllerProperties.GetPreservesValidStore | src/main/java/com/space/controller/ShipRestController.java:26-36 | reading keeps the store invariant |
| ShipControllerProperties.AddPreservesValidStore | src/main/java/com/space/controller/ShipRestController.java:39-49 | creating keeps the store invariant, rating included |
| ShipControllerProperties.UpdatePreservesValidStore | src/main/java/com/space/controller/ShipRestController.java:52-89 | updating keeps the store invariant, rating included |
| ShipControllerProperties.DeletePreservesValidStore | src/main/java/com/space/controller/ShipRestController.java:92-104 | deleting keeps the store invariant |
| ShipControllerProperties.AddThenGet | src/main/java/com/space/controller/ShipRestController.java:26-49 | a created record reads back under its new id |
| ShipControllerProperties.AddThenDeleteRestores | src/main/java/com/space/controller/ShipRestController.java:39-104 | deleting a record just created gives back the store as it was |
| ShipControllerProperties.UpdateThenGet | src/main/java/com/space/controller/ShipRestController.java:26-89 | an updated record reads back as the update returned it |
| ShipControllerProperties.DeleteThenGet | src/main/java/com/space/controller/ShipRestController.java:26-36 | a deleted record is then not found |
| ShipControllerProperties.BlankUpdateIsNoOp | src/main/java/com/space/controller/ShipRestController.java:64-88 | on a store keeping its invariant, an update with no fields returns the stored record and changes nothing, rating included |
| ShipControllerProperties.UpdateIdempotent | src/main/java/com/space/controller/ShipRestController.java:56-88 | repeating a successful update returns the same record and store |
| ShipControllerProperties.BadRequestBeforeNotFound | src/main/java/com/space/controller/ShipRestController.java:56-62 | an invalid id or update aimed at an absent id is a bad request, not not-found |
| ShipControllerProperties.AtlasExample | src/main/java/com/space/controller/ShipRestController.java:39-89 | creating Atlas (speed 0.50, year 2900, used omitted) stores used = false and rating 1/3; setting crew size 20 keeps the rating 1/3 |

## Left out

- Listing and counting (`getAllShips`, `getShipsCount`) and the `ShipFilters` criteria: the filter predicate is built in `ShipSpecification`, which is not part of this model, and paging and sorting belong to Spring Data.
- `WebConfig.java`: view resolvers, resource handlers and JSON converter wiring only.
- The repository pass-throughs (`getById`, `save`, `delete`, `getAll`, `findAll`) are replaced by map lookup, update and removal.
- AddShip: the model ignores an `id` sent in the body and assigns the least free positive identifier; the source hands the body's id to the repository's `save` unchanged, and what the repository then does with it (and its own id generation) is not modelled.
- CountRating: does not model the rounding of the rating to two decimals, nor the floating-point rounding inside `Math.round(speed * 100)`; speed enters the formula as its rounded hundredths.
- CountRating: its precondition asks for `used`, speed and date to be present and the denominator to be non-zero; the source would throw on a null field, and for production year 3020 the division gives +Infinity, which `Math.round` clamps to `Long.MAX_VALUE`, so for a positive speed it returns the finite 9.223372036854776E16 (its negative for a negative speed, and 0 for a zero speed, from NaN); those values are not modelled.
- UpdateShip: requires only that, when the update reaches the merge, the merged record has `used`, speed and date and a non-zero rating denominator (`UpdateRateable`). The stored row is never validated, so rows with other out-of-range or absent fields are merged and saved as in the source. Rows where the merged record lacks one of those three fields (the source throws) or has production year 3020 (the source saves the clamped rating 9.223372036854776E16) are excluded. Every row AddShip writes meets the requirement for any later update (`StorableIsUpdateRateable`), and so does every row UpdateShip writes, whatever the row it replaced (`UpdateWritesRateableRow`).
- The date bounds are taken at midnight UTC; the source builds them with `Calendar.getInstance()`, which keeps the start-up time of day and the default time zone. The year of an instant (`ZoneId.systemDefault()`) is the caller-supplied `yearOf`.
- Name and planet length are counted in Unicode characters, not UTF-16 code units as Java's `String.length` does.
- The `ShipType` enum is not modelled; the model uses Transport, Military and Merchant, and only their equality matters.
- The null-body branch of `updateShip` is modelled as OK with no body and no change; whether Spring ever passes a null body is framework behaviour.
- Bean-validation annotations on the `Ship` class, HTTP parsing of ids and JSON, and concurrent requests are not modelled.
