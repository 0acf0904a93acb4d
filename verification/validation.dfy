/** The two validators of the ship service: full-record validity for creation
    and present-field validity for a partial update. */
module ShipValidation {
  import opened Wrappers
  import opened Ships

  /** First admissible production instant: 2800-01-01T00:00:00Z, epoch ms. */
  const ProdStart: int := 26192246400000
  /** Last admissible production instant: 3019-12-31T00:00:00Z, epoch ms. */
  const ProdEnd: int := 33134659200000

  const MaxTextLength: int := 50
  const MinCrew: int := 1
  const MaxCrew: int := 9999
  /** Speed bounds in hundredths: 0.01 and 0.99. */
  const MinSpeed: int := 1
  const MaxSpeed: int := 99

  // ---------------------------------------------------------------------
  // The per-field rules, stated as plain ranges.

  predicate TextOk(s: string) {
    1 <= |s| <= MaxTextLength
  }

  predicate CrewOk(c: int) {
    MinCrew <= c <= MaxCrew
  }

  predicate SpeedOk(r: int) {
    MinSpeed <= r <= MaxSpeed
  }

  predicate DateOk(t: int) {
    ProdStart <= t <= ProdEnd
  }

  /** The fields a record must carry to be created. `used` is not among them,
      and neither are `id` and `rating`. */
  predicate RequiredPresent(ship: Ship) {
    && ship.name.Some?
    && ship.planet.Some?
    && ship.prodDate.Some?
    && ship.shipType.Some?
    && ship.speed.Some?
    && ship.crewSize.Some?
  }

  /** Every present field satisfies its rule; absent fields impose nothing. */
  predicate PresentFieldsOk(ship: Ship) {
    && (ship.name.Some? ==> TextOk(ship.name.value))
    && (ship.planet.Some? ==> TextOk(ship.planet.value))
    && (ship.prodDate.Some? ==> DateOk(ship.prodDate.value))
    && (ship.speed.Some? ==> SpeedOk(ship.speed.value))
    && (ship.crewSize.Some? ==> CrewOk(ship.crewSize.value))
  }

  // ---------------------------------------------------------------------
  // The checks as the service evaluates them.

  /** The rounded speed read back as a decimal, r / 100. */
  function SpeedValue(r: int): real {
    r as real / 100.0
  }

  /** The speed test shared by both validators: the rounded value is compared
      against 0.01 and 0.99. */
  function SpeedInRange(r: int): (ok: bool)
    ensures ok <==> SpeedOk(r)
  {
    !(SpeedValue(r) < 0.01 || SpeedValue(r) > 0.99)
  }

  /** The date test shared by both validators: neither before the start
      bound nor after the end bound. */
  function DateInWindow(t: int): (ok: bool)
    ensures ok <==> DateOk(t)
  {
    !(t < ProdStart) && !(t > ProdEnd)
  }

  /** Validity of a record offered for creation: absence of any required
      field fails first, then the length, crew and speed ranges, then the
      date window decides. */
  function IsValidShipCreated(ship: Ship): (ok: bool)
    ensures ok <==> RequiredPresent(ship) && PresentFieldsOk(ship)
  {
    if ship.name.None? || ship.planet.None? || ship.prodDate.None?
       || ship.shipType.None? || ship.speed.None? || ship.crewSize.None?
    then false
    else if |ship.name.value| > MaxTextLength || |ship.name.value| == 0
            || |ship.planet.value| > MaxTextLength || |ship.planet.value| == 0
            || ship.crewSize.value < MinCrew || ship.crewSize.value > MaxCrew
            || !SpeedInRange(ship.speed.value)
    then false
    else DateInWindow(ship.prodDate.value)
  }

  /** Validity of a partial update: each present field is tested in turn and
      a failure returns false at once; a present crew size returns its own
      test as the result. Because every earlier failure has already
      returned, the result is exactly the conjunction of the field rules. */
  function IsValidShipUpdated(ship: Ship): (ok: bool)
    ensures ok <==> PresentFieldsOk(ship)
  {
    if ship.name.Some? && (|ship.name.value| < 1 || |ship.name.value| > MaxTextLength) then false
    else if ship.planet.Some? && (|ship.planet.value| < 1 || |ship.planet.value| > MaxTextLength) then false
    else if ship.prodDate.Some? && !DateInWindow(ship.prodDate.value) then false
    else if ship.speed.Some? && !SpeedInRange(ship.speed.value) then false
    else if ship.crewSize.Some? then MinCrew <= ship.crewSize.value && ship.crewSize.value <= MaxCrew
    else true
  }

  // ---------------------------------------------------------------------
  // Properties of the validators.

  /** A missing required field rejects the record whatever the other fields hold. */
  lemma MissingFieldRejected(ship: Ship)
    requires ship.name.None? || ship.planet.None? || ship.prodDate.None?
             || ship.shipType.None? || ship.speed.None? || ship.crewSize.None?
    ensures !IsValidShipCreated(ship)
  {
  }

  /** With every required field present, creation validity is exactly the
      five range rules. */
  lemma CreateRangeRules(ship: Ship)
    requires RequiredPresent(ship)
    ensures IsValidShipCreated(ship) <==>
              && TextOk(ship.name.value) && TextOk(ship.planet.value)
              && CrewOk(ship.crewSize.value) && SpeedOk(ship.speed.value)
              && DateOk(ship.prodDate.value)
  {
  }

  /** Both ends of the speed range and of the date window are admitted, and
      the values just outside them are not. */
  lemma BoundariesInclusive()
    ensures SpeedInRange(MinSpeed) && SpeedInRange(MaxSpeed)
    ensures !SpeedInRange(MinSpeed - 1) && !SpeedInRange(MaxSpeed + 1)
    ensures DateInWindow(ProdStart) && DateInWindow(ProdEnd)
    ensures !DateInWindow(ProdStart - 1) && !DateInWindow(ProdEnd + 1)
  {
  }

  /** An update that sets no field is accepted. */
  lemma BlankUpdateAccepted()
    ensures IsValidShipUpdated(Blank)
  {
  }

  /** A record valid for creation is also a valid update. */
  lemma CreatedImpliesUpdated(ship: Ship)
    requires IsValidShipCreated(ship)
    ensures IsValidShipUpdated(ship)
  {
  }

  /** Neither validator looks at `used`, `id` or `rating`, and beyond its
      presence neither looks at the ship type. */
  lemma UsedAndTypeUnconstrained(ship: Ship, used: Option<bool>, t: ShipType, id: Option<int>, rating: Option<real>)
    ensures IsValidShipUpdated(ship.(used := used, id := id, rating := rating)) == IsValidShipUpdated(ship)
    ensures IsValidShipCreated(ship.(used := used, id := id, rating := rating)) == IsValidShipCreated(ship)
    ensures ship.shipType.Some? ==>
              IsValidShipCreated(ship.(shipType := Some(t))) == IsValidShipCreated(ship)
    ensures IsValidShipUpdated(ship.(shipType := Some(t))) == IsValidShipUpdated(ship)
  {
  }
}
