/** The catalog record. Every field is optional because the same record type
    carries a complete stored ship, a creation request and a partial update. */
module Ships {
  import opened Wrappers

  /** The ship categories. Only equality between them matters to the core. */
  datatype ShipType = Transport | Military | Merchant

  /** A ship record.
      - `prodDate` is a production instant in epoch milliseconds.
      - `speed` is the speed rounded to hundredths, i.e. round(speed * 100).
      - `rating` is derived and always written by the service. */
  datatype Ship = Ship(
    id: Option<int>,
    name: Option<string>,
    planet: Option<string>,
    shipType: Option<ShipType>,
    prodDate: Option<int>,
    speed: Option<int>,
    used: Option<bool>,
    crewSize: Option<int>,
    rating: Option<real>)

  /** The record with every field absent: an empty update request. */
  const Blank: Ship := Ship(None, None, None, None, None, None, None, None, None)
}
