/** Loading a tax roll: what one import does to the properties, owners and settlements of a municipality. */
module TaxRoll {
  import opened Numbering
  import opened Settlements

  datatype Row = Row(
    code: string,
    taxId: string,
    documentType: Option<string>,
    ownerName: Option<string>,
    propertyName: string,
    period: int,
    extras: Extras,
    appraisal: real,
    amounts: seq<real>,
    total: real)

  type Period = (string, int)

  const NO_OWNER_NAME := "Propietario sin nombre registrado"

  function KeyOf(row: Row): Period {
    (row.code, row.period)
  }

  // ---------- the file, one entry per property, owner and period ----------

  // In order of first appearance.
  function Periods(rows: seq<Row>): (keys: seq<Period>) {
    if rows == [] then []
    else
      var earlier := Periods(rows[..|rows| - 1]);
      var key := KeyOf(rows[|rows| - 1]);
      if key in earlier then earlier else earlier + [key]
  }

  function LastRow(rows: seq<Row>, key: Period): (last: Option<Row>)
    ensures last.Some? <==> exists i :: 0 <= i < |rows| && KeyOf(rows[i]) == key
    ensures last.Some? ==> KeyOf(last.value) == key
  {
    if rows == [] then None
    else if KeyOf(rows[|rows| - 1]) == key then Some(rows[|rows| - 1])
    else LastRow(rows[..|rows| - 1], key)
  }

  function OwnerRow(rows: seq<Row>, taxId: string): (last: Option<Row>)
    ensures last.Some? <==> taxId in TaxIds(rows)
  {
    if rows == [] then None
    else if rows[|rows| - 1].taxId == taxId then Some(rows[|rows| - 1])
    else OwnerRow(rows[..|rows| - 1], taxId)
  }

  function Or<T>(stated: Option<T>, known: Option<T>): Option<T> {
    if stated.Some? then stated else known
  }

  function Fill(stated: Extras, known: Extras): Extras {
    Extras(Or(stated.ruralDistrict, known.ruralDistrict), Or(stated.neighborhood, known.neighborhood),
           Or(stated.latitude, known.latitude), Or(stated.longitude, known.longitude), Or(stated.landUse, known.landUse))
  }

  // A property's last row, with what only its earlier rows state.
  function PropertyRow(rows: seq<Row>, code: string): (last: Option<Row>)
    ensures last.Some? <==> code in Codes(rows)
  {
    if rows == [] then None
    else
      var earlier := PropertyRow(rows[..|rows| - 1], code);
      var row := rows[|rows| - 1];
      if row.code != code then earlier
      else if earlier.None? then Some(row)
      else Some(row.(extras := Fill(row.extras, earlier.value.extras)))
  }

  function Codes(rows: seq<Row>): set<string> {
    set row | row in rows :: row.code
  }

  function TaxIds(rows: seq<Row>): set<string> {
    set row | row in rows :: row.taxId
  }

  // ---------- properties and owners ----------

  function UpsertedProperty(known: Option<Property>, row: Row, municipality: nat): Property {
    match known
    case None => Property(municipality, row.propertyName, row.extras, row.appraisal)
    case Some(p) => p.(address := row.propertyName, extras := Fill(row.extras, p.extras), appraisal := row.appraisal)
  }

  function Get<K, V>(m: map<K, V>, k: K): Option<V> {
    if k in m then Some(m[k]) else None
  }

  // A stated name or type replaces the known one; nothing stated erases nothing.
  function UpsertedOwner(known: Option<Owner>, row: Row): Owner {
    match known
    case None => Owner(if row.ownerName.Some? then row.ownerName.value else NO_OWNER_NAME, row.documentType)
    case Some(o) =>
      o.(name := if row.ownerName.Some? && row.ownerName.value != "" then row.ownerName.value else o.name,
         documentType := Or(row.documentType, o.documentType))
  }

  function Properties(known: map<string, Property>, rows: seq<Row>, municipality: nat): map<string, Property> {
    map code | code in known.Keys + Codes(rows) ::
      if code in Codes(rows) then UpsertedProperty(Get(known, code), PropertyRow(rows, code).value, municipality) else known[code]
  }

  function Owners(known: map<(nat, string), Owner>, rows: seq<Row>, municipality: nat): map<(nat, string), Owner> {
    map key | key in known.Keys + (set taxId | taxId in TaxIds(rows) :: (municipality, taxId)) ::
      if key.0 == municipality && key.1 in TaxIds(rows) then UpsertedOwner(Get(known, key), OwnerRow(rows, key.1).value)
      else known[key]
  }

  function Links(known: set<(string, string)>, rows: seq<Row>): set<(string, string)> {
    known + set code | code in Codes(rows) :: (code, PropertyRow(rows, code).value.taxId)
  }

  function Foreign(known: map<string, Property>, rows: seq<Row>, municipality: nat): set<string> {
    set code | code in Codes(rows) && code in known && known[code].municipality != municipality
  }

  // ---------- settlements ----------

  predicate Has(settlements: map<nat, Settlement>, key: Period, locked: bool) {
    exists id :: id in settlements && Current(settlements[id]) && PeriodOf(settlements[id]) == key
                 && (settlements[id].status == EN_FIRME) == locked
  }

  function Locked(settlements: map<nat, Settlement>, keys: seq<Period>): seq<Period> {
    if keys == [] then []
    else Locked(settlements, keys[..|keys| - 1]) + if Has(settlements, keys[|keys| - 1], true) then [keys[|keys| - 1]] else []
  }

  function Conflicting(settlements: map<nat, Settlement>, keys: seq<Period>): seq<Period> {
    if keys == [] then []
    else
      Conflicting(settlements, keys[..|keys| - 1])
      + if !Has(settlements, keys[|keys| - 1], true) && Has(settlements, keys[|keys| - 1], false) then [keys[|keys| - 1]] else []
  }

  // The periods that get a new settlement.
  function Open(settlements: map<nat, Settlement>, keys: seq<Period>): seq<Period> {
    if keys == [] then []
    else Open(settlements, keys[..|keys| - 1]) + if Has(settlements, keys[|keys| - 1], true) then [] else [keys[|keys| - 1]]
  }

  // What happens to a settlement that was there: superseded, marked missing, or nothing.
  function Touched(s: Settlement, keys: seq<Period>, now: int): Settlement {
    if !Current(s) then s
    else if PeriodOf(s) in keys then (if s.status == EN_FIRME then s else s.(replacedAt := Some(now)))
    else if s.missingSince.None? && exists key :: key in keys && key.0 == s.property then s.(missingSince := Some(now))
    else s
  }

  function TouchedAll(settlements: map<nat, Settlement>, keys: seq<Period>, now: int): map<nat, Settlement> {
    map id | id in settlements :: Touched(settlements[id], keys, now)
  }

  function NewSettlement(row: Row): Settlement {
    Settlement(row.code, row.period, row.total, row.amounts, VIGENTE, None, None, None, None)
  }

  function Created(settlements: map<nat, Settlement>, keys: seq<Period>, rows: seq<Row>, nextId: nat): map<nat, Settlement> {
    if keys == [] then settlements
    else
      var n := |keys| - 1;
      match LastRow(rows, keys[n])
      case None => Created(settlements, keys[..n], rows, nextId)
      case Some(row) => Created(settlements, keys[..n], rows, nextId)[nextId + n := NewSettlement(row)]
  }

  // ---------- one import ----------

  datatype Report = Report(settlements: nat, conflicts: seq<Period>, locked: seq<Period>)

  datatype Outcome = Loaded(report: Report) | WrongMunicipality(mismatched: nat)

  predicate Persists(settlements: map<nat, Settlement>, keys: seq<Period>, confirm: bool) {
    confirm || Conflicting(settlements, keys) == []
  }

  function ImportedSettlements(settlements: map<nat, Settlement>, nextId: nat, rows: seq<Row>, confirm: bool, now: int): map<nat, Settlement> {
    var keys := Periods(rows);
    if Persists(settlements, keys, confirm)
    then Created(TouchedAll(settlements, keys, now), Open(settlements, keys), rows, nextId)
    else settlements
  }

  function Import(db: Registry, municipality: nat, rows: seq<Row>, confirm: bool, now: int): (Registry, Outcome) {
    var keys := Periods(rows);
    var foreign := Foreign(db.properties, rows, municipality);
    if rows == [] then (db, Loaded(Report(0, [], [])))
    else if foreign != {} then (db, WrongMunicipality(|foreign|))
    else
      var persists := Persists(db.settlements, keys, confirm);
      var created := if persists then |Open(db.settlements, keys)| else 0;
      (db.(properties := Properties(db.properties, rows, municipality),
           owners := Owners(db.owners, rows, municipality),
           links := Links(db.links, rows),
           settlements := ImportedSettlements(db.settlements, db.nextId, rows, confirm, now),
           nextId := db.nextId + created),
       Loaded(Report(created, if persists then [] else Conflicting(db.settlements, keys), Locked(db.settlements, keys))))
  }
}
