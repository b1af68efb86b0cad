/** What every import keeps: one current settlement per period, final ones untouched, history whole. */
module TaxRollImport {
  import opened Numbering
  import opened Settlements
  import opened TaxRoll

  // ---------- the periods of the file ----------

  lemma {:induction false} PeriodsAre(rows: seq<Row>)
    ensures forall key :: key in Periods(rows) <==> LastRow(rows, key).Some?
    ensures forall i, k :: 0 <= i < k < |Periods(rows)| ==> Periods(rows)[i] != Periods(rows)[k]
    ensures forall key :: key in Periods(rows) ==> key.0 in Codes(rows)
  {
    if rows != [] {
      var n := |rows| - 1;
      PeriodsAre(rows[..n]);
      assert forall row :: row in rows[..n] ==> row in rows;
      forall key
        ensures key in Periods(rows) <==> LastRow(rows, key).Some?
      {
        if key != KeyOf(rows[n]) {
          assert LastRow(rows, key) == LastRow(rows[..n], key);
        }
      }
      assert rows[n] in rows;
    }
  }

  // ---------- the lists of the classification ----------

  lemma {:induction false} ClassifiedAre(settlements: map<nat, Settlement>, keys: seq<Period>)
    ensures forall key :: key in Locked(settlements, keys) <==> key in keys && Has(settlements, key, true)
    ensures forall key :: key in Conflicting(settlements, keys)
                     <==> key in keys && !Has(settlements, key, true) && Has(settlements, key, false)
    ensures forall key :: key in Open(settlements, keys) <==> key in keys && !Has(settlements, key, true)
  {
    if keys != [] {
      ClassifiedAre(settlements, keys[..|keys| - 1]);
    }
  }

  lemma {:induction false} OpenIsDistinct(settlements: map<nat, Settlement>, keys: seq<Period>)
    requires forall i, k :: 0 <= i < k < |keys| ==> keys[i] != keys[k]
    ensures forall i, k :: 0 <= i < k < |Open(settlements, keys)| ==> Open(settlements, keys)[i] != Open(settlements, keys)[k]
  {
    if keys != [] {
      var front := keys[..|keys| - 1];
      OpenIsDistinct(settlements, front);
      ClassifiedAre(settlements, front);
    }
  }

  // ---------- the new settlements ----------

  lemma {:induction false} CreatedIs(settlements: map<nat, Settlement>, keys: seq<Period>, rows: seq<Row>, nextId: nat)
    requires forall k :: 0 <= k < |keys| ==> LastRow(rows, keys[k]).Some?
    requires IdsBelow(settlements, nextId)
    ensures var after := Created(settlements, keys, rows, nextId);
            && (forall id :: id in after <==> id in settlements || nextId <= id < nextId + |keys|)
            && (forall id :: id in settlements ==> after[id] == settlements[id])
            && (forall k :: 0 <= k < |keys| ==> after[nextId + k] == NewSettlement(LastRow(rows, keys[k]).value))
  {
    hide LastRow, NewSettlement;
    if keys != [] {
      CreatedIs(settlements, keys[..|keys| - 1], rows, nextId);
    }
  }

  // The whole effect of an import that writes settlements.
  lemma ImportedIs(settlements: map<nat, Settlement>, nextId: nat, rows: seq<Row>, confirm: bool, now: int)
    requires IdsBelow(settlements, nextId) && Persists(settlements, Periods(rows), confirm)
    ensures var keys := Periods(rows);
            var open := Open(settlements, keys);
            var after := ImportedSettlements(settlements, nextId, rows, confirm, now);
            && (forall id :: id in after <==> id in settlements || nextId <= id < nextId + |open|)
            && (forall id :: id in settlements ==> after[id] == Touched(settlements[id], keys, now))
            && (forall k :: 0 <= k < |open| ==>
                  && LastRow(rows, open[k]).Some?
                  && after[nextId + k] == NewSettlement(LastRow(rows, open[k]).value))
  {
    hide Touched, NewSettlement, Has, LastRow, Open, Periods;
    var keys := Periods(rows);
    var open := Open(settlements, keys);
    PeriodsAre(rows);
    ClassifiedAre(settlements, keys);
    assert forall k :: 0 <= k < |open| ==> open[k] in open;
    CreatedIs(TouchedAll(settlements, keys, now), open, rows, nextId);
  }

  // ---------- what imports keep ----------

  lemma TouchedIs(s: Settlement, keys: seq<Period>, now: int)
    ensures var after := Touched(s, keys, now);
            && after == s.(replacedAt := after.replacedAt, missingSince := after.missingSince)
            && (!Current(s) ==> after == s)
            && (Current(s) ==> (Current(after) <==> PeriodOf(s) !in keys || s.status == EN_FIRME))
            && (Current(s) && PeriodOf(s) in keys && s.status == EN_FIRME ==> after == s)
            && (s.missingSince.Some? ==> after.missingSince == s.missingSince)
  {
  }

  // Nothing is deleted or rewritten: amounts, status and links stay, replaced rows are frozen, a mark
  // keeps its first date, and a final settlement is never superseded.
  lemma ImportKeepsHistory(settlements: map<nat, Settlement>, nextId: nat, rows: seq<Row>, confirm: bool, now: int, id: nat)
    requires IdsBelow(settlements, nextId) && id in settlements
    ensures var before, after := settlements[id], ImportedSettlements(settlements, nextId, rows, confirm, now);
            && id in after
            && after[id] == before.(replacedAt := after[id].replacedAt, missingSince := after[id].missingSince)
            && (!Current(before) ==> after[id] == before)
            && (before.missingSince.Some? ==> after[id].missingSince == before.missingSince)
            && (Current(before) && before.status == EN_FIRME ==> Current(after[id]))
            && (!Persists(settlements, Periods(rows), confirm) ==> after[id] == before)
  {
    hide Touched;
    if Persists(settlements, Periods(rows), confirm) {
      ImportedIs(settlements, nextId, rows, confirm, now);
      TouchedIs(settlements[id], Periods(rows), now);
    }
  }

  // The pass writes no settlement exactly when it is unconfirmed and some period of the file has a
  // current settlement that is not final.
  lemma UnconfirmedConflictWritesNothing(settlements: map<nat, Settlement>, nextId: nat, rows: seq<Row>, confirm: bool, now: int)
    requires OneCurrent(settlements)
    ensures !Persists(settlements, Periods(rows), confirm)
       <==> !confirm && exists id :: id in settlements && Current(settlements[id])
                                   && PeriodOf(settlements[id]) in Periods(rows) && settlements[id].status != EN_FIRME
    ensures !Persists(settlements, Periods(rows), confirm)
        ==> ImportedSettlements(settlements, nextId, rows, confirm, now) == settlements
  {
    hide Periods, OneCurrent;
    var keys := Periods(rows);
    var conflicts := Conflicting(settlements, keys);
    ClassifiedAre(settlements, keys);
    if conflicts != [] {
      assert conflicts[0] in conflicts;
    }
    forall id | id in settlements && Current(settlements[id]) && PeriodOf(settlements[id]) in keys && settlements[id].status != EN_FIRME
      ensures PeriodOf(settlements[id]) in conflicts
    {
      NotBothWays(settlements, id);
    }
  }

  // A period has a final current settlement or an open one, not both.
  lemma NotBothWays(settlements: map<nat, Settlement>, id: nat)
    requires OneCurrent(settlements) && id in settlements && Current(settlements[id])
    ensures forall locked :: Has(settlements, PeriodOf(settlements[id]), locked) <==> locked == (settlements[id].status == EN_FIRME)
  {
  }

  lemma ImportKeepsOneCurrent(settlements: map<nat, Settlement>, nextId: nat, rows: seq<Row>, confirm: bool, now: int)
    requires OneCurrent(settlements) && IdsBelow(settlements, nextId)
    ensures OneCurrent(ImportedSettlements(settlements, nextId, rows, confirm, now))
  {
    hide Periods, Open, LastRow, Touched, OneCurrent;
    var keys := Periods(rows);
    if Persists(settlements, keys, confirm) {
      var open := Open(settlements, keys);
      var after := ImportedSettlements(settlements, nextId, rows, confirm, now);
      PeriodsAre(rows);
      ImportedIs(settlements, nextId, rows, confirm, now);
      ClassifiedAre(settlements, keys);
      OpenIsDistinct(settlements, keys);
      forall id | id in after && Current(after[id])
        ensures id in settlements ==> Current(settlements[id]) && PeriodOf(after[id]) == PeriodOf(settlements[id]) && PeriodOf(after[id]) !in open
        ensures id !in settlements ==> PeriodOf(after[id]) == open[id - nextId]
      {
        if id in settlements {
          TouchedIs(settlements[id], keys, now);
          NotOpen(settlements, id, keys, now);
        } else {
          assert id == nextId + (id - nextId);
        }
      }
      OneCurrentAfter(settlements, after, open, nextId);
    }
  }

  lemma NotOpen(settlements: map<nat, Settlement>, id: nat, keys: seq<Period>, now: int)
    requires id in settlements && Current(Touched(settlements[id], keys, now))
    ensures PeriodOf(settlements[id]) !in Open(settlements, keys)
  {
    ClassifiedAre(settlements, keys);
  }

  lemma OneCurrentAfter(before: map<nat, Settlement>, after: map<nat, Settlement>, open: seq<Period>, nextId: nat)
    requires OneCurrent(before)
    requires forall i, k :: 0 <= i < k < |open| ==> open[i] != open[k]
    requires forall id :: id in after && id !in before ==> nextId <= id < nextId + |open|
    requires forall id :: id in after && Current(after[id]) && id in before
               ==> Current(before[id]) && PeriodOf(after[id]) == PeriodOf(before[id]) && PeriodOf(after[id]) !in open
    requires forall id :: id in after && Current(after[id]) && id !in before ==> PeriodOf(after[id]) == open[id - nextId]
    ensures OneCurrent(after)
  {
    forall a, b | a in after && b in after && Current(after[a]) && Current(after[b]) && PeriodOf(after[a]) == PeriodOf(after[b])
      ensures a == b
    {
      if a !in before && b !in before {
        assert open[a - nextId] == open[b - nextId];
      }
    }
  }

  // Whatever a pass that writes settlements is given, each period of the file has exactly one current
  // settlement afterwards: the final one it had, untouched, or a new one with its last row's amounts.
  lemma EveryPeriodIsCurrent(settlements: map<nat, Settlement>, nextId: nat, rows: seq<Row>, confirm: bool, now: int, key: Period)
    requires OneCurrent(settlements) && IdsBelow(settlements, nextId)
    requires Persists(settlements, Periods(rows), confirm) && key in Periods(rows)
    ensures var after := ImportedSettlements(settlements, nextId, rows, confirm, now);
            && OneCurrent(after) && LastRow(rows, key).Some?
            && exists id :: id in after && Current(after[id]) && PeriodOf(after[id]) == key
                         && if Has(settlements, key, true) then id in settlements && after[id] == settlements[id] && after[id].status == EN_FIRME
                            else id !in settlements && after[id] == NewSettlement(LastRow(rows, key).value)
  {
    hide Periods, Open, LastRow, Touched, OneCurrent, Created;
    ImportKeepsOneCurrent(settlements, nextId, rows, confirm, now);
    var keys := Periods(rows);
    var open := Open(settlements, keys);
    PeriodsAre(rows);
    ClassifiedAre(settlements, keys);
    ImportedIs(settlements, nextId, rows, confirm, now);
    if Has(settlements, key, true) {
      var id :| id in settlements && Current(settlements[id]) && PeriodOf(settlements[id]) == key && settlements[id].status == EN_FIRME;
      TouchedIs(settlements[id], keys, now);
    } else {
      var k :| 0 <= k < |open| && open[k] == key;
      var after := ImportedSettlements(settlements, nextId, rows, confirm, now);
      assert nextId + k in after && after[nextId + k] == NewSettlement(LastRow(rows, key).value);
    }
  }

  // A current settlement whose property comes in the file without its period is marked missing, with
  // the date of the first import that missed it; a property the file does not bring is left alone.
  lemma OmittedPeriodsAreMarked(settlements: map<nat, Settlement>, nextId: nat, rows: seq<Row>, confirm: bool, now: int, id: nat)
    requires IdsBelow(settlements, nextId) && Persists(settlements, Periods(rows), confirm)
    requires id in settlements && Current(settlements[id]) && PeriodOf(settlements[id]) !in Periods(rows)
    ensures var before, after := settlements[id], ImportedSettlements(settlements, nextId, rows, confirm, now);
            && id in after
            && after[id] == if before.property in Codes(rows) && before.missingSince.None?
                            then before.(missingSince := Some(now)) else before
  {
    hide Created;
    ImportedIs(settlements, nextId, rows, confirm, now);
    PeriodsAre(rows);
    if settlements[id].property in Codes(rows) {
      var row :| row in rows && row.code == settlements[id].property;
      RowHasPeriod(rows, row);
    }
  }

  lemma {:induction false} RowHasPeriod(rows: seq<Row>, row: Row)
    requires row in rows
    ensures KeyOf(row) in Periods(rows)
  {
    PeriodsAre(rows);
    var i :| 0 <= i < |rows| && rows[i] == row;
  }

  // A period that comes back: its current settlement carries a missing mark afterwards exactly when it
  // was final and carried one before. So the mark goes away, except on a final settlement.
  lemma MarkAfterComingBack(settlements: map<nat, Settlement>, nextId: nat, rows: seq<Row>, confirm: bool, now: int, id: nat)
    requires OneCurrent(settlements) && IdsBelow(settlements, nextId) && Persists(settlements, Periods(rows), confirm)
    requires var after := ImportedSettlements(settlements, nextId, rows, confirm, now);
             id in after && Current(after[id]) && PeriodOf(after[id]) in Periods(rows)
    ensures ImportedSettlements(settlements, nextId, rows, confirm, now)[id].missingSince.Some?
       <==> id in settlements && settlements[id].status == EN_FIRME && settlements[id].missingSince.Some?
  {
    hide Periods, LastRow, OneCurrent, Open, Touched;
    ImportedIs(settlements, nextId, rows, confirm, now);
    if id in settlements {
      TouchedIs(settlements[id], Periods(rows), now);
    } else {
      assert LastRow(rows, Open(settlements, Periods(rows))[id - nextId]).Some?;
    }
  }

  // Loading the same file again without confirming: the conflicts are exactly the periods the first
  // load wrote, and the final ones are locked again.
  lemma SecondLoadConflicts(settlements: map<nat, Settlement>, nextId: nat, rows: seq<Row>, confirm: bool, now: int)
    requires OneCurrent(settlements) && IdsBelow(settlements, nextId) && Persists(settlements, Periods(rows), confirm)
    ensures var after := ImportedSettlements(settlements, nextId, rows, confirm, now);
            && Conflicting(after, Periods(rows)) == Open(settlements, Periods(rows))
            && Locked(after, Periods(rows)) == Locked(settlements, Periods(rows))
  {
    hide Periods, OneCurrent, ImportedSettlements, Open, Locked, Conflicting, LastRow;
    var keys := Periods(rows);
    var after := ImportedSettlements(settlements, nextId, rows, confirm, now);
    forall key | key in keys
      ensures Has(after, key, true) <==> Has(settlements, key, true)
      ensures Has(after, key, false) <==> !Has(settlements, key, true)
    {
      EveryPeriodIsCurrent(settlements, nextId, rows, confirm, now, key);
      var id :| id in after && Current(after[id]) && PeriodOf(after[id]) == key
                && (if Has(settlements, key, true) then after[id].status == EN_FIRME else after[id].status == VIGENTE);
      NotBothWays(after, id);
    }
    SameClassification(settlements, after, keys);
  }

  lemma {:induction false} SameClassification(before: map<nat, Settlement>, after: map<nat, Settlement>, keys: seq<Period>)
    requires forall key :: key in keys ==> (Has(after, key, true) <==> Has(before, key, true))
    requires forall key :: key in keys ==> (Has(after, key, false) <==> !Has(before, key, true))
    ensures Conflicting(after, keys) == Open(before, keys) && Locked(after, keys) == Locked(before, keys)
  {
    hide Has;
    if keys != [] {
      assert keys[|keys| - 1] in keys;
      SameClassification(before, after, keys[..|keys| - 1]);
    }
  }

  // ---------- properties and owners ----------

  // The last value the property's rows state of one thing, if any does, and otherwise what was known.
  function StatedOrKnown<T>(rows: seq<Row>, code: string, stated: Row -> Option<T>, known: Option<T>): Option<T> {
    Or(LastStated(rows, code, stated), known)
  }

  // What an accepted load leaves of a property's optional details.
  function DetailsAfter(rows: seq<Row>, code: string, known: Extras): Extras {
    Extras(StatedOrKnown(rows, code, (r: Row) => r.extras.ruralDistrict, known.ruralDistrict),
           StatedOrKnown(rows, code, (r: Row) => r.extras.neighborhood, known.neighborhood),
           StatedOrKnown(rows, code, (r: Row) => r.extras.latitude, known.latitude),
           StatedOrKnown(rows, code, (r: Row) => r.extras.longitude, known.longitude),
           StatedOrKnown(rows, code, (r: Row) => r.extras.landUse, known.landUse))
  }

  // What is known of a property or an owner is only replaced by something the file states: each of a
  // property's five optional details becomes the last value its rows state, or stays.
  lemma ImportErasesNothing(db: Registry, municipality: nat, rows: seq<Row>, confirm: bool, now: int)
    ensures var (after, outcome) := Import(db, municipality, rows, confirm, now);
            && (forall code :: code in db.properties ==>
                  && code in after.properties
                  && after.properties[code].municipality == db.properties[code].municipality
                  && (code !in Codes(rows) ==> after.properties[code] == db.properties[code])
                  && after.properties[code].extras
                     == if outcome.Loaded? then DetailsAfter(rows, code, db.properties[code].extras) else db.properties[code].extras)
            && (forall key :: key in db.owners ==>
                  && key in after.owners
                  && (after.owners[key].name == db.owners[key].name || StatesName(rows, key.1, after.owners[key].name))
                  && (after.owners[key].documentType == db.owners[key].documentType
                      || StatesType(rows, key.1, after.owners[key].documentType))
                  && (key.0 != municipality || key.1 !in TaxIds(rows) ==> after.owners[key] == db.owners[key]))
            && db.links <= after.links
  {
    hide ImportedSettlements, Periods, Open, Locked, Conflicting, Properties, Owners, Links;
    var (after, outcome) := Import(db, municipality, rows, confirm, now);
    forall code | code in db.properties
      ensures code in Properties(db.properties, rows, municipality)
      ensures Properties(db.properties, rows, municipality)[code].municipality == db.properties[code].municipality
      ensures code !in Codes(rows) ==> Properties(db.properties, rows, municipality)[code] == db.properties[code]
      ensures Properties(db.properties, rows, municipality)[code].extras == DetailsAfter(rows, code, db.properties[code].extras)
    {
      PropertyKeepsDetails(db.properties, rows, municipality, code);
    }
    if rows == [] {
      forall code | code in db.properties
        ensures DetailsAfter(rows, code, db.properties[code].extras) == db.properties[code].extras
      {
        NoRowsNoDetails(code, db.properties[code].extras);
      }
    }
    forall key | key in db.owners
      ensures key in Owners(db.owners, rows, municipality)
      ensures var o := Owners(db.owners, rows, municipality)[key];
              && (o.name == db.owners[key].name || StatesName(rows, key.1, o.name))
              && (o.documentType == db.owners[key].documentType || StatesType(rows, key.1, o.documentType))
              && (key.0 != municipality || key.1 !in TaxIds(rows) ==> o == db.owners[key])
    {
      OwnerIsStated(db.owners, rows, municipality, key);
    }
    LinksGrow(db.links, rows);
  }

  predicate StatesName(rows: seq<Row>, taxId: string, name: string) {
    exists row :: row in rows && row.taxId == taxId && row.ownerName == Some(name) && name != ""
  }

  predicate StatesType(rows: seq<Row>, taxId: string, documentType: Option<string>) {
    documentType.Some? && exists row :: row in rows && row.taxId == taxId && row.documentType == documentType
  }

  lemma LinksGrow(known: set<(string, string)>, rows: seq<Row>)
    ensures known <= Links(known, rows)
  {
  }

  lemma PropertyKeepsDetails(known: map<string, Property>, rows: seq<Row>, municipality: nat, code: string)
    requires code in known
    ensures code in Properties(known, rows, municipality)
    ensures Properties(known, rows, municipality)[code].municipality == known[code].municipality
    ensures code !in Codes(rows) ==> Properties(known, rows, municipality)[code] == known[code]
    ensures Properties(known, rows, municipality)[code].extras == DetailsAfter(rows, code, known[code].extras)
  {
    hide PropertyRow, LastStated;
    if code in Codes(rows) {
      MergedRowStatesTheLatest(rows, code);
    } else {
      NothingStated(rows, code, (r: Row) => r.extras.ruralDistrict);
      NothingStated(rows, code, (r: Row) => r.extras.neighborhood);
      NothingStated(rows, code, (r: Row) => r.extras.latitude);
      NothingStated(rows, code, (r: Row) => r.extras.longitude);
      NothingStated(rows, code, (r: Row) => r.extras.landUse);
    }
  }

  lemma NoRowsNoDetails(code: string, known: Extras)
    ensures DetailsAfter([], code, known) == known
  {
  }

  lemma {:induction false} OwnerRowIsThere(rows: seq<Row>, taxId: string)
    requires taxId in TaxIds(rows)
    ensures OwnerRow(rows, taxId).Some? && OwnerRow(rows, taxId).value in rows && OwnerRow(rows, taxId).value.taxId == taxId
  {
    var n := |rows| - 1;
    if rows[n].taxId != taxId {
      assert rows == rows[..n] + [rows[n]];
      OwnerRowIsThere(rows[..n], taxId);
    }
  }

  lemma OwnerIsStated(known: map<(nat, string), Owner>, rows: seq<Row>, municipality: nat, key: (nat, string))
    requires key in known
    ensures key in Owners(known, rows, municipality)
    ensures var o := Owners(known, rows, municipality)[key];
            && (o.name == known[key].name || StatesName(rows, key.1, o.name))
            && (o.documentType == known[key].documentType || StatesType(rows, key.1, o.documentType))
            && (key.0 != municipality || key.1 !in TaxIds(rows) ==> o == known[key])
  {
    hide OwnerRow;
    if key.0 == municipality && key.1 in TaxIds(rows) {
      OwnerRowIsThere(rows, key.1);
    }
  }

  // Another municipality's property in the file refuses the whole load.
  lemma ForeignPropertyRefusesTheLoad(db: Registry, municipality: nat, rows: seq<Row>, confirm: bool, now: int)
    ensures Import(db, municipality, rows, confirm, now).1.WrongMunicipality?
       <==> exists row :: row in rows && row.code in db.properties && db.properties[row.code].municipality != municipality
    ensures Import(db, municipality, rows, confirm, now).1.WrongMunicipality? ==> Import(db, municipality, rows, confirm, now).0 == db
  {
    var foreign := Foreign(db.properties, rows, municipality);
    forall row | row in rows && row.code in db.properties && db.properties[row.code].municipality != municipality
      ensures row.code in foreign
    {
    }
  }

  // Every current settlement belongs to a property of the registry.
  ghost predicate Housed(db: Registry) {
    forall id :: id in db.settlements ==> db.settlements[id].property in db.properties
  }

  // The registry stays sound, whatever the load is given.
  lemma ImportKeepsValid(db: Registry, municipality: nat, rows: seq<Row>, confirm: bool, now: int)
    requires Valid(db) && Housed(db)
    ensures var after := Import(db, municipality, rows, confirm, now).0;
            Valid(after) && Housed(after) && after.events == db.events
  {
    hide OneCurrent, ImportedSettlements, Periods, Open, Properties, Owners, Links, Locked, Conflicting, LastRow;
    var after := Import(db, municipality, rows, confirm, now).0;
    ImportKeepsOneCurrent(db.settlements, db.nextId, rows, confirm, now);
    PropertiesGrow(db.properties, rows, municipality);
    if Persists(db.settlements, Periods(rows), confirm) {
      ImportedIs(db.settlements, db.nextId, rows, confirm, now);
      NewAreHoused(db, rows, confirm, now);
    } else {
      assert ImportedSettlements(db.settlements, db.nextId, rows, confirm, now) == db.settlements by {
        UnconfirmedConflictWritesNothing(db.settlements, db.nextId, rows, confirm, now);
      }
    }
  }

  lemma PropertiesGrow(known: map<string, Property>, rows: seq<Row>, municipality: nat)
    ensures Properties(known, rows, municipality).Keys == known.Keys + Codes(rows)
  {
  }

  lemma NewAreHoused(db: Registry, rows: seq<Row>, confirm: bool, now: int)
    requires Housed(db) && IdsBelow(db.settlements, db.nextId) && Persists(db.settlements, Periods(rows), confirm)
    ensures forall id :: id in ImportedSettlements(db.settlements, db.nextId, rows, confirm, now)
              ==> ImportedSettlements(db.settlements, db.nextId, rows, confirm, now)[id].property in db.properties.Keys + Codes(rows)
  {
    hide ImportedSettlements, Periods, Open, Touched, LastRow;
    var after := ImportedSettlements(db.settlements, db.nextId, rows, confirm, now);
    var open := Open(db.settlements, Periods(rows));
    ImportedIs(db.settlements, db.nextId, rows, confirm, now);
    PeriodsAre(rows);
    ClassifiedAre(db.settlements, Periods(rows));
    forall id | id in after
      ensures after[id].property in db.properties.Keys + Codes(rows)
    {
      if id in db.settlements {
        TouchedIs(db.settlements[id], Periods(rows), now);
      } else {
        assert open[id - db.nextId] in open;
        assert LastRow(rows, open[id - db.nextId]).Some?;
      }
    }
  }

  // The last row of the file that names the property and states the value.
  function LastStated<T>(rows: seq<Row>, code: string, stated: Row -> Option<T>): Option<T> {
    if rows == [] then None
    else
      var row := rows[|rows| - 1];
      if row.code == code && stated(row).Some? then stated(row) else LastStated(rows[..|rows| - 1], code, stated)
  }

  lemma {:induction false} MergedRowStatesTheLatest(rows: seq<Row>, code: string)
    requires code in Codes(rows)
    ensures var extras := PropertyRow(rows, code).value.extras;
            && extras.ruralDistrict == LastStated(rows, code, (r: Row) => r.extras.ruralDistrict)
            && extras.neighborhood == LastStated(rows, code, (r: Row) => r.extras.neighborhood)
            && extras.latitude == LastStated(rows, code, (r: Row) => r.extras.latitude)
            && extras.longitude == LastStated(rows, code, (r: Row) => r.extras.longitude)
            && extras.landUse == LastStated(rows, code, (r: Row) => r.extras.landUse)
  {
    var front, row := rows[..|rows| - 1], rows[|rows| - 1];
    assert rows == front + [row];
    if code in Codes(front) {
      MergedRowStatesTheLatest(front, code);
    } else {
      NothingStated(front, code, (r: Row) => r.extras.ruralDistrict);
      NothingStated(front, code, (r: Row) => r.extras.neighborhood);
      NothingStated(front, code, (r: Row) => r.extras.latitude);
      NothingStated(front, code, (r: Row) => r.extras.longitude);
      NothingStated(front, code, (r: Row) => r.extras.landUse);
    }
  }

  lemma {:induction false} NothingStated<T>(rows: seq<Row>, code: string, stated: Row -> Option<T>)
    requires code !in Codes(rows)
    ensures LastStated(rows, code, stated) == None
  {
    if rows != [] {
      var front, row := rows[..|rows| - 1], rows[|rows| - 1];
      assert rows == front + [row];
      assert row in rows && forall r :: r in front ==> r in rows;
      NothingStated(front, code, stated);
    }
  }

  // The row a property takes its address and appraisal from, and an owner its name and type: the last.
  lemma LastRowsAreLast(rows: seq<Row>, i: nat)
    requires i < |rows|
    ensures (forall k :: i < k < |rows| ==> rows[k].code != rows[i].code)
        ==> PropertyRow(rows, rows[i].code).value == rows[i].(extras := PropertyRow(rows, rows[i].code).value.extras)
    ensures (forall k :: i < k < |rows| ==> rows[k].taxId != rows[i].taxId) ==> OwnerRow(rows, rows[i].taxId) == Some(rows[i])
    ensures (forall k :: i < k < |rows| ==> KeyOf(rows[k]) != KeyOf(rows[i])) ==> LastRow(rows, KeyOf(rows[i])) == Some(rows[i])
  {
    assert rows[i] in rows;
    hide PropertyRow, OwnerRow, LastRow, KeyOf;
    if forall k :: i < k < |rows| ==> rows[k].code != rows[i].code {
      LastOfProperty(rows, i);
    }
    if forall k :: i < k < |rows| ==> rows[k].taxId != rows[i].taxId {
      LastOfOwner(rows, i);
    }
    if forall k :: i < k < |rows| ==> KeyOf(rows[k]) != KeyOf(rows[i]) {
      LastOfPeriod(rows, i);
    }
  }

  lemma {:induction false} LastOfProperty(rows: seq<Row>, i: nat)
    requires i < |rows| && forall k :: i < k < |rows| ==> rows[k].code != rows[i].code
    ensures rows[i] in rows
    ensures PropertyRow(rows, rows[i].code).value == rows[i].(extras := PropertyRow(rows, rows[i].code).value.extras)
  {
    if i < |rows| - 1 {
      assert rows[..|rows| - 1][i] == rows[i];
      LastOfProperty(rows[..|rows| - 1], i);
    }
  }

  lemma {:induction false} LastOfOwner(rows: seq<Row>, i: nat)
    requires i < |rows| && forall k :: i < k < |rows| ==> rows[k].taxId != rows[i].taxId
    ensures OwnerRow(rows, rows[i].taxId) == Some(rows[i])
  {
    if i < |rows| - 1 {
      assert rows[..|rows| - 1][i] == rows[i];
      LastOfOwner(rows[..|rows| - 1], i);
    }
  }

  lemma {:induction false} LastOfPeriod(rows: seq<Row>, i: nat)
    requires i < |rows| && forall k :: i < k < |rows| ==> KeyOf(rows[k]) != KeyOf(rows[i])
    ensures LastRow(rows, KeyOf(rows[i])) == Some(rows[i])
  {
    if i < |rows| - 1 {
      assert rows[..|rows| - 1][i] == rows[i];
      LastOfPeriod(rows[..|rows| - 1], i);
    }
  }
}
