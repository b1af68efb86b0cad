/** What a load leaves in the registry, said of the sheet's own cells and the file's last rows. */
module RollLaws {
  import opened Numbering
  import opened Settlements
  import opened TaxRoll
  import opened TaxRollImport
  import opened TaxRollFile

  // ---------- settlements ----------

  // The settlement bills what the row says, and starts as any new one does.
  predicate Bills(cells: Cells, s: Settlement) {
    && s.property == cells.code && cells.period == Some(s.period) && cells.total == Some(s.total)
    && |s.amounts| == |cells.amounts| && (forall i :: 0 <= i < |cells.amounts| ==> cells.amounts[i] == Some(s.amounts[i]))
    && s.status == VIGENTE && s.resolvedAt == None && s.paymentOrder == None && s.replacedAt == None && s.missingSince == None
  }

  predicate FinalNow(s: Settlement, code: string, period: int) {
    s.replacedAt == None && s.property == code && s.period == period && s.status == EN_FIRME
  }

  // After a load that writes, each first row of the sheet has its current settlement: the final one there
  // was, untouched, or a new one that bills the row's own total and amounts.
  lemma SheetRowIsBilled(sheet: seq<Cells>, currentYear: int, settlements: map<nat, Settlement>, nextId: nat, confirm: bool, now: int, n: nat)
    requires OneCurrent(settlements) && IdsBelow(settlements, nextId) && First(sheet, n, currentYear)
    requires confirm || forall id, k: nat :: id in settlements && First(sheet, k, currentYear) ==>
                          settlements[id].replacedAt.Some? || settlements[id].property != sheet[k].code
                          || Some(settlements[id].period) != sheet[k].period || settlements[id].status == EN_FIRME
    ensures var after := ImportedSettlements(settlements, nextId, Parse(sheet, currentYear).valid, confirm, now);
            exists id :: id in after
                         && if exists was :: was in settlements && FinalNow(settlements[was], sheet[n].code, sheet[n].period.value) then
                              id in settlements && after[id] == settlements[id] && FinalNow(after[id], sheet[n].code, sheet[n].period.value)
                            else id !in settlements && Bills(sheet[n], after[id])
  {
    hide OneCurrent, First, GoodCells, Describes, ImportedSettlements, Parse, Periods, LastRow, Bills, FinalNow, Has, Persists;
    var rows := Parse(sheet, currentYear).valid;
    var places := LoadedRows(sheet, currentYear);
    assert n in places;
    var k :| 0 <= k < |places| && places[k] == n;
    FirstIsGood(sheet, n, currentYear);
    var key := (sheet[n].code, sheet[n].period.value);
    DescribedKey(sheet[n], rows[k]);
    PeriodsAre(rows);
    FirstRowWins(sheet, currentYear, key);
    LastIsTheOne(rows, k);
    LoadPersists(sheet, places, currentYear, rows, settlements, nextId, confirm, now);
    EveryPeriodIsCurrent(settlements, nextId, rows, confirm, now, key);
    var after := ImportedSettlements(settlements, nextId, rows, confirm, now);
    var id :| id in after && Current(after[id]) && PeriodOf(after[id]) == key
              && if Has(settlements, key, true) then id in settlements && after[id] == settlements[id] && after[id].status == EN_FIRME
                 else id !in settlements && after[id] == NewSettlement(LastRow(rows, key).value);
    FinalIsLocked(settlements, key);
    BilledByRow(sheet[n], rows[k]);
    assert Has(settlements, key, true) ==> FinalNow(after[id], key.0, key.1) by {
      IsFinal(after[id], key);
    }
  }

  lemma IsFinal(s: Settlement, key: Period)
    requires Current(s) && PeriodOf(s) == key
    ensures s.status == EN_FIRME ==> FinalNow(s, key.0, key.1)
  {
  }

  lemma FirstIsGood(sheet: seq<Cells>, n: nat, currentYear: int)
    requires First(sheet, n, currentYear)
    ensures n < |sheet| && GoodCells(sheet[n], currentYear) && sheet[n].period.Some?
  {
  }

  lemma DescribedKey(cells: Cells, row: Row)
    requires Describes(cells, row)
    ensures cells.period.Some? && KeyOf(row) == (cells.code, cells.period.value)
  {
  }

  lemma {:induction false} LastIsTheOne(rows: seq<Row>, k: nat)
    requires k < |rows| && forall i, j :: 0 <= i < j < |rows| ==> KeyOf(rows[i]) != KeyOf(rows[j])
    ensures LastRow(rows, KeyOf(rows[k])) == Some(rows[k])
  {
    LastRowsAreLast(rows, k);
  }

  lemma FinalIsLocked(settlements: map<nat, Settlement>, key: Period)
    ensures Has(settlements, key, true) <==> exists was :: was in settlements && FinalNow(settlements[was], key.0, key.1)
  {
    if id :| id in settlements && Current(settlements[id]) && PeriodOf(settlements[id]) == key
             && (settlements[id].status == EN_FIRME) == true {
      assert FinalNow(settlements[id], key.0, key.1);
    }
  }

  lemma BilledByRow(cells: Cells, row: Row)
    requires Describes(cells, row)
    ensures Bills(cells, NewSettlement(row))
  {
  }

  lemma LoadPersists(sheet: seq<Cells>, places: seq<nat>, currentYear: int, rows: seq<Row>, settlements: map<nat, Settlement>, nextId: nat,
                     confirm: bool, now: int)
    requires OneCurrent(settlements) && rows == Parse(sheet, currentYear).valid && |places| == |rows|
    requires forall n: nat :: n in places <==> First(sheet, n, currentYear)
    requires forall k :: 0 <= k < |places| ==> places[k] < |sheet| && Describes(sheet[places[k]], rows[k])
    requires confirm || forall id, k: nat :: id in settlements && First(sheet, k, currentYear) && k < |sheet| ==>
                          settlements[id].replacedAt.Some? || settlements[id].property != sheet[k].code
                          || Some(settlements[id].period) != sheet[k].period || settlements[id].status == EN_FIRME
    ensures Persists(settlements, Periods(rows), confirm)
  {
    hide OneCurrent, First, GoodCells, Describes, ImportedSettlements, Parse, Periods, LastRow, Persists;
    UnconfirmedConflictWritesNothing(settlements, nextId, rows, confirm, now);
    PeriodsAre(rows);
    if !confirm {
      forall id | id in settlements && Current(settlements[id]) && PeriodOf(settlements[id]) in Periods(rows)
        ensures settlements[id].status == EN_FIRME
      {
        var i :| 0 <= i < |rows| && KeyOf(rows[i]) == PeriodOf(settlements[id]);
        DescribedKey(sheet[places[i]], rows[i]);
        assert places[i] in places;
      }
    }
  }

  // ---------- properties, owners and links ----------

  predicate LastOf(rows: seq<Row>, i: nat, code: string) {
    i < |rows| && rows[i].code == code && forall k :: i < k < |rows| ==> rows[k].code != code
  }

  predicate LastOfTaxId(rows: seq<Row>, i: nat, taxId: string) {
    i < |rows| && rows[i].taxId == taxId && forall k :: i < k < |rows| ==> rows[k].taxId != taxId
  }

  const NO_EXTRAS := Extras(None, None, None, None, None)

  // After an accepted load every property of the file is in the municipality, with its last row's name and
  // appraisal, the details its rows state last or that were known, and a link to its last row's owner.
  lemma PropertyAfter(db: Registry, municipality: nat, rows: seq<Row>, confirm: bool, now: int, i: nat, code: string)
    requires LastOf(rows, i, code) && Import(db, municipality, rows, confirm, now).1.Loaded?
    ensures var after := Import(db, municipality, rows, confirm, now).0;
            && code in after.properties
            && after.properties[code]
               == Property(municipality, rows[i].propertyName,
                           DetailsAfter(rows, code, if code in db.properties then db.properties[code].extras else NO_EXTRAS), rows[i].appraisal)
            && (code, rows[i].taxId) in after.links
  {
    hide PropertyRow, LastStated, ImportedSettlements, Periods, Open, Locked, Conflicting, Owners;
    LastRowsAreLast(rows, i);
    assert rows[i] in rows;
    MergedRowStatesTheLatest(rows, code);
    NotForeign(db.properties, rows, municipality, code);
  }

  lemma NotForeign(known: map<string, Property>, rows: seq<Row>, municipality: nat, code: string)
    requires Foreign(known, rows, municipality) == {} && code in Codes(rows)
    ensures code in known ==> known[code].municipality == municipality
  {
    assert code in known && known[code].municipality != municipality ==> code in Foreign(known, rows, municipality);
  }

  // And every owner of the file, with the name and type the last row states, or what was known, or the
  // placeholder for a new owner without a name.
  lemma OwnerAfter(db: Registry, municipality: nat, rows: seq<Row>, confirm: bool, now: int, i: nat, taxId: string)
    requires LastOfTaxId(rows, i, taxId) && Import(db, municipality, rows, confirm, now).1.Loaded?
    ensures var after, key, row := Import(db, municipality, rows, confirm, now).0, (municipality, taxId), rows[i];
            && key in after.owners
            && (key !in db.owners ==>
                  after.owners[key]
                  == Owner(if row.ownerName.Some? then row.ownerName.value else "Propietario sin nombre registrado", row.documentType))
            && (key in db.owners ==>
                  && after.owners[key].name
                     == (if row.ownerName.Some? && row.ownerName.value != "" then row.ownerName.value else db.owners[key].name)
                  && after.owners[key].documentType
                     == (if row.documentType.Some? then row.documentType else db.owners[key].documentType))
  {
    hide OwnerRow, ImportedSettlements, Periods, Open, Locked, Conflicting, Properties, Links;
    LastRowsAreLast(rows, i);
    assert rows[i] in rows;
  }

  // The links of the properties of the file to the owners of their last rows are the only new ones.
  lemma LinksAfter(db: Registry, municipality: nat, rows: seq<Row>, confirm: bool, now: int, link: (string, string))
    ensures var (after, outcome) := Import(db, municipality, rows, confirm, now);
            link in after.links <==> link in db.links
                                     || (outcome.Loaded? && exists i: nat :: LastOf(rows, i, link.0) && rows[i].taxId == link.1)
  {
    hide PropertyRow, ImportedSettlements, Periods, Open, Locked, Conflicting, Properties, Owners;
    if link.0 in Codes(rows) {
      var i := LastPlace(rows, link.0);
      LastRowsAreLast(rows, i);
    }
  }

  lemma {:induction false} LastPlace(rows: seq<Row>, code: string) returns (i: nat)
    requires code in Codes(rows)
    ensures LastOf(rows, i, code)
    ensures forall k: nat :: LastOf(rows, k, code) ==> k == i
  {
    var n := |rows| - 1;
    if rows[n].code == code {
      i := n;
    } else {
      assert rows == rows[..n] + [rows[n]];
      i := LastPlace(rows[..n], code);
      forall k: nat | LastOf(rows, k, code)
        ensures k == i
      {
        assert LastOf(rows[..n], k, code);
      }
    }
  }

  // ---------- what the load answers ----------

  // A current settlement of a period the file names, final or not.
  predicate CurrentOf(s: Settlement, key: Period, final: bool) {
    s.replacedAt == None && s.property == key.0 && s.period == key.1 && (s.status == EN_FIRME) == final
  }

  predicate Names(rows: seq<Row>, key: Period) {
    exists i :: 0 <= i < |rows| && rows[i].code == key.0 && rows[i].period == key.1
  }

  predicate Once(keys: seq<Period>) {
    forall i, k :: 0 <= i < k < |keys| ==> keys[i] != keys[k]
  }

  predicate HasCurrent(settlements: map<nat, Settlement>, key: Period, final: bool) {
    exists id :: id in settlements && CurrentOf(settlements[id], key, final)
  }

  ghost predicate Conflicted(settlements: map<nat, Settlement>, rows: seq<Row>) {
    exists key :: Names(rows, key) && HasCurrent(settlements, key, false)
  }

  // The answer of an accepted load: the periods it found final, those it left alone because nobody confirmed,
  // and how many settlements it made, which is how many there are now that were not there before.
  lemma ReportIs(db: Registry, municipality: nat, rows: seq<Row>, confirm: bool, now: int)
    requires OneCurrent(db.settlements) && IdsBelow(db.settlements, db.nextId) && Import(db, municipality, rows, confirm, now).1.Loaded?
    ensures var (after, outcome) := Import(db, municipality, rows, confirm, now);
            var report, waits := outcome.report, !confirm && Conflicted(db.settlements, rows);
            && Once(report.locked) && (forall key :: key in report.locked <==> Names(rows, key) && HasCurrent(db.settlements, key, true))
            && Once(report.conflicts)
            && (forall key :: key in report.conflicts <==> waits && Names(rows, key) && HasCurrent(db.settlements, key, false))
            && report.settlements == |after.settlements.Keys - db.settlements.Keys|
            && after.nextId == db.nextId + report.settlements
            && (waits ==> after.settlements == db.settlements)
  {
    hide Periods, Open, Locked, Conflicting, ImportedSettlements, Import, OneCurrent, Names, HasCurrent, Has, Conflicted, Once, Persists;
    ImportAnswers(db, municipality, rows, confirm, now);
    PeriodsListed(db.settlements, rows);
    ConflictedIff(db.settlements, rows);
    PersistsIff(db.settlements, rows, confirm);
    assert db.settlements.Keys - db.settlements.Keys == {};
    if Persists(db.settlements, Periods(rows), confirm) {
      AddedCount(db.settlements, db.nextId, rows, confirm, now);
    }
  }

  // The answer is read off the classified periods.
  lemma ImportAnswers(db: Registry, municipality: nat, rows: seq<Row>, confirm: bool, now: int)
    requires Import(db, municipality, rows, confirm, now).1.Loaded?
    ensures var (after, outcome) := Import(db, municipality, rows, confirm, now);
            var keys, persists := Periods(rows), Persists(db.settlements, Periods(rows), confirm);
            && outcome.report.locked == Locked(db.settlements, keys)
            && outcome.report.conflicts == (if persists then [] else Conflicting(db.settlements, keys))
            && outcome.report.settlements == (if persists then |Open(db.settlements, keys)| else 0)
            && after.nextId == db.nextId + outcome.report.settlements
            && after.settlements == (if persists then ImportedSettlements(db.settlements, db.nextId, rows, confirm, now) else db.settlements)
  {
    hide Properties, Owners, Links, Touched, Has;
    if rows == [] {
      NothingIn(db.settlements, now);
    }
  }

  lemma NothingIn(settlements: map<nat, Settlement>, now: int)
    ensures TouchedAll(settlements, [], now) == settlements
  {
  }

  lemma PersistsIff(settlements: map<nat, Settlement>, rows: seq<Row>, confirm: bool)
    ensures Persists(settlements, Periods(rows), confirm) <==> confirm || Conflicting(settlements, Periods(rows)) == []
  {
  }

  lemma PeriodsListed(settlements: map<nat, Settlement>, rows: seq<Row>)
    requires OneCurrent(settlements)
    ensures Once(Locked(settlements, Periods(rows))) && Once(Conflicting(settlements, Periods(rows))) && Once([])
    ensures forall key :: key in Locked(settlements, Periods(rows)) <==> Names(rows, key) && HasCurrent(settlements, key, true)
    ensures forall key :: key in Conflicting(settlements, Periods(rows)) <==> Names(rows, key) && HasCurrent(settlements, key, false)
  {
    hide Periods, OneCurrent, Names, HasCurrent, Has, Locked, Conflicting;
    NamedPeriods(rows);
    PeriodsAre(rows);
    ClassifiedAre(settlements, Periods(rows));
    ClassifiedOnce(settlements, Periods(rows));
    forall key
      ensures Has(settlements, key, true) <==> HasCurrent(settlements, key, true)
      ensures Has(settlements, key, false) <==> HasCurrent(settlements, key, false)
      ensures !(Has(settlements, key, true) && Has(settlements, key, false))
    {
      HasIs(settlements, key);
    }
  }

  lemma NamedPeriods(rows: seq<Row>)
    ensures forall key :: key in Periods(rows) <==> Names(rows, key)
  {
    hide Periods;
    PeriodsAre(rows);
    forall key
      ensures LastRow(rows, key).Some? <==> Names(rows, key)
    {
      if LastRow(rows, key).Some? {
        var i :| 0 <= i < |rows| && KeyOf(rows[i]) == key;
      }
      if i :| 0 <= i < |rows| && rows[i].code == key.0 && rows[i].period == key.1 {
        assert KeyOf(rows[i]) == key;
      }
    }
  }

  lemma HasIs(settlements: map<nat, Settlement>, key: Period)
    requires OneCurrent(settlements)
    ensures forall final :: Has(settlements, key, final) <==> HasCurrent(settlements, key, final)
    ensures !(Has(settlements, key, true) && Has(settlements, key, false))
  {
    forall final
      ensures Has(settlements, key, final) <==> HasCurrent(settlements, key, final)
    {
      if id :| id in settlements && Current(settlements[id]) && PeriodOf(settlements[id]) == key && (settlements[id].status == EN_FIRME) == final {
        assert CurrentOf(settlements[id], key, final);
      }
      if id :| id in settlements && CurrentOf(settlements[id], key, final) {
        assert PeriodOf(settlements[id]) == key;
      }
    }
  }

  lemma ConflictedIff(settlements: map<nat, Settlement>, rows: seq<Row>)
    requires OneCurrent(settlements)
    ensures Conflicted(settlements, rows) <==> Conflicting(settlements, Periods(rows)) != []
  {
    hide Periods, OneCurrent, Names, HasCurrent, Has;
    var conflicts := Conflicting(settlements, Periods(rows));
    ClassifiedAre(settlements, Periods(rows));
    NamedPeriods(rows);
    if conflicts != [] {
      assert conflicts[0] in conflicts;
      HasIs(settlements, conflicts[0]);
    }
    if key :| Names(rows, key) && HasCurrent(settlements, key, false) {
      HasIs(settlements, key);
      assert key in conflicts;
    }
  }

  lemma {:induction false} ClassifiedOnce(settlements: map<nat, Settlement>, keys: seq<Period>)
    requires Once(keys)
    ensures Once(Locked(settlements, keys)) && Once(Conflicting(settlements, keys))
  {
    hide Has;
    if keys != [] {
      var front := keys[..|keys| - 1];
      ClassifiedOnce(settlements, front);
      ClassifiedAre(settlements, front);
    }
  }

  lemma AddedCount(settlements: map<nat, Settlement>, nextId: nat, rows: seq<Row>, confirm: bool, now: int)
    requires IdsBelow(settlements, nextId) && Persists(settlements, Periods(rows), confirm)
    ensures |ImportedSettlements(settlements, nextId, rows, confirm, now).Keys - settlements.Keys| == |Open(settlements, Periods(rows))|
  {
    hide Periods, Open, ImportedSettlements, Persists;
    ImportedIs(settlements, nextId, rows, confirm, now);
    var n := |Open(settlements, Periods(rows))|;
    var added := IdRange(nextId, n);
    assert ImportedSettlements(settlements, nextId, rows, confirm, now).Keys - settlements.Keys == added;
  }

  function IdRange(first: nat, n: nat): (ids: set<nat>)
    ensures (forall id: nat :: id in ids <==> first <= id < first + n) && |ids| == n
  {
    if n == 0 then {} else IdRange(first, n - 1) + {first + n - 1}
  }

  // A refused load counts the properties of other municipalities the file names.
  lemma MismatchIs(db: Registry, municipality: nat, rows: seq<Row>, confirm: bool, now: int)
    requires Import(db, municipality, rows, confirm, now).1.WrongMunicipality?
    ensures Import(db, municipality, rows, confirm, now).1.mismatched
         == |set row | row in rows && row.code in db.properties && db.properties[row.code].municipality != municipality :: row.code|
  {
    hide ImportedSettlements, Periods, Properties, Owners, Links, Open, Locked, Conflicting;
    assert Foreign(db.properties, rows, municipality)
        == set row | row in rows && row.code in db.properties && db.properties[row.code].municipality != municipality :: row.code;
  }
}
