/** The tables a tax roll load writes, and the load itself, step by step. */
module TaxRollStore {
  import opened Numbering
  import opened Settlements
  import opened TaxRoll
  import opened TaxRollImport

  // The file by property, owner and period, each in order of first appearance, the last row kept.
  datatype File = File(
    codes: seq<string>,
    byCode: map<string, Row>,
    taxIds: seq<string>,
    byTaxId: map<string, Row>,
    keys: seq<Period>,
    byPeriod: map<Period, Row>)

  ghost predicate ByCode(codes: seq<string>, byCode: map<string, Row>, rows: seq<Row>) {
    && (forall code :: code in codes <==> code in byCode)
    && (forall i, k :: 0 <= i < k < |codes| ==> codes[i] != codes[k])
    && (forall code :: code in byCode <==> code in Codes(rows))
    && (forall code :: code in byCode ==> PropertyRow(rows, code) == Some(byCode[code]))
  }

  ghost predicate ByTaxId(taxIds: seq<string>, byTaxId: map<string, Row>, rows: seq<Row>) {
    && (forall taxId :: taxId in taxIds <==> taxId in byTaxId)
    && (forall i, k :: 0 <= i < k < |taxIds| ==> taxIds[i] != taxIds[k])
    && (forall taxId :: taxId in byTaxId <==> taxId in TaxIds(rows))
    && (forall taxId :: taxId in byTaxId ==> OwnerRow(rows, taxId) == Some(byTaxId[taxId]))
  }

  ghost predicate ByPeriod(keys: seq<Period>, byPeriod: map<Period, Row>, rows: seq<Row>) {
    && keys == Periods(rows)
    && (forall key :: key in byPeriod <==> key in keys)
    && (forall key :: key in byPeriod ==> LastRow(rows, key) == Some(byPeriod[key]))
  }

  ghost predicate Collected(file: File, rows: seq<Row>) {
    && ByCode(file.codes, file.byCode, rows)
    && ByTaxId(file.taxIds, file.byTaxId, rows)
    && ByPeriod(file.keys, file.byPeriod, rows)
  }

  method Collect(rows: seq<Row>) returns (file: File)
    ensures Collected(file, rows)
  {
    hide ByCode, ByTaxId, ByPeriod, Fill;
    var codes: seq<string>, taxIds: seq<string>, keys: seq<Period> := [], [], [];
    var byCode: map<string, Row>, byTaxId: map<string, Row>, byPeriod: map<Period, Row> := map[], map[], map[];
    NothingCollected();
    for n := 0 to |rows|
      invariant ByCode(codes, byCode, rows[..n]) && ByTaxId(taxIds, byTaxId, rows[..n]) && ByPeriod(keys, byPeriod, rows[..n])
    {
      var row := rows[n];
      OneMoreCode(codes, byCode, rows[..n], row);
      OneMoreTaxId(taxIds, byTaxId, rows[..n], row);
      OneMorePeriod(keys, byPeriod, rows[..n], row);
      assert rows[..n + 1] == rows[..n] + [row];
      if row.code in byCode {
        byCode := byCode[row.code := row.(extras := Fill(row.extras, byCode[row.code].extras))];
      } else {
        codes, byCode := codes + [row.code], byCode[row.code := row];
      }
      if row.taxId !in byTaxId {
        taxIds := taxIds + [row.taxId];
      }
      byTaxId := byTaxId[row.taxId := row];
      if KeyOf(row) !in byPeriod {
        keys := keys + [KeyOf(row)];
      }
      byPeriod := byPeriod[KeyOf(row) := row];
    }
    assert rows[..|rows|] == rows;
    file := File(codes, byCode, taxIds, byTaxId, keys, byPeriod);
  }

  lemma NothingCollected()
    ensures ByCode([], map[], []) && ByTaxId([], map[], []) && ByPeriod([], map[], [])
  {
  }

  lemma OneMoreCode(codes: seq<string>, byCode: map<string, Row>, rows: seq<Row>, row: Row)
    requires ByCode(codes, byCode, rows)
    ensures if row.code in byCode
            then ByCode(codes, byCode[row.code := row.(extras := Fill(row.extras, byCode[row.code].extras))], rows + [row])
            else ByCode(codes + [row.code], byCode[row.code := row], rows + [row])
  {
    hide Fill, PropertyRow, Codes;
    CodesOfOneMore(rows, row);
    forall code {
      PropertyRowNext(rows, row, code);
    }
  }

  lemma PropertyRowNext(rows: seq<Row>, row: Row, code: string)
    ensures PropertyRow(rows + [row], code)
         == (if row.code != code then PropertyRow(rows, code)
             else if PropertyRow(rows, code).None? then Some(row)
             else Some(row.(extras := Fill(row.extras, PropertyRow(rows, code).value.extras))))
  {
    hide Fill;
    var all := rows + [row];
    assert all[..|all| - 1] == rows && all[|all| - 1] == row;
  }

  lemma OneMoreTaxId(taxIds: seq<string>, byTaxId: map<string, Row>, rows: seq<Row>, row: Row)
    requires ByTaxId(taxIds, byTaxId, rows)
    ensures ByTaxId(if row.taxId in byTaxId then taxIds else taxIds + [row.taxId], byTaxId[row.taxId := row], rows + [row])
  {
    var all := rows + [row];
    assert all[..|all| - 1] == rows && all[|all| - 1] == row;
    CodesOfOneMore(rows, row);
  }

  lemma OneMorePeriod(keys: seq<Period>, byPeriod: map<Period, Row>, rows: seq<Row>, row: Row)
    requires ByPeriod(keys, byPeriod, rows)
    ensures ByPeriod(if KeyOf(row) in byPeriod then keys else keys + [KeyOf(row)], byPeriod[KeyOf(row) := row], rows + [row])
  {
    var all := rows + [row];
    assert all[..|all| - 1] == rows && all[|all| - 1] == row;
  }

  lemma CodesOfOneMore(rows: seq<Row>, row: Row)
    ensures Codes(rows + [row]) == Codes(rows) + {row.code}
    ensures TaxIds(rows + [row]) == TaxIds(rows) + {row.taxId}
  {
    forall r | r in rows
      ensures r in rows + [row]
    {
    }
    assert row in rows + [row];
  }

  class Store {
    var properties: map<string, Property>
    var owners: map<(nat, string), Owner>
    var links: set<(string, string)>
    var settlements: map<nat, Settlement>
    var nextId: nat
    var events: seq<StatusEvent>

    ghost function Tables(): Registry
      reads this
    {
      Registry(properties, owners, links, settlements, nextId, events)
    }

    constructor ()
      ensures Tables() == Registry(map[], map[], {}, map[], 0, []) && Valid(Tables())
    {
      properties, owners, links, settlements, nextId, events := map[], map[], {}, map[], 0, [];
    }

    // One upsert per property.
    method UpsertProperties(municipality: nat, codes: seq<string>, byCode: map<string, Row>, ghost rows: seq<Row>)
      requires ByCode(codes, byCode, rows)
      modifies this`properties
      ensures properties == Properties(old(properties), rows, municipality)
    {
      hide PropertyRow, UpsertedProperty;
      for i := 0 to |codes|
        invariant forall code :: code in properties <==> code in old(properties) || code in codes[..i]
        invariant forall code :: code in properties ==>
                    properties[code] == if code in codes[..i] then UpsertedProperty(Get(old(properties), code), byCode[code], municipality)
                                        else old(properties)[code]
      {
        var code := codes[i];
        assert codes[..i + 1] == codes[..i] + [code];
        assert code !in codes[..i];
        properties := properties[code := UpsertedProperty(Get(properties, code), byCode[code], municipality)];
      }
      assert codes[..|codes|] == codes;
    }

    method UpsertOwners(municipality: nat, taxIds: seq<string>, byTaxId: map<string, Row>, ghost rows: seq<Row>)
      requires ByTaxId(taxIds, byTaxId, rows)
      modifies this`owners
      ensures owners == Owners(old(owners), rows, municipality)
    {
      hide OwnerRow, UpsertedOwner;
      for i := 0 to |taxIds|
        invariant forall key :: key in owners <==> key in old(owners) || (key.0 == municipality && key.1 in taxIds[..i])
        invariant forall key :: key in owners ==>
                    owners[key] == if key.0 == municipality && key.1 in taxIds[..i]
                                   then UpsertedOwner(Get(old(owners), key), byTaxId[key.1]) else old(owners)[key]
      {
        var taxId := taxIds[i];
        assert taxIds[..i + 1] == taxIds[..i] + [taxId];
        assert taxId !in taxIds[..i];
        owners := owners[(municipality, taxId) := UpsertedOwner(Get(owners, (municipality, taxId)), byTaxId[taxId])];
      }
      assert taxIds[..|taxIds|] == taxIds;
    }

    method LinkOwners(codes: seq<string>, byCode: map<string, Row>, ghost rows: seq<Row>)
      requires ByCode(codes, byCode, rows)
      modifies this`links
      ensures links == Links(old(links), rows)
    {
      hide PropertyRow;
      for i := 0 to |codes|
        invariant links == old(links) + set code | code in codes[..i] :: (code, byCode[code].taxId)
      {
        assert codes[..i + 1] == codes[..i] + [codes[i]];
        links := links + {(codes[i], byCode[codes[i]].taxId)};
      }
      assert codes[..|codes|] == codes;
    }

    // The current settlements of the file's properties, by period.
    method CurrentByPeriod(codes: seq<string>) returns (current: map<Period, nat>)
      requires OneCurrent(settlements) && IdsBelow(settlements, nextId)
      ensures forall key :: key in current ==>
                current[key] in settlements && Current(settlements[current[key]]) && PeriodOf(settlements[current[key]]) == key
      ensures forall id :: id in settlements && Current(settlements[id]) && settlements[id].property in codes
                ==> PeriodOf(settlements[id]) in current && current[PeriodOf(settlements[id])] == id
    {
      current := map[];
      for id := 0 to nextId
        invariant forall key :: key in current ==>
                    current[key] in settlements && Current(settlements[current[key]]) && PeriodOf(settlements[current[key]]) == key
        invariant forall i :: i in settlements && i < id && Current(settlements[i]) && settlements[i].property in codes
                    ==> PeriodOf(settlements[i]) in current && current[PeriodOf(settlements[i])] == i
      {
        if id in settlements && Current(settlements[id]) && settlements[id].property in codes {
          current := current[PeriodOf(settlements[id]) := id];
        }
      }
    }

    // Final rows are locked, current ones conflict, the others are new.
    method Classify(keys: seq<Period>, codes: seq<string>, current: map<Period, nat>)
      returns (locked: seq<Period>, conflicting: seq<Period>, open: seq<Period>, toSupersede: set<nat>)
      requires OneCurrent(settlements) && forall key :: key in keys ==> key.0 in codes
      requires forall key :: key in current ==>
                current[key] in settlements && Current(settlements[current[key]]) && PeriodOf(settlements[current[key]]) == key
      requires forall id :: id in settlements && Current(settlements[id]) && settlements[id].property in codes
                ==> PeriodOf(settlements[id]) in current && current[PeriodOf(settlements[id])] == id
      ensures locked == Locked(settlements, keys) && conflicting == Conflicting(settlements, keys) && open == Open(settlements, keys)
      ensures forall id :: id in toSupersede
                <==> id in settlements && Current(settlements[id]) && PeriodOf(settlements[id]) in keys && settlements[id].status != EN_FIRME
    {
      hide Has, OneCurrent;
      locked, conflicting, open, toSupersede := [], [], [], {};
      for i := 0 to |keys|
        invariant locked == Locked(settlements, keys[..i]) && conflicting == Conflicting(settlements, keys[..i])
        invariant open == Open(settlements, keys[..i])
        invariant forall id :: id in toSupersede
                    <==> id in settlements && Current(settlements[id]) && PeriodOf(settlements[id]) in keys[..i] && settlements[id].status != EN_FIRME
      {
        var key := keys[i];
        assert keys[..i + 1] == keys[..i] + [key];
        WhatStands(settlements, codes, current, key);
        if key in current && settlements[current[key]].status == EN_FIRME {
          locked := locked + [key];
        } else {
          open := open + [key];
          if key in current {
            conflicting := conflicting + [key];
            toSupersede := toSupersede + {current[key]};
          }
        }
      }
      assert keys[..|keys|] == keys;
    }

    // The current settlements not yet marked whose property comes without their period.
    method FindMissing(keys: seq<Period>) returns (missing: set<nat>)
      requires IdsBelow(settlements, nextId)
      ensures forall id :: id in missing
                <==> && id in settlements && Current(settlements[id]) && settlements[id].missingSince.None?
                     && PeriodOf(settlements[id]) !in keys && exists key :: key in keys && key.0 == settlements[id].property
    {
      var incoming := set key | key in keys :: key.0;
      missing := {};
      for id := 0 to nextId
        invariant forall i :: i in missing
                    <==> && i in settlements && i < id && Current(settlements[i]) && settlements[i].missingSince.None?
                         && PeriodOf(settlements[i]) !in keys && exists key :: key in keys && key.0 == settlements[i].property
      {
        if id in settlements && Current(settlements[id]) && settlements[id].missingSince.None?
           && settlements[id].property in incoming && PeriodOf(settlements[id]) !in keys {
          missing := missing + {id};
        }
      }
    }

    // Two updates over the settlements that were there.
    method SupersedeAndMark(toSupersede: set<nat>, missing: set<nat>, ghost keys: seq<Period>, now: int)
      requires forall id :: id in toSupersede
                <==> id in settlements && Current(settlements[id]) && PeriodOf(settlements[id]) in keys && settlements[id].status != EN_FIRME
      requires forall id :: id in missing
                <==> && id in settlements && Current(settlements[id]) && settlements[id].missingSince.None?
                     && PeriodOf(settlements[id]) !in keys && exists key :: key in keys && key.0 == settlements[id].property
      modifies this`settlements
      ensures settlements == TouchedAll(old(settlements), keys, now)
    {
      settlements := map id | id in settlements :: if id in toSupersede then settlements[id].(replacedAt := Some(now)) else settlements[id];
      settlements := map id | id in settlements :: if id in missing then settlements[id].(missingSince := Some(now)) else settlements[id];
    }

    // The new settlements, one id after the other.
    method InsertSettlements(open: seq<Period>, byPeriod: map<Period, Row>, ghost keys: seq<Period>, ghost rows: seq<Row>)
      requires ByPeriod(keys, byPeriod, rows) && forall key :: key in open ==> key in keys
      modifies this`settlements, this`nextId
      ensures settlements == Created(old(settlements), open, rows, old(nextId)) && nextId == old(nextId) + |open|
    {
      hide LastRow, Periods, NewSettlement;
      for i := 0 to |open|
        invariant settlements == Created(old(settlements), open[..i], rows, old(nextId)) && nextId == old(nextId) + i
      {
        assert open[..i + 1][..i] == open[..i];
        assert open[i] in open;
        settlements := settlements[nextId := NewSettlement(byPeriod[open[i]])];
        nextId := nextId + 1;
      }
      assert open[..|open|] == open;
    }

    // The whole load, one transaction.
    method PersistTaxRoll(municipality: nat, rows: seq<Row>, confirm: bool, now: int) returns (outcome: Outcome)
      requires Valid(Tables())
      modifies this
      ensures (Tables(), outcome) == Import(old(Tables()), municipality, rows, confirm, now)
    {
      hide Collected, Properties, Owners, Links, Periods, Locked, Conflicting, Open, Created, TouchedAll, OneCurrent, IdsBelow;
      if rows == [] {
        return Loaded(Report(0, [], []));
      }
      var file := Collect(rows);
      CollectedIs(file, rows);
      var foreign := set code | code in file.byCode && code in properties && properties[code].municipality != municipality;
      assert foreign == Foreign(properties, rows, municipality);
      if foreign != {} {
        return WrongMunicipality(|foreign|);
      }
      UpsertProperties(municipality, file.codes, file.byCode, rows);
      UpsertOwners(municipality, file.taxIds, file.byTaxId, rows);
      LinkOwners(file.codes, file.byCode, rows);
      var current := CurrentByPeriod(file.codes);
      var locked, conflicting, open, toSupersede := Classify(file.keys, file.codes, current);
      if confirm || conflicting == [] {
        var missing := FindMissing(file.keys);
        ClassifiedAre(settlements, file.keys);
        SupersedeAndMark(toSupersede, missing, file.keys, now);
        InsertSettlements(open, file.byPeriod, file.keys, rows);
        outcome := Loaded(Report(|open|, [], locked));
      } else {
        outcome := Loaded(Report(0, conflicting, locked));
      }
    }
  }

  lemma CollectedIs(file: File, rows: seq<Row>)
    requires Collected(file, rows)
    ensures file.byCode.Keys == Codes(rows) && file.keys == Periods(rows)
    ensures ByCode(file.codes, file.byCode, rows) && ByTaxId(file.taxIds, file.byTaxId, rows) && ByPeriod(file.keys, file.byPeriod, rows)
    ensures forall key :: key in file.keys ==> key.0 in file.codes
  {
    PeriodsAre(rows);
  }

  // What the lookup of one period tells about the table.
  lemma WhatStands(settlements: map<nat, Settlement>, codes: seq<string>, current: map<Period, nat>, key: Period)
    requires OneCurrent(settlements) && key.0 in codes
    requires forall k :: k in current ==>
              current[k] in settlements && Current(settlements[current[k]]) && PeriodOf(settlements[current[k]]) == k
    requires forall id :: id in settlements && Current(settlements[id]) && settlements[id].property in codes
              ==> PeriodOf(settlements[id]) in current && current[PeriodOf(settlements[id])] == id
    ensures Has(settlements, key, true) <==> key in current && settlements[current[key]].status == EN_FIRME
    ensures Has(settlements, key, false) <==> key in current && settlements[current[key]].status != EN_FIRME
    ensures forall id :: id in settlements && Current(settlements[id]) && PeriodOf(settlements[id]) == key ==> key in current && current[key] == id
  {
  }
}
