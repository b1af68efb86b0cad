/** Settlements over whole runs: loads, sweeps, panel changes, assistant batches, new resolutions and
    payment orders, in any order under a clock that does not go back. */
module SettlementRuns {
  import opened Numbering
  import opened Settlements
  import opened TaxRoll
  import opened TaxRollImport
  import opened Lifecycle

  datatype Event =
    | Load(municipality: nat, rows: seq<Row>, confirm: bool, now: int)
    | Sweep(now: int)
    | PanelChange(municipality: nat, administrator: nat, id: nat, target: Status, now: int)
    | Batch(municipality: nat, administrator: nat, changes: seq<Change>, now: int)
    | Resolve(id: nat, now: int)
    | IssueOrder(id: nat, order: PaymentOrder, now: int)

  // A resolution or payment order is linked to a settlement that has none, and stays.
  function Exec(db: Registry, e: Event): Registry {
    match e
    case Load(municipality, rows, confirm, now) => Import(db, municipality, rows, confirm, now).0
    case Sweep(now) => MarkEnFirme(db, now)
    case PanelChange(municipality, administrator, id, target, now) => ChangeStatus(db, municipality, administrator, id, target, now).0
    case Batch(municipality, administrator, changes, now) => Confirm(db, municipality, administrator, changes, now).0
    case Resolve(id, now) =>
      if id in db.settlements && db.settlements[id].resolvedAt.None?
      then db.(settlements := db.settlements[id := db.settlements[id].(resolvedAt := Some(now))]) else db
    case IssueOrder(id, order, now) =>
      if id in db.settlements && db.settlements[id].paymentOrder.None?
      then db.(settlements := db.settlements[id := db.settlements[id].(paymentOrder := Some(order))]) else db
  }

  function Run(db: Registry, events: seq<Event>): Registry {
    if events == [] then db else Exec(Run(db, events[..|events| - 1]), events[|events| - 1])
  }

  predicate ClockFrom(events: seq<Event>, start: int) {
    && (forall i :: 0 <= i < |events| ==> start <= events[i].now)
    && (forall i, k :: 0 <= i < k < |events| ==> events[i].now <= events[k].now)
  }

  // ---------- what one event may do to a settlement ----------

  // The whole of what any event does to a settlement that is there.
  predicate Evolves(before: Settlement, after: Settlement, now: int) {
    && after == before.(status := after.status, resolvedAt := after.resolvedAt, paymentOrder := after.paymentOrder,
                        replacedAt := after.replacedAt, missingSince := after.missingSince)
    && (before.resolvedAt.Some? ==> after.resolvedAt == before.resolvedAt)
    && (before.paymentOrder.Some? ==> after.paymentOrder == before.paymentOrder)
    && (before.missingSince.Some? ==> after.missingSince == before.missingSince)
    && (!Current(before) ==> after.status == before.status && after.replacedAt == before.replacedAt && after.missingSince == before.missingSince)
    && (Current(before) && !Current(after) ==> before.status == after.status != EN_FIRME)
    && (after.status != before.status ==>
          && Current(before) && Current(after) && after.resolvedAt == before.resolvedAt
          && (after.status == VIGENTE ==> !Aged(before, now))
          && (after.status == EN_FIRME ==> Aged(before, now))
          && (after.status == PRESCRITA ==> after.paymentOrder == before.paymentOrder && Prescribable(before, now)))
  }

  lemma LoadEvolves(db: Registry, e: Event, id: nat)
    requires Valid(db) && e.Load? && id in db.settlements
    ensures id in Exec(db, e).settlements && Evolves(db.settlements[id], Exec(db, e).settlements[id], e.now)
  {
    hide Periods, OneCurrent, ImportedSettlements, Properties, Owners, Links, Open, Locked, Conflicting;
    ImportKeepsHistory(db.settlements, db.nextId, e.rows, e.confirm, e.now, id);
    if Persists(db.settlements, Periods(e.rows), e.confirm) {
      ImportedIs(db.settlements, db.nextId, e.rows, e.confirm, e.now);
      TouchedIs(db.settlements[id], Periods(e.rows), e.now);
    }
  }

  lemma AllowedEvolves(s: Settlement, target: Status, now: int)
    requires Current(s) && MayBecome(s, target, now)
    ensures Evolves(s, s.(status := target), now)
  {
  }

  lemma BatchEvolves(db: Registry, e: Event, id: nat)
    requires e.Batch? && id in db.settlements
    ensures id in Exec(db, e).settlements && Evolves(db.settlements[id], Exec(db, e).settlements[id], e.now)
  {
    hide Confirm, MayBecome, Evolves, Found, EventsOf, WellAsked;
    BatchIsAllOrNothing(db, e.municipality, e.administrator, e.changes, e.now);
    var (after, reply) := Confirm(db, e.municipality, e.administrator, e.changes, e.now);
    SameEvolves(db.settlements[id], e.now);
    if reply.Applied? && exists i :: 0 <= i < |e.changes| && e.changes[i].settlement == id {
      var i :| 0 <= i < |e.changes| && e.changes[i].settlement == id;
      assert Agreed(db, e.municipality, e.changes[i], e.now);
      AllowedEvolves(db.settlements[id], e.changes[i].to, e.now);
    }
  }

  lemma SameEvolves(s: Settlement, now: int)
    ensures Evolves(s, s, now)
  {
  }

  lemma ExecEvolves(db: Registry, e: Event, id: nat)
    requires Valid(db) && id in db.settlements
    ensures id in Exec(db, e).settlements && Evolves(db.settlements[id], Exec(db, e).settlements[id], e.now)
  {
    match e
    case Load(_, _, _, _) => LoadEvolves(db, e, id);
    case Batch(_, _, _, _) => BatchEvolves(db, e, id);
    case PanelChange(municipality, administrator, i, target, now) =>
      PanelEvolves(db, e, id);
    case Sweep(_) =>
    case Resolve(_, _) =>
    case IssueOrder(_, _, _) =>
  }

  lemma PanelEvolves(db: Registry, e: Event, id: nat)
    requires e.PanelChange? && id in db.settlements
    ensures id in Exec(db, e).settlements && Evolves(db.settlements[id], Exec(db, e).settlements[id], e.now)
  {
    hide MayBecome, Evolves, AllowedStatuses;
    SameEvolves(db.settlements[id], e.now);
    if id == e.id {
      OfferedMeansAllowed(db.settlements[id], e.now, e.target);
      if Current(db.settlements[id]) && MayBecome(db.settlements[id], e.target, e.now) {
        AllowedEvolves(db.settlements[id], e.target, e.now);
      }
    }
  }

  // ---------- the registry stays sound ----------

  // No event other than a load adds settlements, and none moves or revives one.
  lemma OthersKeepValid(db: Registry, e: Event)
    requires Valid(db) && !e.Load?
    ensures Valid(Exec(db, e)) && Exec(db, e).settlements.Keys == db.settlements.Keys
  {
    hide Evolves, Confirm, MayBecome, AllowedStatuses;
    OthersKeepIds(db, e);
    var after := Exec(db, e);
    forall id | id in after.settlements
      ensures PeriodOf(after.settlements[id]) == PeriodOf(db.settlements[id])
      ensures Current(after.settlements[id]) ==> Current(db.settlements[id])
    {
      ExecEvolves(db, e, id);
      EvolvesKeeps(db.settlements[id], after.settlements[id], e.now);
    }
  }

  lemma EvolvesKeeps(before: Settlement, after: Settlement, now: int)
    requires Evolves(before, after, now)
    ensures PeriodOf(after) == PeriodOf(before) && (Current(after) ==> Current(before))
  {
  }

  lemma OthersKeepIds(db: Registry, e: Event)
    requires !e.Load?
    ensures Exec(db, e).settlements.Keys == db.settlements.Keys && Exec(db, e).nextId == db.nextId
  {
    hide SetAll, Effective, AcceptedOf, RejectedOf, EventsOf, AllowedStatuses;
    match e
    case Batch(municipality, administrator, changes, now) =>
      BatchIsAllOrNothing(db, municipality, administrator, changes, now);
      assert Confirm(db, municipality, administrator, changes, now).0.settlements.Keys == db.settlements.Keys;
    case Sweep(now) =>
      assert MarkEnFirme(db, now).settlements.Keys == db.settlements.Keys;
    case PanelChange(_, _, _, _, _) =>
    case Resolve(id, now) =>
      assert id in db.settlements ==> db.settlements.Keys + {id} == db.settlements.Keys;
    case IssueOrder(id, order, now) =>
      assert id in db.settlements ==> db.settlements.Keys + {id} == db.settlements.Keys;
  }

  lemma LoadKeepsValid(db: Registry, e: Event)
    requires Valid(db) && e.Load?
    ensures Valid(Exec(db, e))
  {
    hide OneCurrent, ImportedSettlements, Periods, Open, Properties, Owners, Links, Locked, Conflicting, LastRow;
    ImportKeepsOneCurrent(db.settlements, db.nextId, e.rows, e.confirm, e.now);
    if Persists(db.settlements, Periods(e.rows), e.confirm) {
      ImportedIs(db.settlements, db.nextId, e.rows, e.confirm, e.now);
    } else {
      UnconfirmedConflictWritesNothing(db.settlements, db.nextId, e.rows, e.confirm, e.now);
    }
  }

  lemma {:induction false} RunKeepsValid(db: Registry, events: seq<Event>)
    requires Valid(db)
    ensures Valid(Run(db, events))
  {
    hide Exec, Valid;
    if events != [] {
      var n := |events| - 1;
      RunKeepsValid(db, events[..n]);
      if events[n].Load? {
        LoadKeepsValid(Run(db, events[..n]), events[n]);
      } else {
        OthersKeepValid(Run(db, events[..n]), events[n]);
      }
    }
  }

  // ---------- finality ----------

  // Every final settlement has a resolution of the required age: the sweep and the rules see to it.
  ghost predicate FinalAreAged(db: Registry, now: int) {
    forall id :: id in db.settlements && db.settlements[id].status == EN_FIRME ==> Aged(db.settlements[id], now)
  }

  // A settlement that cannot go back: its resolution is old enough and it is not VIGENTE.
  predicate BeyondReturn(s: Settlement, now: int) {
    Aged(s, now) && s.status != VIGENTE
  }

  lemma EvolvesBeyondReturn(before: Settlement, after: Settlement, earlier: int, now: int)
    requires Evolves(before, after, now) && earlier <= now
    ensures BeyondReturn(before, earlier) ==> BeyondReturn(after, now)
    ensures (before.status == EN_FIRME ==> Aged(before, earlier)) ==> (after.status == EN_FIRME ==> Aged(after, now))
  {
  }

  lemma NewAreVigente(db: Registry, e: Event, id: nat)
    requires Valid(db) && id in Exec(db, e).settlements && id !in db.settlements
    ensures Exec(db, e).settlements[id].status == VIGENTE && Exec(db, e).settlements[id].missingSince.None?
    ensures Current(Exec(db, e).settlements[id])
  {
    hide OneCurrent, ImportedSettlements, Periods, Open, Properties, Owners, Links, Locked, Conflicting, LastRow, Touched, Exec;
    if e.Load? {
      LoadedSettlements(db, e);
      assert Persists(db.settlements, Periods(e.rows), e.confirm) by {
        UnconfirmedConflictWritesNothing(db.settlements, db.nextId, e.rows, e.confirm, e.now);
      }
      ImportedIs(db.settlements, db.nextId, e.rows, e.confirm, e.now);
      assert LastRow(e.rows, Open(db.settlements, Periods(e.rows))[id - db.nextId]).Some?;
    } else {
      OthersKeepIds(db, e);
    }
  }

  lemma LoadedSettlements(db: Registry, e: Event)
    requires e.Load?
    ensures Exec(db, e).settlements == db.settlements
         || Exec(db, e).settlements == ImportedSettlements(db.settlements, db.nextId, e.rows, e.confirm, e.now)
  {
  }

  lemma {:induction false} RunKeepsFinalAged(db: Registry, events: seq<Event>, start: int, now: int)
    requires Valid(db) && FinalAreAged(db, start) && ClockFrom(events, start)
    requires forall i :: 0 <= i < |events| ==> events[i].now <= now
    requires start <= now
    ensures FinalAreAged(Run(db, events), now)
  {
    hide Exec, Valid, Evolves;
    if events != [] {
      var n := |events| - 1;
      var e, mid := events[n], Run(db, events[..n]);
      RunKeepsFinalAged(db, events[..n], start, e.now);
      RunKeepsValid(db, events[..n]);
      var after := Exec(mid, e);
      forall id | id in after.settlements && after.settlements[id].status == EN_FIRME
        ensures Aged(after.settlements[id], now)
      {
        if id in mid.settlements {
          ExecEvolves(mid, e, id);
          EvolvesBeyondReturn(mid.settlements[id], after.settlements[id], e.now, e.now);
        } else {
          NewAreVigente(mid, e, id);
        }
      }
    }
  }

  lemma {:induction false} RunStaysBeyondReturn(db: Registry, events: seq<Event>, id: nat, start: int)
    requires Valid(db) && ClockFrom(events, start)
    requires id in db.settlements && BeyondReturn(db.settlements[id], start)
    ensures var after := Run(db, events);
            id in after.settlements && BeyondReturn(after.settlements[id], if events == [] then start else events[|events| - 1].now)
  {
    hide Exec, Valid, Evolves, BeyondReturn;
    if events != [] {
      var n := |events| - 1;
      RunStaysBeyondReturn(db, events[..n], id, start);
      RunKeepsValid(db, events[..n]);
      var mid := Run(db, events[..n]);
      ExecEvolves(mid, events[n], id);
      EvolvesBeyondReturn(mid.settlements[id], Exec(mid, events[n]).settlements[id],
                          if n == 0 then start else events[n - 1].now, events[n].now);
    }
  }

  lemma {:induction false} RunConcat(db: Registry, first: seq<Event>, second: seq<Event>)
    ensures Run(db, first + second) == Run(Run(db, first), second)
  {
    hide Exec;
    if second == [] {
      assert first + second == first;
    } else {
      var n := |second| - 1;
      assert (first + second)[..|first| + n] == first + second[..n];
      RunConcat(db, first, second[..n]);
    }
  }

  // Once final, never VIGENTE again: whatever sweeps, changes, batches and loads follow.
  lemma OnceFinalNeverVigente(db: Registry, first: seq<Event>, second: seq<Event>, id: nat, start: int)
    requires Valid(db) && FinalAreAged(db, start) && ClockFrom(first + second, start)
    requires id in Run(db, first).settlements && Run(db, first).settlements[id].status == EN_FIRME
    ensures id in Run(db, first + second).settlements && Run(db, first + second).settlements[id].status != VIGENTE
  {
    hide Run, Valid;
    var all := first + second;
    assert forall i :: 0 <= i < |first| ==> all[i] == first[i];
    assert forall i :: 0 <= i < |second| ==> all[|first| + i] == second[i];
    var reached := if first == [] then start else first[|first| - 1].now;
    assert ClockFrom(first, start);
    forall i | 0 <= i < |first|
      ensures first[i].now <= reached
    {
      assert i < |first| - 1 ==> all[i].now <= all[|first| - 1].now;
    }
    RunKeepsFinalAged(db, first, start, reached);
    RunKeepsValid(db, first);
    assert ClockFrom(second, reached) by {
      forall i | 0 <= i < |second|
        ensures reached <= second[i].now
      {
        assert first != [] ==> all[|first| - 1].now <= all[|first| + i].now;
        assert start <= all[|first| + i].now;
      }
    }
    RunStaysBeyondReturn(Run(db, first), second, id, reached);
    RunConcat(db, first, second);
  }

  // ---------- history ----------

  // A replaced settlement keeps its status, its replacement date and its mark forever.
  lemma {:induction false} ReplacedIsFrozen(db: Registry, events: seq<Event>, id: nat)
    requires Valid(db) && id in db.settlements && !Current(db.settlements[id])
    ensures var before, after := db.settlements[id], Run(db, events).settlements;
            && id in after
            && after[id] == before.(resolvedAt := after[id].resolvedAt, paymentOrder := after[id].paymentOrder)
  {
    hide Exec, Valid;
    if events != [] {
      var n := |events| - 1;
      ReplacedIsFrozen(db, events[..n], id);
      RunKeepsValid(db, events[..n]);
      ExecEvolves(Run(db, events[..n]), events[n], id);
    }
  }

  // A missing mark keeps its first date for as long as the settlement exists, which is forever.
  lemma {:induction false} MissingMarkKeepsItsDate(db: Registry, events: seq<Event>, id: nat)
    requires Valid(db) && id in db.settlements && db.settlements[id].missingSince.Some?
    ensures id in Run(db, events).settlements
    ensures Run(db, events).settlements[id].missingSince == db.settlements[id].missingSince
  {
    hide Exec, Valid;
    if events != [] {
      var n := |events| - 1;
      MissingMarkKeepsItsDate(db, events[..n], id);
      RunKeepsValid(db, events[..n]);
      ExecEvolves(Run(db, events[..n]), events[n], id);
    }
  }
}
