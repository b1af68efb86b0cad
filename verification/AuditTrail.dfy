/** The status events explain every status: each starts where the one before it ended, but for the
    unrecorded sweep from VIGENTE to EN_FIRME, and each records a real change. */
module AuditTrail {
  import opened Numbering
  import opened Settlements
  import opened TaxRoll
  import opened TaxRollImport
  import opened Lifecycle
  import opened SettlementRuns

  // The status the events left a settlement in.
  function LastTo(events: seq<StatusEvent>, id: nat): Status {
    if events == [] then VIGENTE
    else if events[|events| - 1].settlement == id then events[|events| - 1].to
    else LastTo(events[..|events| - 1], id)
  }

  predicate Explains(last: Status, status: Status) {
    status == last || (last == VIGENTE && status == EN_FIRME)
  }

  // Each event records a change, from a status its predecessors explain.
  predicate Chained(events: seq<StatusEvent>) {
    events == []
    || var n := |events| - 1;
       && Chained(events[..n])
       && events[n].from != events[n].to
       && Explains(LastTo(events[..n], events[n].settlement), events[n].from)
  }

  ghost predicate Audited(db: Registry) {
    && Chained(db.events)
    && (forall id :: id in db.settlements ==> Explains(LastTo(db.events, id), db.settlements[id].status))
    && (forall id: nat :: id !in db.settlements ==> LastTo(db.events, id) == VIGENTE)
  }

  lemma LastOfOneMore(events: seq<StatusEvent>, e: StatusEvent, id: nat)
    ensures LastTo(events + [e], id) == if e.settlement == id then e.to else LastTo(events, id)
    ensures Chained(events + [e])
       <==> Chained(events) && e.from != e.to && Explains(LastTo(events, e.settlement), e.from)
  {
    assert (events + [e])[..|events|] == events;
  }

  lemma WithStatusAudited(db: Registry, id: nat, to: Status, administrator: nat)
    requires Audited(db) && id in db.settlements && db.settlements[id].status != to
    ensures Audited(WithStatus(db, id, to, MANUAL, administrator))
  {
    hide LastTo, Chained;
    var e := StatusEvent(id, db.settlements[id].status, to, MANUAL, administrator);
    var after := WithStatus(db, id, to, MANUAL, administrator);
    LastOfOneMore(db.events, e, id);
    forall i: nat
      ensures LastTo(after.events, i) == if i == id then to else LastTo(db.events, i)
    {
      LastOfOneMore(db.events, e, i);
    }
  }

  // The events of a batch, each about a settlement of its own.
  lemma {:induction false} BatchEvents(events: seq<StatusEvent>, applied: seq<Accepted>, administrator: nat, id: nat)
    requires Chained(events)
    requires Separate(applied)
    requires forall i :: 0 <= i < |applied| ==> applied[i].from != applied[i].to && Explains(LastTo(events, applied[i].settlement), applied[i].from)
    ensures Chained(events + EventsOf(applied, administrator))
    ensures (forall i :: 0 <= i < |applied| ==> applied[i].settlement != id) ==> LastTo(events + EventsOf(applied, administrator), id) == LastTo(events, id)
    ensures forall i :: 0 <= i < |applied| && applied[i].settlement == id ==> LastTo(events + EventsOf(applied, administrator), id) == applied[i].to
  {
    hide LastTo, Chained, Explains;
    if applied == [] {
      assert events + EventsOf(applied, administrator) == events;
    } else {
      var n := |applied| - 1;
      var front := EventsOf(applied[..n], administrator);
      var e := StatusEvent(applied[n].settlement, applied[n].from, applied[n].to, ASSISTANT, administrator);
      assert events + EventsOf(applied, administrator) == (events + front) + [e];
      BatchEvents(events, applied[..n], administrator, id);
      BatchEvents(events, applied[..n], administrator, e.settlement);
      LastOfOneMore(events + front, e, id);
    }
  }

  lemma BatchKeepsAudit(db: Registry, e: Event)
    requires e.Batch? && Audited(db)
    ensures Audited(Exec(db, e))
  {
    hide LastTo, Chained, Explains, Agreed, WellAsked;
    BatchIsAllOrNothing(db, e.municipality, e.administrator, e.changes, e.now);
    var (after, reply) := Confirm(db, e.municipality, e.administrator, e.changes, e.now);
    if reply.Applied? {
      var applied := reply.applied;
      forall i | 0 <= i < |applied|
        ensures applied[i].settlement in db.settlements && applied[i].from == db.settlements[applied[i].settlement].status
        ensures applied[i].from != applied[i].to && after.settlements[applied[i].settlement].status == applied[i].to
      {
        assert applied[i] in applied;
      }
      forall id | id in db.settlements && forall i :: 0 <= i < |applied| ==> applied[i].settlement != id
        ensures after.settlements[id].status == db.settlements[id].status
      {
        UntouchedByBatch(db, e, id);
      }
      BatchAudited(db, after, applied, e.administrator);
    }
  }

  lemma UntouchedByBatch(db: Registry, e: Event, id: nat)
    requires e.Batch? && id in db.settlements
    ensures var (after, reply) := Confirm(db, e.municipality, e.administrator, e.changes, e.now);
            (reply.Applied? && forall i :: 0 <= i < |reply.applied| ==> reply.applied[i].settlement != id)
            ==> (id in after.settlements && after.settlements[id].status == db.settlements[id].status)
  {
    hide Agreed, WellAsked, Confirm;
    BatchIsAllOrNothing(db, e.municipality, e.administrator, e.changes, e.now);
    var (after, reply) := Confirm(db, e.municipality, e.administrator, e.changes, e.now);
    if reply.Applied? && exists i :: 0 <= i < |e.changes| && e.changes[i].settlement == id {
      var i :| 0 <= i < |e.changes| && e.changes[i].settlement == id;
      var a := Wanted(db, e.changes[i]);
      if a.from != a.to {
        assert Asks(db, e.changes, i, a);
        assert a in reply.applied;
      }
    }
  }

  lemma BatchAudited(db: Registry, after: Registry, applied: seq<Accepted>, administrator: nat)
    requires Audited(db) && after.settlements.Keys == db.settlements.Keys && after.events == db.events + EventsOf(applied, administrator)
    requires Separate(applied)
    requires forall i :: 0 <= i < |applied| ==>
               && applied[i].settlement in db.settlements && applied[i].from == db.settlements[applied[i].settlement].status
               && applied[i].from != applied[i].to && after.settlements[applied[i].settlement].status == applied[i].to
    requires forall id :: id in db.settlements && (forall i :: 0 <= i < |applied| ==> applied[i].settlement != id)
               ==> after.settlements[id].status == db.settlements[id].status
    ensures Audited(after)
  {
    hide LastTo, Chained;
    forall id: nat
      ensures id in db.settlements ==> Explains(LastTo(after.events, id), after.settlements[id].status)
      ensures id !in db.settlements ==> LastTo(after.events, id) == VIGENTE
    {
      BatchEvents(db.events, applied, administrator, id);
    }
    BatchEvents(db.events, applied, administrator, 0);
  }

  lemma SilentKeepsAudit(db: Registry, e: Event)
    requires Valid(db) && Audited(db) && (e.Load? || e.Sweep? || e.Resolve? || e.IssueOrder?)
    ensures Audited(Exec(db, e))
  {
    hide LastTo, Chained, Exec, Valid;
    var after := Exec(db, e);
    SilentEvents(db, e);
    forall id | id in after.settlements
      ensures Explains(LastTo(after.events, id), after.settlements[id].status)
    {
      if id in db.settlements {
        ExecEvolves(db, e, id);
        SilentStatus(db, e, id);
      } else {
        NewAreVigente(db, e, id);
      }
    }
    forall id: nat | id !in after.settlements
      ensures LastTo(after.events, id) == VIGENTE
    {
      if id in db.settlements {
        ExecEvolves(db, e, id);
        assert false;
      }
    }
  }

  lemma SilentEvents(db: Registry, e: Event)
    requires e.Load? || e.Sweep? || e.Resolve? || e.IssueOrder?
    ensures Exec(db, e).events == db.events
  {
  }

  lemma SilentStatus(db: Registry, e: Event, id: nat)
    requires Valid(db) && id in db.settlements && (e.Load? || e.Sweep? || e.Resolve? || e.IssueOrder?)
    ensures id in Exec(db, e).settlements
    ensures var before, after := db.settlements[id].status, Exec(db, e).settlements[id].status;
            after == before || (before == VIGENTE && after == EN_FIRME)
  {
    hide OneCurrent, ImportedSettlements, Periods, Properties, Owners, Links, Open, Locked, Conflicting;
    if e.Load? {
      LoadedSettlements(db, e);
      ImportKeepsHistory(db.settlements, db.nextId, e.rows, e.confirm, e.now, id);
    }
  }

  // Over every run the events explain every status.
  lemma {:induction false} RunKeepsAudit(db: Registry, events: seq<Event>)
    requires Valid(db) && Audited(db)
    ensures Audited(Run(db, events))
  {
    hide Valid, Audited;
    if events != [] {
      var n := |events| - 1;
      var mid, e := Run(db, events[..n]), events[n];
      RunKeepsAudit(db, events[..n]);
      RunKeepsValid(db, events[..n]);
      match e
      case Batch(_, _, _, _) => BatchKeepsAudit(mid, e);
      case PanelChange(municipality, administrator, id, target, now) =>
        PanelKeepsAudit(mid, e);
      case _ => SilentKeepsAudit(mid, e);
    }
  }

  lemma PanelKeepsAudit(db: Registry, e: Event)
    requires e.PanelChange? && Audited(db)
    ensures Audited(Exec(db, e))
  {
    hide Audited, AllowedStatuses;
    if Found(db, e.municipality, e.id) && e.target != db.settlements[e.id].status {
      WithStatusAudited(db, e.id, e.target, e.administrator);
    }
  }
}
