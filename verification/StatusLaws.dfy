/** Who may change a settlement's status and to what, said of the tables, days and dates: one change, a
    batch, the sweep, and every run. */
module StatusLaws {
  import opened Numbering
  import opened Settlements
  import opened TaxRoll
  import opened TaxRollImport
  import opened Lifecycle
  import opened SettlementRuns

  // The settlement of a property of this municipality.
  predicate Belongs(db: Registry, municipality: nat, id: int) {
    && id >= 0 && id in db.settlements && db.settlements[id].property in db.properties
    && db.properties[db.settlements[id].property].municipality == municipality
  }

  ghost predicate Offers(offered: seq<Status>, s: Settlement, now: int) {
    forall status :: status in offered <==> MayBecome(s, status, now)
  }

  // ---------- one change ----------

  // A change is answered by whose settlement it is, whether it was replaced, and what it may become.
  ghost predicate Judged(db: Registry, municipality: nat, administrator: nat, id: nat, target: Status, now: int, checked: Checked) {
    if !Belongs(db, municipality, id) then checked == Answered(NotFound)
    else
      var s := db.settlements[id];
      if s.replacedAt.Some? then checked == Answered(AlreadyReplaced)
      else if !MayBecome(s, target, now) then
        && checked.Answered? && checked.answer.TransitionNotAllowed?
        && checked.answer.from == s.status && Offers(checked.answer.allowed, s, now)
      else if target == s.status then
        checked.Answered? && checked.answer.Done? && checked.answer.status == target && Offers(checked.answer.allowed, s, now)
      else checked == Passed(Pass(id, s, target, administrator, now))
  }

  lemma CheckIsJudged(db: Registry, municipality: nat, administrator: nat, id: nat, target: Status, now: int)
    ensures Judged(db, municipality, administrator, id, target, now, CheckChange(db, municipality, administrator, id, target, now))
  {
    hide AllowedStatuses, MayBecome;
    if Belongs(db, municipality, id) {
      OffersAll(db.settlements[id], now);
    }
  }

  lemma OffersAll(s: Settlement, now: int)
    ensures Offers(AllowedStatuses(s, now), s, now)
  {
    hide AllowedStatuses, MayBecome;
    forall status
      ensures status in AllowedStatuses(s, now) <==> MayBecome(s, status, now)
    {
      OfferedMeansAllowed(s, now, status);
    }
  }

  // What a whole change does: nothing, or the status it asks for and one event if that is another one.
  ghost predicate ChangedRightly(before: Registry, municipality: nat, administrator: nat, id: nat, target: Status, now: int,
                                 after: Registry, answer: Answer) {
    if !Belongs(before, municipality, id) then answer == NotFound && after == before
    else
      var s := before.settlements[id];
      if s.replacedAt.Some? then answer == AlreadyReplaced && after == before
      else if !MayBecome(s, target, now) then
        answer.TransitionNotAllowed? && answer.from == s.status && Offers(answer.allowed, s, now) && after == before
      else
        && answer.Done? && answer.status == target && Offers(answer.allowed, s.(status := target), now)
        && after.settlements == before.settlements[id := s.(status := target)]
        && after.events == before.events + (if target == s.status then [] else [StatusEvent(id, s.status, target, MANUAL, administrator)])
        && after == before.(settlements := after.settlements, events := after.events)
  }

  lemma ChangeIsRight(db: Registry, municipality: nat, administrator: nat, id: nat, target: Status, now: int)
    ensures var (after, answer) := ChangeStatus(db, municipality, administrator, id, target, now);
            ChangedRightly(db, municipality, administrator, id, target, now, after, answer)
  {
    hide AllowedStatuses, MayBecome, Offers;
    if Belongs(db, municipality, id) {
      var s := db.settlements[id];
      OffersAll(s, now);
      OffersAll(s.(status := target), now);
      OfferedMeansAllowed(s, now, target);
      assert db.settlements[id := s] == db.settlements;
    }
  }

  // ---------- the sweep ----------

  // The sweep makes final exactly the current VIGENTE settlements whose resolution is sixty days old, and
  // changes nothing else.
  lemma SweepIs(db: Registry, now: int)
    ensures var after := MarkEnFirme(db, now);
            && after == db.(settlements := after.settlements)
            && after.settlements.Keys == db.settlements.Keys
            && forall id :: id in db.settlements ==>
                 var s := db.settlements[id];
                 after.settlements[id]
                 == if s.status == VIGENTE && s.replacedAt.None? && Aged(s, now) then s.(status := EN_FIRME) else s
  {
  }

  // ---------- batches ----------

  // From one to a hundred requests, each about a settlement of its own.
  predicate InOrder(changes: seq<Change>) {
    && 1 <= |changes| <= 100
    && (forall i :: 0 <= i < |changes| ==> changes[i].settlement >= 1)
    && (forall i, k :: 0 <= i < |changes| && 0 <= k < |changes| && i != k ==> changes[i].settlement != changes[k].settlement)
  }

  lemma InOrderIs(changes: seq<Change>)
    ensures WellAsked(changes) <==> InOrder(changes)
  {
  }

  // Why a request of a batch is refused.
  predicate Rejects(db: Registry, municipality: nat, change: Change, now: int, r: Rejected) {
    && r.settlement == change.settlement && r.to == change.to
    && match r.reason
       case NOT_FOUND => !Belongs(db, municipality, change.settlement)
       case REPLACED => Belongs(db, municipality, change.settlement) && db.settlements[change.settlement].replacedAt.Some?
       case TRANSITION_NOT_ALLOWED =>
         && Belongs(db, municipality, change.settlement) && db.settlements[change.settlement].replacedAt.None?
         && !MayBecome(db.settlements[change.settlement], change.to, now)
  }

  lemma ObjectionIs(db: Registry, municipality: nat, change: Change, now: int)
    ensures forall r :: Rejects(db, municipality, change, now, r)
                   <==> && r.settlement == change.settlement && r.to == change.to
                        && Objection(db, municipality, change, now) == Some(r.reason)
  {
    hide AllowedStatuses, MayBecome;
    if Belongs(db, municipality, change.settlement) {
      OfferedMeansAllowed(db.settlements[change.settlement], now, change.to);
    }
  }

  lemma {:induction false} RejectedAre(db: Registry, municipality: nat, changes: seq<Change>, now: int)
    ensures forall r :: r in RejectedOf(db, municipality, changes, now)
                   <==> exists i :: 0 <= i < |changes| && Rejects(db, municipality, changes[i], now, r)
  {
    hide Rejects, Objection;
    if changes != [] {
      var n := |changes| - 1;
      RejectedAre(db, municipality, changes[..n], now);
      ObjectionIs(db, municipality, changes[n], now);
      forall r
        ensures r in RejectedOf(db, municipality, changes, now)
           <==> r in RejectedOf(db, municipality, changes[..n], now) || Rejects(db, municipality, changes[n], now, r)
      {
      }
      assert forall i :: 0 <= i < n ==> changes[..n][i] == changes[i];
    }
  }

  // A batch that is not in order changes nothing. One that is, is refused, with each request's own reason,
  // exactly when some request has one.
  lemma BatchIsRefused(db: Registry, municipality: nat, administrator: nat, changes: seq<Change>, now: int)
    ensures var (after, reply) := Confirm(db, municipality, administrator, changes, now);
            && (reply.Malformed? <==> !InOrder(changes))
            && (reply.Malformed? ==> after == db)
            && (reply.Refused? <==> InOrder(changes) && exists i, r :: 0 <= i < |changes| && Rejects(db, municipality, changes[i], now, r))
            && (reply.Refused? ==>
                  && after == db
                  && forall r :: r in reply.rejected <==> exists i :: 0 <= i < |changes| && Rejects(db, municipality, changes[i], now, r))
  {
    hide Rejects, RejectedOf, AcceptedOf, WellAsked, InOrder, Effective, SetAll, EventsOf;
    InOrderIs(changes);
    RejectedAre(db, municipality, changes, now);
    var rejected := RejectedOf(db, municipality, changes, now);
    if rejected != [] {
      assert rejected[0] in rejected;
    }
    if i, r :| 0 <= i < |changes| && Rejects(db, municipality, changes[i], now, r) {
      assert r in rejected;
    }
  }

  // ---------- other municipalities ----------

  predicate ByOthers(e: Event, municipality: nat) {
    e.Load? || e.PanelChange? || e.Batch? ==> e.municipality != municipality
  }

  // What sweeps, resolutions and payment orders may do to a settlement.
  predicate OnlyAged(before: Settlement, after: Settlement) {
    && after == before.(status := after.status, resolvedAt := after.resolvedAt, paymentOrder := after.paymentOrder)
    && (after.status == before.status || (before.status == VIGENTE && after.status == EN_FIRME))
  }

  ghost predicate LeftAlone(before: Registry, after: Registry, id: nat)
    requires id in before.settlements && before.settlements[id].property in before.properties
  {
    var code := before.settlements[id].property;
    && id in after.settlements && OnlyAged(before.settlements[id], after.settlements[id])
    && code in after.properties && after.properties[code] == before.properties[code]
    && |before.events| <= |after.events|
    && (forall k :: |before.events| <= k < |after.events| ==> after.events[k].settlement != id)
  }

  lemma ExecByOthers(db: Registry, e: Event, municipality: nat, id: nat)
    requires Valid(db) && Belongs(db, municipality, id) && ByOthers(e, municipality)
    ensures LeftAlone(db, Exec(db, e), id)
  {
    hide Confirm, ChangeStatus, Import, Valid;
    match e
    case Load(m, rows, confirm, now) => LoadByOthers(db, m, rows, confirm, now, municipality, id);
    case PanelChange(m, administrator, i, target, now) => ChangeIsRight(db, m, administrator, i, target, now);
    case Batch(m, administrator, changes, now) => BatchByOthers(db, m, administrator, changes, now, municipality, id);
    case Sweep(now) => SweepIs(db, now);
    case Resolve(_, _) =>
    case IssueOrder(_, _, _) =>
  }

  lemma BatchByOthers(db: Registry, m: nat, administrator: nat, changes: seq<Change>, now: int, municipality: nat, id: nat)
    requires Belongs(db, municipality, id) && m != municipality
    ensures LeftAlone(db, Confirm(db, m, administrator, changes, now).0, id)
  {
    hide RejectedOf, AcceptedOf, Effective, SetAll, EventsOf, MayBecome, WellAsked, Confirm;
    BatchIsAllOrNothing(db, m, administrator, changes, now);
    var (after, reply) := Confirm(db, m, administrator, changes, now);
    ConfirmKeepsProperties(db, m, administrator, changes, now);
    if reply.Applied? {
      forall i | 0 <= i < |changes|
        ensures changes[i].settlement != id
      {
        assert Agreed(db, m, changes[i], now);
      }
      EventsNotAbout(db, changes, reply.applied, administrator, id);
    }
  }

  lemma ConfirmKeepsProperties(db: Registry, m: nat, administrator: nat, changes: seq<Change>, now: int)
    ensures Confirm(db, m, administrator, changes, now).0.properties == db.properties
  {
    hide RejectedOf, AcceptedOf, Effective, SetAll, EventsOf, WellAsked;
  }

  lemma EventsNotAbout(db: Registry, changes: seq<Change>, applied: seq<Accepted>, administrator: nat, id: nat)
    requires forall a :: a in applied <==> exists i :: Asks(db, changes, i, a)
    requires forall i :: 0 <= i < |changes| ==> changes[i].settlement != id
    ensures forall k :: 0 <= k < |EventsOf(applied, administrator)| ==> EventsOf(applied, administrator)[k].settlement != id
  {
    forall k | 0 <= k < |applied|
      ensures applied[k].settlement != id
    {
      assert applied[k] in applied;
      var i :| Asks(db, changes, i, applied[k]);
    }
  }

  lemma LoadByOthers(db: Registry, m: nat, rows: seq<Row>, confirm: bool, now: int, municipality: nat, id: nat)
    requires Valid(db) && Belongs(db, municipality, id) && m != municipality
    ensures LeftAlone(db, Import(db, m, rows, confirm, now).0, id)
  {
    hide ImportedSettlements, Periods, Properties, Owners, Links, Open, Locked, Conflicting, OneCurrent, Touched;
    var code := db.settlements[id].property;
    if code in Codes(rows) {
      assert code in Foreign(db.properties, rows, m);
    } else {
      ImportErasesNothing(db, m, rows, confirm, now);
      ImportKeepsHistory(db.settlements, db.nextId, rows, confirm, now, id);
      if Persists(db.settlements, Periods(rows), confirm) {
        ImportedIs(db.settlements, db.nextId, rows, confirm, now);
        PeriodsAre(rows);
        NotTouched(db.settlements[id], Periods(rows), Codes(rows), now);
      }
    }
  }

  lemma NotTouched(s: Settlement, keys: seq<Period>, codes: set<string>, now: int)
    requires s.property !in codes && forall key :: key in keys ==> key.0 in codes
    ensures Touched(s, keys, now) == s
  {
  }

  // Whatever the other municipalities load, change or batch, a municipality's settlement and its property
  // stay as they were, but for the sweep and the links it is given, and no event is about it.
  lemma {:induction false} OthersLeaveItAlone(db: Registry, events: seq<Event>, municipality: nat, id: nat)
    requires Valid(db) && Belongs(db, municipality, id) && forall i :: 0 <= i < |events| ==> ByOthers(events[i], municipality)
    ensures LeftAlone(db, Run(db, events), id)
  {
    hide Exec, Valid, ByOthers, OnlyAged;
    if events == [] {
      assert OnlyAged(db.settlements[id], db.settlements[id]) by {
        StaysAged(db.settlements[id], db.settlements[id], db.settlements[id]);
      }
    } else {
      var n := |events| - 1;
      var mid := Run(db, events[..n]);
      OthersLeaveItAlone(db, events[..n], municipality, id);
      RunKeepsValid(db, events[..n]);
      StaysAged(db.settlements[id], mid.settlements[id], mid.settlements[id]);
      ExecByOthers(mid, events[n], municipality, id);
      StaysAged(db.settlements[id], mid.settlements[id], Run(db, events).settlements[id]);
      EventsKept(mid, events[n]);
    }
  }

  lemma StaysAged(first: Settlement, second: Settlement, third: Settlement)
    ensures OnlyAged(first, first)
    ensures OnlyAged(first, second) ==> first.property == second.property
    ensures OnlyAged(first, second) && OnlyAged(second, third) ==> OnlyAged(first, third)
  {
  }

  lemma EventsKept(db: Registry, e: Event)
    ensures db.events <= Exec(db, e).events
  {
    hide RejectedOf, AcceptedOf, Effective, SetAll, WellAsked, AllowedStatuses, ImportedSettlements, Properties, Owners, Links;
  }
}
