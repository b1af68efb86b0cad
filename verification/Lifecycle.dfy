/** How a settlement's status changes: the hourly sweep, the panel, and the assistant's batches. */
module Lifecycle {
  import opened Numbering
  import opened Settlements

  // ---------- the sweep ----------

  predicate Due(s: Settlement, now: int) {
    s.status == VIGENTE && Current(s) && s.resolvedAt.Some? && s.resolvedAt.value <= EnFirmeCutoff(now)
  }

  function Swept(s: Settlement, now: int): Settlement {
    if Due(s, now) then s.(status := EN_FIRME) else s
  }

  function MarkEnFirme(db: Registry, now: int): Registry {
    db.(settlements := map id | id in db.settlements :: Swept(db.settlements[id], now))
  }

  // ---------- the panel ----------

  predicate Found(db: Registry, municipality: nat, id: nat) {
    && id in db.settlements && db.settlements[id].property in db.properties
    && db.properties[db.settlements[id].property].municipality == municipality
  }

  datatype Answer =
    | NotFound
    | AlreadyReplaced
    | TransitionNotAllowed(from: Status, allowed: seq<Status>)
    | SettlementChanged
    | Done(status: Status, allowed: seq<Status>)

  function WithStatus(db: Registry, id: nat, to: Status, source: Source, administrator: nat): Registry
    requires id in db.settlements
  {
    db.(settlements := db.settlements[id := db.settlements[id].(status := to)],
        events := db.events + [StatusEvent(id, db.settlements[id].status, to, source, administrator)])
  }

  // A change that passed its check: the settlement as it was read, and when.
  datatype Pass = Pass(id: nat, seen: Settlement, to: Status, administrator: nat, at: int)

  datatype Checked = Answered(answer: Answer) | Passed(pass: Pass)

  // The first half reads and checks; sending the status it has again is answered at once.
  function CheckChange(db: Registry, municipality: nat, administrator: nat, id: nat, target: Status, now: int): Checked {
    if !Found(db, municipality, id) then Answered(NotFound)
    else
      var s := db.settlements[id];
      if !Current(s) then Answered(AlreadyReplaced)
      else if target !in AllowedStatuses(s, now) then Answered(TransitionNotAllowed(s.status, AllowedStatuses(s, now)))
      else if target == s.status then Answered(Done(target, AllowedStatuses(s, now)))
      else Passed(Pass(id, s, target, administrator, now))
  }

  // The row still is as the check found it, for all the conditional write asks.
  predicate Unchanged(db: Registry, pass: Pass) {
    pass.id in db.settlements && db.settlements[pass.id].status == pass.seen.status && Current(db.settlements[pass.id])
  }

  // The second half writes, with its event, if the row has the status it was checked with.
  function CommitChange(db: Registry, pass: Pass): (Registry, Answer) {
    if !Unchanged(db, pass) then (db, SettlementChanged)
    else
      (WithStatus(db, pass.id, pass.to, MANUAL, pass.administrator),
       Done(pass.to, AllowedStatuses(pass.seen.(status := pass.to), pass.at)))
  }

  // Both halves with nothing in between.
  function ChangeStatus(db: Registry, municipality: nat, administrator: nat, id: nat, target: Status, now: int): (Registry, Answer) {
    if !Found(db, municipality, id) then (db, NotFound)
    else
      var s := db.settlements[id];
      if !Current(s) then (db, AlreadyReplaced)
      else if target !in AllowedStatuses(s, now) then (db, TransitionNotAllowed(s.status, AllowedStatuses(s, now)))
      else
        (if target == s.status then db else WithStatus(db, id, target, MANUAL, administrator),
         Done(target, AllowedStatuses(s.(status := target), now)))
  }

  // ---------- the assistant ----------

  datatype Change = Change(settlement: int, to: Status)

  datatype Reason = TRANSITION_NOT_ALLOWED | NOT_FOUND | REPLACED

  datatype Accepted = Accepted(settlement: nat, from: Status, to: Status)

  datatype Rejected = Rejected(settlement: int, to: Status, reason: Reason)

  const MAX_CHANGES_PER_CALL: nat := 100

  predicate WellAsked(changes: seq<Change>) {
    && 0 < |changes| <= MAX_CHANGES_PER_CALL
    && (forall i :: 0 <= i < |changes| ==> changes[i].settlement > 0)
    && (forall i, k :: 0 <= i < k < |changes| ==> changes[i].settlement != changes[k].settlement)
  }

  // Why one change is refused now.
  function Objection(db: Registry, municipality: nat, change: Change, now: int): Option<Reason> {
    if change.settlement < 0 || !Found(db, municipality, change.settlement) then Some(NOT_FOUND)
    else if !Current(db.settlements[change.settlement]) then Some(REPLACED)
    else if change.to !in AllowedStatuses(db.settlements[change.settlement], now) then Some(TRANSITION_NOT_ALLOWED)
    else None
  }

  function RejectedOf(db: Registry, municipality: nat, changes: seq<Change>, now: int): seq<Rejected> {
    if changes == [] then []
    else
      var change := changes[|changes| - 1];
      RejectedOf(db, municipality, changes[..|changes| - 1], now)
      + match Objection(db, municipality, change, now)
        case None => []
        case Some(reason) => [Rejected(change.settlement, change.to, reason)]
  }

  function AcceptedOf(db: Registry, municipality: nat, changes: seq<Change>, now: int): seq<Accepted> {
    if changes == [] then []
    else
      var change := changes[|changes| - 1];
      AcceptedOf(db, municipality, changes[..|changes| - 1], now)
      + if Objection(db, municipality, change, now).Some? then []
        else [Accepted(change.settlement, db.settlements[change.settlement].status, change.to)]
  }

  function Effective(accepted: seq<Accepted>): seq<Accepted> {
    if accepted == [] then []
    else Effective(accepted[..|accepted| - 1]) + if accepted[|accepted| - 1].from == accepted[|accepted| - 1].to then [] else [accepted[|accepted| - 1]]
  }

  function SetAll(settlements: map<nat, Settlement>, applied: seq<Accepted>): map<nat, Settlement> {
    if applied == [] then settlements
    else
      var before := SetAll(settlements, applied[..|applied| - 1]);
      var change := applied[|applied| - 1];
      if change.settlement in before then before[change.settlement := before[change.settlement].(status := change.to)] else before
  }

  function EventsOf(applied: seq<Accepted>, administrator: nat): seq<StatusEvent> {
    seq(|applied|, i requires 0 <= i < |applied| =>
      StatusEvent(applied[i].settlement, applied[i].from, applied[i].to, ASSISTANT, administrator))
  }

  datatype Reply = Malformed | Refused(rejected: seq<Rejected>) | Applied(applied: seq<Accepted>)

  function Confirm(db: Registry, municipality: nat, administrator: nat, changes: seq<Change>, now: int): (Registry, Reply) {
    if !WellAsked(changes) then (db, Malformed)
    else
      var rejected := RejectedOf(db, municipality, changes, now);
      if rejected != [] then (db, Refused(rejected))
      else
        var applied := Effective(AcceptedOf(db, municipality, changes, now));
        (db.(settlements := SetAll(db.settlements, applied), events := db.events + EventsOf(applied, administrator)), Applied(applied))
  }

  // ---------- all or nothing ----------

  predicate Known(db: Registry, change: Change) {
    change.settlement >= 0 && change.settlement in db.settlements
  }

  function Wanted(db: Registry, change: Change): Accepted
    requires Known(db, change)
  {
    Accepted(change.settlement, db.settlements[change.settlement].status, change.to)
  }

  predicate Agreed(db: Registry, municipality: nat, change: Change, now: int) {
    && change.settlement >= 0 && Found(db, municipality, change.settlement)
    && Current(db.settlements[change.settlement]) && MayBecome(db.settlements[change.settlement], change.to, now)
  }

  lemma AgreedMeansNoObjection(db: Registry, municipality: nat, change: Change, now: int)
    ensures Objection(db, municipality, change, now).None? <==> Agreed(db, municipality, change, now)
  {
    if change.settlement >= 0 && Found(db, municipality, change.settlement) {
      OfferedMeansAllowed(db.settlements[change.settlement], now, change.to);
    }
  }

  lemma {:induction false} NothingRejected(db: Registry, municipality: nat, changes: seq<Change>, now: int)
    ensures RejectedOf(db, municipality, changes, now) == []
       <==> forall i :: 0 <= i < |changes| ==> Agreed(db, municipality, changes[i], now)
  {
    hide Objection, Agreed;
    if changes != [] {
      var n := |changes| - 1;
      NothingRejected(db, municipality, changes[..n], now);
      AgreedMeansNoObjection(db, municipality, changes[n], now);
    }
  }

  // The effective changes of one more request that raises no objection.
  lemma EffectiveNext(db: Registry, municipality: nat, changes: seq<Change>, now: int)
    requires changes != [] && Agreed(db, municipality, changes[|changes| - 1], now)
    ensures var front, last := Effective(AcceptedOf(db, municipality, changes[..|changes| - 1], now)), Wanted(db, changes[|changes| - 1]);
            Effective(AcceptedOf(db, municipality, changes, now)) == front + (if last.from == last.to then [] else [last])
  {
    hide Objection, MayBecome;
    var n := |changes| - 1;
    AgreedMeansNoObjection(db, municipality, changes[n], now);
    var front, last := AcceptedOf(db, municipality, changes[..n], now), Wanted(db, changes[n]);
    assert AcceptedOf(db, municipality, changes, now) == front + [last];
    assert (front + [last])[..|front|] == front;
  }

  // Request i asks for the effective change a.
  predicate Asks(db: Registry, changes: seq<Change>, i: int, a: Accepted) {
    0 <= i < |changes| && Known(db, changes[i]) && a == Wanted(db, changes[i]) && a.from != a.to
  }

  lemma {:induction false} EffectiveAre(db: Registry, municipality: nat, changes: seq<Change>, now: int, a: Accepted)
    requires forall i :: 0 <= i < |changes| ==> Agreed(db, municipality, changes[i], now)
    ensures a in Effective(AcceptedOf(db, municipality, changes, now)) <==> exists i :: Asks(db, changes, i, a)
  {
    hide Effective, AcceptedOf, MayBecome;
    if changes == [] {
      NothingEffective(db, municipality, now);
    } else {
      var n := |changes| - 1;
      EffectiveAre(db, municipality, changes[..n], now, a);
      EffectiveNext(db, municipality, changes, now);
      if i :| Asks(db, changes, i, a) && i < n {
        assert Asks(db, changes[..n], i, a);
      }
      if i :| Asks(db, changes[..n], i, a) {
        assert Asks(db, changes, i, a);
      }
      assert Known(db, changes[n]) && (Asks(db, changes, n, a) <==> a == Wanted(db, changes[n]) && a.from != a.to);
    }
  }

  lemma NothingEffective(db: Registry, municipality: nat, now: int)
    ensures Effective(AcceptedOf(db, municipality, [], now)) == []
  {
  }

  predicate Separate(applied: seq<Accepted>) {
    forall i, k :: 0 <= i < k < |applied| ==> applied[i].settlement != applied[k].settlement
  }

  lemma {:induction false} EffectiveDistinct(db: Registry, municipality: nat, changes: seq<Change>, now: int)
    requires forall i :: 0 <= i < |changes| ==> Agreed(db, municipality, changes[i], now)
    requires forall i, k :: 0 <= i < k < |changes| ==> changes[i].settlement != changes[k].settlement
    ensures Separate(Effective(AcceptedOf(db, municipality, changes, now)))
  {
    hide Effective, AcceptedOf, MayBecome;
    if changes == [] {
      NothingEffective(db, municipality, now);
    } else {
      var n := |changes| - 1;
      EffectiveDistinct(db, municipality, changes[..n], now);
      EffectiveNext(db, municipality, changes, now);
      var applied := Effective(AcceptedOf(db, municipality, changes[..n], now));
      forall i | 0 <= i < |applied|
        ensures applied[i].settlement != changes[n].settlement
      {
        assert applied[i] in applied;
        EffectiveAre(db, municipality, changes[..n], now, applied[i]);
        var k :| Asks(db, changes[..n], k, applied[i]);
      }
    }
  }

  lemma {:induction false} SetAllIs(settlements: map<nat, Settlement>, applied: seq<Accepted>, id: nat)
    requires Separate(applied)
    ensures SetAll(settlements, applied).Keys == settlements.Keys
    ensures id in settlements && (forall i :: 0 <= i < |applied| ==> applied[i].settlement != id)
        ==> SetAll(settlements, applied)[id] == settlements[id]
    ensures forall i :: (0 <= i < |applied| && applied[i].settlement == id && id in settlements)
              ==> SetAll(settlements, applied)[id] == settlements[id].(status := applied[i].to)
  {
    if applied != [] {
      SetAllIs(settlements, applied[..|applied| - 1], id);
    }
  }

  // A confirmed batch applies when every request is found, current and allowed, and then gives each
  // its requested status, touches nothing else and records one event per effective change; otherwise
  // it changes nothing at all.
  lemma BatchIsAllOrNothing(db: Registry, municipality: nat, administrator: nat, changes: seq<Change>, now: int)
    ensures var (after, reply) := Confirm(db, municipality, administrator, changes, now);
            && (reply.Applied? <==> WellAsked(changes) && forall i :: 0 <= i < |changes| ==> Agreed(db, municipality, changes[i], now))
            && (!reply.Applied? ==> after == db)
            && (reply.Applied? ==>
                  && after.settlements.Keys == db.settlements.Keys
                  && (forall i :: 0 <= i < |changes| ==>
                        && changes[i].settlement >= 0 && changes[i].settlement in after.settlements
                        && after.settlements[changes[i].settlement] == db.settlements[changes[i].settlement].(status := changes[i].to))
                  && (forall id :: id in db.settlements && (forall i :: 0 <= i < |changes| ==> changes[i].settlement != id)
                        ==> after.settlements[id] == db.settlements[id])
                  && after.events == db.events + EventsOf(reply.applied, administrator)
                  && Separate(reply.applied)
                  && (forall a :: a in reply.applied <==> exists i :: Asks(db, changes, i, a)))
  {
    hide RejectedOf, AcceptedOf, Effective, SetAll, EventsOf, Found, Objection;
    NothingRejected(db, municipality, changes, now);
    if WellAsked(changes) && forall i :: 0 <= i < |changes| ==> Agreed(db, municipality, changes[i], now) {
      var applied := Effective(AcceptedOf(db, municipality, changes, now));
      forall a
        ensures a in applied <==> exists i :: Asks(db, changes, i, a)
      {
        EffectiveAre(db, municipality, changes, now, a);
      }
      EffectiveDistinct(db, municipality, changes, now);
      AppliedSettlements(db, municipality, changes, applied, now);
    }
  }

  lemma AppliedSettlements(db: Registry, municipality: nat, changes: seq<Change>, applied: seq<Accepted>, now: int)
    requires WellAsked(changes) && forall i :: 0 <= i < |changes| ==> Agreed(db, municipality, changes[i], now)
    requires Separate(applied) && forall a :: a in applied <==> exists i :: Asks(db, changes, i, a)
    ensures SetAll(db.settlements, applied).Keys == db.settlements.Keys
    ensures forall i :: 0 <= i < |changes| ==>
              && changes[i].settlement in db.settlements
              && SetAll(db.settlements, applied)[changes[i].settlement] == db.settlements[changes[i].settlement].(status := changes[i].to)
    ensures forall id :: id in db.settlements && (forall i :: 0 <= i < |changes| ==> changes[i].settlement != id)
              ==> SetAll(db.settlements, applied)[id] == db.settlements[id]
  {
    hide SetAll, MayBecome;
    SetAllIs(db.settlements, applied, 0);
    forall i | 0 <= i < |changes|
      ensures changes[i].settlement in db.settlements
      ensures SetAll(db.settlements, applied)[changes[i].settlement] == db.settlements[changes[i].settlement].(status := changes[i].to)
    {
      var id := changes[i].settlement;
      var a := Wanted(db, changes[i]);
      SetAllIs(db.settlements, applied, id);
      if a.from != a.to {
        assert Asks(db, changes, i, a);
        assert a in applied;
      } else {
        forall k | 0 <= k < |applied|
          ensures applied[k].settlement != id
        {
          assert applied[k] in applied;
          var x :| Asks(db, changes, x, applied[k]);
        }
        assert db.settlements[id] == db.settlements[id].(status := changes[i].to);
      }
    }
    forall id | id in db.settlements && (forall i :: 0 <= i < |changes| ==> changes[i].settlement != id)
      ensures SetAll(db.settlements, applied)[id] == db.settlements[id]
    {
      SetAllIs(db.settlements, applied, id);
      forall k | 0 <= k < |applied|
        ensures applied[k].settlement != id
      {
        assert applied[k] in applied;
        var x :| Asks(db, changes, x, applied[k]);
      }
    }
  }

  // ---------- the sweep is idempotent ----------

  // After a sweep nothing is due, only due settlements became final, and another sweep changes nothing.
  lemma SweepLeavesNothingDue(db: Registry, now: int)
    ensures var after := MarkEnFirme(db, now);
            && after.settlements.Keys == db.settlements.Keys
            && (forall id :: id in db.settlements ==>
                  && !Due(after.settlements[id], now)
                  && after.settlements[id] == db.settlements[id].(status := after.settlements[id].status)
                  && (after.settlements[id].status != db.settlements[id].status <==> Due(db.settlements[id], now)))
            && MarkEnFirme(after, now) == after
  {
    var after := MarkEnFirme(db, now);
    assert MarkEnFirme(after, now).settlements == after.settlements;
  }
}
