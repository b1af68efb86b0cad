/** The services that change a status, over the tables they write. */
module StatusService {
  import opened Numbering
  import opened Settlements
  import opened Lifecycle
  import opened StatusLaws

  class Service {
    const properties: map<string, Property>
    var settlements: map<nat, Settlement>
    var events: seq<StatusEvent>

    constructor (properties: map<string, Property>, settlements: map<nat, Settlement>)
      ensures this.properties == properties && this.settlements == settlements && events == []
    {
      this.properties, this.settlements, events := properties, settlements, [];
    }

    ghost function Tables(): Registry
      reads this
    {
      Registry(properties, map[], {}, settlements, 0, events)
    }

    // One guarded update over all rows.
    method MarkEnFirme(now: int) returns (count: nat)
      modifies this`settlements
      ensures Tables() == Lifecycle.MarkEnFirme(old(Tables()), now)
      ensures count == |set id | id in old(settlements) && Due(old(settlements)[id], now)|
      ensures forall id :: id in old(settlements) ==>
                var s := old(settlements)[id];
                id in settlements
                && settlements[id] == if s.status == VIGENTE && s.replacedAt.None? && Aged(s, now) then s.(status := EN_FIRME) else s
    {
      var due := set id | id in settlements && Due(settlements[id], now);
      count := |due|;
      settlements := map id | id in settlements :: if id in due then settlements[id].(status := EN_FIRME) else settlements[id];
    }

    method IsFound(municipality: nat, id: nat) returns (found: bool)
      ensures found == Found(Tables(), municipality, id)
    {
      found := id in settlements && settlements[id].property in properties && properties[settlements[id].property].municipality == municipality;
    }

    // Reads the settlement and checks the change against it.
    method CheckStatusChange(municipality: nat, administrator: nat, id: nat, target: Status, now: int) returns (checked: Checked)
      ensures checked == CheckChange(Tables(), municipality, administrator, id, target, now)
      ensures Judged(Tables(), municipality, administrator, id, target, now, checked)
    {
      hide AllowedStatuses, Judged;
      CheckIsJudged(Tables(), municipality, administrator, id, target, now);
      var found := IsFound(municipality, id);
      if !found {
        return Answered(NotFound);
      }
      var s := settlements[id];
      if s.replacedAt.Some? {
        return Answered(AlreadyReplaced);
      }
      var allowed := AllowedStatuses(s, now);
      if target !in allowed {
        return Answered(TransitionNotAllowed(s.status, allowed));
      }
      checked := if target == s.status then Answered(Done(target, allowed)) else Passed(Pass(id, s, target, administrator, now));
    }

    // The conditional write: one row or none, and the event with it.
    method CommitStatusChange(pass: Pass) returns (answer: Answer)
      modifies this
      ensures (Tables(), answer) == CommitChange(old(Tables()), pass)
    {
      hide AllowedStatuses;
      var claimed := 0;
      if pass.id in settlements && settlements[pass.id].status == pass.seen.status && settlements[pass.id].replacedAt.None? {
        settlements := settlements[pass.id := settlements[pass.id].(status := pass.to)];
        claimed := 1;
      }
      if claimed == 0 {
        return SettlementChanged;
      }
      events := events + [StatusEvent(pass.id, pass.seen.status, pass.to, MANUAL, pass.administrator)];
      answer := Done(pass.to, AllowedStatuses(pass.seen.(status := pass.to), pass.at));
    }

    // Checks the change, then writes it with its event.
    method ChangeStatus(municipality: nat, administrator: nat, id: nat, target: Status, now: int) returns (answer: Answer)
      modifies this
      ensures (Tables(), answer) == Lifecycle.ChangeStatus(old(Tables()), municipality, administrator, id, target, now)
      ensures ChangedRightly(old(Tables()), municipality, administrator, id, target, now, Tables(), answer)
    {
      hide AllowedStatuses, Judged, ChangedRightly;
      ChangeIsRight(Tables(), municipality, administrator, id, target, now);
      var checked := CheckStatusChange(municipality, administrator, id, target, now);
      match checked
      case Answered(a) =>
        answer := a;
      case Passed(pass) =>
        answer := CommitStatusChange(pass);
    }

    method CheckChanges(changes: seq<Change>) returns (ok: bool)
      ensures ok == WellAsked(changes) == InOrder(changes)
    {
      InOrderIs(changes);
      if changes == [] || |changes| > MAX_CHANGES_PER_CALL {
        return false;
      }
      var seen: set<int> := {};
      for i := 0 to |changes|
        invariant forall k :: 0 <= k < i ==> changes[k].settlement > 0
        invariant seen == set k | 0 <= k < i :: changes[k].settlement
        invariant forall j, k :: 0 <= j < k < i ==> changes[j].settlement != changes[k].settlement
      {
        if changes[i].settlement <= 0 || changes[i].settlement in seen {
          return false;
        }
        seen := seen + {changes[i].settlement};
      }
      ok := true;
    }

    // Every request against the rules, in the order asked.
    method ReviewStatusChanges(municipality: nat, changes: seq<Change>, now: int)
      returns (accepted: seq<Accepted>, rejected: seq<Rejected>)
      ensures accepted == AcceptedOf(Tables(), municipality, changes, now)
      ensures rejected == RejectedOf(Tables(), municipality, changes, now)
    {
      hide AllowedStatuses;
      accepted, rejected := [], [];
      for i := 0 to |changes|
        invariant accepted == AcceptedOf(Tables(), municipality, changes[..i], now)
        invariant rejected == RejectedOf(Tables(), municipality, changes[..i], now)
      {
        assert changes[..i + 1][..i] == changes[..i];
        var change := changes[i];
        var found := false;
        if change.settlement >= 0 {
          found := IsFound(municipality, change.settlement);
        }
        if !found {
          rejected := rejected + [Rejected(change.settlement, change.to, NOT_FOUND)];
        } else if settlements[change.settlement].replacedAt.Some? {
          rejected := rejected + [Rejected(change.settlement, change.to, REPLACED)];
        } else if change.to !in AllowedStatuses(settlements[change.settlement], now) {
          rejected := rejected + [Rejected(change.settlement, change.to, TRANSITION_NOT_ALLOWED)];
        } else {
          accepted := accepted + [Accepted(change.settlement, settlements[change.settlement].status, change.to)];
        }
      }
      assert changes[..|changes|] == changes;
    }

    // Everything is checked before anything is written.
    method Confirm(municipality: nat, administrator: nat, changes: seq<Change>, now: int) returns (reply: Reply)
      modifies this
      ensures (Tables(), reply) == Lifecycle.Confirm(old(Tables()), municipality, administrator, changes, now)
    {
      hide WellAsked, Objection, AcceptedOf, RejectedOf;
      var ok := CheckChanges(changes);
      if !ok {
        return Malformed;
      }
      var accepted, rejected := ReviewStatusChanges(municipality, changes, now);
      if rejected != [] {
        return Refused(rejected);
      }
      var applied: seq<Accepted> := [];
      for i := 0 to |accepted|
        invariant applied == Effective(accepted[..i])
      {
        assert accepted[..i + 1][..i] == accepted[..i];
        if accepted[i].from != accepted[i].to {
          applied := applied + [accepted[i]];
        }
      }
      assert accepted[..|accepted|] == accepted;
      for i := 0 to |applied|
        invariant settlements == SetAll(old(settlements), applied[..i]) && events == old(events)
      {
        assert applied[..i + 1][..i] == applied[..i];
        var change := applied[i];
        if change.settlement in settlements {
          settlements := settlements[change.settlement := settlements[change.settlement].(status := change.to)];
        }
      }
      assert applied[..|applied|] == applied;
      events := events + EventsOf(applied, administrator);
      reply := Applied(applied);
    }
  }
}
