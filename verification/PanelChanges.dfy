/** The panel's status change in its two halves, with loads, sweeps, batches and other changes in between. */
module PanelChanges {
  import opened Numbering
  import opened Settlements
  import opened Lifecycle
  import opened TaxRoll
  import opened SettlementRuns
  import opened AuditTrail

  // The panel's changes under way, each with what its check read.
  datatype Panel = Panel(db: Registry, passes: map<nat, Pass>)

  datatype Step =
    | Other(event: Event)
    | Check(change: nat, municipality: nat, administrator: nat, id: nat, target: Status, at: int)
    | Commit(change: nat, at: int)

  function Now(step: Step): int {
    if step.Other? then step.event.now else step.at
  }

  function Take(p: Panel, step: Step): Panel {
    match step
    case Other(event) => p.(db := Exec(p.db, event))
    case Check(change, municipality, administrator, id, target, at) =>
      var checked := CheckChange(p.db, municipality, administrator, id, target, at);
      if checked.Passed? then p.(passes := p.passes[change := checked.pass]) else p
    case Commit(change, _) =>
      if change in p.passes then Panel(CommitChange(p.db, p.passes[change]).0, p.passes - {change}) else p
  }

  function Play(p: Panel, steps: seq<Step>): Panel {
    if steps == [] then p else Take(Play(p, steps[..|steps| - 1]), steps[|steps| - 1])
  }

  predicate StepsFrom(steps: seq<Step>, start: int) {
    && (forall i :: 0 <= i < |steps| ==> start <= Now(steps[i]))
    && (forall i, k :: 0 <= i < k < |steps| ==> Now(steps[i]) <= Now(steps[k]))
  }

  // ---------- one change ----------

  // With nothing in between, the two halves are the one change.
  lemma HalvesAreTheChange(db: Registry, municipality: nat, administrator: nat, id: nat, target: Status, now: int)
    ensures ChangeStatus(db, municipality, administrator, id, target, now)
         == match CheckChange(db, municipality, administrator, id, target, now)
            case Answered(answer) => (db, answer)
            case Passed(pass) => CommitChange(db, pass)
  {
    hide AllowedStatuses;
  }

  // A pass holds what the check established about the settlement it read.
  ghost predicate Sound(pass: Pass) {
    Current(pass.seen) && pass.to != pass.seen.status && MayBecome(pass.seen, pass.to, pass.at)
  }

  lemma CheckIsSound(db: Registry, municipality: nat, administrator: nat, id: nat, target: Status, now: int)
    ensures var checked := CheckChange(db, municipality, administrator, id, target, now);
            checked.Passed? ==> Sound(checked.pass) && id in db.settlements && checked.pass.seen == db.settlements[id]
  {
    hide AllowedStatuses, MayBecome;
    if Found(db, municipality, id) {
      OfferedMeansAllowed(db.settlements[id], now, target);
    }
  }

  lemma {:induction false} PassesAreSound(p: Panel, steps: seq<Step>)
    requires forall c :: c in p.passes ==> Sound(p.passes[c])
    ensures forall c :: c in Play(p, steps).passes ==> Sound(Play(p, steps).passes[c])
  {
    hide Sound, CheckChange, CommitChange, Exec;
    if steps != [] {
      var n := |steps| - 1;
      PassesAreSound(p, steps[..n]);
      if steps[n].Check? {
        var q := Play(p, steps[..n]);
        CheckIsSound(q.db, steps[n].municipality, steps[n].administrator, steps[n].id, steps[n].target, steps[n].at);
      }
    }
  }

  // Whatever came in between: the change is refused, with nothing written, if and only if the row has
  // another status than the one it was checked with or was replaced; otherwise that row gets the status,
  // with one event, and nothing else changes.
  lemma CommitIsAllOrNothing(db: Registry, pass: Pass)
    ensures var (after, answer) := CommitChange(db, pass);
            && (answer == SettlementChanged
                <==> pass.id !in db.settlements || db.settlements[pass.id].status != pass.seen.status
                     || !Current(db.settlements[pass.id]))
            && (answer == SettlementChanged ==> after == db)
            && (answer != SettlementChanged ==>
                  && after.settlements == db.settlements[pass.id := db.settlements[pass.id].(status := pass.to)]
                  && after.events == db.events + [StatusEvent(pass.id, pass.seen.status, pass.to, MANUAL, pass.administrator)]
                  && after == db.(settlements := after.settlements, events := after.events))
  {
    hide AllowedStatuses;
  }

  // ---------- over whole runs ----------

  lemma {:induction false} PlayKeepsValid(p: Panel, steps: seq<Step>)
    requires Valid(p.db)
    ensures Valid(Play(p, steps).db)
  {
    hide Exec, CheckChange, Valid, Take;
    if steps != [] {
      var n := |steps| - 1;
      PlayKeepsValid(p, steps[..n]);
      StepKeepsValid(Play(p, steps[..n]), steps[n]);
    }
  }

  lemma StepKeepsValid(p: Panel, step: Step)
    requires Valid(p.db)
    ensures Valid(Take(p, step).db)
  {
    hide Exec, CheckChange, AllowedStatuses, Valid;
    match step
    case Other(event) =>
      if event.Load? {
        LoadKeepsValid(p.db, event);
      } else {
        OthersKeepValid(p.db, event);
      }
    case Check(_, _, _, _, _, _) =>
    case Commit(change, _) =>
      if change in p.passes {
        StatusKeepsValid(p.db, CommitChange(p.db, p.passes[change]).0, p.passes[change]);
      }
  }

  lemma StatusKeepsValid(db: Registry, after: Registry, pass: Pass)
    requires Valid(db) && after == CommitChange(db, pass).0
    ensures Valid(after)
  {
    hide AllowedStatuses;
  }

  // The events explain every status, whatever the changes under way.
  lemma {:induction false} PlayKeepsAudit(p: Panel, steps: seq<Step>)
    requires Valid(p.db) && Audited(p.db) && forall c :: c in p.passes ==> Sound(p.passes[c])
    ensures Audited(Play(p, steps).db)
  {
    hide Exec, CheckChange, Valid, Take, Audited, Sound;
    if steps != [] {
      var n := |steps| - 1;
      PlayKeepsAudit(p, steps[..n]);
      PlayKeepsValid(p, steps[..n]);
      PassesAreSound(p, steps[..n]);
      StepKeepsAudit(Play(p, steps[..n]), steps[n]);
    }
  }

  lemma StepKeepsAudit(p: Panel, step: Step)
    requires Valid(p.db) && Audited(p.db) && forall c :: c in p.passes ==> Sound(p.passes[c])
    ensures Audited(Take(p, step).db)
  {
    hide Exec, CheckChange, AllowedStatuses, Valid, Audited, MayBecome, Run;
    match step
    case Other(event) =>
      OneEventRun(p.db, event);
      RunKeepsAudit(p.db, [event]);
    case Check(_, _, _, _, _, _) =>
    case Commit(change, _) =>
      if change in p.passes && Unchanged(p.db, p.passes[change]) {
        var pass := p.passes[change];
        WithStatusAudited(p.db, pass.id, pass.to, pass.administrator);
      }
  }

  lemma OneEventRun(db: Registry, event: Event)
    ensures Run(db, [event]) == Exec(db, event)
  {
    hide Exec;
    assert [event][..0] == [];
  }

  // ---------- finality ----------

  // A change checked while the settlement could still be VIGENTE is written when it cannot be any more.
  predicate Late(p: Panel, step: Step, id: nat) {
    && step.Commit? && step.change in p.passes
    && var pass := p.passes[step.change];
       pass.id == id && pass.to == VIGENTE && Unchanged(p.db, pass)
  }

  lemma LateMakesVigente(p: Panel, step: Step, id: nat)
    requires Late(p, step, id)
    ensures id in Take(p, step).db.settlements && Take(p, step).db.settlements[id].status == VIGENTE
  {
    hide AllowedStatuses;
  }

  lemma StepBeyondReturn(p: Panel, step: Step, id: nat, earlier: int)
    requires Valid(p.db) && id in p.db.settlements && BeyondReturn(p.db.settlements[id], earlier) && earlier <= Now(step)
    requires !Late(p, step, id)
    ensures id in Take(p, step).db.settlements && BeyondReturn(Take(p, step).db.settlements[id], Now(step))
  {
    hide Exec, CheckChange, AllowedStatuses, Valid;
    match step
    case Other(event) =>
      ExecEvolves(p.db, event, id);
      EvolvesBeyondReturn(p.db.settlements[id], Exec(p.db, event).settlements[id], earlier, event.now);
    case Check(_, _, _, _, _, _) =>
    case Commit(change, _) =>
  }

  predicate NoneLate(p: Panel, steps: seq<Step>, id: nat) {
    forall i :: 0 <= i < |steps| ==> !Late(Play(p, steps[..i]), steps[i], id)
  }

  lemma NoneLateBefore(p: Panel, steps: seq<Step>, id: nat, n: nat)
    requires NoneLate(p, steps, id) && n <= |steps|
    ensures NoneLate(p, steps[..n], id)
  {
    hide Late, Play;
    var front := steps[..n];
    forall i | 0 <= i < n
      ensures !Late(Play(p, front[..i]), front[i], id)
    {
      assert front[..i] == steps[..i];
    }
  }

  lemma StepsBefore(steps: seq<Step>, start: int, n: nat)
    requires StepsFrom(steps, start) && n <= |steps|
    ensures StepsFrom(steps[..n], start)
    ensures n > 0 ==> forall i :: 0 <= i < n ==> Now(steps[..n][i]) <= Now(steps[n - 1])
    ensures n < |steps| ==> start <= Now(steps[n]) && forall i :: 0 <= i < n ==> Now(steps[..n][i]) <= Now(steps[n])
  {
  }

  lemma {:induction false} StaysBeyondReturn(p: Panel, steps: seq<Step>, id: nat, start: int, now: int)
    requires Valid(p.db) && id in p.db.settlements && BeyondReturn(p.db.settlements[id], start) && StepsFrom(steps, start)
    requires start <= now && forall i :: 0 <= i < |steps| ==> Now(steps[i]) <= now
    requires NoneLate(p, steps, id)
    ensures id in Play(p, steps).db.settlements && BeyondReturn(Play(p, steps).db.settlements[id], now)
  {
    hide Late, Take, Valid, BeyondReturn, StepsFrom, NoneLate, Now;
    if steps == [] {
      StillBeyondReturn(p.db.settlements[id], start, now);
    } else {
      var n := |steps| - 1;
      var front := steps[..n];
      NoneLateBefore(p, steps, id, n);
      StepsBefore(steps, start, n);
      StaysBeyondReturn(p, front, id, start, Now(steps[n]));
      PlayKeepsValid(p, front);
      LastNotLate(p, steps, id);
      StepBeyondReturn(Play(p, front), steps[n], id, Now(steps[n]));
      StillBeyondReturn(Play(p, steps).db.settlements[id], Now(steps[n]), now);
    }
  }

  lemma LastNotLate(p: Panel, steps: seq<Step>, id: nat)
    requires NoneLate(p, steps, id) && steps != []
    ensures !Late(Play(p, steps[..|steps| - 1]), steps[|steps| - 1], id)
  {
    hide Late, Play;
  }

  lemma StillBeyondReturn(s: Settlement, earlier: int, now: int)
    requires BeyondReturn(s, earlier) && earlier <= now
    ensures BeyondReturn(s, now)
  {
  }

  predicate NotVigenteAfter(p: Panel, steps: seq<Step>, id: nat, i: nat)
    requires i <= |steps|
  {
    id in Play(p, steps[..i]).db.settlements && Play(p, steps[..i]).db.settlements[id].status != VIGENTE
  }

  // A settlement that was final stays out of VIGENTE through every run, with its resolution kept, if and
  // only if no change to VIGENTE checked before is written late on it.
  lemma FinalUnlessLate(p: Panel, steps: seq<Step>, id: nat, start: int)
    requires Valid(p.db) && id in p.db.settlements && BeyondReturn(p.db.settlements[id], start) && StepsFrom(steps, start)
    ensures (forall i :: 0 <= i <= |steps| ==> NotVigenteAfter(p, steps, id, i)) <==> NoneLate(p, steps, id)
  {
    hide Late, Take, Valid, BeyondReturn, Play, NotVigenteAfter, StepsFrom;
    if NoneLate(p, steps, id) {
      forall i | 0 <= i <= |steps|
        ensures NotVigenteAfter(p, steps, id, i)
      {
        NeverVigenteBefore(p, steps, id, start, i);
      }
    }
    if i :| 0 <= i < |steps| && Late(Play(p, steps[..i]), steps[i], id) {
      VigenteAfterLate(p, steps, id, i);
    }
  }

  lemma NeverVigenteBefore(p: Panel, steps: seq<Step>, id: nat, start: int, i: nat)
    requires Valid(p.db) && id in p.db.settlements && BeyondReturn(p.db.settlements[id], start) && StepsFrom(steps, start)
    requires NoneLate(p, steps, id) && i <= |steps|
    ensures NotVigenteAfter(p, steps, id, i)
  {
    hide Late, Play, Valid, BeyondReturn, NoneLate;
    var now := if i == 0 then start else Now(steps[i - 1]);
    NoneLateBefore(p, steps, id, i);
    StepsBefore(steps, start, i);
    StaysBeyondReturn(p, steps[..i], id, start, now);
    NotVigente(Play(p, steps[..i]).db.settlements[id], now);
  }

  lemma PlayNext(p: Panel, steps: seq<Step>, i: nat)
    requires i < |steps|
    ensures Play(p, steps[..i + 1]) == Take(Play(p, steps[..i]), steps[i])
  {
    hide Take;
    assert steps[..i + 1][..i] == steps[..i];
  }

  lemma VigenteAfterLate(p: Panel, steps: seq<Step>, id: nat, i: nat)
    requires i < |steps| && Late(Play(p, steps[..i]), steps[i], id)
    ensures !NotVigenteAfter(p, steps, id, i + 1)
  {
    hide Late, Take;
    PlayNext(p, steps, i);
    LateMakesVigente(Play(p, steps[..i]), steps[i], id);
  }

  lemma NotVigente(s: Settlement, now: int)
    requires BeyondReturn(s, now)
    ensures s.status != VIGENTE
  {
  }

  // The row a check read still has the resolution and the payment order it had then, and the check is not ahead of the clock.
  ghost predicate Follows(db: Registry, pass: Pass, now: int) {
    && Sound(pass) && pass.at <= now && pass.id in db.settlements
    && (pass.seen.resolvedAt.Some? ==> db.settlements[pass.id].resolvedAt == pass.seen.resolvedAt)
    && (pass.seen.paymentOrder.Some? ==> db.settlements[pass.id].paymentOrder == pass.seen.paymentOrder)
  }

  ghost predicate AllFollow(p: Panel, now: int) {
    forall c :: c in p.passes ==> Follows(p.db, p.passes[c], now)
  }

  lemma EvolvesFollows(db: Registry, after: Registry, pass: Pass, earlier: int, now: int)
    requires Follows(db, pass, earlier) && earlier <= now
    requires pass.id in after.settlements
    requires db.settlements[pass.id].resolvedAt.Some? ==> after.settlements[pass.id].resolvedAt == db.settlements[pass.id].resolvedAt
    requires db.settlements[pass.id].paymentOrder.Some? ==> after.settlements[pass.id].paymentOrder == db.settlements[pass.id].paymentOrder
    ensures Follows(after, pass, now)
  {
    hide Sound;
  }

  lemma EvolvesKeepsLinks(before: Settlement, after: Settlement, now: int)
    requires Evolves(before, after, now)
    ensures before.resolvedAt.Some? ==> after.resolvedAt == before.resolvedAt
    ensures before.paymentOrder.Some? ==> after.paymentOrder == before.paymentOrder
  {
  }

  lemma StepFollows(p: Panel, step: Step, earlier: int)
    requires Valid(p.db) && AllFollow(p, earlier) && earlier <= Now(step)
    ensures AllFollow(Take(p, step), Now(step))
  {
    hide Exec, CheckChange, AllowedStatuses, Valid, Sound, Evolves, Follows;
    var q := Take(p, step);
    match step
    case Other(event) =>
      forall c | c in p.passes
        ensures Follows(q.db, p.passes[c], event.now)
      {
        PassFollows(p, event, p.passes[c], earlier);
      }
    case Check(_, municipality, administrator, id, target, at) =>
      CheckIsSound(p.db, municipality, administrator, id, target, at);
      CheckFollows(p.db, municipality, administrator, id, target, at);
      forall c | c in p.passes
        ensures Follows(p.db, p.passes[c], at)
      {
        FollowsLater(p.db, p.passes[c], earlier, at);
      }
    case Commit(change, at) =>
      forall c | c in p.passes
        ensures Follows(q.db, p.passes[c], at)
      {
        FollowsLater(p.db, p.passes[c], earlier, at);
        if change in p.passes {
          CommitFollows(p.db, p.passes[change], p.passes[c], at);
        }
      }
  }

  lemma PassFollows(p: Panel, event: Event, pass: Pass, earlier: int)
    requires Valid(p.db) && Follows(p.db, pass, earlier) && earlier <= event.now
    ensures Follows(Exec(p.db, event), pass, event.now)
  {
    hide Exec, Valid, Evolves, Sound;
    ExecEvolves(p.db, event, pass.id);
    EvolvesKeepsLinks(p.db.settlements[pass.id], Exec(p.db, event).settlements[pass.id], event.now);
    EvolvesFollows(p.db, Exec(p.db, event), pass, earlier, event.now);
  }

  lemma CheckFollows(db: Registry, municipality: nat, administrator: nat, id: nat, target: Status, now: int)
    ensures var checked := CheckChange(db, municipality, administrator, id, target, now);
            checked.Passed? && Sound(checked.pass) ==> Follows(db, checked.pass, now)
  {
    hide AllowedStatuses, Sound;
  }

  lemma FollowsLater(db: Registry, pass: Pass, earlier: int, now: int)
    requires Follows(db, pass, earlier) && earlier <= now
    ensures Follows(db, pass, now)
  {
  }

  lemma CommitFollows(db: Registry, written: Pass, pass: Pass, now: int)
    requires Follows(db, pass, now)
    ensures Follows(CommitChange(db, written).0, pass, now)
  {
    hide AllowedStatuses, Sound;
  }

  lemma CommitKeepsFinalAged(db: Registry, pass: Pass, now: int)
    requires FinalAreAged(db, now) && Follows(db, pass, now)
    ensures FinalAreAged(CommitChange(db, pass).0, now)
  {
    hide AllowedStatuses;
  }

  lemma FinalAgedLater(db: Registry, earlier: int, now: int)
    requires FinalAreAged(db, earlier) && earlier <= now
    ensures FinalAreAged(db, now)
  {
  }

  lemma StepKeepsFinalAged(p: Panel, step: Step, earlier: int)
    requires Valid(p.db) && AllFollow(p, earlier) && FinalAreAged(p.db, earlier) && earlier <= Now(step)
    ensures FinalAreAged(Take(p, step).db, Now(step))
  {
    hide Exec, CheckChange, AllowedStatuses, Valid, FinalAreAged, Follows, Run;
    FinalAgedLater(p.db, earlier, Now(step));
    match step
    case Other(event) =>
      OneEventRun(p.db, event);
      RunKeepsFinalAged(p.db, [event], earlier, event.now);
    case Check(_, _, _, _, _, _) =>
    case Commit(change, at) =>
      if change in p.passes {
        FollowsLater(p.db, p.passes[change], earlier, at);
        CommitKeepsFinalAged(p.db, p.passes[change], at);
      }
  }

  // With changes under way too, every final settlement has a resolution of the required age.
  lemma {:induction false} PlayKeepsFinalAged(p: Panel, steps: seq<Step>, start: int)
    requires Valid(p.db) && FinalAreAged(p.db, start) && AllFollow(p, start) && StepsFrom(steps, start)
    ensures var now := if steps == [] then start else Now(steps[|steps| - 1]);
            FinalAreAged(Play(p, steps).db, now) && AllFollow(Play(p, steps), now)
  {
    hide Take, Valid, FinalAreAged, AllFollow, Now;
    if steps != [] {
      var n := |steps| - 1;
      StepsBefore(steps, start, n);
      PlayKeepsFinalAged(p, steps[..n], start);
      PlayKeepsValid(p, steps[..n]);
      var earlier := if n == 0 then start else Now(steps[n - 1]);
      StepFollows(Play(p, steps[..n]), steps[n], earlier);
      StepKeepsFinalAged(Play(p, steps[..n]), steps[n], earlier);
    }
  }

  // A late change was checked when the settlement had no resolution, or one less than 60 days old.
  lemma LateWasCheckedInTime(p: Panel, step: Step, id: nat)
    requires Late(p, step, id) && forall c :: c in p.passes ==> Sound(p.passes[c])
    ensures !Aged(p.passes[step.change].seen, p.passes[step.change].at)
  {
  }

  // ---------- a final settlement made VIGENTE ----------

  const SIXTY_DAYS: int := EN_FIRME_DAYS * DAY_MS

  // Paid, with a resolution issued at the instant 0.
  const PAID := Settlement("01", 2020, 1.0, [], PAGADA, Some(0), None, None, None)

  const ONE_PAID := Registry(map["01" := Property(1, "", Extras(None, None, None, None, None), 1.0)], map[], {}, map[7 := PAID], 8, [])

  // One administrator takes the payment back on the last day; before it is written, another finds the
  // 60 days over, makes the settlement final and then paid again.
  const OVERTAKEN: seq<Step> := [
    Check(0, 1, 1, 7, VIGENTE, SIXTY_DAYS - 1),
    Other(PanelChange(1, 2, 7, EN_FIRME, SIXTY_DAYS)),
    Other(PanelChange(1, 2, 7, PAGADA, SIXTY_DAYS)),
    Commit(0, SIXTY_DAYS)]

  lemma FinalMadeVigente()
    ensures Valid(ONE_PAID) && StepsFrom(OVERTAKEN, 0)
    ensures 7 in Play(Panel(ONE_PAID, map[]), OVERTAKEN[..2]).db.settlements
    ensures Play(Panel(ONE_PAID, map[]), OVERTAKEN[..2]).db.settlements[7].status == EN_FIRME
    ensures 7 in Play(Panel(ONE_PAID, map[]), OVERTAKEN).db.settlements
    ensures Play(Panel(ONE_PAID, map[]), OVERTAKEN).db.settlements[7].status == VIGENTE
  {
    hide Take, Play, BaseStatus;
    var p0 := Panel(ONE_PAID, map[]);
    PlayNext(p0, OVERTAKEN, 0);
    PlayNext(p0, OVERTAKEN, 1);
    PlayNext(p0, OVERTAKEN, 2);
    PlayNext(p0, OVERTAKEN, 3);
    assert OVERTAKEN[..0] == [] && OVERTAKEN[..4] == OVERTAKEN;
    NothingPlayed(p0);
    var pass := Pass(7, PAID, VIGENTE, 1, SIXTY_DAYS - 1);
    TakesBack(p0, pass);
    MovesPaid(ONE_PAID, PAGADA, EN_FIRME, map[0 := pass]);
    MovesPaid(Play(p0, OVERTAKEN[..2]).db, EN_FIRME, PAGADA, map[0 := pass]);
    CommitsLate(Play(p0, OVERTAKEN[..3]), pass);
  }

  lemma NothingPlayed(p: Panel)
    ensures Play(p, []) == p
  {
  }

  lemma TakesBack(p: Panel, pass: Pass)
    requires p == Panel(ONE_PAID, map[]) && pass == Pass(7, PAID, VIGENTE, 1, SIXTY_DAYS - 1)
    ensures Take(p, OVERTAKEN[0]) == Panel(ONE_PAID, map[0 := pass])
  {
    hide AllowedStatuses;
    OfferedMeansAllowed(PAID, SIXTY_DAYS - 1, VIGENTE);
  }

  // The settlement of the example with this status, and its municipality's.
  predicate IsOnePaid(db: Registry, status: Status) {
    db.properties == ONE_PAID.properties && db.settlements == map[7 := PAID.(status := status)]
  }

  lemma MovesPaid(db: Registry, from: Status, to: Status, passes: map<nat, Pass>)
    requires IsOnePaid(db, from) && from in [EN_FIRME, PAGADA] && to in [EN_FIRME, PAGADA] && from != to
    ensures var after := Take(Panel(db, passes), Other(PanelChange(1, 2, 7, to, SIXTY_DAYS)));
            after.passes == passes && IsOnePaid(after.db, to)
  {
    hide AllowedStatuses;
    OfferedMeansAllowed(PAID.(status := from), SIXTY_DAYS, to);
  }

  lemma CommitsLate(p: Panel, pass: Pass)
    requires IsOnePaid(p.db, PAGADA) && p.passes == map[0 := pass] && pass.id == 7 && pass.seen == PAID && pass.to == VIGENTE
    ensures var after := Take(p, Commit(0, SIXTY_DAYS)).db;
            7 in after.settlements && after.settlements[7].status == VIGENTE
  {
    hide AllowedStatuses;
  }
}
