/** When a settlement becomes PRESCRITA, over whole runs and with the panel's changes under way. */
module Prescription {
  import opened Numbering
  import opened Settlements
  import opened Lifecycle
  import opened SettlementRuns
  import opened PanelChanges

  predicate Turns(before: Registry, after: Registry, id: nat) {
    && id in after.settlements && after.settlements[id].status == PRESCRITA
    && !(id in before.settlements && before.settlements[id].status == PRESCRITA)
  }

  // Whatever the events of a run, one makes a settlement PRESCRITA only while it is current and in no
  // payment order, or in one that is five years old.
  lemma RunPrescribes(db: Registry, events: seq<Event>, i: nat, id: nat)
    requires Valid(db) && i < |events| && Turns(Run(db, events[..i]), Run(db, events[..i + 1]), id)
    ensures var at := Run(db, events[..i]);
            id in at.settlements && at.settlements[id].replacedAt.None? && Prescribable(at.settlements[id], events[i].now)
  {
    hide Exec, Valid;
    assert events[..i + 1][..i] == events[..i];
    RunKeepsValid(db, events[..i]);
    EventPrescribes(Run(db, events[..i]), events[i], id);
  }

  lemma EventPrescribes(db: Registry, e: Event, id: nat)
    requires Valid(db) && Turns(db, Exec(db, e), id)
    ensures id in db.settlements && db.settlements[id].replacedAt.None? && Prescribable(db.settlements[id], e.now)
  {
    hide Exec, Valid;
    if id in db.settlements {
      ExecEvolves(db, e, id);
    } else {
      NewAreVigente(db, e, id);
    }
  }

  // ---------- changes under way ----------

  // A change checked before the settlement was in a payment order, written when it is in one that is not
  // five years old.
  predicate Overtaken(p: Panel, step: Step, id: nat) {
    && step.Commit? && step.change in p.passes
    && var pass := p.passes[step.change];
       && pass.id == id && pass.to == PRESCRITA && Unchanged(p.db, pass)
       && pass.seen.paymentOrder.None? && !Prescribable(p.db.settlements[id], step.at)
  }

  lemma StepPrescribes(p: Panel, step: Step, id: nat, earlier: int)
    requires Valid(p.db) && AllFollow(p, earlier) && earlier <= Now(step)
    requires Turns(p.db, Take(p, step).db, id)
    ensures id in p.db.settlements && p.db.settlements[id].replacedAt.None?
    ensures Prescribable(p.db.settlements[id], Now(step)) <==> !Overtaken(p, step, id)
    ensures step.Commit? ==> && step.change in p.passes && p.passes[step.change].id == id
                             && Prescribable(p.passes[step.change].seen, p.passes[step.change].at)
  {
    hide Exec, Valid, CheckChange, AllowedStatuses;
    match step
    case Other(event) => EventPrescribes(p.db, event, id);
    case Check(_, _, _, _, _, _) =>
    case Commit(change, at) => assert Follows(p.db, p.passes[change], earlier);
  }

  lemma OvertakenTurns(p: Panel, step: Step, id: nat, earlier: int)
    requires AllFollow(p, earlier) && Overtaken(p, step, id)
    ensures Turns(p.db, Take(p, step).db, id)
  {
    hide AllowedStatuses;
    assert Follows(p.db, p.passes[step.change], earlier);
  }

  ghost predicate ByTheRule(p: Panel, step: Step, id: nat) {
    Turns(p.db, Take(p, step).db, id) ==> id in p.db.settlements && Prescribable(p.db.settlements[id], Now(step))
  }

  // A settlement becomes PRESCRITA by the rule at every step of a run if and only if no change checked
  // before its payment order is written within that order's five years.
  lemma PrescribedUnlessOvertaken(p: Panel, steps: seq<Step>, id: nat, start: int)
    requires Valid(p.db) && FinalAreAged(p.db, start) && AllFollow(p, start) && StepsFrom(steps, start)
    ensures (forall i :: 0 <= i < |steps| ==> ByTheRule(Play(p, steps[..i]), steps[i], id))
       <==> forall i :: 0 <= i < |steps| ==> !Overtaken(Play(p, steps[..i]), steps[i], id)
  {
    hide Play, Take, Valid, AllFollow, Overtaken, FinalAreAged, Prescribable, ByTheRule, Now;
    forall i | 0 <= i < |steps|
      ensures ByTheRule(Play(p, steps[..i]), steps[i], id) <==> !Overtaken(Play(p, steps[..i]), steps[i], id)
    {
      StepsBefore(steps, start, i);
      PlayKeepsFinalAged(p, steps[..i], start);
      PlayKeepsValid(p, steps[..i]);
      RuleIff(Play(p, steps[..i]), steps[i], id, if i == 0 then start else Now(steps[i - 1]));
    }
  }

  lemma RuleIff(p: Panel, step: Step, id: nat, earlier: int)
    requires Valid(p.db) && AllFollow(p, earlier) && earlier <= Now(step)
    ensures ByTheRule(p, step, id) <==> !Overtaken(p, step, id)
  {
    hide Take, Valid, AllFollow, Overtaken, Prescribable, Now;
    if Overtaken(p, step, id) {
      OvertakenTurns(p, step, id, earlier);
    }
    if Turns(p.db, Take(p, step).db, id) {
      StepPrescribes(p, step, id, earlier);
    }
  }

  // ---------- a settlement prescribed right after its payment order ----------

  // Final, sixty days after its resolution, and in no payment order.
  const UNPAID := Settlement("01", 2015, 1.0, [], EN_FIRME, Some(0), None, None, None)

  const ONE_UNPAID := Registry(map["01" := Property(1, "", Extras(None, None, None, None, None), 1.0)], map[], {}, map[7 := UNPAID], 8, [])

  // The change is checked, the payment order is issued, the change is written.
  function TooSoon(order: PaymentOrder, at: int): seq<Step> {
    [Check(0, 1, 1, 7, PRESCRITA, SIXTY_DAYS), Other(IssueOrder(7, order, SIXTY_DAYS)), Commit(0, at)]
  }

  // For any order and any later instant, so within the order's five years too.
  lemma PrescribedTooSoon(order: PaymentOrder, at: int)
    requires at >= SIXTY_DAYS
    ensures Valid(ONE_UNPAID) && FinalAreAged(ONE_UNPAID, SIXTY_DAYS) && StepsFrom(TooSoon(order, at), SIXTY_DAYS)
    ensures 7 in Play(Panel(ONE_UNPAID, map[]), TooSoon(order, at)).db.settlements
    ensures var s := Play(Panel(ONE_UNPAID, map[]), TooSoon(order, at)).db.settlements[7];
            s.status == PRESCRITA && s.paymentOrder == Some(order)
  {
    hide Take, Play;
    var p0, steps := Panel(ONE_UNPAID, map[]), TooSoon(order, at);
    PlayNext(p0, steps, 0);
    PlayNext(p0, steps, 1);
    PlayNext(p0, steps, 2);
    assert steps[..0] == [] && steps[..3] == steps;
    NothingPlayed(p0);
    var pass := Pass(7, UNPAID, PRESCRITA, 1, SIXTY_DAYS);
    ChecksPrescription(p0, pass);
    OrderThenWrite(Panel(ONE_UNPAID, map[0 := pass]), pass, order, at);
  }

  lemma ChecksPrescription(p: Panel, pass: Pass)
    requires p == Panel(ONE_UNPAID, map[]) && pass == Pass(7, UNPAID, PRESCRITA, 1, SIXTY_DAYS)
    ensures Take(p, Check(0, 1, 1, 7, PRESCRITA, SIXTY_DAYS)) == Panel(ONE_UNPAID, map[0 := pass])
  {
    hide AllowedStatuses;
    OfferedMeansAllowed(UNPAID, SIXTY_DAYS, PRESCRITA);
  }

  lemma OrderThenWrite(p: Panel, pass: Pass, order: PaymentOrder, at: int)
    requires p == Panel(ONE_UNPAID, map[0 := pass]) && pass == Pass(7, UNPAID, PRESCRITA, 1, SIXTY_DAYS)
    ensures var after := Take(Take(p, Other(IssueOrder(7, order, SIXTY_DAYS))), Commit(0, at)).db;
            7 in after.settlements && after.settlements[7].status == PRESCRITA && after.settlements[7].paymentOrder == Some(order)
  {
    hide AllowedStatuses;
  }
}
