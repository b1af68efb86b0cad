/** Which pending settlements one resolution covers, computed in three places: a bulk job's plan, the
    pending counts, and the generation of a single one. */
module Grouping {
  import opened Numbering
  import opened Batching

  datatype Kind = PRESCRIPTION_RISK | NORMAL

  datatype Pending = Pending(id: nat, property: nat, period: int)

  datatype Group = Group(property: nat, settlements: seq<nat>)

  datatype Trigger = Trigger(id: nat, property: nat, kind: Kind)

  const PRESCRIPTION_YEARS := 5

  function KindOf(period: int, currentYear: int): Kind {
    if period <= currentYear - PRESCRIPTION_YEARS then PRESCRIPTION_RISK else NORMAL
  }

  // ---------- the plan of a bulk job ----------

  // The properties with pending settlements of the kind, in order of first appearance.
  function PropertiesOf(pending: seq<Pending>, kind: Kind, currentYear: int): seq<nat> {
    if pending == [] then []
    else
      var before := PropertiesOf(pending[..|pending| - 1], kind, currentYear);
      var last := pending[|pending| - 1];
      if KindOf(last.period, currentYear) != kind || last.property in before then before else before + [last.property]
  }

  function IdsOf(pending: seq<Pending>, property: nat, kind: Kind, currentYear: int): seq<nat> {
    if pending == [] then []
    else
      var last := pending[|pending| - 1];
      IdsOf(pending[..|pending| - 1], property, kind, currentYear)
      + if KindOf(last.period, currentYear) == kind && last.property == property then [last.id] else []
  }

  function PlanGroups(pending: seq<Pending>, kind: Kind, currentYear: int): seq<Group> {
    var properties := PropertiesOf(pending, kind, currentYear);
    seq(|properties|, i requires 0 <= i < |properties| => Group(properties[i], IdsOf(pending, properties[i], kind, currentYear)))
  }

  lemma PlanNext(pending: seq<Pending>, n: nat, kind: Kind, currentYear: int, property: nat)
    requires n < |pending|
    ensures PropertiesOf(pending[..n + 1], kind, currentYear)
         == if KindOf(pending[n].period, currentYear) != kind || pending[n].property in PropertiesOf(pending[..n], kind, currentYear)
            then PropertiesOf(pending[..n], kind, currentYear) else PropertiesOf(pending[..n], kind, currentYear) + [pending[n].property]
    ensures IdsOf(pending[..n + 1], property, kind, currentYear)
         == IdsOf(pending[..n], property, kind, currentYear)
            + if KindOf(pending[n].period, currentYear) == kind && pending[n].property == property then [pending[n].id] else []
  {
    assert pending[..n + 1][..n] == pending[..n];
  }

  // The plan's loop: one group per property, in a map that keeps insertion order.
  method Plan(pending: seq<Pending>, kind: Kind, currentYear: int) returns (groups: seq<Group>)
    ensures groups == PlanGroups(pending, kind, currentYear)
  {
    hide PropertiesOf, IdsOf, KindOf, Members;
    var order: seq<nat>, members: map<nat, seq<nat>> := [], map[];
    NothingPlanned(kind, currentYear);
    for n := 0 to |pending|
      invariant Members(members, order, pending[..n], kind, currentYear)
    {
      var settlement := pending[n];
      OneMoreMember(members, order, pending, n, kind, currentYear);
      if KindOf(settlement.period, currentYear) == kind {
        if settlement.property !in members {
          order := order + [settlement.property];
        }
        members := members[settlement.property :=
          (if settlement.property in members then members[settlement.property] else []) + [settlement.id]];
      }
    }
    assert pending[..|pending|] == pending;
    groups := seq(|order|, i requires 0 <= i < |order| => Group(order[i], if order[i] in members then members[order[i]] else []));
    MembersAreGroups(members, order, pending, kind, currentYear, groups);
  }

  // The plan's map so far: one entry per property seen, with its settlements.
  ghost predicate Members(members: map<nat, seq<nat>>, order: seq<nat>, pending: seq<Pending>, kind: Kind, currentYear: int) {
    && order == PropertiesOf(pending, kind, currentYear)
    && (forall property :: property in members <==> property in order)
    && (forall property: nat ::
          (if property in members then members[property] else []) == IdsOf(pending, property, kind, currentYear))
  }

  lemma NothingPlanned(kind: Kind, currentYear: int)
    ensures Members(map[], [], [], kind, currentYear)
  {
  }

  lemma MembersAreGroups(members: map<nat, seq<nat>>, order: seq<nat>, pending: seq<Pending>, kind: Kind, currentYear: int, groups: seq<Group>)
    requires Members(members, order, pending, kind, currentYear)
    requires groups == seq(|order|, i requires 0 <= i < |order| => Group(order[i], if order[i] in members then members[order[i]] else []))
    ensures groups == PlanGroups(pending, kind, currentYear)
  {
    hide PropertiesOf, IdsOf;
  }

  lemma OneMoreMember(members: map<nat, seq<nat>>, order: seq<nat>, pending: seq<Pending>, n: nat, kind: Kind, currentYear: int)
    requires n < |pending| && Members(members, order, pending[..n], kind, currentYear)
    ensures var p := pending[n].property;
            if KindOf(pending[n].period, currentYear) != kind then Members(members, order, pending[..n + 1], kind, currentYear)
            else Members(members[p := (if p in members then members[p] else []) + [pending[n].id]],
                         if p in members then order else order + [p], pending[..n + 1], kind, currentYear)
  {
    hide PropertiesOf, IdsOf, KindOf;
    forall property: nat {
      PlanNext(pending, n, kind, currentYear, property);
    }
    PlanNext(pending, n, kind, currentYear, pending[n].property);
  }

  // ---------- one trigger per group ----------

  predicate Covered(triggers: seq<Trigger>, property: nat, kind: Kind) {
    exists i :: 0 <= i < |triggers| && triggers[i].property == property && triggers[i].kind == kind
  }

  function Triggers(pending: seq<Pending>, currentYear: int): seq<Trigger> {
    if pending == [] then []
    else
      var before := Triggers(pending[..|pending| - 1], currentYear);
      var last := pending[|pending| - 1];
      var kind := KindOf(last.period, currentYear);
      if Covered(before, last.property, kind) then before else before + [Trigger(last.id, last.property, kind)]
  }

  method SelectGenerationTriggers(pending: seq<Pending>, currentYear: int) returns (triggers: seq<Trigger>)
    ensures triggers == Triggers(pending, currentYear)
  {
    triggers := [];
    var seen: set<(nat, Kind)> := {};
    for n := 0 to |pending|
      invariant triggers == Triggers(pending[..n], currentYear)
      invariant forall property: nat, kind :: (property, kind) in seen <==> Covered(triggers, property, kind)
    {
      assert pending[..n + 1][..n] == pending[..n];
      var settlement := pending[n];
      var kind := KindOf(settlement.period, currentYear);
      if (settlement.property, kind) !in seen {
        ghost var before := triggers;
        triggers := triggers + [Trigger(settlement.id, settlement.property, kind)];
        seen := seen + {(settlement.property, kind)};
        CoveredByOneMore(before, triggers[|before|]);
      }
    }
    assert pending[..|pending|] == pending;
  }

  lemma CoveredByOneMore(triggers: seq<Trigger>, t: Trigger)
    ensures forall property, kind :: Covered(triggers + [t], property, kind)
              <==> Covered(triggers, property, kind) || (property == t.property && kind == t.kind)
  {
    var all := triggers + [t];
    forall property, kind
      ensures Covered(all, property, kind) <==> Covered(triggers, property, kind) || (property == t.property && kind == t.kind)
    {
      if i :| 0 <= i < |triggers| && triggers[i].property == property && triggers[i].kind == kind {
        assert all[i] == triggers[i];
      }
      assert all[|triggers|] == t;
    }
  }

  // The triggers of one kind, by property.
  function OfKind(triggers: seq<Trigger>, kind: Kind): seq<nat> {
    if triggers == [] then []
    else OfKind(triggers[..|triggers| - 1], kind) + if triggers[|triggers| - 1].kind == kind then [triggers[|triggers| - 1].property] else []
  }

  lemma {:induction false} OfKindMembers(triggers: seq<Trigger>, kind: Kind)
    ensures forall property :: property in OfKind(triggers, kind) <==> Covered(triggers, property, kind)
  {
    if triggers != [] {
      var n := |triggers| - 1;
      OfKindMembers(triggers[..n], kind);
      assert triggers == triggers[..n] + [triggers[n]];
      CoveredByOneMore(triggers[..n], triggers[n]);
    }
  }

  // Both pick the same properties in the same order.
  lemma {:induction false} TriggersAreThePlansProperties(pending: seq<Pending>, kind: Kind, currentYear: int)
    ensures OfKind(Triggers(pending, currentYear), kind) == PropertiesOf(pending, kind, currentYear)
  {
    if pending != [] {
      var n := |pending| - 1;
      TriggersAreThePlansProperties(pending[..n], kind, currentYear);
      var before := Triggers(pending[..n], currentYear);
      OfKindMembers(before, kind);
      var t := Trigger(pending[n].id, pending[n].property, KindOf(pending[n].period, currentYear));
      assert (before + [t])[..|before|] == before;
      if t.kind == kind {
        assert Covered(before, t.property, kind) <==> t.property in PropertiesOf(pending[..n], kind, currentYear);
      }
    }
  }

  lemma {:induction false} PropertiesAre(pending: seq<Pending>, kind: Kind, currentYear: int)
    ensures forall property: nat :: property in PropertiesOf(pending, kind, currentYear)
              <==> exists s :: s in pending && s.property == property && KindOf(s.period, currentYear) == kind
    ensures forall i, k :: 0 <= i < k < |PropertiesOf(pending, kind, currentYear)|
              ==> PropertiesOf(pending, kind, currentYear)[i] != PropertiesOf(pending, kind, currentYear)[k]
  {
    if pending != [] {
      var n := |pending| - 1;
      PropertiesAre(pending[..n], kind, currentYear);
      assert pending == pending[..n] + [pending[n]];
      var before := PropertiesOf(pending[..n], kind, currentYear);
      forall property: nat
        ensures property in PropertiesOf(pending, kind, currentYear)
           <==> exists s :: s in pending && s.property == property && KindOf(s.period, currentYear) == kind
      {
        if s :| s in pending && s.property == property && KindOf(s.period, currentYear) == kind {
          assert s in pending[..n] || s == pending[n];
        }
        if s :| s in pending[..n] && s.property == property && KindOf(s.period, currentYear) == kind {
          assert s in pending;
        }
        assert pending[n] in pending;
      }
    }
  }

  function Elements(a: seq<nat>): set<nat> {
    set x | x in a
  }

  lemma {:induction false} DistinctLength(a: seq<nat>)
    requires forall i, k :: 0 <= i < k < |a| ==> a[i] != a[k]
    ensures |a| == |Elements(a)|
  {
    if a == [] {
      assert Elements(a) == {};
    } else {
      var n := |a| - 1;
      DistinctLength(a[..n]);
      assert a == a[..n] + [a[n]];
      assert Elements(a) == Elements(a[..n]) + {a[n]};
    }
  }

  // ---------- with the resolutions issued before ----------

  // A resolution issued before that still has a current settlement.
  datatype Issued = Issued(id: nat, number: string, kind: Kind)

  datatype Planned = New(group: Group) | Again(resolution: nat, number: string)

  function IssuedOfKind(issued: seq<Issued>, kind: Kind): seq<Planned> {
    if issued == [] then []
    else
      var last := issued[|issued| - 1];
      IssuedOfKind(issued[..|issued| - 1], kind) + if last.kind == kind then [Again(last.id, last.number)] else []
  }

  // A job's documents: the new ones first, then those rendered again.
  function PlannedDocuments(pending: seq<Pending>, issued: seq<Issued>, kind: Kind, currentYear: int): seq<Planned> {
    var groups := PlanGroups(pending, kind, currentYear);
    seq(|groups|, i requires 0 <= i < |groups| => New(groups[i])) + IssuedOfKind(issued, kind)
  }

  // How many resolutions of each kind there are; a kind without any has no entry.
  function CountedByKind(issued: seq<Issued>): map<Kind, nat> {
    if issued == [] then map[]
    else
      var before, kind := CountedByKind(issued[..|issued| - 1]), issued[|issued| - 1].kind;
      before[kind := (if kind in before then before[kind] else 0) + 1]
  }

  function PendingCount(pending: seq<Pending>, issued: seq<Issued>, kind: Kind, currentYear: int): nat {
    var counts := CountedByKind(issued);
    |OfKind(Triggers(pending, currentYear), kind)| + if kind in counts then counts[kind] else 0
  }

  // The plan's two queries and its loop.
  method PlanDocuments(pending: seq<Pending>, issued: seq<Issued>, kind: Kind, currentYear: int) returns (planned: seq<Planned>)
    ensures planned == PlannedDocuments(pending, issued, kind, currentYear)
  {
    hide PlanGroups;
    var groups := Plan(pending, kind, currentYear);
    planned := seq(|groups|, i requires 0 <= i < |groups| => New(groups[i]));
    ghost var created := planned;
    for n := 0 to |issued|
      invariant planned == created + IssuedOfKind(issued[..n], kind)
    {
      assert issued[..n + 1][..n] == issued[..n];
      if issued[n].kind == kind {
        planned := planned + [Again(issued[n].id, issued[n].number)];
      }
    }
    assert issued[..|issued|] == issued;
  }

  // The counts of both kinds, from the triggers and the grouped query.
  method CountPending(pending: seq<Pending>, issued: seq<Issued>, currentYear: int) returns (prescriptionRisk: nat, normal: nat)
    ensures prescriptionRisk == PendingCount(pending, issued, PRESCRIPTION_RISK, currentYear)
    ensures normal == PendingCount(pending, issued, NORMAL, currentYear)
  {
    var triggers := SelectGenerationTriggers(pending, currentYear);
    prescriptionRisk, normal := 0, 0;
    for n := 0 to |triggers|
      invariant prescriptionRisk == |OfKind(triggers[..n], PRESCRIPTION_RISK)| && normal == |OfKind(triggers[..n], NORMAL)|
    {
      assert triggers[..n + 1][..n] == triggers[..n];
      if triggers[n].kind == PRESCRIPTION_RISK {
        prescriptionRisk := prescriptionRisk + 1;
      } else {
        normal := normal + 1;
      }
    }
    assert triggers[..|triggers|] == triggers;
    var counts := CountedByKind(issued);
    prescriptionRisk := prescriptionRisk + if PRESCRIPTION_RISK in counts then counts[PRESCRIPTION_RISK] else 0;
    normal := normal + if NORMAL in counts then counts[NORMAL] else 0;
  }

  // How many of the elements are of the kind, whatever their order.
  lemma {:induction false} CountsAre(issued: seq<Issued>, kind: Kind)
    ensures |IssuedOfKind(issued, kind)| == if kind in CountedByKind(issued) then CountedByKind(issued)[kind] else 0
  {
    if issued != [] {
      CountsAre(issued[..|issued| - 1], kind);
    }
  }

  lemma {:induction false} CountedOnce(issued: seq<Issued>, at: nat, kind: Kind)
    requires at < |issued|
    ensures |IssuedOfKind(issued, kind)|
         == |IssuedOfKind(issued[..at] + issued[at + 1..], kind)| + if issued[at].kind == kind then 1 else 0
  {
    var n := |issued| - 1;
    if at < n {
      CountedOnce(issued[..n], at, kind);
      var rest := issued[..at] + issued[at + 1..];
      assert rest[..n - 1] == issued[..n][..at] + issued[..n][at + 1..] && rest[n - 1] == issued[n];
    } else {
      assert issued[..at] + issued[at + 1..] == issued[..n];
    }
  }

  // Taking the last of one list out of the other leaves the same again.
  lemma WithoutLast(a: seq<Issued>, b: seq<Issued>) returns (at: nat)
    requires multiset(a) == multiset(b) && a != []
    ensures at < |b| && b[at] == a[|a| - 1] && multiset(b[..at] + b[at + 1..]) == multiset(a[..|a| - 1])
  {
    var n := |a| - 1;
    assert a == a[..n] + [a[n]];
    assert a[n] in multiset(b);
    at :| 0 <= at < |b| && b[at] == a[n];
    assert b == b[..at] + [b[at]] + b[at + 1..];
    var rest := b[..at] + b[at + 1..];
    assert multiset(b) == multiset(b[..at]) + multiset{b[at]} + multiset(b[at + 1..]);
    assert multiset(rest) == multiset(b[..at]) + multiset(b[at + 1..]);
    assert multiset(a) == multiset(a[..n]) + multiset{a[n]};
    assert multiset(rest) == multiset(b) - multiset{a[n]};
  }

  lemma NoneLeft(b: seq<Issued>)
    requires multiset(b) == multiset{}
    ensures b == []
  {
    assert |multiset(b)| == |b|;
  }

  lemma {:induction false} OrderDoesNotCount(a: seq<Issued>, b: seq<Issued>, kind: Kind)
    requires multiset(a) == multiset(b)
    ensures |IssuedOfKind(a, kind)| == |IssuedOfKind(b, kind)|
    decreases |a|
  {
    if a == [] {
      NoneLeft(b);
    } else {
      var at := WithoutLast(a, b);
      OrderDoesNotCount(a[..|a| - 1], b[..at] + b[at + 1..], kind);
      CountedOnce(b, at, kind);
    }
  }

  // The count shown for a kind is the number of documents its bulk job plans, new ones and those issued
  // before, even though the queries may return the rows in different orders.
  lemma PendingCountIsThePlans(counted: seq<Pending>, planned: seq<Pending>, issuedCounted: seq<Issued>, issuedPlanned: seq<Issued>,
                               kind: Kind, currentYear: int)
    requires (forall s :: s in counted <==> s in planned) && multiset(issuedCounted) == multiset(issuedPlanned)
    ensures PendingCount(counted, issuedCounted, kind, currentYear) == |PlannedDocuments(planned, issuedPlanned, kind, currentYear)|
  {
    hide PropertiesOf, OfKind, Triggers, IssuedOfKind, CountedByKind;
    TriggersAreThePlansProperties(counted, kind, currentYear);
    PropertiesAre(counted, kind, currentYear);
    PropertiesAre(planned, kind, currentYear);
    var a, b := PropertiesOf(counted, kind, currentYear), PropertiesOf(planned, kind, currentYear);
    assert Elements(a) == Elements(b);
    DistinctLength(a);
    DistinctLength(b);
    CountsAre(issuedCounted, kind);
    OrderDoesNotCount(issuedCounted, issuedPlanned, kind);
  }

  // ---------- the group of a single generation ----------

  function Find(settlements: seq<Pending>, id: nat): (found: Option<Pending>)
    ensures found.Some? ==> found.value in settlements && found.value.id == id
    ensures found.None? ==> forall s :: s in settlements ==> s.id != id
  {
    if settlements == [] then None
    else if settlements[0].id == id then Some(settlements[0])
    else Find(settlements[1..], id)
  }

  function SameKind(settlements: seq<Pending>, kind: Kind, currentYear: int): seq<Pending> {
    if settlements == [] then []
    else
      (if KindOf(settlements[0].period, currentYear) == kind then [settlements[0]] else [])
      + SameKind(settlements[1..], kind, currentYear)
  }

  function InsertByPeriod(s: Pending, sorted: seq<Pending>): seq<Pending> {
    if sorted == [] || s.period <= sorted[0].period then [s] + sorted
    else [sorted[0]] + InsertByPeriod(s, sorted[1..])
  }

  function SortByPeriod(settlements: seq<Pending>): seq<Pending> {
    if settlements == [] then [] else InsertByPeriod(settlements[0], SortByPeriod(settlements[1..]))
  }

  // The trigger's same-kind siblings by period; None when the trigger is not among the settlements,
  // which the source refuses.
  function GroupForResolution(settlements: seq<Pending>, trigger: nat, currentYear: int): Option<seq<Pending>> {
    match Find(settlements, trigger)
    case None => None
    case Some(t) => Some(SortByPeriod(SameKind(settlements, KindOf(t.period, currentYear), currentYear)))
  }

  predicate ByPeriod(sorted: seq<Pending>) {
    forall i, k :: 0 <= i < k < |sorted| ==> sorted[i].period <= sorted[k].period
  }

  lemma {:induction false} InsertKeepsAll(s: Pending, sorted: seq<Pending>)
    ensures multiset(InsertByPeriod(s, sorted)) == multiset(sorted) + multiset{s}
  {
    if !(sorted == [] || s.period <= sorted[0].period) {
      InsertKeepsAll(s, sorted[1..]);
      assert sorted == [sorted[0]] + sorted[1..];
    }
  }

  lemma FromMember(p: Pending, sorted: seq<Pending>)
    requires ByPeriod(sorted) && forall i :: 0 <= i < |sorted| ==> p.period <= sorted[i].period
    ensures ByPeriod([p] + sorted)
  {
  }

  lemma {:induction false} InsertedByPeriod(s: Pending, sorted: seq<Pending>)
    requires ByPeriod(sorted)
    ensures ByPeriod(InsertByPeriod(s, sorted))
  {
    if sorted == [] || s.period <= sorted[0].period {
      FromMember(s, sorted);
    } else {
      hide ByPeriod, InsertByPeriod;
      TailByPeriod(sorted);
      InsertedByPeriod(s, sorted[1..]);
      InsertKeepsAll(s, sorted[1..]);
      var rest := InsertByPeriod(s, sorted[1..]);
      forall k | 0 <= k < |rest|
        ensures sorted[0].period <= rest[k].period
      {
        assert rest[k] in multiset(rest);
        assert rest[k] == s || rest[k] in sorted[1..];
      }
      FromMember(sorted[0], rest);
      InsertFurther(s, sorted);
    }
  }

  lemma TailByPeriod(sorted: seq<Pending>)
    requires ByPeriod(sorted) && sorted != []
    ensures ByPeriod(sorted[1..]) && forall p :: p in sorted[1..] ==> sorted[0].period <= p.period
  {
  }

  lemma InsertFurther(s: Pending, sorted: seq<Pending>)
    requires sorted != [] && s.period > sorted[0].period
    ensures InsertByPeriod(s, sorted) == [sorted[0]] + InsertByPeriod(s, sorted[1..])
  {
  }

  lemma {:induction false} SortedByPeriod(settlements: seq<Pending>)
    ensures ByPeriod(SortByPeriod(settlements)) && multiset(SortByPeriod(settlements)) == multiset(settlements)
  {
    if settlements != [] {
      SortedByPeriod(settlements[1..]);
      InsertedByPeriod(settlements[0], SortByPeriod(settlements[1..]));
      InsertKeepsAll(settlements[0], SortByPeriod(settlements[1..]));
      assert settlements == [settlements[0]] + settlements[1..];
    }
  }

  lemma {:induction false} SameKindAre(settlements: seq<Pending>, kind: Kind, currentYear: int)
    ensures forall s :: s in SameKind(settlements, kind, currentYear) <==> s in settlements && KindOf(s.period, currentYear) == kind
  {
    if settlements != [] {
      SameKindAre(settlements[1..], kind, currentYear);
      assert settlements == [settlements[0]] + settlements[1..];
    }
  }

  lemma {:induction false} IdsAre(pending: seq<Pending>, property: nat, kind: Kind, currentYear: int)
    ensures forall id :: id in IdsOf(pending, property, kind, currentYear)
              <==> exists s :: s in pending && s.id == id && s.property == property && KindOf(s.period, currentYear) == kind
  {
    if pending != [] {
      var n := |pending| - 1;
      IdsAre(pending[..n], property, kind, currentYear);
      assert pending == pending[..n] + [pending[n]];
    }
  }

  // A single generation started from any pending settlement covers exactly the group a bulk job would
  // plan for its property and kind, in order of period.
  lemma SingleCoversThePlannedGroup(pending: seq<Pending>, candidates: seq<Pending>, trigger: nat, property: nat, currentYear: int)
    requires forall s :: s in candidates <==> s in pending && s.property == property
    requires Find(candidates, trigger).Some?
    ensures GroupForResolution(candidates, trigger, currentYear).Some?
    ensures var group := GroupForResolution(candidates, trigger, currentYear).value;
            var kind := KindOf(Find(candidates, trigger).value.period, currentYear);
            && ByPeriod(group)
            && exists g :: && 0 <= g < |PlanGroups(pending, kind, currentYear)|
                           && PlanGroups(pending, kind, currentYear)[g].property == property
                           && (set s | s in group :: s.id) == Elements(PlanGroups(pending, kind, currentYear)[g].settlements)
  {
    hide SortByPeriod, SameKind, PropertiesOf, IdsOf;
    var t := Find(candidates, trigger).value;
    var kind := KindOf(t.period, currentYear);
    var same := SameKind(candidates, kind, currentYear);
    var group := SortByPeriod(same);
    SortedByPeriod(same);
    SameKindAre(candidates, kind, currentYear);
    PropertiesAre(pending, kind, currentYear);
    IdsAre(pending, property, kind, currentYear);
    var properties := PropertiesOf(pending, kind, currentYear);
    assert property in properties;
    var g :| 0 <= g < |properties| && properties[g] == property;
    forall s
      ensures s in group <==> s in pending && s.property == property && KindOf(s.period, currentYear) == kind
    {
      assert s in group <==> s in multiset(group);
      assert s in same <==> s in multiset(same);
    }
    var ids := IdsOf(pending, property, kind, currentYear);
    assert forall id :: id in (set s | s in group :: s.id) <==> id in ids;
    assert PlanGroups(pending, kind, currentYear)[g] == Group(property, ids);
  }

  // ---------- the plan covers every pending settlement once ----------

  predicate DistinctIds(pending: seq<Pending>) {
    forall i, k :: 0 <= i < k < |pending| ==> pending[i].id != pending[k].id
  }

  predicate NoRepeats(ids: seq<nat>) {
    forall i, k :: 0 <= i < k < |ids| ==> ids[i] != ids[k]
  }

  lemma {:induction false} IdsDistinct(pending: seq<Pending>, property: nat, kind: Kind, currentYear: int)
    requires DistinctIds(pending)
    ensures NoRepeats(IdsOf(pending, property, kind, currentYear))
  {
    if pending != [] {
      var n := |pending| - 1;
      IdsDistinct(pending[..n], property, kind, currentYear);
      IdsAre(pending[..n], property, kind, currentYear);
      forall s | s in pending[..n]
        ensures s.id != pending[n].id
      {
        var i :| 0 <= i < n && pending[i] == s;
      }
      var before := IdsOf(pending[..n], property, kind, currentYear);
      assert forall i :: 0 <= i < |before| ==> before[i] in before;
    }
  }

  // No group is empty, no settlement is planned twice, and together the groups are exactly the pending
  // settlements of the kind: what the reservation's linking guard asks for.
  lemma PlanCoversEachOnce(pending: seq<Pending>, kind: Kind, currentYear: int)
    requires DistinctIds(pending)
    ensures var groups := PlanGroups(pending, kind, currentYear);
            && (forall g :: 0 <= g < |groups| ==> groups[g].settlements != [])
            && (forall g :: 0 <= g < |groups| ==> NoRepeats(groups[g].settlements))
            && (forall g, h, id :: 0 <= g < h < |groups| && id in groups[g].settlements ==> id !in groups[h].settlements)
            && (forall s :: s in pending && KindOf(s.period, currentYear) == kind
                  ==> exists g :: 0 <= g < |groups| && groups[g].property == s.property && s.id in groups[g].settlements)
            && (forall g, id :: 0 <= g < |groups| && id in groups[g].settlements
                  ==> exists s :: s in pending && s.id == id && s.property == groups[g].property && KindOf(s.period, currentYear) == kind)
  {
    hide PropertiesOf, IdsOf;
    var groups := PlanGroups(pending, kind, currentYear);
    var properties := PropertiesOf(pending, kind, currentYear);
    PropertiesAre(pending, kind, currentYear);
    forall g | 0 <= g < |groups|
      ensures groups[g].settlements != []
      ensures NoRepeats(groups[g].settlements)
      ensures forall id :: id in groups[g].settlements
                <==> exists s :: s in pending && s.id == id && s.property == groups[g].property && KindOf(s.period, currentYear) == kind
    {
      IdsAre(pending, properties[g], kind, currentYear);
      IdsDistinct(pending, properties[g], kind, currentYear);
      assert properties[g] in properties;
      var s :| s in pending && s.property == properties[g] && KindOf(s.period, currentYear) == kind;
      assert s.id in groups[g].settlements;
    }
    forall s | s in pending && KindOf(s.period, currentYear) == kind
      ensures exists g :: 0 <= g < |groups| && groups[g].property == s.property && s.id in groups[g].settlements
    {
      assert s.property in properties;
      var g :| 0 <= g < |properties| && properties[g] == s.property;
      assert groups[g].property == s.property;
    }
    forall g, h, id | 0 <= g < h < |groups| && id in groups[g].settlements
      ensures id !in groups[h].settlements
    {
      SameIdSameSettlement(pending, id);
      assert groups[g].property != groups[h].property;
    }
  }

  lemma SameIdSameSettlement(pending: seq<Pending>, id: nat)
    requires DistinctIds(pending)
    ensures forall a, b :: a in pending && b in pending && a.id == id && b.id == id ==> a == b
  {
    forall a, b | a in pending && b in pending && a.id == id && b.id == id
      ensures a == b
    {
      var i :| 0 <= i < |pending| && pending[i] == a;
      var k :| 0 <= k < |pending| && pending[k] == b;
    }
  }

  function Listed(groups: seq<Group>): seq<seq<nat>> {
    seq(|groups|, g requires 0 <= g < |groups| => groups[g].settlements)
  }

  lemma {:induction false} FlattenMembers(lists: seq<seq<nat>>)
    ensures forall id :: id in Flatten(lists) <==> exists g :: 0 <= g < |lists| && id in lists[g]
  {
    if lists != [] {
      FlattenMembers(lists[1..]);
      forall id
        ensures id in Flatten(lists) <==> exists g :: 0 <= g < |lists| && id in lists[g]
      {
        if g :| 0 <= g < |lists| && id in lists[g] {
          assert g > 0 ==> lists[1..][g - 1] == lists[g];
        }
      }
    }
  }

  lemma {:induction false} FlattenHasNoRepeats(lists: seq<seq<nat>>)
    requires forall g :: 0 <= g < |lists| ==> NoRepeats(lists[g])
    requires forall g, h, id :: 0 <= g < h < |lists| && id in lists[g] ==> id !in lists[h]
    ensures NoRepeats(Flatten(lists))
  {
    if lists != [] {
      FlattenHasNoRepeats(lists[1..]);
      FlattenMembers(lists[1..]);
      var rest := Flatten(lists[1..]);
      forall i, k | 0 <= i < |lists[0]| && 0 <= k < |rest|
        ensures lists[0][i] != rest[k]
      {
        assert rest[k] in rest && lists[0][i] in lists[0];
        var g :| 0 <= g < |lists[1..]| && rest[k] in lists[1..][g];
        assert lists[1..][g] == lists[g + 1];
      }
    }
  }

  // The ids a bulk reservation links are all different.
  lemma PlannedIdsAreDistinct(pending: seq<Pending>, kind: Kind, currentYear: int)
    requires DistinctIds(pending)
    ensures NoRepeats(Flatten(Listed(PlanGroups(pending, kind, currentYear))))
  {
    hide PropertiesOf, IdsOf;
    PlanCoversEachOnce(pending, kind, currentYear);
    FlattenHasNoRepeats(Listed(PlanGroups(pending, kind, currentYear)));
  }
}
