/** What a bulk job's plan and its counts list, said of the pending settlements in their order. */
module PlanLaws {
  import opened Numbering
  import opened Batching
  import opened Grouping

  // Five years behind the current one, or more.
  predicate AtRisk(s: Pending, currentYear: int) {
    currentYear - s.period >= 5
  }

  predicate OfThisKind(s: Pending, kind: Kind, currentYear: int) {
    AtRisk(s, currentYear) <==> kind == PRESCRIPTION_RISK
  }

  lemma KindIs(s: Pending, kind: Kind, currentYear: int)
    ensures KindOf(s.period, currentYear) == kind <==> OfThisKind(s, kind, currentYear)
  {
  }

  predicate InPlaceOrder(places: seq<nat>) {
    forall i, k :: 0 <= i < k < |places| ==> places[i] < places[k]
  }

  // A place of the pending list that goes to a property's group.
  predicate InGroup(pending: seq<Pending>, property: nat, kind: Kind, currentYear: int, n: nat) {
    n < |pending| && pending[n].property == property && OfThisKind(pending[n], kind, currentYear)
  }

  // The first one of its property.
  predicate StartsGroup(pending: seq<Pending>, kind: Kind, currentYear: int, n: nat) {
    && n < |pending| && OfThisKind(pending[n], kind, currentYear)
    && forall k :: 0 <= k < n && OfThisKind(pending[k], kind, currentYear) ==> pending[k].property != pending[n].property
  }

  // A group lists the ids at all its places, in order.
  ghost predicate Lists(pending: seq<Pending>, property: nat, kind: Kind, currentYear: int, places: seq<nat>, ids: seq<nat>) {
    && InPlaceOrder(places) && |ids| == |places|
    && (forall n: nat :: n in places <==> InGroup(pending, property, kind, currentYear, n))
    && (forall k :: 0 <= k < |places| ==> places[k] < |pending| && ids[k] == pending[places[k]].id)
  }

  lemma {:induction false} GroupLists(pending: seq<Pending>, property: nat, kind: Kind, currentYear: int) returns (places: seq<nat>)
    ensures Lists(pending, property, kind, currentYear, places, IdsOf(pending, property, kind, currentYear))
  {
    hide KindOf, OfThisKind;
    if pending == [] {
      places := [];
    } else {
      var n := |pending| - 1;
      places := GroupLists(pending[..n], property, kind, currentYear);
      KindIs(pending[n], kind, currentYear);
      forall k: nat | k < n
        ensures InGroup(pending[..n], property, kind, currentYear, k) <==> InGroup(pending, property, kind, currentYear, k)
      {
      }
      assert forall k :: 0 <= k < |places| ==> places[k] in places;
      if InGroup(pending, property, kind, currentYear, n) {
        places := places + [n];
      }
    }
  }

  // The properties come in order of the place they first appear at.
  ghost predicate Orders(pending: seq<Pending>, kind: Kind, currentYear: int, starts: seq<nat>, properties: seq<nat>) {
    && InPlaceOrder(starts) && |properties| == |starts|
    && (forall n: nat :: n in starts <==> StartsGroup(pending, kind, currentYear, n))
    && (forall k :: 0 <= k < |starts| ==> starts[k] < |pending| && properties[k] == pending[starts[k]].property)
  }

  lemma {:induction false} PropertiesOrdered(pending: seq<Pending>, kind: Kind, currentYear: int) returns (starts: seq<nat>)
    ensures Orders(pending, kind, currentYear, starts, PropertiesOf(pending, kind, currentYear))
  {
    hide KindOf, OfThisKind;
    if pending == [] {
      starts := [];
    } else {
      var n := |pending| - 1;
      starts := PropertiesOrdered(pending[..n], kind, currentYear);
      KindIs(pending[n], kind, currentYear);
      StartsSoFar(pending, kind, currentYear, n);
      NewProperty(pending, kind, currentYear, n);
      assert forall k :: 0 <= k < |starts| ==> starts[k] in starts;
      if StartsGroup(pending, kind, currentYear, n) {
        starts := starts + [n];
      }
    }
  }

  lemma StartsSoFar(pending: seq<Pending>, kind: Kind, currentYear: int, n: nat)
    requires |pending| == n + 1
    ensures forall k: nat :: k < n ==> (StartsGroup(pending[..n], kind, currentYear, k) <==> StartsGroup(pending, kind, currentYear, k))
    ensures forall k: nat :: k >= n ==> !StartsGroup(pending[..n], kind, currentYear, k)
    ensures forall k: nat :: k > n ==> !StartsGroup(pending, kind, currentYear, k)
  {
    hide OfThisKind;
    assert forall k :: 0 <= k < n ==> pending[..n][k] == pending[k];
  }

  lemma NewProperty(pending: seq<Pending>, kind: Kind, currentYear: int, n: nat)
    requires |pending| == n + 1
    ensures StartsGroup(pending, kind, currentYear, n)
       <==> OfThisKind(pending[n], kind, currentYear) && pending[n].property !in PropertiesOf(pending[..n], kind, currentYear)
  {
    hide KindOf, OfThisKind, PropertiesOf;
    PropertiesAre(pending[..n], kind, currentYear);
    forall k | 0 <= k < n
      ensures pending[..n][k] == pending[k] && pending[k] in pending[..n]
      ensures KindOf(pending[k].period, currentYear) == kind <==> OfThisKind(pending[k], kind, currentYear)
    {
      KindIs(pending[k], kind, currentYear);
    }
    if s :| s in pending[..n] && s.property == pending[n].property && KindOf(s.period, currentYear) == kind {
      var k :| 0 <= k < n && pending[k] == s;
    }
  }

  // The plan has one group for each property that starts one, in that order, and each lists its own.
  lemma PlanLists(pending: seq<Pending>, kind: Kind, currentYear: int) returns (starts: seq<nat>)
    ensures var groups := PlanGroups(pending, kind, currentYear);
            && |groups| == |starts|
            && Orders(pending, kind, currentYear, starts, seq(|groups|, i requires 0 <= i < |groups| => groups[i].property))
            && forall i :: 0 <= i < |groups| ==> GroupIsWhole(pending, kind, currentYear, groups[i])
  {
    hide PropertiesOf, IdsOf, OfThisKind, Orders, Lists;
    starts := PropertiesOrdered(pending, kind, currentYear);
    var groups := PlanGroups(pending, kind, currentYear);
    assert seq(|groups|, i requires 0 <= i < |groups| => groups[i].property) == PropertiesOf(pending, kind, currentYear);
    OrdersLength(pending, kind, currentYear, starts);
    forall i | 0 <= i < |groups|
      ensures GroupIsWhole(pending, kind, currentYear, groups[i])
    {
      var places := GroupLists(pending, groups[i].property, kind, currentYear);
    }
  }

  ghost predicate GroupIsWhole(pending: seq<Pending>, kind: Kind, currentYear: int, group: Group) {
    exists places :: Lists(pending, group.property, kind, currentYear, places, group.settlements)
  }

  lemma OrdersLength(pending: seq<Pending>, kind: Kind, currentYear: int, starts: seq<nat>)
    requires Orders(pending, kind, currentYear, starts, PropertiesOf(pending, kind, currentYear))
    ensures |starts| == |PropertiesOf(pending, kind, currentYear)|
  {
  }

  // ---------- the panel's triggers ----------

  // The first settlement of its property and kind.
  predicate Triggering(pending: seq<Pending>, currentYear: int, n: nat) {
    && n < |pending|
    && forall k :: 0 <= k < n && pending[k].property == pending[n].property ==> AtRisk(pending[k], currentYear) != AtRisk(pending[n], currentYear)
  }

  ghost predicate Triggered(pending: seq<Pending>, currentYear: int, places: seq<nat>, triggers: seq<Trigger>) {
    && InPlaceOrder(places) && |triggers| == |places|
    && (forall n: nat :: n in places <==> Triggering(pending, currentYear, n))
    && (forall k :: 0 <= k < |places| ==>
          && places[k] < |pending|
          && triggers[k].id == pending[places[k]].id && triggers[k].property == pending[places[k]].property
          && (triggers[k].kind == PRESCRIPTION_RISK <==> AtRisk(pending[places[k]], currentYear)))
  }

  lemma {:induction false} TriggersAre(pending: seq<Pending>, currentYear: int) returns (places: seq<nat>)
    ensures Triggered(pending, currentYear, places, Triggers(pending, currentYear))
  {
    hide KindOf, AtRisk, Covered;
    if pending == [] {
      places := [];
    } else {
      var n := |pending| - 1;
      places := TriggersAre(pending[..n], currentYear);
      TriggeringSoFar(pending, currentYear, n);
      TriggersHere(pending, currentYear, n);
      assert forall k :: 0 <= k < |places| ==> places[k] in places;
      if Triggering(pending, currentYear, n) {
        places := places + [n];
      }
    }
  }

  lemma TriggersHere(pending: seq<Pending>, currentYear: int, n: nat)
    requires |pending| == n + 1
    ensures var kind := KindOf(pending[n].period, currentYear);
            && (kind == PRESCRIPTION_RISK <==> AtRisk(pending[n], currentYear))
            && (Covered(Triggers(pending[..n], currentYear), pending[n].property, kind) <==> !Triggering(pending, currentYear, n))
  {
    hide Covered, Triggers;
    var kind := KindOf(pending[n].period, currentYear);
    KindIs(pending[n], kind, currentYear);
    OfKindMembers(Triggers(pending[..n], currentYear), kind);
    TriggersAreThePlansProperties(pending[..n], kind, currentYear);
    NewProperty(pending, kind, currentYear, n);
  }

  lemma TriggeringSoFar(pending: seq<Pending>, currentYear: int, n: nat)
    requires |pending| == n + 1
    ensures forall k: nat :: k < n ==> (Triggering(pending[..n], currentYear, k) <==> Triggering(pending, currentYear, k))
    ensures forall k: nat :: k >= n ==> !Triggering(pending[..n], currentYear, k)
    ensures forall k: nat :: k > n ==> !Triggering(pending, currentYear, k)
  {
    hide AtRisk;
    assert forall k :: 0 <= k < n ==> pending[..n][k] == pending[k];
  }
}
