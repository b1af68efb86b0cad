/** Settlements of the tax roll and the rules of their status. Times are instants in milliseconds. */
module Settlements {
  import opened Numbering

  datatype Status = VIGENTE | EN_FIRME | PAGADA | ACUERDO_DE_PAGO | PRESCRITA

  // A payment order, with the instant it turns five calendar years old.
  datatype PaymentOrder = PaymentOrder(issuedAt: int, fifthAnniversary: int)

  datatype Settlement = Settlement(
    property: string,
    period: int,
    total: real,
    amounts: seq<real>,
    status: Status,
    resolvedAt: Option<int>,
    paymentOrder: Option<PaymentOrder>,
    replacedAt: Option<int>,
    missingSince: Option<int>)

  datatype Extras = Extras(
    ruralDistrict: Option<string>,
    neighborhood: Option<string>,
    latitude: Option<real>,
    longitude: Option<real>,
    landUse: Option<string>)

  datatype Property = Property(municipality: nat, address: string, extras: Extras, appraisal: real)

  datatype Owner = Owner(name: string, documentType: Option<string>)

  datatype Source = MANUAL | ASSISTANT

  datatype StatusEvent = StatusEvent(settlement: nat, from: Status, to: Status, source: Source, administrator: nat)

  // Properties are known by their cadastral code, unique in the whole system; owners by their document
  // within a municipality.
  datatype Registry = Registry(
    properties: map<string, Property>,
    owners: map<(nat, string), Owner>,
    links: set<(string, string)>,
    settlements: map<nat, Settlement>,
    nextId: nat,
    events: seq<StatusEvent>)

  // ---------- the rules of a status ----------

  const EN_FIRME_DAYS: int := 60
  const DAY_MS: int := 24 * 60 * 60 * 1000

  function EnFirmeCutoff(now: int): int {
    now - EN_FIRME_DAYS * DAY_MS
  }

  function BaseStatus(resolvedAt: Option<int>, now: int): Status {
    if resolvedAt.Some? && resolvedAt.value <= EnFirmeCutoff(now) then EN_FIRME else VIGENTE
  }

  predicate Allowed(s: Settlement, target: Status, now: int) {
    || target == s.status
    || target == BaseStatus(s.resolvedAt, now)
    || target == PAGADA
    || target == ACUERDO_DE_PAGO
    || (target == PRESCRITA && (s.paymentOrder.None? || s.paymentOrder.value.fifthAnniversary <= now))
  }

  const ALL_STATUSES: seq<Status> := [VIGENTE, EN_FIRME, PAGADA, ACUERDO_DE_PAGO, PRESCRITA]

  // The states offered, in the order of the enumeration.
  function AllowedStatuses(s: Settlement, now: int): seq<Status> {
    Filter(ALL_STATUSES, s, now)
  }

  function Filter(all: seq<Status>, s: Settlement, now: int): seq<Status> {
    if all == [] then []
    else (if Allowed(s, all[0], now) then [all[0]] else []) + Filter(all[1..], s, now)
  }

  lemma {:induction false} FilterIs(all: seq<Status>, s: Settlement, now: int, target: Status)
    ensures target in Filter(all, s, now) <==> target in all && Allowed(s, target, now)
  {
    if all != [] {
      FilterIs(all[1..], s, now, target);
    }
  }

  // ---------- the same rules, in days and dates ----------

  // The resolution is at least sixty days old, to the millisecond.
  predicate Aged(s: Settlement, now: int) {
    s.resolvedAt.Some? && s.resolvedAt.value + 60 * 24 * 60 * 60 * 1000 <= now
  }

  // No payment order, or one that is five years old.
  predicate Prescribable(s: Settlement, now: int) {
    s.paymentOrder.None? || s.paymentOrder.value.fifthAnniversary <= now
  }

  predicate MayBecome(s: Settlement, target: Status, now: int) {
    match target
    case VIGENTE => s.status == VIGENTE || !Aged(s, now)
    case EN_FIRME => s.status == EN_FIRME || Aged(s, now)
    case PAGADA => true
    case ACUERDO_DE_PAGO => true
    case PRESCRITA => s.status == PRESCRITA || Prescribable(s, now)
  }

  lemma OfferedMeansAllowed(s: Settlement, now: int, target: Status)
    ensures target in AllowedStatuses(s, now) <==> MayBecome(s, target, now)
  {
    FilterIs(ALL_STATUSES, s, now, target);
  }

  function Rank(status: Status): nat {
    match status
    case VIGENTE => 0
    case EN_FIRME => 1
    case PAGADA => 2
    case ACUERDO_DE_PAGO => 3
    case PRESCRITA => 4
  }

  // And each once, in the order of the enumeration.
  lemma OfferedInOrder(s: Settlement, now: int)
    ensures var offered := AllowedStatuses(s, now);
            forall i, k :: 0 <= i < k < |offered| ==> Rank(offered[i]) < Rank(offered[k])
  {
    hide Allowed, Rank;
    assert forall i, k :: 0 <= i < k < |ALL_STATUSES| ==> Rank(ALL_STATUSES[i]) < Rank(ALL_STATUSES[k]) by {
      RanksAscend();
    }
    FilterKeepsOrder(ALL_STATUSES, s, now);
    var offered := AllowedStatuses(s, now);
    assert offered == Filter(ALL_STATUSES, s, now);
    assert forall i, k :: 0 <= i < k < |offered| ==> Rank(offered[i]) < Rank(offered[k]);
  }

  lemma RanksAscend()
    ensures forall i, k :: 0 <= i < k < |ALL_STATUSES| ==> Rank(ALL_STATUSES[i]) < Rank(ALL_STATUSES[k])
  {
  }

  lemma {:induction false} FilterKeepsOrder(all: seq<Status>, s: Settlement, now: int)
    requires forall i, k :: 0 <= i < k < |all| ==> Rank(all[i]) < Rank(all[k])
    ensures var kept := Filter(all, s, now);
            forall i, k :: 0 <= i < k < |kept| ==> Rank(kept[i]) < Rank(kept[k])
  {
    hide Allowed;
    if all != [] {
      FilterKeepsOrder(all[1..], s, now);
      var rest := Filter(all[1..], s, now);
      forall i | 0 <= i < |rest|
        ensures rest[i] in all[1..]
      {
        FilterIs(all[1..], s, now, rest[i]);
      }
    }
  }

  predicate Current(s: Settlement) {
    s.replacedAt.None?
  }

  // At most one current settlement per property and period, the database's partial unique index.
  ghost predicate OneCurrent(settlements: map<nat, Settlement>) {
    forall a, b ::
      (a in settlements && b in settlements && Current(settlements[a]) && Current(settlements[b])
       && PeriodOf(settlements[a]) == PeriodOf(settlements[b])) ==> a == b
  }

  ghost predicate IdsBelow(settlements: map<nat, Settlement>, nextId: nat) {
    forall id :: id in settlements ==> id < nextId
  }

  ghost predicate Valid(db: Registry) {
    OneCurrent(db.settlements) && IdsBelow(db.settlements, db.nextId)
  }

  function PeriodOf(s: Settlement): (string, int) {
    (s.property, s.period)
  }
}
