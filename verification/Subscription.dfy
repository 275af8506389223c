/** What plans cost, how a subscription moves between them, and what is paid in a period. */
module Subscription {
  import opened Prelude

  datatype Tier = Bronze | Silver | Gold | Enterprise

  datatype Status = Trialing | Active

  datatype Plan = Plan(tier: Tier, status: Status, pending: Option<Tier>, lapsedFrom: Option<Tier>)

  function Rank(t: Tier): nat {
    match t
    case Bronze => 0
    case Silver => 1
    case Gold => 2
    case Enterprise => 3
  }

  /** One month, in minor units. */
  function PriceOf(t: Tier): nat {
    match t
    case Bronze => 9_900
    case Silver => 49_900
    case Gold => 99_900
    case Enterprise => 499_900
  }

  predicate Selectable(t: Tier) { t != Enterprise }

  /** The full price of a first plan, the difference of a move, never less than nothing. */
  function ChangeCost(from: Option<Tier>, to: Tier): nat {
    if from.None? then PriceOf(to)
    else if PriceOf(to) >= PriceOf(from.value) then PriceOf(to) - PriceOf(from.value)
    else 0
  }

  /** What a join is priced from: nothing, when nothing was paid for the tier being left. */
  function PricedFrom(p: Plan): Option<Tier> {
    if p.status.Trialing? || p.lapsedFrom.Some? then None else Some(p.tier)
  }

  // ----- The moves of a subscription -----

  predicate MayJoin(p: Plan, to: Tier) {
    Selectable(to) && (p.status.Trialing? || Rank(to) > Rank(p.tier))
  }

  predicate MaySchedule(p: Plan, to: Tier) {
    p.status.Active? && Rank(to) < Rank(p.tier)
  }

  /** The tier in force once a period may have ended. */
  function EffectiveTier(p: Plan, ended: bool): Tier {
    if !ended then p.tier
    else if p.pending.Some? && Rank(p.pending.value) < Rank(p.tier) then p.pending.value
    else Bronze
  }

  /** The row after a period that ended: the free tier rolls on, a scheduled move applies, anything else lapses. */
  function RolledOver(p: Plan): Plan {
    var next := EffectiveTier(p, true);
    if next == p.tier then Plan(p.tier, Active, None, None)
    else
      var scheduled := p.status.Active? && p.pending == Some(next);
      Plan(next, Active, None, if scheduled then None else Some(p.tier))
  }

  function Joined(p: Plan, to: Tier): Plan { Plan(to, Active, None, None) }

  /** How the running period began. */
  datatype Begun = Bought | Trial | Lapse | Given(tier: Tier)

  /** A subscription with its payments; those from `mark` on belong to the running period. */
  datatype Account = Account(plan: Plan, begun: Begun, ledger: seq<nat>, mark: nat)

  datatype Event = Join(to: Tier) | Schedule(down: Tier) | Cancel | PeriodEnds

  function SignUp(tier: Tier, trial: bool): Account {
    if trial then Account(Plan(tier, Trialing, None, None), Trial, [0], 0)
    else Account(Plan(tier, Active, None, None), Bought, [ChangeCost(None, tier)], 0)
  }

  function RollOver(a: Account): Account {
    var next := RolledOver(a.plan);
    var begun := if next.lapsedFrom.Some? then Lapse else Given(next.tier);
    Account(next, begun, if next.tier == a.plan.tier then a.ledger else a.ledger + [0], |a.ledger|)
  }

  function Apply(a: Account, e: Event): Account {
    match e
    case Join(to) =>
      if !MayJoin(a.plan, to) then a
      else
        var from := PricedFrom(a.plan);
        Account(Joined(a.plan, to), if from.None? then Bought else a.begun, a.ledger + [ChangeCost(from, to)],
                if from.None? then |a.ledger| else a.mark)
    case Schedule(to) => if MaySchedule(a.plan, to) then a.(plan := a.plan.(pending := Some(to))) else a
    case Cancel => a.(plan := a.plan.(pending := None))
    case PeriodEnds => RollOver(a)
  }

  function Run(a: Account, events: seq<Event>): Account {
    if events == [] then a else Apply(Run(a, events[..|events| - 1]), events[|events| - 1])
  }

  function Sum(s: seq<nat>): nat {
    if s == [] then 0 else Sum(s[..|s| - 1]) + s[|s| - 1]
  }

  // ----- What is paid in a period -----

  lemma SumSnoc(s: seq<nat>, x: nat)
    ensures Sum(s + [x]) == Sum(s) + x
  {
    assert (s + [x])[..|s|] == s;
  }

  function PaidThisPeriod(a: Account): nat
    requires a.mark <= |a.ledger|
  {
    Sum(a.ledger[a.mark..])
  }

  /** What the running period should have brought in. */
  function Due(a: Account): int {
    match a.begun
    case Bought => PriceOf(a.plan.tier)
    case Trial => 0
    case Lapse => 0
    case Given(t) => PriceOf(a.plan.tier) - PriceOf(t)
  }

  ghost predicate Settled(a: Account) {
    && a.mark <= |a.ledger| && PaidThisPeriod(a) == Due(a)
    && (a.begun.Trial? <==> a.plan.status.Trialing?)
    && (a.begun.Lapse? <==> a.plan.lapsedFrom.Some?)
  }

  /** A join that is let through always costs something, and the clamp at zero plays no part. */
  lemma JoinsCost(p: Plan, to: Tier)
    requires MayJoin(p, to)
    ensures ChangeCost(PricedFrom(p), to) > 0
    ensures ChangeCost(PricedFrom(p), to) == PriceOf(to) - if PricedFrom(p).None? then 0 else PriceOf(PricedFrom(p).value)
  {}

  // ----- The moves, in terms of money -----

  /** The published prices, and the published example: a walk up to Gold pays for Gold once. */
  lemma PublishedPrices()
    ensures PriceOf(Bronze) == 9_900 && PriceOf(Silver) == 49_900 && PriceOf(Gold) == 99_900 && PriceOf(Enterprise) == 499_900
    ensures Charged([Bronze, Silver, Gold]) == 99_900
  {
    var walk := [Bronze, Silver, Gold];
    WalkIsCharged(walk);
    assert walk[..2] == [Bronze, Silver] && walk[..2][..1] == [Bronze];
  }

  /** A join is let through to a dearer tier on sale, or to any on sale while nothing is paid for. */
  lemma JoinsUp(p: Plan, to: Tier)
    ensures MayJoin(p, to) <==> to in {Bronze, Silver, Gold} && (p.status == Trialing || PriceOf(to) > PriceOf(p.tier))
  {}

  /** A move is scheduled from a running plan to a cheaper tier. */
  lemma SchedulesDown(p: Plan, to: Tier)
    ensures MaySchedule(p, to) <==> p.status == Active && PriceOf(to) < PriceOf(p.tier)
  {}

  /** The four ways a period ends: a cheaper tier was named, the lowest tier rolls on, or the plan or a trial runs out. */
  lemma PeriodEndMeans(p: Plan)
    ensures RolledOver(p)
         == if p.pending.Some? && PriceOf(p.pending.value) < PriceOf(p.tier)
            then Plan(p.pending.value, Active, None, if p.status == Active then None else Some(p.tier))
            else if p.tier == Bronze then Plan(Bronze, Active, None, None)
            else Plan(Bronze, Active, None, Some(p.tier))
  {}

  /** What each event adds to the ledger: the difference or the full price, or a row of nothing when the tier changes by itself. */
  lemma EventPays(a: Account, e: Event)
    ensures Apply(a, e).ledger
         == a.ledger + match e
                       case Join(to) =>
                         if !MayJoin(a.plan, to) then []
                         else if a.plan.status == Trialing || a.plan.lapsedFrom.Some? then [PriceOf(to)]
                         else [PriceOf(to) - PriceOf(a.plan.tier)]
                       case PeriodEnds => if RolledOver(a.plan).tier == a.plan.tier then [] else [0]
                       case _ => []
  {
    match e
    case Join(to) => if MayJoin(a.plan, to) { JoinsCost(a.plan, to); }
    case _ =>
  }

  /** A scheduled move happens at the end of the period, for nothing and as no lapse; a cancelled one does not. */
  lemma ScheduledMoveHappens(a: Account, to: Tier)
    requires MaySchedule(a.plan, to)
    ensures var b := Apply(Apply(a, Schedule(to)), PeriodEnds);
            b.plan == Plan(to, Active, None, None) && b.ledger == a.ledger + [0]
    ensures var c := Apply(Apply(Apply(a, Schedule(to)), Cancel), PeriodEnds);
            c.plan == Plan(Bronze, Active, None, Some(a.plan.tier))
  {}

  /** What is refused changes nothing. */
  lemma RefusedChangesNothing(a: Account, to: Tier)
    ensures !MayJoin(a.plan, to) ==> Apply(a, Join(to)) == a
    ensures !MaySchedule(a.plan, to) ==> Apply(a, Schedule(to)) == a
  {}

  lemma PaidGrows(ledger: seq<nat>, mark: nat, x: nat)
    requires mark <= |ledger|
    ensures Sum((ledger + [x])[mark..]) == Sum(ledger[mark..]) + x
  {
    assert (ledger + [x])[mark..] == ledger[mark..] + [x];
    SumSnoc(ledger[mark..], x);
  }

  lemma PaidAfresh(ledger: seq<nat>, x: nat)
    ensures Sum((ledger + [x])[|ledger|..]) == x && Sum(ledger[|ledger|..]) == 0
  {
    assert ledger[|ledger|..] == [];
    PaidGrows(ledger, |ledger|, x);
  }

  lemma JoinSettles(a: Account, to: Tier)
    requires Settled(a) && MayJoin(a.plan, to)
    ensures Settled(Apply(a, Join(to)))
  {
    var cost := ChangeCost(PricedFrom(a.plan), to);
    JoinsCost(a.plan, to);
    if PricedFrom(a.plan).None? {
      PaidAfresh(a.ledger, cost);
    } else {
      PaidGrows(a.ledger, a.mark, cost);
    }
  }

  lemma EndSettles(a: Account)
    requires Settled(a)
    ensures Settled(Apply(a, PeriodEnds))
  {
    PaidAfresh(a.ledger, 0);
  }

  lemma EventSettles(a: Account, e: Event)
    requires Settled(a)
    ensures Settled(Apply(a, e))
  {
    match e
    case Join(to) => if MayJoin(a.plan, to) { JoinSettles(a, to); }
    case Schedule(_) =>
    case Cancel =>
    case PeriodEnds => EndSettles(a);
  }

  lemma SignUpSettles(tier: Tier, trial: bool)
    ensures Settled(SignUp(tier, trial))
  {
    var a := SignUp(tier, trial);
    OnePayment(a.ledger, a.ledger[0]);
  }

  lemma OnePayment(ledger: seq<nat>, x: nat)
    requires ledger == [x]
    ensures Sum(ledger[0..]) == x
  {
    assert ledger[0..] == ledger && ledger[..0] == [];
  }

  lemma {:induction false} RunSettles(a: Account, events: seq<Event>)
    requires Settled(a)
    ensures Settled(Run(a, events))
  {
    if events != [] {
      var before := Run(a, events[..|events| - 1]);
      RunSettles(a, events[..|events| - 1]);
      EventSettles(before, events[|events| - 1]);
    }
  }

  /**
   * After any moves since sign-up, the payments of the running period are the price of the tier in force, less the
   * price of a tier the period began with for nothing; a trial or a lapsed period has brought in nothing.
   */
  lemma PaidIsDue(tier: Tier, trial: bool, events: seq<Event>)
    ensures Settled(Run(SignUp(tier, trial), events))
  {
    SignUpSettles(tier, trial);
    RunSettles(SignUp(tier, trial), events);
  }

  /** The tier in force was paid in full this period exactly when the period began with a purchase. */
  lemma PaidInFull(tier: Tier, trial: bool, events: seq<Event>)
    ensures var a := Run(SignUp(tier, trial), events);
            a.mark <= |a.ledger| && (PaidThisPeriod(a) == PriceOf(a.plan.tier) <==> a.begun.Bought?)
  {
    PaidIsDue(tier, trial, events);
  }

  /** A walk up the ladder inside the first period pays, all in all, the price of the last tier. */
  lemma WalkCostsTheLastTier(tier: Tier, events: seq<Event>)
    requires forall e :: e in events ==> !e.PeriodEnds?
    ensures var a := Run(SignUp(tier, false), events); Sum(a.ledger) == PriceOf(a.plan.tier)
  {
    PaidIsDue(tier, false, events);
    StillBought(tier, events);
    var a := Run(SignUp(tier, false), events);
    assert a.ledger[0..] == a.ledger;
  }

  lemma {:induction false} StillBought(tier: Tier, events: seq<Event>)
    requires forall e :: e in events ==> !e.PeriodEnds?
    ensures var a := Run(SignUp(tier, false), events);
            a.begun.Bought? && a.mark == 0 && a.plan.status.Active? && a.plan.lapsedFrom.None?
  {
    if events != [] {
      var init := events[..|events| - 1];
      assert forall e :: e in init ==> e in events;
      assert events[|events| - 1] in events;
      StillBought(tier, init);
    }
  }

  /** What a walk of tiers is charged: the first in full, each move by its cost. */
  function Charged(walk: seq<Tier>): nat {
    if walk == [] then 0
    else
      var init := walk[..|walk| - 1];
      Charged(init) + ChangeCost(if init == [] then None else Some(init[|init| - 1]), walk[|walk| - 1])
  }

  /** The price lost at every step down. */
  function Drops(walk: seq<Tier>): nat {
    if |walk| < 2 then 0
    else
      var from, to := walk[|walk| - 2], walk[|walk| - 1];
      Drops(walk[..|walk| - 1]) + if PriceOf(from) > PriceOf(to) then PriceOf(from) - PriceOf(to) else 0
  }

  /** Over any walk up and down, the total charged is the price of the last tier and the sum of the drops. */
  lemma {:induction false} WalkIsCharged(walk: seq<Tier>)
    requires walk != []
    ensures Charged(walk) == PriceOf(walk[|walk| - 1]) + Drops(walk)
  {
    if |walk| > 1 {
      var init := walk[..|walk| - 1];
      WalkIsCharged(init);
      assert init[|init| - 1] == walk[|walk| - 2];
    }
  }

  // ----- Two readers, two writers -----

  /** The entitlement gate, which does not write, sees the tier that the plan page will write, and goes on seeing it. */
  lemma GateAgreesWithPage(p: Plan)
    ensures EffectiveTier(p, true) == RolledOver(p).tier == EffectiveTier(RolledOver(p), false)
  {}

  /** The update goes through only on a row that still has the tier and status that were read. */
  predicate Moves(row: Plan, read: Plan) { row.tier == read.tier && row.status == read.status }

  function Update(row: Plan, read: Plan, to: Tier): Plan {
    if Moves(row, read) then Joined(read, to) else row
  }

  /** Of two joins checked against one reading, only the first to write goes through. */
  lemma TwoTabsPayOnce(read: Plan, first: Tier, second: Tier)
    requires MayJoin(read, first) && MayJoin(read, second)
    ensures Moves(read, read) && !Moves(Update(read, read, first), read)
  {}

  /** A period that began on the free tier, then a move up: that period never brings in the tier's full price. */
  lemma FreeTierIsCounted(to: Tier)
    requires Rank(Bronze) < Rank(to) && Selectable(to)
    ensures var a := Run(SignUp(Bronze, false), [PeriodEnds, Join(to)]);
            a.mark <= |a.ledger| && a.plan.tier == to && PaidThisPeriod(a) == PriceOf(to) - PriceOf(Bronze)
  {
    var events := [PeriodEnds, Join(to)];
    assert events[..1] == [PeriodEnds] && [PeriodEnds][..0] == [];
    PaidIsDue(Bronze, false, events);
  }
}
