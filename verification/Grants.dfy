/** Candidate grants, targets, scopes, and the resolver that decides one permission question. */
module Grants {
  import opened Prelude
  import opened OrgGraph

  datatype Scope = SelfOnly | OwnUnit | Subtree | All

  function Breadth(s: Scope): nat {
    match s
    case SelfOnly => 0
    case OwnUnit => 1
    case Subtree => 2
    case All => 3
  }

  datatype Effect = Allow | Deny

  datatype Via = Person | Position | Role | Group | Delegation | Support

  datatype Grant = Grant(
    grantId: Id, capability: string, scope: Scope, effect: Effect, via: Via, subjectName: string,
    anchorUnitId: Option<Id>, anchorUnitName: Option<string>, level: Option<int>,
    validFrom: int, validTo: Option<int>, params: Params := map[])

  /** Numeric limits that come with a grant. */
  type Params = map<string, real>

  datatype Target =
    | OrgTarget
    | UnitTarget(unitId: Id)
    | PersonTarget(userId: Id, personUnit: Option<Id>)
    | SubjectTarget(subjectUnit: Option<Id>)
    | CampaignTarget(campaignUnit: Option<Id>)
    | SelfTarget(selfId: Id)

  function TargetUnit(t: Target): Option<Id> {
    match t
    case OrgTarget => None
    case UnitTarget(u) => Some(u)
    case PersonTarget(_, u) => u
    case SubjectTarget(u) => u
    case CampaignTarget(u) => u
    case SelfTarget(_) => None
  }

  function TargetUser(t: Target): Option<Id> {
    match t
    case PersonTarget(user, _) => Some(user)
    case SelfTarget(user) => Some(user)
    case _ => None
  }

  /** Why a grant was passed over. */
  datatype Rejection = Expired | NotThePrincipal | NoAnchor(scope: Scope) | OrgLevelTarget(scope: Scope)
                     | OutsideUnit | OutsideSubtree

  /** What a reason says of a grant and a target; no two reasons say it of the same pair. */
  predicate Fits(why: Rejection, g: Grant, t: Target) {
    var anchored := g.scope == OwnUnit || g.scope == Subtree;
    match why
    case Expired => true
    case NotThePrincipal => g.scope == SelfOnly
    case NoAnchor(s) => s == g.scope && anchored && g.anchorUnitId == None
    case OrgLevelTarget(s) => s == g.scope && anchored && g.anchorUnitId.Some? && TargetUnit(t) == None
    case OutsideUnit => g.scope == OwnUnit && g.anchorUnitId.Some? && TargetUnit(t).Some?
    case OutsideSubtree => g.scope == Subtree && g.anchorUnitId.Some? && TargetUnit(t).Some?
  }

  // ----- Meaning -----

  predicate LiveAt(validFrom: int, validTo: Option<int>, at: int) {
    validFrom <= at && (validTo == None || at < validTo.value)
  }

  /** The units a grant reaches through its anchor. */
  ghost function UnitReach(org: Org, g: Grant): set<Id> {
    if g.anchorUnitId == None then {}
    else match g.scope
      case OwnUnit => {g.anchorUnitId.value}
      case Subtree => Elements(UnitSubtree(org, g.anchorUnitId.value))
      case _ => {}
  }

  /** The grant has something to say about the target. */
  ghost predicate Covers(org: Org, principal: Id, g: Grant, t: Target) {
    || g.scope == All
    || (g.scope == SelfOnly && TargetUser(t) == Some(principal))
    || (TargetUnit(t).Some? && TargetUnit(t).value in UnitReach(org, g))
  }

  /** The fixed part of a permission question. */
  datatype Question = Question(org: Org, principal: Id, capability: string, target: Target, at: int)

  ghost predicate Survives(q: Question, g: Grant) {
    && g.capability == q.capability
    && LiveAt(g.validFrom, g.validTo, q.at)
    && Covers(q.org, q.principal, g, q.target)
  }

  /** No grant means no, and a deny beats every allow. */
  ghost predicate Allowed(q: Question, grants: seq<Grant>) {
    && (exists g :: g in grants && Survives(q, g) && g.effect == Allow)
    && (forall g :: g in grants && Survives(q, g) ==> g.effect == Allow)
  }

  /** `a` is narrower than `b`, or as narrow and at least as senior. */
  predicate NoWider(a: Grant, b: Grant) {
    || Breadth(a.scope) < Breadth(b.scope)
    || (Breadth(a.scope) == Breadth(b.scope) && Seniority(a) <= Seniority(b))
  }

  function Seniority(g: Grant): int {
    if g.level.Some? then g.level.value else 99
  }

  /** The first of the narrowest grants of a list. */
  ghost predicate IsNarrowest(grants: seq<Grant>, i: int) {
    && 0 <= i < |grants|
    && (forall j :: 0 <= j < |grants| ==> NoWider(grants[i], grants[j]))
    && (forall j :: 0 <= j < i ==> !NoWider(grants[j], grants[i]))
  }

  /** A grant that starts later, or is over, makes no difference to a check. */
  lemma OutsideItsWindow(q: Question, a: seq<Grant>, b: seq<Grant>)
    requires forall g: Grant :: g.validFrom <= q.at && (g.validTo == None || q.at < g.validTo.value) ==> (g in a <==> g in b)
    ensures Allowed(q, a) <==> Allowed(q, b)
  {
    forall g: Grant | Survives(q, g) ensures g in a <==> g in b {}
  }

  /** Narrower is: oneself before one's own unit before a subtree before everything, and then the lower level, none being 99. */
  lemma NarrownessIs(a: Grant, b: Grant)
    ensures NoWider(a, b)
       <==> || (a.scope == SelfOnly && b.scope != SelfOnly) || (a.scope == OwnUnit && b.scope in {Subtree, All})
            || (a.scope == Subtree && b.scope == All)
            || (a.scope == b.scope && (if a.level == None then 99 else a.level.value) <= (if b.level == None then 99 else b.level.value))
  {}

  /** At most one reason speaks of a grant's scope, so the trace can give no other. */
  lemma ReasonIsOne(a: Rejection, b: Rejection, g: Grant, t: Target)
    requires a != Expired && b != Expired && Fits(a, g, t) && Fits(b, g, t)
    ensures a == b
  {}

  /** What each reason says. */
  lemma ReasonsSay(why: Rejection, g: Grant, t: Target)
    requires Fits(why, g, t) && why != Expired
    ensures why == NotThePrincipal ==> g.scope == SelfOnly
    ensures why.NoAnchor? ==> why.scope == g.scope && g.scope in {OwnUnit, Subtree} && g.anchorUnitId == None
    ensures why.OrgLevelTarget? ==> why.scope == g.scope && g.scope in {OwnUnit, Subtree} && g.anchorUnitId.Some? && TargetUnit(t) == None
    ensures why == OutsideUnit ==> g.scope == OwnUnit && g.anchorUnitId.Some? && TargetUnit(t).Some?
    ensures why == OutsideSubtree ==> g.scope == Subtree && g.anchorUnitId.Some? && TargetUnit(t).Some?
  {}

  // ----- Scope -----

  /** The per-question memo of subtree queries. */
  class ScopeContext {
    const org: Org
    const orgId: Id
    const principal: Id
    var subtreeCache: map<string, seq<Id>>

    ghost predicate Valid() reads this {
      forall unit: Id :: orgId + ":" + unit in subtreeCache ==>
        subtreeCache[orgId + ":" + unit] == UnitSubtree(org, unit)
    }

    constructor (org: Org, orgId: Id, principal: Id)
      ensures Valid() && this.org == org && this.orgId == orgId && this.principal == principal
      ensures subtreeCache == map[]
    {
      this.org, this.orgId, this.principal := org, orgId, principal;
      subtreeCache := map[];
    }

    /** The grant covers the target, or the reason it does not. */
    method ScopeCovers(g: Grant, t: Target) returns (because: Option<Rejection>)
      requires Valid()
      modifies this
      ensures Valid()
      ensures because == None <==> Covers(org, principal, g, t)
      ensures because.Some? ==> because.value != Expired && Fits(because.value, g, t)
    {
      if g.scope == All { return None; }
      if g.scope == SelfOnly {
        return if TargetUser(t) == Some(principal) then None else Some(NotThePrincipal);
      }
      if g.anchorUnitId == None { return Some(NoAnchor(g.scope)); }
      var targetUnit := TargetUnit(t);
      if targetUnit == None { return Some(OrgLevelTarget(g.scope)); }
      var anchor := g.anchorUnitId.value;
      if g.scope == OwnUnit {
        return if targetUnit.value == anchor then None else Some(OutsideUnit);
      }
      var key := orgId + ":" + anchor;
      if key !in subtreeCache {
        subtreeCache := subtreeCache[key := UnitSubtree(org, anchor)];
        forall unit: Id | orgId + ":" + unit == key ensures unit == anchor {
          assert unit == key[|orgId| + 1..];
        }
      }
      because := if targetUnit.value in subtreeCache[key] then None else Some(OutsideSubtree);
    }
  }

  // ----- Resolver -----

  datatype Reason = Granted | ExplicitDeny | OutOfScope | ExpiredReason | NoGrant

  datatype DecidedBy = DecidedBy(
    grantId: Id, via: Via, subjectName: string, scope: Scope,
    anchorUnitId: Option<Id>, anchorUnitName: Option<string>, effect: Effect)

  function Describe(g: Grant): DecidedBy {
    DecidedBy(g.grantId, g.via, g.subjectName, g.scope, g.anchorUnitId, g.anchorUnitName, g.effect)
  }

  datatype Trace = Trace(grantId: Id, via: Via, scope: Scope, effect: Effect, rejectedBecause: Option<Rejection>)

  datatype Decision = Decision(
    allowed: bool, capability: string, reason: Reason, decidedBy: Option<DecidedBy>, considered: seq<Trace>,
    params: Option<Params>)

  ghost function AboutFn(q: Question): Grant -> bool {
    (g: Grant) => g.capability == q.capability
  }

  ghost function SurvivesFn(q: Question): Grant -> bool {
    (g: Grant) => Survives(q, g)
  }

  ghost function EffectFn(effect: Effect): Grant -> bool {
    (g: Grant) => g.effect == effect
  }

  /** The trace of the grants about the capability: each is named once, with a reason exactly when it was rejected. */
  ghost predicate Explains(q: Question, about: seq<Grant>, considered: seq<Trace>) {
    && |considered| == |about|
    && forall i :: 0 <= i < |about| ==>
         considered[i] == TraceOf(about[i], considered[i].rejectedBecause)
         && RightReason(q, about[i], considered[i].rejectedBecause)
  }

  function TraceOf(g: Grant, because: Option<Rejection>): Trace {
    Trace(g.grantId, g.via, g.scope, g.effect, because)
  }

  /** No reason exactly for a grant that survives, and otherwise the one that fits. */
  ghost predicate RightReason(q: Question, g: Grant, because: Option<Rejection>) {
    && (because == None <==> Survives(q, g))
    && (because == Some(Expired) <==> !LiveAt(g.validFrom, g.validTo, q.at))
    && (because.Some? && because.value != Expired ==> Fits(because.value, g, q.target))
  }

  lemma TraceStep(q: Question, about: seq<Grant>, g: Grant, considered: seq<Trace>, because: Option<Rejection>)
    requires Explains(q, about, considered) && RightReason(q, g, because)
    ensures Explains(q, about + [g], considered + [TraceOf(g, because)])
  {}

  method Narrowest(grants: seq<Grant>) returns (i: nat)
    requires grants != []
    ensures IsNarrowest(grants, i)
  {
    i := 0;
    for k := 1 to |grants|
      invariant IsNarrowest(grants[..k], i)
    {
      if !NoWider(grants[i], grants[k]) {
        i := k;
      }
    }
    assert grants[..|grants|] == grants;
  }

  method Only(grants: seq<Grant>, effect: Effect) returns (r: seq<Grant>)
    ensures r == Filter(grants, EffectFn(effect))
  {
    r := [];
    for i := 0 to |grants|
      invariant r == Filter(grants[..i], EffectFn(effect))
    {
      FilterAppend(grants[..i], [grants[i]], EffectFn(effect));
      assert grants[..i] + [grants[i]] == grants[..i + 1];
      if grants[i].effect == effect { r := r + [grants[i]]; }
    }
    assert grants[..|grants|] == grants;
  }

  /** Steps 2 to 4: trace every grant about the capability and keep the ones that reach the target. */
  method Gather(q: Question, orgId: Id, all: seq<Grant>) returns (considered: seq<Trace>, survivors: seq<Grant>)
    ensures survivors == Filter(all, SurvivesFn(q))
    ensures Explains(q, Filter(all, AboutFn(q)), considered)
  {
    var ctx := new ScopeContext(q.org, orgId, q.principal);
    considered, survivors := [], [];
    for i := 0 to |all|
      invariant ctx.Valid() && fresh(ctx) && ctx.org == q.org && ctx.principal == q.principal
      invariant survivors == Filter(all[..i], SurvivesFn(q))
      invariant Explains(q, Filter(all[..i], AboutFn(q)), considered)
    {
      var g := all[i];
      FilterSnoc(all[..i], g, SurvivesFn(q));
      FilterSnoc(all[..i], g, AboutFn(q));
      assert all[..i] + [g] == all[..i + 1];
      if g.capability != q.capability { continue; }
      if g.validFrom > q.at || (g.validTo.Some? && g.validTo.value <= q.at) {
        TraceStep(q, Filter(all[..i], AboutFn(q)), g, considered, Some(Expired));
        considered := considered + [TraceOf(g, Some(Expired))];
        continue;
      }
      var because := ctx.ScopeCovers(g, q.target);
      TraceStep(q, Filter(all[..i], AboutFn(q)), g, considered, because);
      considered := considered + [TraceOf(g, because)];
      if because == None { survivors := survivors + [g]; }
    }
    assert all[..|all|] == all;
  }

  // ----- Limits -----

  datatype ParamMode = Union | Highest

  function Carries(): Grant -> bool {
    (g: Grant) => g.params != map[]
  }

  /** Each limit some grant carries, at the strongest value any of them gives it. */
  ghost predicate IsUnion(grants: seq<Grant>, out: Params) {
    && (forall g, k :: g in grants && k in g.params ==> k in out && g.params[k] <= out[k])
    && (forall k :: k in out ==> exists g :: g in grants && k in g.params && g.params[k] == out[k])
  }

  /** The first of the most senior grants of a list. */
  ghost predicate IsMostSenior(grants: seq<Grant>, i: int) {
    && 0 <= i < |grants|
    && (forall j :: 0 <= j < |grants| ==> Seniority(grants[i]) <= Seniority(grants[j]))
    && (forall j :: 0 <= j < i ==> Seniority(grants[i]) < Seniority(grants[j]))
  }

  /** The limits of a list of allows; none if no grant carries any. */
  ghost predicate IsCombined(allows: seq<Grant>, mode: ParamMode, r: Option<Params>) {
    var carrying := Filter(allows, Carries());
    if carrying == [] then r == None
    else
      && r.Some?
      && match mode
         case Union => IsUnion(carrying, r.value)
         case Highest => exists i :: IsMostSenior(carrying, i) && r.value == carrying[i].params
  }

  function Stronger(a: Params, b: Params): Params {
    map k | k in a.Keys + b.Keys ::
      if k !in a then b[k] else if k !in b then a[k] else if a[k] < b[k] then b[k] else a[k]
  }

  method Merge(out: Params, params: Params) returns (r: Params)
    ensures r == Stronger(out, params)
  {
    r := out;
    var todo := params.Keys;
    while todo != {}
      invariant todo <= params.Keys
      invariant r == Stronger(out, params - todo)
      decreases todo
    {
      var key :| key in todo;
      if key !in r || r[key] < params[key] { r := r[key := params[key]]; }
      todo := todo - {key};
    }
    assert params - {} == params;
  }

  lemma UnionGrows(grants: seq<Grant>, g: Grant, out: Params)
    requires IsUnion(grants, out)
    ensures IsUnion(grants + [g], Stronger(out, g.params))
  {
    var more := Stronger(out, g.params);
    forall k | k in more ensures exists h :: h in grants + [g] && k in h.params && h.params[k] == more[k] {
      if k in out && more[k] == out[k] {
        var h :| h in grants && k in h.params && h.params[k] == out[k];
        assert h in grants + [g];
      } else {
        assert g in grants + [g];
      }
    }
  }

  method CombineParams(allows: seq<Grant>, mode: ParamMode) returns (r: Option<Params>)
    ensures IsCombined(allows, mode, r)
  {
    var carrying := WithParams(allows);
    if carrying == [] { return None; }
    if mode == Highest {
      var i := MostSenior(carrying);
      return Some(carrying[i].params);
    }
    var out := UnionOf(carrying);
    r := Some(out);
  }

  method UnionOf(grants: seq<Grant>) returns (out: Params)
    ensures IsUnion(grants, out)
  {
    out := map[];
    for i := 0 to |grants|
      invariant IsUnion(grants[..i], out)
    {
      UnionGrows(grants[..i], grants[i], out);
      assert grants[..i + 1] == grants[..i] + [grants[i]];
      out := Merge(out, grants[i].params);
    }
    assert grants[..|grants|] == grants;
  }

  method WithParams(grants: seq<Grant>) returns (r: seq<Grant>)
    ensures r == Filter(grants, Carries())
  {
    r := [];
    for i := 0 to |grants|
      invariant r == Filter(grants[..i], Carries())
    {
      FilterSnoc(grants[..i], grants[i], Carries());
      assert grants[..i] + [grants[i]] == grants[..i + 1];
      if grants[i].params != map[] { r := r + [grants[i]]; }
    }
    assert grants[..|grants|] == grants;
  }

  method MostSenior(grants: seq<Grant>) returns (i: nat)
    requires grants != []
    ensures IsMostSenior(grants, i)
  {
    i := 0;
    for k := 1 to |grants|
      invariant IsMostSenior(grants[..k], i)
    {
      if Seniority(grants[i]) > Seniority(grants[k]) { i := k; }
    }
    assert grants[..|grants|] == grants;
  }

  /** A limit of a union is met by the union of any list with at least the same grants. */
  lemma UnionWithin(a: seq<Grant>, b: seq<Grant>, x: Params, y: Params)
    requires IsUnion(a, x) && IsUnion(b, y) && forall g :: g in a ==> g in b
    ensures forall k :: k in x ==> k in y && x[k] <= y[k]
  {
    forall k | k in x ensures k in y && x[k] <= y[k] {
      var g :| g in a && k in g.params && g.params[k] == x[k];
    }
  }

  /** The union depends on which grants there are, not on their order. */
  lemma UnionIsOne(a: seq<Grant>, b: seq<Grant>, x: Params, y: Params)
    requires IsUnion(a, x) && IsUnion(b, y) && forall g :: g in a <==> g in b
    ensures x == y
  {
    UnionWithin(a, b, x, y);
    UnionWithin(b, a, y, x);
    assert x.Keys == y.Keys;
  }

  predicate NoWeaker(r: Option<Params>, s: Option<Params>) {
    r.Some? ==> s.Some? && forall k :: k in r.value ==> k in s.value && r.value[k] <= s.value[k]
  }

  /** One more allow, wherever it stands in the list, never lowers a limit of the union. */
  lemma MoreNeverWeaker(a: seq<Grant>, b: seq<Grant>, r: Option<Params>, s: Option<Params>)
    requires IsCombined(a, Union, r) && IsCombined(b, Union, s) && forall g :: g in a ==> g in b
    ensures NoWeaker(r, s)
  {
    if r.Some? {
      var x, y := Filter(a, Carries()), Filter(b, Carries());
      forall g | g in x ensures g in y {
        FilterIn(a, Carries(), g);
        FilterIn(b, Carries(), g);
      }
      assert x[0] in y;
      UnionWithin(x, y, r.value, s.value);
    }
  }

  /** In the other mode a later allow replaces all limits exactly when it carries some and is strictly more senior. */
  lemma SeniorReplaces(allows: seq<Grant>, g: Grant, r: Option<Params>, s: Option<Params>)
    requires IsCombined(allows, Highest, r) && IsCombined(allows + [g], Highest, s) && r.Some?
    ensures var takesOver := Carries()(g) && forall h :: h in allows && Carries()(h) ==> Seniority(g) < Seniority(h);
            s == if takesOver then Some(g.params) else r
  {
    var before, after := Filter(allows, Carries()), Filter(allows + [g], Carries());
    FilterSnoc(allows, g, Carries());
    var i :| IsMostSenior(before, i) && r.value == before[i].params;
    var j :| IsMostSenior(after, j) && s.value == after[j].params;
    forall h ensures h in before <==> h in allows && Carries()(h) { FilterIn(allows, Carries(), h); }
    SeniorToAll(before, i, g);
    if Carries()(g) {
      SeniorAppended(before, i, g);
      MostSeniorIsOne(after, j, if Seniority(g) < Seniority(before[i]) then |before| else i);
    } else {
      assert after == before;
      MostSeniorIsOne(after, j, i);
    }
  }

  lemma SeniorToAll(grants: seq<Grant>, i: int, g: Grant)
    requires IsMostSenior(grants, i)
    ensures Seniority(g) < Seniority(grants[i]) <==> forall h :: h in grants ==> Seniority(g) < Seniority(h)
  {
    assert grants[i] in grants;
  }

  lemma SeniorAppended(grants: seq<Grant>, i: int, g: Grant)
    requires IsMostSenior(grants, i)
    ensures IsMostSenior(grants + [g], if Seniority(g) < Seniority(grants[i]) then |grants| else i)
  {}

  lemma MostSeniorIsOne(grants: seq<Grant>, i: int, j: int)
    requires IsMostSenior(grants, i) && IsMostSenior(grants, j)
    ensures i == j
  {
    assert Seniority(grants[i]) == Seniority(grants[j]);
  }

  // ----- The decision -----

  ghost predicate AnySurvives(q: Question, all: seq<Grant>, effect: Effect) {
    exists g :: g in all && Survives(q, g) && g.effect == effect
  }

  ghost predicate AllExpired(q: Question, all: seq<Grant>) {
    forall g :: g in all && g.capability == q.capability ==> !LiveAt(g.validFrom, g.validTo, q.at)
  }

  ghost predicate AnyAbout(q: Question, all: seq<Grant>) {
    exists g :: g in all && g.capability == q.capability
  }

  /** The decision the rules prescribe, with its reason, its deciding grant and its trace. */
  ghost predicate Decides(q: Question, all: seq<Grant>, mode: ParamMode, d: Decision) {
    && d.capability == q.capability
    && (d.allowed <==> Allowed(q, all))
    && (d.reason == Granted <==> d.allowed)
    && (d.reason == ExplicitDeny <==> AnySurvives(q, all, Deny))
    && (d.reason == NoGrant <==> !AnyAbout(q, all))
    && (d.reason == ExpiredReason <==> AnyAbout(q, all) && AllExpired(q, all))
    && Explains(q, Filter(all, AboutFn(q)), d.considered)
    && var decisive := Filter(Filter(all, SurvivesFn(q)), EffectFn(if d.allowed then Allow else Deny));
       && (if decisive == [] then d.decidedBy == None
           else exists i :: IsNarrowest(decisive, i) && d.decidedBy == Some(Describe(decisive[i])))
       && (if d.allowed then IsCombined(decisive, mode, d.params) else d.params == None)
  }

  /** The resolver's steps 2 to 7. */
  method Run(q: Question, orgId: Id, all: seq<Grant>, mode: ParamMode) returns (d: Decision)
    ensures Decides(q, all, mode, d)
  {
    var considered, survivors := Gather(q, orgId, all);
    SurvivorsIn(q, all, Deny);
    SurvivorsIn(q, all, Allow);
    AboutIn(q, all, considered);
    var denies := Only(survivors, Deny);
    var allows := Only(survivors, Allow);
    if denies != [] {
      var i := Narrowest(denies);
      return Decision(false, q.capability, ExplicitDeny, Some(Describe(denies[i])), considered, None);
    }
    if allows != [] {
      var i := Narrowest(allows);
      var params := CombineParams(allows, mode);
      return Decision(true, q.capability, Granted, Some(Describe(allows[i])), considered, params);
    }
    var allExpired := forall t :: t in considered ==> t.rejectedBecause == Some(Expired);
    d := Decision(false, q.capability,
                  if considered == [] then NoGrant else if allExpired then ExpiredReason else OutOfScope,
                  None, considered, None);
  }

  /** Where more grants still allow, they never lower a limit. */
  lemma MoreGrantsNeverWeaken(q: Question, all: seq<Grant>, more: seq<Grant>, d: Decision, e: Decision)
    requires Decides(q, all, Union, d) && Decides(q, more, Union, e) && d.allowed && e.allowed
    requires forall g :: g in all ==> g in more
    ensures NoWeaker(d.params, e.params)
  {
    var a, b := Filter(all, SurvivesFn(q)), Filter(more, SurvivesFn(q));
    var x, y := Filter(a, EffectFn(Allow)), Filter(b, EffectFn(Allow));
    forall g | g in x ensures g in y {
      FilterIn(a, EffectFn(Allow), g);
      FilterIn(all, SurvivesFn(q), g);
      FilterIn(more, SurvivesFn(q), g);
      FilterIn(b, EffectFn(Allow), g);
    }
    MoreNeverWeaker(x, y, d.params, e.params);
  }

  lemma SurvivorsIn(q: Question, all: seq<Grant>, effect: Effect)
    ensures AnySurvives(q, all, effect) <==> Filter(Filter(all, SurvivesFn(q)), EffectFn(effect)) != []
    ensures AnySurvives(q, all, effect) ==> !AllExpired(q, all) && AnyAbout(q, all)
    ensures Allowed(q, all) <==> AnySurvives(q, all, Allow) && !AnySurvives(q, all, Deny)
  {
    SurvivorsListed(q, all, effect);
  }

  lemma SurvivorsListed(q: Question, all: seq<Grant>, effect: Effect)
    ensures AnySurvives(q, all, effect) <==> Filter(Filter(all, SurvivesFn(q)), EffectFn(effect)) != []
  {
    var survivors := Filter(all, SurvivesFn(q));
    var r := Filter(survivors, EffectFn(effect));
    if r != [] {
      assert r[0] in r;
      FilterIn(survivors, EffectFn(effect), r[0]);
      FilterIn(all, SurvivesFn(q), r[0]);
    }
    if g :| g in all && Survives(q, g) && g.effect == effect {
      FilterIn(all, SurvivesFn(q), g);
      FilterIn(survivors, EffectFn(effect), g);
    }
  }

  lemma AboutIn(q: Question, all: seq<Grant>, considered: seq<Trace>)
    requires Explains(q, Filter(all, AboutFn(q)), considered)
    ensures considered != [] <==> AnyAbout(q, all)
    ensures (forall t :: t in considered ==> t.rejectedBecause == Some(Expired)) <==> AllExpired(q, all)
  {
    var about := Filter(all, AboutFn(q));
    forall g ensures g in about <==> g in all && g.capability == q.capability {
      FilterIn(all, AboutFn(q), g);
    }
    if about != [] { assert about[0] in about; }
    ConsideredExpired(q, about, considered);
  }

  lemma ConsideredExpired(q: Question, about: seq<Grant>, considered: seq<Trace>)
    requires Explains(q, about, considered)
    ensures (forall t :: t in considered ==> t.rejectedBecause == Some(Expired))
       <==> (forall g :: g in about ==> !LiveAt(g.validFrom, g.validTo, q.at))
  {
    if forall t :: t in considered ==> t.rejectedBecause == Some(Expired) {
      forall g | g in about ensures !LiveAt(g.validFrom, g.validTo, q.at) {
        var i :| 0 <= i < |about| && about[i] == g;
        assert considered[i] in considered;
      }
    }
    if forall g :: g in about ==> !LiveAt(g.validFrom, g.validTo, q.at) {
      forall t | t in considered ensures t.rejectedBecause == Some(Expired) {
        var i :| 0 <= i < |considered| && considered[i] == t;
        assert about[i] in about;
      }
    }
  }
}
