/** The list side of permissions: which units a person may see for one capability. */
module Visibility {
  import opened Prelude
  import opened OrgGraph
  import opened Grants

  datatype Visibility =
    | Everywhere(self: bool)
    | Listed(unitIds: seq<Id>, self: bool)

  const NOTHING := Listed([], false)

  predicate SeesNothing(v: Visibility) {
    v.Listed? && v.unitIds == [] && !v.self
  }

  /** The person may see unit `u`. */
  ghost predicate Sees(v: Visibility, u: Id) {
    v.Everywhere? || u in v.unitIds
  }

  /** A list question: like a permission question without a target. */
  datatype ListQuestion = ListQuestion(org: Org, principal: Id, capability: string, at: int)
  {
    function About(t: Target): Question { Question(org, principal, capability, t, at) }
  }

  ghost function LiveFn(q: ListQuestion, effect: Effect): Grant -> bool {
    (g: Grant) => g.capability == q.capability && LiveAt(g.validFrom, g.validTo, q.at) && g.effect == effect
  }

  predicate HasScope(grants: seq<Grant>, scope: Scope) {
    exists g :: g in grants && g.scope == scope
  }

  /** The units a list of grants reaches. */
  ghost function ReachOf(org: Org, grants: seq<Grant>): set<Id> {
    if grants == [] then {} else UnitReach(org, grants[0]) + ReachOf(org, grants[1..])
  }

  ghost function Allows(q: ListQuestion, all: seq<Grant>): seq<Grant> { Filter(all, LiveFn(q, Allow)) }

  ghost function Denies(q: ListQuestion, all: seq<Grant>): seq<Grant> { Filter(all, LiveFn(q, Deny)) }

  /** An org-wide allow that no deny of a unit or of the whole organisation cuts into. */
  ghost predicate SeesEverywhere(q: ListQuestion, all: seq<Grant>) {
    && HasScope(Allows(q, all), All) && !HasScope(Denies(q, all), All)
    && ReachOf(q.org, Denies(q, all)) == {}
  }

  /** The units in reach, less the denied ones; an org-wide allow reaches every unit of the organisation. */
  ghost function SeenIds(q: ListQuestion, all: seq<Grant>): set<Id> {
    if HasScope(Denies(q, all), All) then {}
    else (if HasScope(Allows(q, all), All) then q.org.units else ReachOf(q.org, Allows(q, all)))
         - ReachOf(q.org, Denies(q, all))
  }

  ghost predicate SeesSelf(q: ListQuestion, all: seq<Grant>) {
    && !HasScope(Denies(q, all), All)
    && (HasScope(Allows(q, all), All)
        || (HasScope(Allows(q, all), SelfOnly) && !HasScope(Denies(q, all), SelfOnly)))
  }

  /** The exact answer, up to the order of the list. */
  ghost predicate Answers(q: ListQuestion, all: seq<Grant>, v: Visibility) {
    && (v.Everywhere? <==> SeesEverywhere(q, all))
    && (v.self <==> SeesSelf(q, all))
    && (v.Listed? ==> Distinct(v.unitIds) && Elements(v.unitIds) == SeenIds(q, all))
  }

  // ----- The computation -----

  method Live(q: ListQuestion, all: seq<Grant>, effect: Effect) returns (r: seq<Grant>)
    ensures r == Filter(all, LiveFn(q, effect))
  {
    r := [];
    for i := 0 to |all|
      invariant r == Filter(all[..i], LiveFn(q, effect))
    {
      FilterAppend(all[..i], [all[i]], LiveFn(q, effect));
      assert all[..i] + [all[i]] == all[..i + 1];
      var g := all[i];
      if g.capability == q.capability && LiveAt(g.validFrom, g.validTo, q.at) && g.effect == effect {
        r := r + [g];
      }
    }
    assert all[..|all|] == all;
  }

  /** The roots whose subtrees a list of grants reaches. */
  ghost predicate SubtreeRoot(grants: seq<Grant>, root: Id) {
    exists g :: g in grants && g.scope == Subtree && g.anchorUnitId == Some(root)
  }

  ghost predicate OwnRoot(grants: seq<Grant>, root: Id) {
    exists g :: g in grants && g.scope == OwnUnit && g.anchorUnitId == Some(root)
  }

  lemma {:induction false} ReachOfIn(org: Org, grants: seq<Grant>, u: Id)
    ensures u in ReachOf(org, grants) <==> exists g :: g in grants && u in UnitReach(org, g)
  {
    if grants != [] {
      ReachOfIn(org, grants[1..], u);
      assert grants == [grants[0]] + grants[1..];
    }
  }

  lemma ReachByRoots(org: Org, grants: seq<Grant>, u: Id)
    ensures u in ReachOf(org, grants)
       <==> OwnRoot(grants, u) || exists r :: SubtreeRoot(grants, r) && u in UnitSubtree(org, r)
  {
    ReachOfIn(org, grants, u);
    if u in ReachOf(org, grants) {
      var g :| g in grants && u in UnitReach(org, g);
      if g.scope == Subtree { assert SubtreeRoot(grants, g.anchorUnitId.value); }
    }
    forall r | SubtreeRoot(grants, r) && u in UnitSubtree(org, r) ensures u in ReachOf(org, grants) {
      var g :| g in grants && g.scope == Subtree && g.anchorUnitId == Some(r);
      assert u in UnitReach(org, g);
    }
    if OwnRoot(grants, u) {
      var g :| g in grants && g.scope == OwnUnit && g.anchorUnitId == Some(u);
      assert u in UnitReach(org, g);
    }
  }

  ghost predicate ReachedFrom(org: Org, roots: set<Id>, u: Id) {
    exists r :: r in roots && u in UnitSubtree(org, r)
  }

  /** Turns grants into units, one subtree query for each distinct root. */
  method UnitsOf(org: Org, grants: seq<Grant>) returns (out: set<Id>)
    ensures out == ReachOf(org, grants)
  {
    var roots: set<Id>;
    out, roots := Roots(grants);
    ghost var own := out;
    var todo := roots;
    while todo != {}
      invariant todo <= roots
      invariant forall u :: u in out <==> u in own || ReachedFrom(org, roots - todo, u)
      decreases todo
    {
      var root :| root in todo;
      assert roots - (todo - {root}) == (roots - todo) + {root};
      out := out + set u | u in UnitSubtree(org, root);
      todo := todo - {root};
    }
    assert roots - {} == roots;
    forall u ensures u in out <==> u in ReachOf(org, grants) {
      ReachByRoots(org, grants, u);
    }
  }

  method Roots(grants: seq<Grant>) returns (own: set<Id>, roots: set<Id>)
    ensures forall u :: u in own <==> OwnRoot(grants, u)
    ensures forall r :: r in roots <==> SubtreeRoot(grants, r)
  {
    own, roots := {}, {};
    for i := 0 to |grants|
      invariant forall u :: u in own <==> OwnRoot(grants[..i], u)
      invariant forall r :: r in roots <==> SubtreeRoot(grants[..i], r)
    {
      var g := grants[i];
      assert grants[..i + 1] == grants[..i] + [g];
      if g.anchorUnitId == None { continue; }
      if g.scope == OwnUnit { own := own + {g.anchorUnitId.value}; }
      else if g.scope == Subtree { roots := roots + {g.anchorUnitId.value}; }
    }
    assert grants[..|grants|] == grants;
  }

  /** Lists a set, each element once. */
  method ListOf(s: set<Id>) returns (r: seq<Id>)
    ensures Distinct(r) && Elements(r) == s
  {
    r := [];
    var todo := s;
    while todo != {}
      invariant todo <= s && Distinct(r) && Elements(r) == s - todo
      decreases |todo|
    {
      var x :| x in todo;
      assert x !in Elements(r);
      assert Elements(r + [x]) == Elements(r) + {x};
      r, todo := r + [x], todo - {x};
    }
  }

  /** Drops expired grants, subtracts denies and expands scopes into unit ids. */
  method Compute(q: ListQuestion, all: seq<Grant>) returns (v: Visibility)
    ensures Answers(q, all, v)
  {
    var allows := Live(q, all, Allow);
    var denies := Live(q, all, Deny);
    if HasScope(denies, All) { return NOTHING; }
    var denied := UnitsOf(q.org, denies);
    var self := HasScope(allows, SelfOnly) && !HasScope(denies, SelfOnly);
    if HasScope(allows, All) {
      if denied == {} { return Everywhere(true); }
      var rest := ListOf(q.org.units - denied);
      return Listed(rest, true);
    }
    var allowed := UnitsOf(q.org, allows);
    allowed := allowed - denied;
    var ids := ListOf(allowed);
    v := Listed(ids, self);
  }

  // ----- Lists never disagree with checks -----

  lemma LiveIn(q: ListQuestion, all: seq<Grant>, effect: Effect, g: Grant)
    ensures g in Filter(all, LiveFn(q, effect))
       <==> && g in all && g.capability == q.capability
            && LiveAt(g.validFrom, g.validTo, q.at) && g.effect == effect
  {
    FilterIn(all, LiveFn(q, effect), g);
  }

  /** A target that names a unit and no person meets a grant of each effect in exactly two ways. */
  lemma SurvivorsAtUnit(q: ListQuestion, all: seq<Grant>, t: Target, effect: Effect)
    requires TargetUnit(t).Some? && TargetUser(t) == None
    ensures var live := Filter(all, LiveFn(q, effect));
            AnySurvives(q.About(t), all, effect)
            <==> HasScope(live, All) || TargetUnit(t).value in ReachOf(q.org, live)
  {
    var live := Filter(all, LiveFn(q, effect));
    forall g ensures g in live <==> && g in all && g.capability == q.capability
                                    && LiveAt(g.validFrom, g.validTo, q.at) && g.effect == effect {
      LiveIn(q, all, effect, g);
    }
    ReachOfIn(q.org, live, TargetUnit(t).value);
    if AnySurvives(q.About(t), all, effect) {
      var g :| g in all && Survives(q.About(t), g) && g.effect == effect;
      assert g in live;
    }
    if HasScope(live, All) {
      var g :| g in live && g.scope == All;
      assert Survives(q.About(t), g);
    }
    if g :| g in live && TargetUnit(t).value in UnitReach(q.org, g) {
      assert Survives(q.About(t), g);
    }
  }

  lemma SurvivorsAtSelf(q: ListQuestion, all: seq<Grant>, effect: Effect)
    ensures var live := Filter(all, LiveFn(q, effect));
            AnySurvives(q.About(SelfTarget(q.principal)), all, effect)
            <==> HasScope(live, All) || HasScope(live, SelfOnly)
  {
    var live := Filter(all, LiveFn(q, effect));
    forall g ensures g in live <==> && g in all && g.capability == q.capability
                                    && LiveAt(g.validFrom, g.validTo, q.at) && g.effect == effect {
      LiveIn(q, all, effect, g);
    }
    var here := q.About(SelfTarget(q.principal));
    if AnySurvives(here, all, effect) {
      var g :| g in all && Survives(here, g) && g.effect == effect;
      assert g in live;
    }
    if g :| g in live && (g.scope == All || g.scope == SelfOnly) {
      assert Survives(here, g);
    }
  }

  /** Holding a capability at a unit, in sets, is being allowed it there. */
  lemma HeldIsAllowed(q: ListQuestion, all: seq<Grant>, u: Id)
    requires u in q.org.units
    ensures SeesEverywhere(q, all) || u in SeenIds(q, all) <==> Allowed(q.About(UnitTarget(u)), all)
  {
    SurvivorsAtUnit(q, all, UnitTarget(u), Allow);
    SurvivorsAtUnit(q, all, UnitTarget(u), Deny);
    SurvivorsIn(q.About(UnitTarget(u)), all, Allow);
  }

  /** For every unit of the organisation the list and the check give one answer. */
  lemma ListAgreesWithCheck(q: ListQuestion, all: seq<Grant>, v: Visibility, t: Target)
    requires Answers(q, all, v)
    requires TargetUnit(t).Some? && TargetUser(t) == None
    requires TargetUnit(t).value in q.org.units
    ensures Sees(v, TargetUnit(t).value) <==> Allowed(q.About(t), all)
  {
    ListDisagreement(q, all, v, t);
  }

  /** For an id that is no unit they differ in exactly one case: an org-wide allow with some other unit denied. */
  lemma ListDisagreement(q: ListQuestion, all: seq<Grant>, v: Visibility, t: Target)
    requires Answers(q, all, v)
    requires TargetUnit(t).Some? && TargetUser(t) == None
    ensures var u := TargetUnit(t).value;
            var allows, denies := Allows(q, all), Denies(q, all);
            (Sees(v, u) <==> Allowed(q.About(t), all))
            <==> !(&& u !in q.org.units && HasScope(allows, All) && !HasScope(denies, All)
                   && ReachOf(q.org, denies) != {} && u !in ReachOf(q.org, denies))
  {
    SurvivorsAtUnit(q, all, t, Allow);
    SurvivorsAtUnit(q, all, t, Deny);
    SurvivorsIn(q.About(t), all, Allow);
    if v.Listed? {
      assert forall u :: u in v.unitIds <==> u in Elements(v.unitIds);
    }
  }

  /** The self flag and a check on oneself differ exactly when an org-wide allow meets a deny on oneself. */
  lemma SelfFlagDisagreement(q: ListQuestion, all: seq<Grant>, v: Visibility)
    requires Answers(q, all, v)
    ensures var allows, denies := Allows(q, all), Denies(q, all);
            (v.self <==> Allowed(q.About(SelfTarget(q.principal)), all))
            <==> !(HasScope(allows, All) && HasScope(denies, SelfOnly) && !HasScope(denies, All))
  {
    SurvivorsAtSelf(q, all, Allow);
    SurvivorsAtSelf(q, all, Deny);
    SurvivorsIn(q.About(SelfTarget(q.principal)), all, Allow);
  }

  /** Nothing to see means no unit and no check on oneself is allowed, so a list route may skip its query. */
  lemma NothingMeansNothing(q: ListQuestion, all: seq<Grant>, v: Visibility)
    requires Answers(q, all, v) && SeesNothing(v)
    ensures forall u :: u in q.org.units ==> !Allowed(q.About(UnitTarget(u)), all)
    ensures !Allowed(q.About(SelfTarget(q.principal)), all)
  {
    forall u | u in q.org.units ensures !Allowed(q.About(UnitTarget(u)), all) {
      ListAgreesWithCheck(q, all, v, UnitTarget(u));
    }
    SelfFlagDisagreement(q, all, v);
    if Allowed(q.About(SelfTarget(q.principal)), all) {
      SurvivorsAtSelf(q, all, Allow);
      SurvivorsAtSelf(q, all, Deny);
      SurvivorsIn(q.About(SelfTarget(q.principal)), all, Allow);
    }
  }

  /** Where anchors and links stay inside the units, so do the visible ids. */
  lemma VisibleIdsAreUnits(q: ListQuestion, all: seq<Grant>, v: Visibility)
    requires q.org.Valid() && Answers(q, all, v) && v.Listed?
    requires forall g :: g in all && g.anchorUnitId.Some? ==> g.anchorUnitId.value in q.org.units
    requires forall e :: e in q.org.edges && e.kind == "contains" && LiveEdge(e, q.org.now) ==> e.child in q.org.units
    ensures Elements(v.unitIds) <= q.org.units
  {
    var allows := Allows(q, all);
    forall u | u in ReachOf(q.org, allows) ensures u in q.org.units {
      ReachOfIn(q.org, allows, u);
      var g :| g in allows && u in UnitReach(q.org, g);
      LiveIn(q, all, Allow, g);
      if g.scope == Subtree { SubtreeInside(q.org, g.anchorUnitId.value, u); }
    }
  }

  // ----- The per-request memo -----

  /** One request: whose grants, at which instant, and the answers found so far. */
  class RequestContext {
    const org: Org
    const principal: Id
    const at: int
    const grants: seq<Grant>
    var visibilityMemo: map<string, Visibility>

    function Asked(capability: string): ListQuestion {
      ListQuestion(org, principal, capability, at)
    }

    ghost predicate Valid() reads this {
      forall c :: c in visibilityMemo ==> Answers(Asked(c), grants, visibilityMemo[c])
    }

    constructor (org: Org, principal: Id, at: int, grants: seq<Grant>)
      ensures Valid() && this.org == org && this.principal == principal && this.at == at && this.grants == grants
    {
      this.org, this.principal, this.at, this.grants := org, principal, at, grants;
      visibilityMemo := map[];
    }

    method VisibleUnits(capability: string) returns (v: Visibility)
      requires Valid()
      modifies this
      ensures Valid() && Answers(Asked(capability), grants, v)
      ensures visibilityMemo == old(visibilityMemo)[capability := v]
      ensures capability in old(visibilityMemo) ==> v == old(visibilityMemo)[capability]
    {
      if capability in visibilityMemo { return visibilityMemo[capability]; }
      v := Compute(Asked(capability), grants);
      visibilityMemo := visibilityMemo[capability := v];
    }
  }
}
