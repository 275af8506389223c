/** The capability hint sent to the screen: never narrower than what a check would allow. */
module HeldCapabilities {
  import opened Prelude
  import opened OrgGraph
  import opened Grants
  import opened Visibility

  ghost predicate LiveAllow(g: Grant, capability: string, at: int) {
    g.effect == Allow && g.capability == capability && LiveAt(g.validFrom, g.validTo, at)
  }

  /** A live deny that no choice of target escapes. */
  ghost predicate DeniedEverywhere(grants: seq<Grant>, capability: string, at: int) {
    exists g :: g in grants && g.effect == Deny && g.scope == All && g.capability == capability
             && LiveAt(g.validFrom, g.validTo, at)
  }

  /** The widest scope of each capability with a live allow. */
  ghost predicate IsWidest(grants: seq<Grant>, at: int, widest: map<string, Scope>) {
    && (forall g, c :: g in grants && LiveAllow(g, c, at) ==> c in widest && Breadth(g.scope) <= Breadth(widest[c]))
    && (forall c :: c in widest ==> exists g :: g in grants && LiveAllow(g, c, at) && g.scope == widest[c])
  }

  /** The hint: the widest allows, less what is denied org-wide. */
  ghost predicate IsHint(grants: seq<Grant>, at: int, hint: map<string, Scope>) {
    && (forall g, c :: g in grants && LiveAllow(g, c, at) && !DeniedEverywhere(grants, c, at)
          ==> c in hint && Breadth(g.scope) <= Breadth(hint[c]))
    && (forall c :: c in hint ==>
          !DeniedEverywhere(grants, c, at) && exists g :: g in grants && LiveAllow(g, c, at) && g.scope == hint[c])
  }

  lemma WidestGrows(before: seq<Grant>, g: Grant, at: int, widest: map<string, Scope>)
    requires IsWidest(before, at, widest) && LiveAllow(g, g.capability, at)
    requires g.capability in widest ==> Breadth(g.scope) > Breadth(widest[g.capability])
    ensures IsWidest(before + [g], at, widest[g.capability := g.scope])
  {
    var wider := widest[g.capability := g.scope];
    forall c | c in wider ensures exists h :: h in before + [g] && LiveAllow(h, c, at) && h.scope == wider[c] {
      if c == g.capability {
        assert g in before + [g];
      } else {
        var h :| h in before && LiveAllow(h, c, at) && h.scope == widest[c];
        assert h in before + [g];
      }
    }
  }

  method Held(grants: seq<Grant>, at: int) returns (hint: map<string, Scope>)
    ensures IsHint(grants, at, hint)
  {
    var widest: map<string, Scope>, denied: set<string> := map[], {};
    for i := 0 to |grants|
      invariant IsWidest(grants[..i], at, widest)
      invariant forall c :: c in denied <==> DeniedEverywhere(grants[..i], c, at)
    {
      var g := grants[i];
      assert grants[..i + 1] == grants[..i] + [g];
      if g.validFrom > at { continue; }
      if g.validTo.Some? && g.validTo.value <= at { continue; }
      if g.effect == Allow {
        if g.capability !in widest || Breadth(g.scope) > Breadth(widest[g.capability]) {
          WidestGrows(grants[..i], g, at, widest);
          widest := widest[g.capability := g.scope];
        }
      } else if g.scope == All {
        denied := denied + {g.capability};
      }
    }
    assert grants[..|grants|] == grants;
    hint := widest - denied;
  }

  /** Whatever a check allows on any target is in the hint, at least as wide as every allow that decided it. */
  lemma HintCoversEveryCheck(q: Question, grants: seq<Grant>, hint: map<string, Scope>)
    requires IsHint(grants, q.at, hint) && Allowed(q, grants)
    ensures q.capability in hint
    ensures forall g :: g in grants && Survives(q, g) ==> Breadth(g.scope) <= Breadth(hint[q.capability])
  {
    var g :| g in grants && Survives(q, g) && g.effect == Allow;
    assert LiveAllow(g, q.capability, q.at);
    forall d | d in grants && d.effect == Deny && d.scope == All && d.capability == q.capability
      ensures !LiveAt(d.validFrom, d.validTo, q.at)
    {
      assert !Survives(q, d);
    }
    assert forall h :: h in grants && Survives(q, h) ==> LiveAllow(h, q.capability, q.at);
  }

  /** Nor does it make one to the hint. */
  lemma OutsideItsWindowHint(at: int, a: seq<Grant>, b: seq<Grant>, hint: map<string, Scope>)
    requires forall g: Grant :: g.validFrom <= at && (g.validTo == None || at < g.validTo.value) ==> (g in a <==> g in b)
    ensures IsHint(a, at, hint) <==> IsHint(b, at, hint)
  {
    forall c ensures DeniedEverywhere(a, c, at) <==> DeniedEverywhere(b, c, at) {}
    forall g, c | LiveAllow(g, c, at) ensures g in a <==> g in b {}
  }

  // ----- What a hint is worth -----

  /** A live allow and no deny on everything, on oneself, or on some unit or id. */
  ghost predicate Usable(q: ListQuestion, all: seq<Grant>) {
    || HasScope(Allows(q, all), All)
    || (HasScope(Allows(q, all), SelfOnly) && !HasScope(Denies(q, all), SelfOnly))
    || !(ReachOf(q.org, Allows(q, all)) <= ReachOf(q.org, Denies(q, all)))
  }

  /** How grants of one effect bear on a target: as a whole, by the person, or by the unit. */
  ghost predicate Bears(q: ListQuestion, grants: seq<Grant>, t: Target) {
    || HasScope(grants, All)
    || (HasScope(grants, SelfOnly) && TargetUser(t) == Some(q.principal))
    || (TargetUnit(t).Some? && TargetUnit(t).value in ReachOf(q.org, grants))
  }

  lemma BearsExactly(q: ListQuestion, all: seq<Grant>, effect: Effect, t: Target)
    ensures AnySurvives(q.About(t), all, effect) <==> Bears(q, Filter(all, LiveFn(q, effect)), t)
  {
    var live := Filter(all, LiveFn(q, effect));
    forall g ensures g in live <==> g in all && LiveFn(q, effect)(g) { FilterIn(all, LiveFn(q, effect), g); }
    if TargetUnit(t).Some? { ReachOfIn(q.org, live, TargetUnit(t).value); }
    assert AnySurvives(q.About(t), all, effect) <==> exists g :: g in live && Covers(q.org, q.principal, g, t);
  }

  lemma AllowedExactly(q: ListQuestion, all: seq<Grant>, t: Target)
    ensures Allowed(q.About(t), all) <==> Bears(q, Allows(q, all), t) && !Bears(q, Denies(q, all), t)
  {
    SurvivorsIn(q.About(t), all, Allow);
    BearsExactly(q, all, Allow, t);
    BearsExactly(q, all, Deny, t);
  }

  /** What is in the hint is not denied as a whole. */
  lemma HintedIsOpen(q: ListQuestion, all: seq<Grant>, hint: map<string, Scope>)
    requires IsHint(all, q.at, hint) && q.capability in hint
    ensures !HasScope(Denies(q, all), All)
  {
    forall g | g in Denies(q, all) ensures g.scope != All {
      FilterIn(all, LiveFn(q, Deny), g);
      assert !DeniedEverywhere(all, q.capability, q.at);
    }
  }

  /** A capability in the hint is allowed on some target exactly when some allow escapes the denies of its own kind. */
  lemma HintedIsUsable(q: ListQuestion, all: seq<Grant>, hint: map<string, Scope>)
    requires IsHint(all, q.at, hint) && q.capability in hint
    ensures (exists t :: Allowed(q.About(t), all)) <==> Usable(q, all)
  {
    HintedIsOpen(q, all, hint);
    if t :| Allowed(q.About(t), all) { AllowedExactly(q, all, t); }
    if HasScope(Allows(q, all), All) {
      AllowedExactly(q, all, OrgTarget);
    } else if HasScope(Allows(q, all), SelfOnly) && !HasScope(Denies(q, all), SelfOnly) {
      AllowedExactly(q, all, SelfTarget(q.principal));
    } else if u :| u in ReachOf(q.org, Allows(q, all)) && u !in ReachOf(q.org, Denies(q, all)) {
      AllowedExactly(q, all, UnitTarget(u));
    }
  }

  /** It can fail: one unit, allowed and denied there, is in the hint and of no use. */
  lemma HintMayOverstate(unit: Id, principal: Id, capability: string)
    ensures var org := Org({unit}, {unit}, [], 0);
            var allow := Grant(unit, capability, OwnUnit, Allow, Role, unit, Some(unit), None, None, 0, None);
            var grants := [allow, allow.(effect := Deny)];
            && (forall hint :: IsHint(grants, 0, hint) ==> capability in hint)
            && (forall t :: !Allowed(Question(org, principal, capability, t, 0), grants))
  {
    var org := Org({unit}, {unit}, [], 0);
    var allow := Grant(unit, capability, OwnUnit, Allow, Role, unit, Some(unit), None, None, 0, None);
    var deny := allow.(effect := Deny);
    var grants := [allow, deny];
    assert grants[0] == allow && grants[1] == deny;
    assert LiveAllow(allow, capability, 0) && !DeniedEverywhere(grants, capability, 0);
    forall t ensures !Allowed(Question(org, principal, capability, t, 0), grants) {
      var q := Question(org, principal, capability, t, 0);
      assert Survives(q, allow) <==> Survives(q, deny);
    }
  }
}
