/** The targets a route can ask about, and the per-request memo of decisions keyed by them. */
module RequestMemo {
  import opened Prelude
  import opened OrgGraph
  import opened Grants

  /** The kind a route declares; a list route's "any" and no declaration at all count as the organisation. */
  datatype Kind = OrgKind | UnitKind | PersonKind | SubjectKind | CampaignKind | SelfKind

  /** The target of a validated request: the id read from it, if any, and the person asking. */
  function BuildTarget(kind: Kind, id: Option<Id>, user: Id): Target {
    match kind
    case OrgKind => OrgTarget
    case SelfKind => SelfTarget(user)
    case PersonKind => PersonTarget(if id.Some? then id.value else user, None)
    case UnitKind => if id.Some? then UnitTarget(id.value) else OrgTarget
    case SubjectKind => SubjectTarget(id)
    case CampaignKind => CampaignTarget(id)
  }

  // ----- What a route decides -----

  /** Kinds whose id is a unit. */
  predicate NamesUnit(kind: Kind, id: Option<Id>) {
    id.Some? && (kind == UnitKind || kind == SubjectKind || kind == CampaignKind)
  }

  /** The grant has something to say to a route of this kind and id, asked by this person. */
  ghost predicate Speaks(org: Org, user: Id, kind: Kind, id: Option<Id>, g: Grant) {
    match g.scope
    case All => true
    case SelfOnly => kind == SelfKind || (kind == PersonKind && (id == None || id == Some(user)))
    case OwnUnit => NamesUnit(kind, id) && g.anchorUnitId == id
    case Subtree => NamesUnit(kind, id) && g.anchorUnitId.Some? && id.value in UnitSubtree(org, g.anchorUnitId.value)
  }

  /** The same, of the capability and within its window. */
  ghost predicate Counts(org: Org, user: Id, capability: string, at: int, kind: Kind, id: Option<Id>, g: Grant) {
    && g.capability == capability && g.validFrom <= at && (g.validTo.Some? ==> at < g.validTo.value)
    && Speaks(org, user, kind, id, g)
  }

  /** Some grant that counts allows, and none that counts denies. */
  ghost predicate RouteAllows(org: Org, user: Id, capability: string, at: int, kind: Kind, id: Option<Id>, grants: seq<Grant>) {
    && (exists g :: g in grants && Counts(org, user, capability, at, kind, id, g) && g.effect == Allow)
    && (forall g :: g in grants && Counts(org, user, capability, at, kind, id, g) ==> g.effect != Deny)
  }

  /**
   * What the check decides on the target a route builds: a person by the id of the request, or the caller without one;
   * oneself by the caller; a unit, a subject or a campaign by the unit, or else the organisation, as with no target.
   */
  lemma RouteDecides(org: Org, user: Id, capability: string, at: int, kind: Kind, id: Option<Id>, grants: seq<Grant>)
    ensures Allowed(Question(org, user, capability, BuildTarget(kind, id, user), at), grants)
       <==> RouteAllows(org, user, capability, at, kind, id, grants)
  {
    var q := Question(org, user, capability, BuildTarget(kind, id, user), at);
    forall g ensures Survives(q, g) <==> Counts(org, user, capability, at, kind, id, g) {
      CountsExactly(org, user, capability, at, kind, id, g);
    }
  }

  lemma BuiltTargetIs(kind: Kind, id: Option<Id>, user: Id)
    ensures TargetUser(BuildTarget(kind, id, user))
         == if kind == SelfKind || (kind == PersonKind && id == None) then Some(user) else if kind == PersonKind then id else None
    ensures TargetUnit(BuildTarget(kind, id, user)) == if NamesUnit(kind, id) then id else None
  {}

  lemma CountsExactly(org: Org, user: Id, capability: string, at: int, kind: Kind, id: Option<Id>, g: Grant)
    ensures Survives(Question(org, user, capability, BuildTarget(kind, id, user), at), g)
       <==> Counts(org, user, capability, at, kind, id, g)
  {
    BuiltTargetIs(kind, id, user);
    SpeaksExactly(org, user, kind, id, BuildTarget(kind, id, user), g);
  }

  lemma SpeaksExactly(org: Org, user: Id, kind: Kind, id: Option<Id>, t: Target, g: Grant)
    requires TargetUser(t) == if kind == SelfKind || (kind == PersonKind && id == None) then Some(user) else if kind == PersonKind then id else None
    requires TargetUnit(t) == if NamesUnit(kind, id) then id else None
    ensures Covers(org, user, g, t) <==> Speaks(org, user, kind, id, g)
  {
    match g.scope
    case All =>
    case SelfOnly =>
    case OwnUnit =>
    case Subtree =>
  }

  // ----- Keys -----

  function KindWord(t: Target): (w: string)
    ensures ':' !in w
  {
    match t
    case OrgTarget => "org"
    case UnitTarget(_) => "unit"
    case PersonTarget(_, _) => "person"
    case SubjectTarget(_) => "subject"
    case CampaignTarget(_) => "campaign"
    case SelfTarget(_) => "self"
  }

  /** The id a key shows: the unit if there is one, else the person. */
  function KeyId(t: Target): Option<Id> {
    if TargetUnit(t).Some? then TargetUnit(t) else TargetUser(t)
  }

  function TargetKey(t: Target): string {
    if KeyId(t).Some? then KindWord(t) + ":" + KeyId(t).value else KindWord(t)
  }

  function MemoKey(capability: string, t: Target): string {
    capability + ":" + TargetKey(t)
  }

  /** Keys as they are written. */
  lemma KeysAre(capability: string, id: Id, unit: Option<Id>)
    ensures MemoKey(capability, OrgTarget) == capability + ":" + "org"
    ensures MemoKey(capability, UnitTarget(id)) == capability + ":" + ("unit:" + id)
    ensures MemoKey(capability, PersonTarget(id, None)) == capability + ":" + ("person:" + id)
    ensures MemoKey(capability, SelfTarget(id)) == capability + ":" + ("self:" + id)
    ensures MemoKey(capability, SubjectTarget(unit)) == capability + ":" + if unit.Some? then "subject:" + unit.value else "subject"
    ensures MemoKey(capability, CampaignTarget(unit)) == capability + ":" + if unit.Some? then "campaign:" + unit.value else "campaign"
  {
    assert "unit" + ":" == "unit:" && "person" + ":" == "person:" && "self" + ":" == "self:";
    assert "subject" + ":" == "subject:" && "campaign" + ":" == "campaign:";
  }

  lemma KindWordsDiffer(a: Target, b: Target)
    requires KindWord(a) == KindWord(b)
    ensures a.OrgTarget? == b.OrgTarget? && a.UnitTarget? == b.UnitTarget? && a.PersonTarget? == b.PersonTarget?
    ensures a.SubjectTarget? == b.SubjectTarget? && a.CampaignTarget? == b.CampaignTarget?
    ensures a.SelfTarget? == b.SelfTarget?
  {
    assert KindWord(a)[0] == KindWord(b)[0] && |KindWord(a)| == |KindWord(b)|;
  }

  lemma ColonMeansId(t: Target)
    ensures ':' in TargetKey(t) <==> KeyId(t).Some?
  {
    if KeyId(t).Some? {
      assert TargetKey(t)[|KindWord(t)|] == ':';
    }
  }

  /** A key shows the kind and the id. */
  lemma TargetKeyShows(a: Target, b: Target)
    requires TargetKey(a) == TargetKey(b)
    ensures KindWord(a) == KindWord(b) && KeyId(a) == KeyId(b)
  {
    ColonMeansId(a);
    ColonMeansId(b);
    if KeyId(a).Some? && KeyId(b).Some? {
      KeySplit(':', KindWord(a), KindWord(b), KeyId(a).value, KeyId(b).value);
    }
  }

  /** Two built targets share a key only if they are one target. */
  lemma BuiltKeysTellApart(c1: string, k1: Kind, id1: Option<Id>, c2: string, k2: Kind, id2: Option<Id>, user: Id)
    requires ':' !in c1 && ':' !in c2
    requires MemoKey(c1, BuildTarget(k1, id1, user)) == MemoKey(c2, BuildTarget(k2, id2, user))
    ensures c1 == c2 && BuildTarget(k1, id1, user) == BuildTarget(k2, id2, user)
  {
    var a, b := BuildTarget(k1, id1, user), BuildTarget(k2, id2, user);
    KeySplit(':', c1, c2, TargetKey(a), TargetKey(b));
    TargetKeyShows(a, b);
    KindWordsDiffer(a, b);
  }

  /** A person named together with a unit would not be told apart; no route builds such a target. */
  lemma PersonAtUnitWouldCollide(me: Id, other: Id, unit: Id, capability: string)
    requires me != other
    ensures var org := Org({unit}, {unit}, [], 0);
            var grants := [Grant(unit, capability, SelfOnly, Allow, Person, me, None, None, None, 0, None)];
            var a, b := PersonTarget(me, Some(unit)), PersonTarget(other, Some(unit));
            MemoKey(capability, a) == MemoKey(capability, b)
            && Allowed(Question(org, me, capability, a, 0), grants)
            && !Allowed(Question(org, me, capability, b, 0), grants)
  {
    var org := Org({unit}, {unit}, [], 0);
    var g := Grant(unit, capability, SelfOnly, Allow, Person, me, None, None, None, 0, None);
    var grants := [g];
    assert g in grants && Survives(Question(org, me, capability, PersonTarget(me, Some(unit)), 0), g);
  }

  /** One request's memo of decisions. */
  class DecisionMemo {
    const org: Org
    const orgId: Id
    const principal: Id
    const at: int
    const grants: seq<Grant>
    const mode: ParamMode
    var memo: map<string, Decision>

    function Asked(capability: string, t: Target): Question {
      Question(org, principal, capability, t, at)
    }

    ghost predicate Valid() reads this {
      forall c: string, k, id :: ':' !in c && MemoKey(c, BuildTarget(k, id, principal)) in memo
        ==> Decides(Asked(c, BuildTarget(k, id, principal)), grants, mode, memo[MemoKey(c, BuildTarget(k, id, principal))])
    }

    constructor (org: Org, orgId: Id, principal: Id, at: int, grants: seq<Grant>, mode: ParamMode)
      ensures Valid() && this.org == org && this.principal == principal && this.at == at && this.grants == grants
      ensures this.mode == mode
    {
      this.org, this.orgId, this.principal, this.at, this.grants, this.mode := org, orgId, principal, at, grants, mode;
      memo := map[];
    }

    /** The answer is the right one for this very question, whatever was asked before. */
    method Resolve(capability: string, kind: Kind, id: Option<Id>) returns (d: Decision)
      requires Valid() && ':' !in capability
      modifies this
      ensures Valid() && Decides(Asked(capability, BuildTarget(kind, id, principal)), grants, mode, d)
      ensures d.allowed <==> RouteAllows(org, principal, capability, at, kind, id, grants)
      ensures memo.Keys == old(memo.Keys) + {MemoKey(capability, BuildTarget(kind, id, principal))}
    {
      var t := BuildTarget(kind, id, principal);
      RouteDecides(org, principal, capability, at, kind, id, grants);
      var key := MemoKey(capability, t);
      if key in memo { return memo[key]; }
      d := Run(Asked(capability, t), orgId, grants, mode);
      memo := memo[key := d];
      forall c: string, k, i | ':' !in c && MemoKey(c, BuildTarget(k, i, principal)) in memo
        ensures Decides(Asked(c, BuildTarget(k, i, principal)), grants, mode, memo[MemoKey(c, BuildTarget(k, i, principal))])
      {
        if MemoKey(c, BuildTarget(k, i, principal)) == key {
          BuiltKeysTellApart(c, k, i, capability, kind, id, principal);
        }
      }
    }
  }
}
