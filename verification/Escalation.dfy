/** Nobody may create a position more powerful than they are, and what that buys over whole runs. */
module Escalation {
  import opened Prelude
  import opened OrgGraph
  import opened Grants
  import opened Visibility
  import opened Collect

  /** The units a conferred capability reaches. */
  datatype Reach = AllUnits | Units(ids: set<Id>)

  datatype Finding = Finding(capability: string, unitId: Id)

  /** The first position of this role at this unit. */
  function FindPosition(positions: seq<Node>, roleId: Id, unitId: Id): Option<Node> {
    if positions == [] then None
    else if IsPositionOf(positions[0], roleId, unitId) then Some(positions[0])
    else FindPosition(positions[1..], roleId, unitId)
  }

  predicate IsPositionOf(n: Node, roleId: Id, unitId: Id) {
    n.PositionNode? && n.role.Some? && n.role.value.id == roleId && n.place.Some? && n.place.value.id == unitId
  }

  function SubjectIds(positions: seq<Node>, roleId: Id, unitId: Id): set<Id> {
    var position := FindPosition(positions, roleId, unitId);
    if position.Some? then {roleId, position.value.id} else {roleId}
  }

  /** A live allow row of one of the subjects. */
  predicate Conferring(r: GrantRow, subjects: set<Id>, at: int) {
    r.subjectId in subjects && r.effect == Allow && LiveAt(r.validFrom, r.validTo, at)
  }

  ghost predicate Confers(rows: seq<GrantRow>, subjects: set<Id>, at: int, capability: string, scope: Scope) {
    exists r :: r in rows && r.subjectId in subjects && r.effect == Allow && r.capability == capability && r.scope == scope
             && r.validFrom <= at && (r.validTo == None || at < r.validTo.value)
  }

  /** A power that claims anything beyond the holder's own self. */
  ghost predicate ConfersUnits(rows: seq<GrantRow>, subjects: set<Id>, at: int, capability: string) {
    || Confers(rows, subjects, at, capability, All)
    || Confers(rows, subjects, at, capability, OwnUnit)
    || Confers(rows, subjects, at, capability, Subtree)
  }

  ghost function ConferredUnits(org: Org, rows: seq<GrantRow>, subjects: set<Id>, unitId: Id, at: int,
                                capability: string): set<Id>
  {
    (if Confers(rows, subjects, at, capability, OwnUnit) then {unitId} else {})
    + (if Confers(rows, subjects, at, capability, Subtree) then Elements(UnitSubtree(org, unitId)) else {})
  }

  ghost function ConferredReach(org: Org, rows: seq<GrantRow>, subjects: set<Id>, unitId: Id, at: int,
                                capability: string): Reach
  {
    if Confers(rows, subjects, at, capability, All) then AllUnits
    else Units(ConferredUnits(org, rows, subjects, unitId, at, capability))
  }

  /** Everything a position with these subjects at this unit would confer. */
  ghost predicate IsConferral(org: Org, rows: seq<GrantRow>, subjects: set<Id>, unitId: Id, at: int,
                              out: map<string, Reach>)
  {
    forall c :: (c in out <==> ConfersUnits(rows, subjects, at, c))
             && (c in out ==> out[c] == ConferredReach(org, rows, subjects, unitId, at, c))
  }

  lemma ConfersMore(rows: seq<GrantRow>, r: GrantRow, subjects: set<Id>, at: int, c: string, s: Scope)
    ensures Confers(rows + [r], subjects, at, c, s)
       <==> Confers(rows, subjects, at, c, s) || (Conferring(r, subjects, at) && r.capability == c && r.scope == s)
  {
    if Conferring(r, subjects, at) && r.capability == c && r.scope == s { assert r in rows + [r]; }
    if x :| x in rows && Conferring(x, subjects, at) && x.capability == c && x.scope == s {
      assert x in rows + [r];
    }
  }

  /** The units a row of this scope adds. */
  ghost function Addition(org: Org, unitId: Id, scope: Scope): set<Id> {
    if scope == OwnUnit then {unitId} else Elements(UnitSubtree(org, unitId))
  }

  /** The entries before and after one row; the other entries stay. */
  ghost predicate Extends(org: Org, r: GrantRow, subjects: set<Id>, unitId: Id, at: int,
                          out: map<string, Reach>, more: map<string, Reach>)
  {
    if !Conferring(r, subjects, at) || r.scope == SelfOnly then more == out
    else if r.scope == All then more == out[r.capability := AllUnits]
    else if r.capability in out && out[r.capability] == AllUnits then more == out
    else
      var units := if r.capability in out then out[r.capability].ids else {};
      more == out[r.capability := Units(units + Addition(org, unitId, r.scope))]
  }

  lemma OtherCapability(org: Org, rows: seq<GrantRow>, r: GrantRow, subjects: set<Id>, unitId: Id, at: int, c: string)
    requires !Conferring(r, subjects, at) || r.scope == SelfOnly || r.capability != c
    ensures ConfersUnits(rows + [r], subjects, at, c) == ConfersUnits(rows, subjects, at, c)
    ensures ConferredReach(org, rows + [r], subjects, unitId, at, c) == ConferredReach(org, rows, subjects, unitId, at, c)
  {
    ConfersMore(rows, r, subjects, at, c, All);
    ConfersMore(rows, r, subjects, at, c, OwnUnit);
    ConfersMore(rows, r, subjects, at, c, Subtree);
  }

  lemma SameCapability(org: Org, rows: seq<GrantRow>, r: GrantRow, subjects: set<Id>, unitId: Id, at: int)
    requires Conferring(r, subjects, at) && r.scope != SelfOnly
    ensures ConfersUnits(rows + [r], subjects, at, r.capability)
    ensures ConferredReach(org, rows + [r], subjects, unitId, at, r.capability)
         == if r.scope == All || Confers(rows, subjects, at, r.capability, All) then AllUnits
            else Units(ConferredUnits(org, rows, subjects, unitId, at, r.capability) + Addition(org, unitId, r.scope))
  {
    var c := r.capability;
    ConfersMore(rows, r, subjects, at, c, All);
    ConfersMore(rows, r, subjects, at, c, OwnUnit);
    ConfersMore(rows, r, subjects, at, c, Subtree);
    if r.scope != All {
      var before, after := ConferredUnits(org, rows, subjects, unitId, at, c), ConferredUnits(org, rows + [r], subjects, unitId, at, c);
      assert after == before + Addition(org, unitId, r.scope);
    }
  }

  lemma ConferralStep(org: Org, rows: seq<GrantRow>, r: GrantRow, subjects: set<Id>, unitId: Id, at: int,
                      out: map<string, Reach>, more: map<string, Reach>)
    requires IsConferral(org, rows, subjects, unitId, at, out)
    requires Extends(org, r, subjects, unitId, at, out, more)
    ensures IsConferral(org, rows + [r], subjects, unitId, at, more)
  {
    forall c ensures (c in more <==> ConfersUnits(rows + [r], subjects, at, c))
                  && (c in more ==> more[c] == ConferredReach(org, rows + [r], subjects, unitId, at, c))
    {
      if !Conferring(r, subjects, at) || r.scope == SelfOnly || r.capability != c {
        OtherCapability(org, rows, r, subjects, unitId, at, c);
      } else {
        SameCapability(org, rows, r, subjects, unitId, at);
      }
    }
  }

  method PositionWouldConfer(org: Org, rows: seq<GrantRow>, subjects: set<Id>, unitId: Id, at: int)
    returns (out: map<string, Reach>)
    ensures IsConferral(org, rows, subjects, unitId, at, out)
  {
    out := map[];
    var subtree: Option<seq<Id>> := None;
    for i := 0 to |rows|
      invariant IsConferral(org, rows[..i], subjects, unitId, at, out)
      invariant subtree.Some? ==> subtree.value == UnitSubtree(org, unitId)
    {
      var r := rows[i];
      ghost var before := out;
      assert rows[..i] + [r] == rows[..i + 1];
      if Conferring(r, subjects, at) && r.scope != SelfOnly {
        if r.scope == All {
          out := out[r.capability := AllUnits];
        } else if !(r.capability in out && out[r.capability] == AllUnits) {
          var units := if r.capability in out then out[r.capability].ids else {};
          if r.scope == OwnUnit {
            units := units + {unitId};
          } else {
            if subtree == None { subtree := Some(UnitSubtree(org, unitId)); }
            units := units + set u | u in subtree.value;
          }
          out := out[r.capability := Units(units)];
        }
      }
      ConferralStep(org, rows[..i], r, subjects, unitId, at, before, out);
    }
    assert rows[..|rows|] == rows;
  }

  /** One capability of a conferral is no more than the caller holds. */
  ghost predicate HeldThere(q: ListQuestion, grants: seq<Grant>, reach: Reach) {
    || SeesEverywhere(q, grants)
    || (reach.Units? && reach.ids <= SeenIds(q, grants))
  }

  /** The whole conferral is within what the caller holds. */
  ghost predicate WithinReach(org: Org, actor: Id, grants: seq<Grant>, at: int,
                              rows: seq<GrantRow>, subjects: set<Id>, unitId: Id)
  {
    forall c :: ConfersUnits(rows, subjects, at, c) ==>
      HeldThere(ListQuestion(org, actor, c, at), grants, ConferredReach(org, rows, subjects, unitId, at, c))
  }

  /** A finding names a conferred power and a unit, or the whole organisation, that the caller does not hold. */
  ghost predicate Genuine(org: Org, actor: Id, grants: seq<Grant>, at: int,
                          rows: seq<GrantRow>, subjects: set<Id>, unitId: Id, f: Finding)
  {
    var q := ListQuestion(org, actor, f.capability, at);
    var reach := ConferredReach(org, rows, subjects, unitId, at, f.capability);
    && ConfersUnits(rows, subjects, at, f.capability)
    && !SeesEverywhere(q, grants)
    && match reach
       case AllUnits => f.unitId == unitId
       case Units(ids) => f.unitId in ids && f.unitId !in SeenIds(q, grants)
  }

  /** One capability's reach against the caller's visibility. */
  method Beyond(q: ListQuestion, grants: seq<Grant>, held: Visibility, reach: Reach, unitId: Id)
    returns (missing: Option<Id>)
    requires Answers(q, grants, held)
    ensures missing == None <==> HeldThere(q, grants, reach)
    ensures missing.Some? && reach.AllUnits? ==> missing.value == unitId
    ensures missing.Some? && reach.Units? ==> missing.value in reach.ids && missing.value !in SeenIds(q, grants)
  {
    if held.Everywhere? { return None; }
    if reach.AllUnits? { return Some(unitId); }
    var heldUnits := set u | u in held.unitIds;
    assert heldUnits == SeenIds(q, grants);
    var todo := reach.ids;
    while todo != {}
      invariant todo <= reach.ids && reach.ids - todo <= heldUnits
      decreases |todo|
    {
      var u :| u in todo;
      if u !in heldUnits { return Some(u); }
      todo := todo - {u};
    }
    missing := None;
  }

  /** The first power the new position would give that the caller lacks there, or none. */
  method FindEscalation(ctx: RequestContext, rows: seq<GrantRow>, positions: seq<Node>, roleId: Id, unitId: Id)
    returns (finding: Option<Finding>)
    requires ctx.Valid()
    modifies ctx
    ensures ctx.Valid()
    ensures finding == None <==> WithinReach(ctx.org, ctx.principal, ctx.grants, ctx.at, rows,
                                             SubjectIds(positions, roleId, unitId), unitId)
    ensures finding.Some? ==> Genuine(ctx.org, ctx.principal, ctx.grants, ctx.at, rows,
                                      SubjectIds(positions, roleId, unitId), unitId, finding.value)
  {
    ghost var subjects := SubjectIds(positions, roleId, unitId);
    var confer := PositionWouldConfer(ctx.org, rows, SubjectIds(positions, roleId, unitId), unitId, ctx.at);
    if confer == map[] {
      assert forall c :: c !in confer;
      return None;
    }
    var todo := confer.Keys;
    while todo != {}
      invariant ctx.Valid() && todo <= confer.Keys
      invariant forall c :: c in confer.Keys - todo ==> HeldThere(ctx.Asked(c), ctx.grants, confer[c])
      decreases |todo|
    {
      var c :| c in todo;
      var held := ctx.VisibleUnits(c);
      var missing := Beyond(ctx.Asked(c), ctx.grants, held, confer[c], unitId);
      if missing.Some? { return Some(Finding(c, missing.value)); }
      todo := todo - {c};
    }
    finding := None;
  }

  // ----- The route guard over many pairs -----

  datatype Pair = Pair(roleId: Id, unitId: Id)

  function PairKey(p: Pair): string {
    p.roleId + ":" + p.unitId
  }

  method DistinctPairs(pairs: seq<Pair>) returns (out: seq<Pair>)
    requires forall p :: p in pairs ==> ':' !in p.roleId
    ensures Distinct(out)
    ensures Elements(out) == Elements(pairs)
  {
    out := [];
    var seen: set<string> := {};
    for i := 0 to |pairs|
      invariant Distinct(out) && Elements(out) == Elements(pairs[..i])
      invariant seen == set p | p in out :: PairKey(p)
    {
      var p := pairs[i];
      assert pairs[..i + 1] == pairs[..i] + [p];
      assert forall x :: x in out ==> x in Elements(pairs[..i]);
      if PairKey(p) in seen {
        var other :| other in out && PairKey(other) == PairKey(p);
        KeySplit(':', other.roleId, p.roleId, other.unitId, p.unitId);
        continue;
      }
      assert Elements(out + [p]) == Elements(out) + {p};
      seen, out := seen + {PairKey(p)}, out + [p];
    }
    assert pairs[..|pairs|] == pairs;
  }

  /** Refuses when some pair escalates; looking at distinct pairs is as good as looking at all of them. */
  method GuardPairs(ctx: RequestContext, rows: seq<GrantRow>, positions: seq<Node>, pairs: seq<Pair>)
    returns (refused: Option<Finding>)
    requires ctx.Valid()
    requires forall p :: p in pairs ==> ':' !in p.roleId
    modifies ctx
    ensures ctx.Valid()
    ensures refused == None <==> forall p :: p in pairs ==>
              WithinReach(ctx.org, ctx.principal, ctx.grants, ctx.at, rows,
                          SubjectIds(positions, p.roleId, p.unitId), p.unitId)
  {
    var todo := DistinctPairs(pairs);
    assert forall p :: p in pairs <==> p in Elements(todo);
    for i := 0 to |todo|
      invariant ctx.Valid()
      invariant forall j :: 0 <= j < i ==>
                  WithinReach(ctx.org, ctx.principal, ctx.grants, ctx.at, rows,
                              SubjectIds(positions, todo[j].roleId, todo[j].unitId), todo[j].unitId)
    {
      var finding := FindEscalation(ctx, rows, positions, todo[i].roleId, todo[i].unitId);
      if finding.Some? {
        assert todo[i] in Elements(todo);
        return finding;
      }
    }
    refused := None;
  }
}
