/** The bound on the powers grid: what a role may be given, by somebody who must hold it everywhere. */
module GridGuard {
  import opened Prelude
  import opened OrgGraph
  import opened Grants
  import opened Visibility
  import opened Collect
  import opened Escalation
  import PowersGrid
  import RoleMatrix

  type Cell = PowersGrid.Cell

  predicate Raising(cell: Cell, catalogue: set<string>) {
    cell.effect == Allow && cell.scope.Some? && cell.capability in catalogue
  }

  /** Some cell allows a known capability at some scope. */
  ghost predicate Raised(cells: seq<Cell>, catalogue: set<string>, capability: string) {
    capability in catalogue
    && exists cell :: cell in cells && cell.capability == capability && cell.effect == Allow && cell.scope.Some?
  }

  /** Raised only as "each holder may do this to themselves". */
  predicate SelfOnlyRaise(cells: seq<Cell>, catalogue: set<string>, capability: string) {
    forall cell :: cell in cells && Raising(cell, catalogue) && cell.capability == capability
      ==> cell.scope == Some(SelfOnly)
  }

  /** The guard's condition for one capability. */
  ghost predicate MayRaise(q: ListQuestion, grants: seq<Grant>, selfOnly: bool) {
    || SeesEverywhere(q, grants)
    || (selfOnly && (SeenIds(q, grants) != {} || SeesSelf(q, grants)))
    || (|SeenIds(q, grants)| >= |q.org.units| && (SeenIds(q, grants) != {} || SeesSelf(q, grants)))
  }

  ghost predicate GuardPasses(q: string -> ListQuestion, grants: seq<Grant>, cells: seq<Cell>, catalogue: set<string>) {
    forall c :: Raised(cells, catalogue, c) ==> MayRaise(q(c), grants, SelfOnlyRaise(cells, catalogue, c))
  }

  ghost function Ask(org: Org, principal: Id, at: int): string -> ListQuestion {
    (c: string) => ListQuestion(org, principal, c, at)
  }

  method RaisedCapabilities(cells: seq<Cell>, catalogue: set<string>) returns (out: set<string>)
    ensures forall c :: c in out <==> Raised(cells, catalogue, c)
  {
    out := {};
    for i := 0 to |cells|
      invariant forall c :: c in out <==> Raised(cells[..i], catalogue, c)
    {
      assert cells[..i + 1] == cells[..i] + [cells[i]];
      if Raising(cells[i], catalogue) { out := out + {cells[i].capability}; }
    }
    assert cells[..|cells|] == cells;
  }

  /** Refuses with the first capability the saver does not hold widely enough. */
  method Guard(ctx: RequestContext, cells: seq<Cell>, catalogue: set<string>) returns (refused: Option<string>)
    requires ctx.Valid()
    modifies ctx
    ensures ctx.Valid()
    ensures refused == None <==> GuardPasses(Ask(ctx.org, ctx.principal, ctx.at), ctx.grants, cells, catalogue)
    ensures refused.Some? ==>
              && Raised(cells, catalogue, refused.value)
              && !MayRaise(ctx.Asked(refused.value), ctx.grants, SelfOnlyRaise(cells, catalogue, refused.value))
  {
    var todo := RaisedCapabilities(cells, catalogue);
    ghost var all := todo;
    var unitCount: Option<nat> := None;
    while todo != {}
      invariant ctx.Valid() && todo <= all
      invariant unitCount.Some? ==> unitCount.value == |ctx.org.units|
      invariant forall c :: c in all - todo ==>
                  MayRaise(ctx.Asked(c), ctx.grants, SelfOnlyRaise(cells, catalogue, c))
      decreases |todo|
    {
      var c :| c in todo;
      var reach := ctx.VisibleUnits(c);
      if reach.Listed? {
        DistinctSize(reach.unitIds);
        assert reach.unitIds != [] ==> reach.unitIds[0] in Elements(reach.unitIds);
      }
      todo := todo - {c};
      if SeesNothing(reach) { return Some(c); }
      if reach.Everywhere? { continue; }
      if SelfOnlyRaise(cells, catalogue, c) { continue; }
      if unitCount == None { unitCount := Some(|ctx.org.units|); }
      if |reach.unitIds| >= unitCount.value { continue; }
      return Some(c);
    }
    refused := None;
  }

  /** A payload that passes allows at a scope of units only what the saver is allowed at every unit. */
  lemma PassedIsHeldEverywhere(org: Org, principal: Id, at: int, grants: seq<Grant>, cells: seq<Cell>, catalogue: set<string>,
                               cell: Cell, u: Id)
    requires GuardPasses(Ask(org, principal, at), grants, cells, catalogue)
    requires cell in cells && cell.effect == Allow && cell.scope.Some? && cell.scope.value != SelfOnly
    requires cell.capability in catalogue && u in org.units
    requires SeenIds(ListQuestion(org, principal, cell.capability, at), grants) <= org.units
    ensures Allowed(Question(org, principal, cell.capability, UnitTarget(u), at), grants)
  {
    var q := ListQuestion(org, principal, cell.capability, at);
    assert Raised(cells, catalogue, cell.capability) && !SelfOnlyRaise(cells, catalogue, cell.capability);
    assert MayRaise(Ask(org, principal, at)(cell.capability), grants, false);
    GuardMeansEverywhere(q, grants, u);
  }

  /** Denies, removals and capabilities nobody knows never need a bound. */
  lemma ReducingPasses(org: Org, principal: Id, at: int, grants: seq<Grant>, cells: seq<Cell>, catalogue: set<string>)
    requires forall cell :: cell in cells ==> cell.effect == Deny || cell.scope == None || cell.capability !in catalogue
    ensures GuardPasses(Ask(org, principal, at), grants, cells, catalogue)
  {}

  /** What is only given for oneself passes exactly when it is held on oneself or over some unit. */
  lemma SelfRaisePasses(org: Org, principal: Id, at: int, grants: seq<Grant>, cells: seq<Cell>, catalogue: set<string>)
    requires forall cell :: cell in cells && cell.effect == Allow && cell.scope.Some? ==> cell.scope == Some(SelfOnly)
    ensures GuardPasses(Ask(org, principal, at), grants, cells, catalogue)
       <==> forall cell :: cell in cells && cell.effect == Allow && cell.scope.Some? && cell.capability in catalogue ==>
              Holds(ListQuestion(org, principal, cell.capability, at), grants)
  {
    forall c ensures SelfOnlyRaise(cells, catalogue, c) {}
    forall c ensures MayRaise(Ask(org, principal, at)(c), grants, true) <==> Holds(ListQuestion(org, principal, c, at), grants) {}
  }

  /** Seen somewhere: everywhere, at some unit, or on oneself. */
  ghost predicate Holds(q: ListQuestion, grants: seq<Grant>) {
    SeesEverywhere(q, grants) || SeenIds(q, grants) != {} || SeesSelf(q, grants)
  }

  /** Counting is as good as comparing, as long as every visible id is a unit of the organisation. */
  lemma CountMeansEverywhere(q: ListQuestion, grants: seq<Grant>)
    requires SeenIds(q, grants) <= q.org.units
    ensures |SeenIds(q, grants)| >= |q.org.units| <==> SeenIds(q, grants) == q.org.units
  {
    SubsetSize(SeenIds(q, grants), q.org.units);
  }

  /** A raise that passes at a unit scope is of a capability the saver is allowed at every unit. */
  lemma GuardMeansEverywhere(q: ListQuestion, grants: seq<Grant>, u: Id)
    requires MayRaise(q, grants, false)
    requires SeenIds(q, grants) <= q.org.units && u in q.org.units
    ensures Allowed(q.About(UnitTarget(u)), grants)
  {
    CountMeansEverywhere(q, grants);
    HeldIsAllowed(q, grants, u);
  }

  /** A visible id that is no unit counts like one: the guard then passes although the only unit is out of reach. */
  lemma StaleIdFoolsTheCount(unit: Id, stale: Id, principal: Id, capability: string)
    requires unit != stale
    ensures var q := ListQuestion(Org({unit}, {unit}, [], 0), principal, capability, 0);
            var grants := [Grant(stale, capability, OwnUnit, Allow, Role, stale, Some(stale), None, None, 0, None)];
            MayRaise(q, grants, false) && !Allowed(q.About(UnitTarget(unit)), grants)
  {
    var q := ListQuestion(Org({unit}, {unit}, [], 0), principal, capability, 0);
    var g := Grant(stale, capability, OwnUnit, Allow, Role, stale, Some(stale), None, None, 0, None);
    var grants := [g];
    forall x, effect ensures x in Filter(grants, LiveFn(q, effect)) <==> x == g && effect == Allow {
      LiveIn(q, grants, effect, x);
    }
    forall u ensures u in SeenIds(q, grants) <==> u == stale {
      ReachOfIn(q.org, Allows(q, grants), u);
      ReachOfIn(q.org, Denies(q, grants), u);
      if u == stale {
        assert g in Allows(q, grants) && u in UnitReach(q.org, g);
      }
    }
    assert SeenIds(q, grants) == {stale};
  }

  /** A raise is honest, allowed at every unit, exactly when the saver sees everywhere or the units among the ids count up. */
  lemma HonestRaise(q: ListQuestion, grants: seq<Grant>)
    ensures (forall u :: u in q.org.units ==> Allowed(q.About(UnitTarget(u)), grants))
       <==> SeesEverywhere(q, grants) || |SeenIds(q, grants) * q.org.units| == |q.org.units|
  {
    var seen := SeenIds(q, grants) * q.org.units;
    SubsetSize(seen, q.org.units);
    forall u | u in q.org.units
      ensures Allowed(q.About(UnitTarget(u)), grants) <==> SeesEverywhere(q, grants) || u in seen {
      HeldIsAllowed(q, grants, u);
    }
    if forall u :: u in q.org.units ==> u in seen { assert seen == q.org.units; }
  }

  /** Every live allow of the role came out of a raised cell. */
  ghost predicate MadeOfCells(rows: seq<GrantRow>, subjects: set<Id>, at: int, cells: seq<Cell>, catalogue: set<string>) {
    forall r :: r in rows && Conferring(r, subjects, at) ==>
      exists cell :: cell in cells && Raising(cell, catalogue)
                  && cell.capability == r.capability && cell.scope == Some(r.scope)
  }

  /** The grant table holds, of a role's rows, no others than the stored cells. */
  ghost predicate StoredAs(table: seq<GrantRow>, stored: seq<Cell>, roleId: Id) {
    forall r :: r in table && r.subjectId == roleId ==>
      exists cell :: cell in stored && cell.roleId == roleId && cell.capability == r.capability
                  && cell.scope == Some(r.scope) && cell.effect == r.effect
  }

  /** What a save that is not refused stores for a role without rows is made of its cells. */
  lemma StoredPayloadIsMadeOfCells(rows: seq<Cell>, cells: seq<Cell>, roles: set<string>, catalogue: set<string>,
                                   table: seq<GrantRow>, roleId: Id, subjects: set<Id>, at: int)
    requires RoleMatrix.FirstRefusal(roles, catalogue, cells, 0) == None
    requires forall x :: x in rows ==> x.roleId != roleId
    requires StoredAs(table, PowersGrid.Applied(rows, cells), roleId)
    requires forall r :: r in table && r.subjectId in subjects ==> r.subjectId == roleId
    ensures MadeOfCells(table, subjects, at, cells, catalogue)
  {
    forall r | r in table && Conferring(r, subjects, at)
      ensures exists cell :: cell in cells && Raising(cell, catalogue)
                          && cell.capability == r.capability && cell.scope == Some(r.scope) {
      var x :| x in PowersGrid.Applied(rows, cells) && x.roleId == roleId && x.capability == r.capability
            && x.scope == Some(r.scope) && x.effect == r.effect;
      RoleMatrix.AppliedComesFrom(rows, cells, x);
      var i :| 0 <= i < |cells| && cells[i] == x;
      RoleMatrix.NotRefused(roles, catalogue, cells, 0, i);
    }
  }

  /** Live contains links lead to units. */
  ghost predicate LinksStayInUnits(org: Org) {
    forall e :: e in org.edges && e.kind == "contains" && LiveEdge(e, org.now) ==> e.child in org.units
  }

  lemma SubtreeOfUnits(org: Org, unitId: Id)
    requires org.Valid() && LinksStayInUnits(org) && unitId in org.units
    ensures Elements(UnitSubtree(org, unitId)) <= org.units
  {
    forall x | x in UnitSubtree(org, unitId) ensures x in org.units {
      SubtreeInside(org, unitId, x);
    }
  }

  /**
   * The grid guard and the assignment guard fit together: a role made of cells its saver could raise can be
   * placed by that saver at any unit, exactly when each org-wide cell is one he holds without exception.
   */
  lemma RaisedRolesCanBePlaced(org: Org, principal: Id, at: int, grants: seq<Grant>, cells: seq<Cell>,
                               catalogue: set<string>, rows: seq<GrantRow>, subjects: set<Id>, unitId: Id)
    requires org.Valid() && LinksStayInUnits(org) && unitId in org.units
    requires GuardPasses(Ask(org, principal, at), grants, cells, catalogue)
    requires forall c :: Raised(cells, catalogue, c) ==> SeenIds(ListQuestion(org, principal, c, at), grants) <= org.units
    requires MadeOfCells(rows, subjects, at, cells, catalogue)
    ensures WithinReach(org, principal, grants, at, rows, subjects, unitId)
       <==> forall c :: Confers(rows, subjects, at, c, All) ==> SeesEverywhere(ListQuestion(org, principal, c, at), grants)
  {
    forall c | ConfersUnits(rows, subjects, at, c)
      ensures HeldThere(ListQuestion(org, principal, c, at), grants, ConferredReach(org, rows, subjects, unitId, at, c))
         <==> (Confers(rows, subjects, at, c, All) ==> SeesEverywhere(ListQuestion(org, principal, c, at), grants))
    {
      var r :| r in rows && Conferring(r, subjects, at) && r.capability == c && r.scope != SelfOnly;
      ConferredWasRaised(rows, subjects, at, cells, catalogue, r);
      assert MayRaise(Ask(org, principal, at)(c), grants, false);
      RaisedCanBePlaced(org, principal, at, grants, rows, subjects, unitId, c);
    }
  }

  lemma ConferredWasRaised(rows: seq<GrantRow>, subjects: set<Id>, at: int, cells: seq<Cell>, catalogue: set<string>, r: GrantRow)
    requires MadeOfCells(rows, subjects, at, cells, catalogue)
    requires r in rows && Conferring(r, subjects, at) && r.scope != SelfOnly
    ensures Raised(cells, catalogue, r.capability) && !SelfOnlyRaise(cells, catalogue, r.capability)
  {
    var cell :| cell in cells && Raising(cell, catalogue) && cell.capability == r.capability && cell.scope == Some(r.scope);
  }

  lemma RaisedCanBePlaced(org: Org, principal: Id, at: int, grants: seq<Grant>, rows: seq<GrantRow>, subjects: set<Id>,
                          unitId: Id, c: string)
    requires org.Valid() && LinksStayInUnits(org) && unitId in org.units
    requires MayRaise(ListQuestion(org, principal, c, at), grants, false)
    requires SeenIds(ListQuestion(org, principal, c, at), grants) <= org.units
    ensures HeldThere(ListQuestion(org, principal, c, at), grants, ConferredReach(org, rows, subjects, unitId, at, c))
       <==> (Confers(rows, subjects, at, c, All) ==> SeesEverywhere(ListQuestion(org, principal, c, at), grants))
  {
    CountMeansEverywhere(ListQuestion(org, principal, c, at), grants);
    SubtreeOfUnits(org, unitId);
    assert ConferredUnits(org, rows, subjects, unitId, at, c) <= org.units;
  }
}
