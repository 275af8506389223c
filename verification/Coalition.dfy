/**
 * Runs of guarded assignments at one instant. Appointing oneself adds nothing to what one may do, whatever the grants,
 * exactly when every anchor of one's grants stays where it is, but for those the guard has looked at; and assignments
 * that leave the anchors in use where they are never add to what a coalition may do.
 */
module Coalition {
  import opened Prelude
  import opened OrgGraph
  import opened Grants
  import opened Visibility
  import opened Collect
  import opened Escalation

  datatype Held = Held(node: Node, isPrimary: bool)

  datatype PersonRecord = PersonRecord(name: string, held: seq<Held>)

  datatype World = World(
    org: Org, rows: seq<GrantRow>, positions: seq<Node>, groups: seq<Node>, edges: seq<DelegationEdge>,
    people: map<Id, PersonRecord>, at: int)

  function NodesOf(held: seq<Held>): (r: seq<Node>)
    ensures |r| == |held|
  {
    seq(|held|, i requires 0 <= i < |held| => held[i].node)
  }

  function MembershipsOf(held: seq<Held>): seq<Membership> {
    seq(|held|, i requires 0 <= i < |held| => Membership(held[i].node.id, held[i].isPrimary))
  }

  /** The delegations into the positions a person holds. */
  function ReceivedBy(w: World, p: Id): seq<DelegationEdge>
    requires p in w.people
  {
    Received(NodesOf(w.people[p].held), w.edges, w.at)
  }

  function GrantsOf(w: World, p: Id): seq<Grant>
    requires p in w.people
  {
    var record := w.people[p];
    Collected(PersonInfo(p, record.name), MembershipsOf(record.held), NodesOf(record.held), ReceivedBy(w, p), w.rows, w.at)
  }

  /** Where a subject anchors for a person, and where the grants on themselves do. */
  function AnchorIn(w: World, p: Id, subject: Id): Option<Anchor>
    requires p in w.people
  {
    var record := w.people[p];
    AnchorOf(PersonInfo(p, record.name), MembershipsOf(record.held), NodesOf(record.held), ReceivedBy(w, p), subject, w.at)
  }

  function HomeIn(w: World, p: Id): Option<UnitInfo>
    requires p in w.people
  {
    HomeUnit(MembershipsOf(w.people[p].held), NodesOf(w.people[p].held))
  }

  ghost predicate May(w: World, p: Id, capability: string, u: Id)
    requires p in w.people
  {
    Allowed(Question(w.org, p, capability, UnitTarget(u), w.at), GrantsOf(w, p))
  }

  /** What some member of a group of people may do. */
  ghost predicate GroupMay(w: World, group: set<Id>, capability: string, u: Id) {
    exists p :: p in group && p in w.people && May(w, p, capability, u)
  }

  // ----- Assigning a position -----

  datatype Step = Step(actor: Id, person: Id, role: RoleInfo, place: UnitInfo, primary: bool,
                       name: string, newId: Id)

  /** The position is found before it is created. */
  function Seat(w: World, s: Step): Node {
    var found := FindPosition(w.positions, s.role.id, s.place.id);
    if found.Some? then found.value else PositionNode(s.newId, s.name, Some(s.role), Some(s.place), None)
  }

  function Unmark(held: seq<Held>, clear: bool): (r: seq<Held>)
    ensures |r| == |held| && NodesOf(r) == NodesOf(held)
  {
    seq(|held|, i requires 0 <= i < |held| => Held(held[i].node, held[i].isPrimary && !clear))
  }

  predicate Holds(w: World, p: Id, seat: Id) {
    p in w.people && exists h :: h in w.people[p].held && h.node.id == seat
  }

  /** Adds the membership, or refuses because it exists. */
  function Assign(w: World, s: Step): World
    requires s.person in w.people
  {
    var seat := Seat(w, s);
    if Holds(w, s.person, seat.id) then w
    else
      var record := w.people[s.person];
      w.(positions := if seat in w.positions then w.positions else w.positions + [seat],
         people := w.people[s.person := record.(held := Unmark(record.held, s.primary) + [Held(seat, s.primary)])])
  }

  /** A seat not held yet is given, found or created; a new primary one takes the mark from the others; nobody else is touched. */
  lemma AssignGives(w: World, s: Step)
    requires s.person in w.people
    ensures var held, after, seat := w.people[s.person].held, Assign(w, s), Seat(w, s);
            if exists h :: h in held && h.node.id == seat.id then after == w
            else && after.rows == w.rows && after.org == w.org && after.edges == w.edges && after.groups == w.groups
                 && after.people.Keys == w.people.Keys && (forall p :: p in w.people && p != s.person ==> after.people[p] == w.people[p])
                 && (forall n :: n in after.positions <==> n in w.positions || n == seat)
                 && |after.people[s.person].held| == |held| + 1
                 && after.people[s.person].held[|held|] == Held(seat, s.primary)
                 && forall i :: 0 <= i < |held| ==>
                      after.people[s.person].held[i] == if s.primary then Held(held[i].node, false) else held[i]
  {}

  /** The seat is the position of the role at the unit, if there is one, else a new one of that role there. */
  lemma SeatIsFoundOrNew(w: World, s: Step)
    ensures IsPositionOf(Seat(w, s), s.role.id, s.place.id)
    ensures Seat(w, s) in w.positions || Seat(w, s) == PositionNode(s.newId, s.name, Some(s.role), Some(s.place), None)
    ensures (exists n :: n in w.positions && IsPositionOf(n, s.role.id, s.place.id)) ==> Seat(w, s) in w.positions
  {
    FoundPosition(w.positions, s.role.id, s.place.id);
  }

  /** The guard's verdict for the acting person. */
  ghost predicate Bounded(w: World, s: Step)
    requires s.actor in w.people
  {
    WithinReach(w.org, s.actor, GrantsOf(w, s.actor), w.at, w.rows,
                SubjectIds(w.positions, s.role.id, s.place.id), s.place.id)
  }

  ghost function Take(w: World, s: Step): World
    requires s.actor in w.people && s.person in w.people
  {
    if Bounded(w, s) then Assign(w, s) else w
  }

  // ----- Tidy worlds -----

  predicate IsSeat(n: Node) {
    n.PositionNode? && n.role.Some? && n.place.Some?
  }

  predicate HasRole(n: Node, roleId: Id) {
    n.PositionNode? && n.role.Some? && n.role.value.id == roleId
  }

  predicate SameSlot(n: Node, m: Node) {
    IsSeat(n) && IsSeat(m) && n.role.value.id == m.role.value.id && n.place.value.id == m.place.value.id
  }

  /** Ids of positions, roles and people are all different, and positions are one for each role and unit. */
  ghost predicate TidyPositions(w: World) {
    && (forall n :: n in w.positions ==>
          IsSeat(n) && n.place.value.id in w.org.units && n.id !in w.people && n.role.value.id !in w.people)
    && forall n, m :: n in w.positions && m in w.positions ==> Apart(n, m)
  }

  /** Ids tell positions apart, and so do role and unit; and no position is a role. */
  predicate Apart(n: Node, m: Node) {
    && IsSeat(n) && IsSeat(m) && (n.id == m.id ==> n == m) && (SameSlot(n, m) ==> n == m)
    && n.id != m.role.value.id
  }

  /** Groups are neither positions nor roles, and their scopes are units. */
  ghost predicate TidyGroups(w: World) {
    && (forall g :: g in w.groups ==>
          g.GroupNode? && (g.scopeUnitId.Some? ==> g.scopeUnitId.value in w.org.units))
    && (forall g, n :: g in w.groups && n in w.positions ==> IsSeat(n) && g.id != n.id && g.id != n.role.value.id)
  }

  function AsDelegator(n: Node): Delegator
    requires n.PositionNode?
  {
    Delegator(n.id, n.name, n.role, n.place)
  }

  /** Delegations come from positions. */
  ghost predicate TidyEdges(w: World) {
    forall e :: e in w.edges ==> exists n :: n in w.positions && n.PositionNode? && e.from == AsDelegator(n)
  }

  ghost predicate Tidy(w: World) {
    && TidyPositions(w) && TidyGroups(w) && TidyEdges(w)
    && (forall p, n :: p in w.people && n in NodesOf(w.people[p].held) ==> n in w.positions || n in w.groups)
  }

  /** The request is about known people and a known unit, a role is no position, and a created position gets a new id. */
  ghost predicate WellPosed(w: World, s: Step) {
    && s.actor in w.people && s.person in w.people && s.place.id in w.org.units
    && s.role.id !in w.people && s.newId !in w.people && s.newId != s.role.id
    && (forall r :: r in w.rows ==> r.subjectId != s.newId)
    && (forall n :: n in w.positions ==> IsSeat(n) && n.id != s.newId && n.id != s.role.id && n.role.value.id != s.newId)
    && (forall n :: n in w.positions && n.place.value.id == s.place.id ==> n.place.value == s.place)
    && (forall g :: g in w.groups ==> g.id != s.newId && g.id != s.role.id)
  }

  /**
   * The home unit stays where it is: a new primary position is where it was already, and another position neither
   * becomes the only one nor stops the only one from being it.
   */
  predicate HomeStays(w: World, s: Step)
    requires s.person in w.people
  {
    var held := w.people[s.person].held;
    var positions := Placed(NodesOf(held));
    if s.primary then HomeIn(w, s.person) == PlaceOf(Seat(w, s))
    else Primary(MembershipsOf(held), positions) != [] || |positions| >= 2
  }

  lemma {:induction false} FoundPosition(positions: seq<Node>, roleId: Id, unitId: Id)
    ensures var f := FindPosition(positions, roleId, unitId);
            if f.Some? then f.value in positions && IsPositionOf(f.value, roleId, unitId)
            else forall n :: n in positions ==> !IsPositionOf(n, roleId, unitId)
  {
    if positions != [] && !IsPositionOf(positions[0], roleId, unitId) {
      FoundPosition(positions[1..], roleId, unitId);
      assert positions == [positions[0]] + positions[1..];
    }
  }

  /** What is known of the seat: it is of the role, at the unit, and its id is nobody else's. */
  lemma SeatFacts(w: World, s: Step)
    requires Tidy(w) && WellPosed(w, s)
    ensures var seat := Seat(w, s);
            && IsPositionOf(seat, s.role.id, s.place.id) && seat.id !in w.people && seat.id != s.role.id
            && (forall n :: n in w.positions && n.id == seat.id ==> n == seat)
            && (forall n :: n in w.positions && IsPositionOf(n, s.role.id, s.place.id) ==> n == seat)
            && (forall n :: n in w.positions ==> n.role.value.id != seat.id)
            && (forall n :: n in w.positions && n.place.value.id == s.place.id ==> n.place == seat.place)
            && (forall g :: g in w.groups ==> g.id != seat.id && g.id != s.role.id)
  {
    FoundPosition(w.positions, s.role.id, s.place.id);
    var seat := Seat(w, s);
    if seat in w.positions {
      forall n | n in w.positions && IsPositionOf(n, s.role.id, s.place.id) ensures n == seat { assert SameSlot(n, seat); }
    }
  }

  lemma NodesAfter(w: World, s: Step)
    requires s.person in w.people && !Holds(w, s.person, Seat(w, s).id)
    ensures NodesOf(Assign(w, s).people[s.person].held) == NodesOf(w.people[s.person].held) + [Seat(w, s)]
  {
    var more := NodesOf(Assign(w, s).people[s.person].held);
    assert more[..|more| - 1] == NodesOf(Unmark(w.people[s.person].held, s.primary));
  }

  /** Assigning keeps a world tidy. */
  lemma TidyKept(w: World, s: Step)
    requires Tidy(w) && WellPosed(w, s)
    ensures Tidy(Assign(w, s))
  {
    SeatFacts(w, s);
    var after, seat := Assign(w, s), Seat(w, s);
    if !Holds(w, s.person, seat.id) {
      assert forall n :: n in after.positions <==> n in w.positions || n == seat;
      assert TidyPositions(after) by { SeatFits(w, s); }
      NodesAfter(w, s);
      assert TidyGroups(after) by { SeatFacts(w, s); }
      forall p, n | p in after.people && n in NodesOf(after.people[p].held)
        ensures n in after.positions || n in after.groups {
        assert p != s.person ==> after.people[p] == w.people[p];
      }
    }
  }

  lemma SeatFits(w: World, s: Step)
    requires Tidy(w) && WellPosed(w, s) && !Holds(w, s.person, Seat(w, s).id)
    ensures TidyPositions(Assign(w, s))
  {
    SeatFacts(w, s);
    var after, seat := Assign(w, s), Seat(w, s);
    assert after.people.Keys == w.people.Keys;
    forall n, m | n in after.positions && m in after.positions
      ensures Apart(n, m)
    {
      PairFits(w, s, n, m);
    }
  }

  lemma PairFits(w: World, s: Step, n: Node, m: Node)
    requires Tidy(w) && WellPosed(w, s)
    requires n in w.positions || n == Seat(w, s)
    requires m in w.positions || m == Seat(w, s)
    ensures Apart(n, m)
  {
    SeatFacts(w, s);
  }

  // ----- Where the home unit goes -----

  /** Whether a node is primary is settled by its own membership. */
  lemma PrimaryIn(held: seq<Held>, id: Id)
    ensures Membership(id, true) in MembershipsOf(held) <==> exists h :: h in held && h.node.id == id && h.isPrimary
  {
    var ms := MembershipsOf(held);
    if h :| h in held && h.node.id == id && h.isPrimary {
      var i :| 0 <= i < |held| && held[i] == h;
      assert ms[i] in ms;
    }
    if Membership(id, true) in ms {
      var i :| 0 <= i < |ms| && ms[i] == Membership(id, true);
      assert held[i] in held;
    }
  }

  lemma UnmarkedIn(held: seq<Held>, clear: bool, id: Id)
    ensures Membership(id, true) in MembershipsOf(Unmark(held, clear)) <==> !clear && Membership(id, true) in MembershipsOf(held)
  {
    var after := Unmark(held, clear);
    PrimaryIn(held, id);
    PrimaryIn(after, id);
    if !clear { assert after == held; }
  }

  lemma MembershipsAfter(held: seq<Held>, seat: Node, primary: bool, id: Id)
    requires forall h :: h in held ==> h.node.id != seat.id
    ensures Membership(id, true) in MembershipsOf(Unmark(held, primary) + [Held(seat, primary)])
       <==> if id == seat.id then primary else !primary && Membership(id, true) in MembershipsOf(held)
  {
    var init, last := Unmark(held, primary), Held(seat, primary);
    assert MembershipsOf(init + [last]) == MembershipsOf(init) + [Membership(seat.id, primary)];
    UnmarkedIn(held, primary, id);
    PrimaryIn(held, seat.id);
  }

  /** The home unit after a position is added to those held. */
  lemma HomeOfMore(held: seq<Held>, seat: Node, primary: bool)
    requires IsSeat(seat) && forall h :: h in held ==> h.node.id != seat.id
    ensures var positions, after := Placed(NodesOf(held)), Unmark(held, primary) + [Held(seat, primary)];
            var home := HomeUnit(MembershipsOf(after), NodesOf(held) + [seat]);
            if primary then home == seat.place
            else if Primary(MembershipsOf(held), positions) != [] || |positions| >= 2
            then home == HomeUnit(MembershipsOf(held), NodesOf(held))
            else home == if positions == [] then seat.place else None
  {
    var positions := Placed(NodesOf(held));
    var ms, more := MembershipsOf(held), MembershipsOf(Unmark(held, primary) + [Held(seat, primary)]);
    FilterSnoc(NodesOf(held), seat, (n: Node) => n.PositionNode? && n.place.Some?);
    assert Placed(NodesOf(held) + [seat]) == positions + [seat];
    PrimaryOfMore(held, seat, primary);
    if primary { assert Primary(more, positions + [seat]) == [seat]; }
  }

  lemma PrimaryOfMore(held: seq<Held>, seat: Node, primary: bool)
    requires forall h :: h in held ==> h.node.id != seat.id
    ensures var positions, more := Placed(NodesOf(held)), MembershipsOf(Unmark(held, primary) + [Held(seat, primary)]);
            Primary(more, positions + [seat]) == if primary then [seat] else Primary(MembershipsOf(held), positions)
  {
    var positions := Placed(NodesOf(held));
    var ms, more := MembershipsOf(held), MembershipsOf(Unmark(held, primary) + [Held(seat, primary)]);
    var was, now := (n: Node) => Membership(n.id, true) in ms, (n: Node) => Membership(n.id, true) in more;
    FilterSnoc(positions, seat, now);
    MembershipsAfter(held, seat, primary, seat.id);
    forall n | n in positions ensures now(n) == (!primary && was(n)) {
      PlacedIsHeld(held, n);
      MembershipsAfter(held, seat, primary, n.id);
    }
    if primary {
      NonePass(positions, now);
    } else {
      FilterAgree(positions, now, was);
    }
  }

  lemma {:induction false} NonePass<T>(s: seq<T>, keep: T -> bool)
    requires forall x :: x in s ==> !keep(x)
    ensures Filter(s, keep) == []
  {
    if s != [] { NonePass(s[1..], keep); }
  }

  lemma PlacedIsHeld(held: seq<Held>, n: Node)
    requires n in Placed(NodesOf(held))
    ensures n.PositionNode? && n.place.Some? && n in NodesOf(held) && exists h :: h in held && h.node == n
  {
    FilterIn(NodesOf(held), (n: Node) => n.PositionNode? && n.place.Some?, n);
    var i :| 0 <= i < |held| && NodesOf(held)[i] == n;
    assert held[i] in held;
  }

  /** What an assignment does to the home unit. */
  lemma HomeAfter(w: World, s: Step)
    requires Tidy(w) && WellPosed(w, s) && !Holds(w, s.person, Seat(w, s).id)
    ensures HomeStays(w, s) ==> HomeIn(Assign(w, s), s.person) == HomeIn(w, s.person)
    ensures !HomeStays(w, s) ==> HomeIn(Assign(w, s), s.person) != HomeIn(w, s.person)
    ensures !HomeStays(w, s) ==> HomeIn(Assign(w, s), s.person) in {None, PlaceOf(Seat(w, s))}
  {
    SeatFacts(w, s);
    NodesAfter(w, s);
    var held := w.people[s.person].held;
    HomeOfMore(held, Seat(w, s), s.primary);
    if !s.primary && Primary(MembershipsOf(held), Placed(NodesOf(held))) == [] && |Placed(NodesOf(held))| == 1 {
      PlacedIsHeld(held, Placed(NodesOf(held))[0]);
    }
  }

  // ----- Harmless assignments -----

  /** Whether there is an anchor, and its unit if it has one. */
  function Spot(a: Option<Anchor>): Option<Option<Id>> {
    if a.Some? then Some(a.value.unitId) else None
  }

  /**
   * The anchor of a subject stays at its unit; or it is one the guard looked at, new to the person, and at the unit of
   * the request.
   */
  predicate Stays(w: World, s: Step, subject: Id)
    requires s.person in w.people
  {
    var was, will := Spot(AnchorIn(w, s.person, subject)), Spot(AnchorIn(Assign(w, s), s.person, subject));
    || was == will
    || (was == None && will == Some(Some(s.place.id)) && subject in SubjectIds(w.positions, s.role.id, s.place.id))
  }

  /** No anchor moves; on the id of a position that is only now created no grant can be. */
  ghost predicate Harmless(w: World, s: Step)
    requires s.person in w.people
  {
    forall subject: Id :: subject != s.newId ==> Stays(w, s, subject)
  }

  /** No anchor moves that a grant hangs on. */
  ghost predicate HarmlessHere(w: World, s: Step)
    requires s.person in w.people
  {
    forall r :: r in w.rows ==> Stays(w, s, r.subjectId)
  }

  /** Who is granted what: table rows where their subject anchors. */
  lemma GrantsIn(w: World, p: Id, g: Grant)
    requires p in w.people
    ensures g in GrantsOf(w, p)
       <==> exists r :: r in w.rows && AnchorIn(w, p, r.subjectId).Some? && g == Candidate(r, AnchorIn(w, p, r.subjectId).value)
  {
    var record := w.people[p];
    CollectedIn(PersonInfo(p, record.name), MembershipsOf(record.held), NodesOf(record.held), ReceivedBy(w, p), w.rows, w.at, g);
  }

  /** Anchors at one unit make grants of one reach. */
  lemma SameSpotSurvives(q: Question, r: GrantRow, a: Anchor, b: Anchor)
    requires a.unitId == b.unitId
    ensures Survives(q, Candidate(r, a)) <==> Survives(q, Candidate(r, b))
  {}

  /** A conferred allow that reaches a unit from the place of the request reaches one where the guarded actor is allowed. */
  lemma ConferredIsHeld(w: World, s: Step, r: GrantRow, a: Anchor, capability: string, u: Id)
    requires s.actor in w.people && Bounded(w, s) && u in w.org.units
    requires r in w.rows && r.subjectId in SubjectIds(w.positions, s.role.id, s.place.id) && r.effect == Allow
    requires a.unitId == Some(s.place.id)
    requires Survives(Question(w.org, s.person, capability, UnitTarget(u), w.at), Candidate(r, a))
    ensures May(w, s.actor, capability, u)
  {
    var subjects := SubjectIds(w.positions, s.role.id, s.place.id);
    assert Conferring(r, subjects, w.at) && Confers(w.rows, subjects, w.at, capability, r.scope);
    var q := ListQuestion(w.org, s.actor, capability, w.at);
    var reach := ConferredReach(w.org, w.rows, subjects, s.place.id, w.at, capability);
    assert HeldThere(q, GrantsOf(w, s.actor), reach);
    assert reach.Units? ==> u in reach.ids;
    HeldIsAllowed(q, GrantsOf(w, s.actor), u);
  }

  /** What held a person back before still does where no anchor in use moves. */
  lemma DeniesStay(w: World, s: Step, q: Question)
    requires s.person in w.people && HarmlessHere(w, s) && Allowed(q, GrantsOf(Assign(w, s), s.person))
    ensures forall g :: g in GrantsOf(w, s.person) && Survives(q, g) ==> g.effect == Allow
  {
    forall g | g in GrantsOf(w, s.person) && Survives(q, g) ensures g.effect == Allow {
      GrantsIn(w, s.person, g);
      var r :| r in w.rows && AnchorIn(w, s.person, r.subjectId).Some? && g == Candidate(r, AnchorIn(w, s.person, r.subjectId).value);
      var b := AnchorIn(Assign(w, s), s.person, r.subjectId);
      assert Stays(w, s, r.subjectId) && b.Some?;
      SameSpotSurvives(q, r, AnchorIn(w, s.person, r.subjectId).value, b.value);
      GrantsIn(Assign(w, s), s.person, Candidate(r, b.value));
    }
  }

  /** What the newly appointed person may do, they could before, or the actor who appointed them could. */
  lemma AppointedMay(w: World, s: Step, capability: string, u: Id)
    requires s.actor in w.people && s.person in w.people && Bounded(w, s) && HarmlessHere(w, s)
    requires u in w.org.units && May(Assign(w, s), s.person, capability, u)
    ensures May(w, s.person, capability, u) || May(w, s.actor, capability, u)
  {
    var q := Question(w.org, s.person, capability, UnitTarget(u), w.at);
    var after := Assign(w, s);
    var g :| g in GrantsOf(after, s.person) && Survives(q, g) && g.effect == Allow;
    GrantsIn(after, s.person, g);
    var r :| r in w.rows && AnchorIn(after, s.person, r.subjectId).Some? && g == Candidate(r, AnchorIn(after, s.person, r.subjectId).value);
    var a, b := AnchorIn(w, s.person, r.subjectId), AnchorIn(after, s.person, r.subjectId);
    assert Stays(w, s, r.subjectId);
    if a.Some? {
      SameSpotSurvives(q, r, a.value, b.value);
      GrantsIn(w, s.person, Candidate(r, a.value));
      DeniesStay(w, s, q);
    } else {
      ConferredIsHeld(w, s, r, b.value, capability, u);
    }
  }

  /** One guarded and harmless assignment gives a group nothing new, if its members are only appointed by members. */
  lemma StepNeverEnlarges(w: World, s: Step, group: set<Id>, capability: string, u: Id)
    requires s.actor in w.people && s.person in w.people && (Bounded(w, s) ==> HarmlessHere(w, s))
    requires s.person in group ==> s.actor in group
    requires u in w.org.units
    ensures GroupMay(Take(w, s), group, capability, u) ==> GroupMay(w, group, capability, u)
  {
    if GroupMay(Take(w, s), group, capability, u) { OneStep(w, s, group, capability, u); }
  }

  lemma OneStep(w: World, s: Step, group: set<Id>, capability: string, u: Id)
    requires s.actor in w.people && s.person in w.people && (Bounded(w, s) ==> HarmlessHere(w, s))
    requires s.person in group ==> s.actor in group
    requires u in w.org.units && GroupMay(Take(w, s), group, capability, u)
    ensures GroupMay(w, group, capability, u)
  {
    var after := Take(w, s);
    var p :| p in group && p in after.people && May(after, p, capability, u);
    if after == w || p != s.person {
      assert GrantsOf(after, p) == GrantsOf(w, p);
      assert May(w, p, capability, u);
    } else {
      AppointedMay(w, s, capability, u);
    }
  }

  /** Every request is about people, harmless where the guard lets it through, and appoints no member but by a member. */
  ghost predicate HarmlessRun(w: World, steps: seq<Step>, group: set<Id>)
    decreases |steps|
  {
    steps == []
    || (&& steps[0].actor in w.people && steps[0].person in w.people
        && (Bounded(w, steps[0]) ==> HarmlessHere(w, steps[0]))
        && (steps[0].person in group ==> steps[0].actor in group)
        && HarmlessRun(Take(w, steps[0]), steps[1..], group))
  }

  ghost function After(w: World, steps: seq<Step>, group: set<Id>): World
    requires HarmlessRun(w, steps, group)
    decreases |steps|
  {
    if steps == [] then w else After(Take(w, steps[0]), steps[1..], group)
  }

  /**
   * However its members, and outsiders, appoint people one after the other, a coalition never gains a
   * (capability, unit) pair that none of its members had at the start.
   */
  lemma {:induction false} RunNeverEnlarges(w: World, steps: seq<Step>, group: set<Id>, capability: string, u: Id)
    requires HarmlessRun(w, steps, group) && u in w.org.units
    ensures GroupMay(After(w, steps, group), group, capability, u) ==> GroupMay(w, group, capability, u)
    decreases |steps|
  {
    if steps != [] {
      RunNeverEnlarges(Take(w, steps[0]), steps[1..], group, capability, u);
      StepNeverEnlarges(w, steps[0], group, capability, u);
    }
  }

  // ----- Three grant tables -----

  /** Grant tables that fit a request: no grant is on the id kept for a new position. */
  ghost predicate RowsFit(s: Step, rows: seq<GrantRow>) {
    forall r :: r in rows ==> r.subjectId != s.newId
  }

  /** With this grant table, the guard does not let the step through, or it adds nothing to what the person may do. */
  ghost predicate AddsNothing(w: World, s: Step, rows: seq<GrantRow>)
    requires s.actor in w.people && s.person in w.people
  {
    var v := w.(rows := rows);
    Bounded(v, s) ==> forall c, u :: u in w.org.units && May(Assign(v, s), s.person, c, u) ==> May(v, s.person, c, u)
  }

  function Row(subject: Id, capability: string, scope: Scope, effect: Effect, at: int): GrantRow {
    GrantRow(subject, subject, subject, capability, scope, effect, at, None)
  }

  function Allowing(subject: Id, capability: string, scope: Scope, at: int): seq<GrantRow> {
    [Row(subject, capability, scope, Allow, at)]
  }

  /** An allow everywhere, on one subject, but for the unit where another one is anchored. */
  function AllowingBut(subject: Id, all: Id, capability: string, at: int): seq<GrantRow> {
    [Row(subject, capability, OwnUnit, Deny, at), Row(all, capability, All, Allow, at)]
  }

  /** With one allow a person may act exactly where its anchor reaches. */
  lemma MayByAllow(w: World, p: Id, subject: Id, capability: string, scope: Scope, u: Id)
    requires p in w.people && (scope == All || scope == OwnUnit) && w.rows == Allowing(subject, capability, scope, w.at)
    ensures May(w, p, capability, u) <==> if scope == All then AnchorIn(w, p, subject).Some? else Spot(AnchorIn(w, p, subject)) == Some(Some(u))
  {
    var q, a := Question(w.org, p, capability, UnitTarget(u), w.at), AnchorIn(w, p, subject);
    assert w.rows[0] in w.rows;
    forall g ensures g in GrantsOf(w, p) <==> a.Some? && g == Candidate(w.rows[0], a.value) { GrantsIn(w, p, g); }
    if a.Some? {
      assert Survives(q, Candidate(w.rows[0], a.value)) <==> scope == All || a.value.unitId == Some(u);
    }
  }

  /** Under a deny on a subject at its own unit, a person may act exactly at the other units. */
  lemma DenyBitesAtAnchor(w: World, p: Id, subject: Id, all: Id, capability: string, u: Id)
    requires p in w.people && w.rows == AllowingBut(subject, all, capability, w.at) && AnchorIn(w, p, all).Some?
    ensures May(w, p, capability, u) <==> Spot(AnchorIn(w, p, subject)) != Some(Some(u))
  {
    var q, a := Question(w.org, p, capability, UnitTarget(u), w.at), AnchorIn(w, p, subject);
    var allow := Candidate(w.rows[1], AnchorIn(w, p, all).value);
    assert w.rows[0] in w.rows && w.rows[1] in w.rows;
    forall g ensures g in GrantsOf(w, p) <==> g == allow || (a.Some? && g == Candidate(w.rows[0], a.value)) { GrantsIn(w, p, g); }
    assert Survives(q, allow);
    if a.Some? {
      assert Survives(q, Candidate(w.rows[0], a.value)) <==> a.value.unitId == Some(u);
    }
  }

  /** Rows that are denies, or on subjects the request does not confer, give the guard nothing to object to. */
  lemma NobodyConfers(w: World, s: Step)
    requires s.actor in w.people
    requires forall r :: r in w.rows ==> !Conferring(r, SubjectIds(w.positions, s.role.id, s.place.id), w.at)
    ensures Bounded(w, s)
  {
    forall c ensures !ConfersUnits(w.rows, SubjectIds(w.positions, s.role.id, s.place.id), w.at, c) {}
  }

  lemma Gained(w: World, s: Step, rows: seq<GrantRow>, capability: string, u: Id)
    requires s.actor in w.people && s.person in w.people && u in w.org.units
    requires Bounded(w.(rows := rows), s)
    requires May(Assign(w.(rows := rows), s), s.person, capability, u) && !May(w.(rows := rows), s.person, capability, u)
    ensures !AddsNothing(w, s, rows)
  {}

  // ----- A moved anchor enlarges -----

  /** Anchors do not hang on the grants. */
  lemma AnchorsOfRows(w: World, s: Step, rows: seq<GrantRow>, subject: Id)
    requires s.person in w.people
    ensures var v := w.(rows := rows);
            && AnchorIn(v, s.person, subject) == AnchorIn(w, s.person, subject)
            && AnchorIn(Assign(v, s), s.person, subject) == AnchorIn(Assign(w, s), s.person, subject)
  {
    var v := w.(rows := rows);
    assert Assign(v, s) == Assign(w, s).(rows := rows);
  }

  /** A subject anchored from nowhere that the guard did not look at: an allow on it is gained. */
  lemma NewAnchorEnlarges(w: World, s: Step, subject: Id, capability: string)
    requires s.actor in w.people && s.person in w.people && s.place.id in w.org.units
    requires subject !in SubjectIds(w.positions, s.role.id, s.place.id)
    requires AnchorIn(w, s.person, subject) == None && AnchorIn(Assign(w, s), s.person, subject).Some?
    ensures !AddsNothing(w, s, Allowing(subject, capability, All, w.at))
  {
    var rows := Allowing(subject, capability, All, w.at);
    var v := w.(rows := rows);
    AnchorsOfRows(w, s, rows, subject);
    NobodyConfers(v, s);
    MayByAllow(v, s.person, subject, capability, All, s.place.id);
    MayByAllow(Assign(v, s), s.person, subject, capability, All, s.place.id);
    Gained(w, s, rows, capability, s.place.id);
  }

  /** A subject without a unit gets one: an allow there is gained. */
  lemma NewUnitEnlarges(w: World, s: Step, subject: Id, capability: string, u: Id)
    requires s.actor in w.people && s.person in w.people && u in w.org.units
    requires subject !in SubjectIds(w.positions, s.role.id, s.place.id)
    requires Spot(AnchorIn(w, s.person, subject)) != Some(Some(u)) && Spot(AnchorIn(Assign(w, s), s.person, subject)) == Some(Some(u))
    ensures !AddsNothing(w, s, Allowing(subject, capability, OwnUnit, w.at))
  {
    var rows := Allowing(subject, capability, OwnUnit, w.at);
    var v := w.(rows := rows);
    AnchorsOfRows(w, s, rows, subject);
    NobodyConfers(v, s);
    MayByAllow(v, s.person, subject, capability, OwnUnit, u);
    MayByAllow(Assign(v, s), s.person, subject, capability, OwnUnit, u);
    Gained(w, s, rows, capability, u);
  }

  /** A subject leaves a unit: what a deny on it held back there is gained, although the guard agrees. */
  lemma LeftUnitEnlarges(w: World, s: Step, subject: Id, capability: string, u: Id)
    requires s.actor in w.people && s.person in w.people && u in w.org.units
    requires s.person !in SubjectIds(w.positions, s.role.id, s.place.id)
    requires Spot(AnchorIn(w, s.person, subject)) == Some(Some(u)) && Spot(AnchorIn(Assign(w, s), s.person, subject)) != Some(Some(u))
    ensures !AddsNothing(w, s, AllowingBut(subject, s.person, capability, w.at))
  {
    var rows := AllowingBut(subject, s.person, capability, w.at);
    var v := w.(rows := rows);
    AnchorsOfRows(w, s, rows, subject);
    NobodyConfers(v, s);
    DenyBitesAtAnchor(v, s.person, subject, s.person, capability, u);
    DenyBitesAtAnchor(Assign(v, s), s.person, subject, s.person, capability, u);
    Gained(w, s, rows, capability, u);
  }

  // ----- Anchors in a tidy world -----

  /** What a person's subjects are: themselves, what a live node of theirs names, what is delegated to them. */
  lemma AnchoredBy(w: World, p: Id, subject: Id)
    requires p in w.people
    ensures AnchorIn(w, p, subject).Some?
       <==> || subject == p
            || (exists i :: 0 <= i < |w.people[p].held| && AnchorFrom(NodesOf(w.people[p].held)[i], subject, w.at).Some?)
            || (exists e :: e in ReceivedBy(w, p) && AnchorThrough(e.from, subject).Some?)
  {
    LastAnchorFound(NodesOf(w.people[p].held), subject, w.at);
    ThroughExactly(ReceivedBy(w, p), subject);
  }

  /** A delegation received before is received after. */
  lemma ReceivedGrows(w: World, s: Step, e: DelegationEdge)
    requires s.person in w.people && !Holds(w, s.person, Seat(w, s).id) && Seat(w, s).PositionNode?
    ensures e in ReceivedBy(Assign(w, s), s.person)
       <==> || e in ReceivedBy(w, s.person)
            || (e in w.edges && e.childId == Seat(w, s).id && LiveAt(e.validFrom, e.validTo, w.at))
  {
    var nodes, after := NodesOf(w.people[s.person].held), NodesOf(Assign(w, s).people[s.person].held);
    NodesAfter(w, s);
    ReceivedIn(nodes, w.edges, w.at, e);
    ReceivedIn(after, w.edges, w.at, e);
    HeldMore(nodes, Seat(w, s), e.childId);
  }

  lemma HeldMore(nodes: seq<Node>, seat: Node, id: Id)
    requires seat.PositionNode?
    ensures HeldPosition(nodes + [seat], id) <==> HeldPosition(nodes, id) || seat.id == id
  {
    if HeldPosition(nodes, id) {
      var n :| n in nodes && n.PositionNode? && n.id == id;
      assert n in nodes + [seat];
    }
    assert (nodes + [seat])[|nodes|] == seat;
  }

  /** No anchor is lost. */
  lemma AnchorsGrow(w: World, s: Step, subject: Id)
    requires Tidy(w) && WellPosed(w, s) && AnchorIn(w, s.person, subject).Some?
    ensures AnchorIn(Assign(w, s), s.person, subject).Some?
  {
    if !Holds(w, s.person, Seat(w, s).id) {
      SeatFacts(w, s);
      NodesAfter(w, s);
      AnchoredBy(w, s.person, subject);
      AnchoredBy(Assign(w, s), s.person, subject);
      var nodes, after := NodesOf(w.people[s.person].held), NodesOf(Assign(w, s).people[s.person].held);
      assert forall i :: 0 <= i < |nodes| ==> after[i] == nodes[i];
      forall e | e in ReceivedBy(w, s.person) ensures e in ReceivedBy(Assign(w, s), s.person) { ReceivedGrows(w, s, e); }
    }
  }

  /** Anchors are at units of the organisation, and those of roles and positions are at some unit. */
  lemma SpotsKnown(w: World, p: Id, subject: Id)
    requires Tidy(w) && p in w.people && AnchorIn(w, p, subject).Some?
    ensures var u := AnchorIn(w, p, subject).value.unitId;
            && (u.Some? ==> u.value in w.org.units)
            && (subject != p && (forall g :: g in w.groups ==> g.id != subject) ==> u.Some?)
  {
    var nodes := NodesOf(w.people[p].held);
    if LastThrough(ReceivedBy(w, p), subject).Some? {
      ThroughIsPlaced(w, p, subject);
    } else if subject == p {
      if HomeIn(w, p).Some? { HomeIsUnit(w, p); }
    } else {
      LastAnchorFound(nodes, subject, w.at);
      var i :| 0 <= i < |nodes| && AnchorFrom(nodes[i], subject, w.at) == LastAnchor(nodes, subject, w.at);
      assert nodes[i] in nodes;
      NodeIsPlaced(w, nodes[i], subject);
    }
  }

  lemma NodeIsPlaced(w: World, n: Node, subject: Id)
    requires Tidy(w) && (n in w.positions || n in w.groups) && AnchorFrom(n, subject, w.at).Some?
    ensures var u := AnchorFrom(n, subject, w.at).value.unitId;
            && (u.Some? ==> u.value in w.org.units)
            && (u == None ==> n in w.groups && n.id == subject)
  {}

  lemma ThroughIsPlaced(w: World, p: Id, subject: Id)
    requires Tidy(w) && p in w.people && LastThrough(ReceivedBy(w, p), subject).Some?
    ensures var u := LastThrough(ReceivedBy(w, p), subject).value.unitId; u.Some? && u.value in w.org.units
  {
    ThroughExactly(ReceivedBy(w, p), subject);
    var e :| e in ReceivedBy(w, p) && AnchorThrough(e.from, subject) == LastThrough(ReceivedBy(w, p), subject);
    ReceivedIn(NodesOf(w.people[p].held), w.edges, w.at, e);
    var n :| n in w.positions && n.PositionNode? && e.from == AsDelegator(n);
  }

  /** The home unit of a person is one of the organisation. */
  lemma HomeIsUnit(w: World, p: Id)
    requires Tidy(w) && p in w.people && HomeIn(w, p).Some?
    ensures HomeIn(w, p).value.id in w.org.units
    ensures exists n :: n in w.positions && n.PositionNode? && n.place == HomeIn(w, p)
  {
    HomeUnitIsHeld(MembershipsOf(w.people[p].held), NodesOf(w.people[p].held));
    var n :| n in NodesOf(w.people[p].held) && n.PositionNode? && n.place == HomeIn(w, p);
    assert n in w.positions;
  }

  /** A person is no position and no role, and neither is a group. */
  lemma NoSubjects(w: World, s: Step)
    requires Tidy(w) && WellPosed(w, s)
    ensures var subjects := SubjectIds(w.positions, s.role.id, s.place.id);
            && s.person !in subjects && (forall g :: g in w.groups ==> g.id !in subjects) && s.role.id in subjects
            && subjects <= {s.role.id, Seat(w, s).id}
  {
    FoundPosition(w.positions, s.role.id, s.place.id);
  }

  // ----- Exactly -----

  lemma NodeBringsRole(w: World, n: Node, m: Node)
    requires Tidy(w) && n in w.positions && (m in w.positions || m in w.groups) && AnchorFrom(m, n.id, w.at).Some?
    ensures AnchorFrom(m, n.role.value.id, w.at).Some?
  {
    if m in w.positions { assert Apart(m, n) && m == n; }
  }

  lemma DelegatorBringsRole(w: World, n: Node, e: DelegationEdge)
    requires Tidy(w) && n in w.positions && e in w.edges && AnchorThrough(e.from, n.id).Some?
    ensures AnchorThrough(e.from, n.role.value.id).Some?
  {
    var m :| m in w.positions && m.PositionNode? && e.from == AsDelegator(m);
    assert Apart(m, n) && m == n;
  }

  /** Whoever reaches grants on a position reaches those on its role. */
  lemma PositionBringsRole(w: World, p: Id, n: Node)
    requires Tidy(w) && p in w.people && n in w.positions && AnchorIn(w, p, n.id).Some?
    ensures AnchorIn(w, p, n.role.value.id).Some?
  {
    var nodes := NodesOf(w.people[p].held);
    AnchoredBy(w, p, n.id);
    AnchoredBy(w, p, n.role.value.id);
    if i :| 0 <= i < |nodes| && AnchorFrom(nodes[i], n.id, w.at).Some? {
      assert nodes[i] in nodes;
      NodeBringsRole(w, n, nodes[i]);
    } else {
      var e :| e in ReceivedBy(w, p) && AnchorThrough(e.from, n.id).Some?;
      ReceivedIn(nodes, w.edges, w.at, e);
      DelegatorBringsRole(w, n, e);
    }
  }

  /** A subject the guard looked at, named by a delegation from elsewhere, is the role; the position is none of them. */
  lemma DelegatorIsNoSubject(w: World, s: Step, subject: Id, n: Node)
    requires Tidy(w) && WellPosed(w, s) && subject in SubjectIds(w.positions, s.role.id, s.place.id) && n in w.positions
    requires AnchorThrough(AsDelegator(n), subject).Some? && n.place.value.id != s.place.id
    ensures subject == n.role.value.id && n.id != s.newId && n.id !in SubjectIds(w.positions, s.role.id, s.place.id)
  {
    SeatFacts(w, s);
    NoSubjects(w, s);
  }

  /** The seat anchors at the unit of the request, so what is anchored elsewhere from nowhere came by a delegation. */
  lemma CameThrough(w: World, s: Step, subject: Id)
    requires Tidy(w) && WellPosed(w, s) && AnchorIn(w, s.person, subject) == None && AnchorIn(Assign(w, s), s.person, subject).Some?
    requires AnchorIn(Assign(w, s), s.person, subject).value.unitId != Some(s.place.id)
    ensures LastThrough(ReceivedBy(Assign(w, s), s.person), subject) == AnchorIn(Assign(w, s), s.person, subject)
  {
    SeatFacts(w, s);
    NodesAfter(w, s);
    AnchorAfterAppend(NodesOf(w.people[s.person].held), Seat(w, s), subject, w.at);
  }

  /** A subject the guard looked at, from nowhere to another unit: a delegation into the seat brought it, with its position. */
  lemma BroughtAlong(w: World, s: Step, subject: Id) returns (position: Id)
    requires Tidy(w) && WellPosed(w, s) && subject in SubjectIds(w.positions, s.role.id, s.place.id)
    requires AnchorIn(w, s.person, subject) == None && AnchorIn(Assign(w, s), s.person, subject).Some?
    requires AnchorIn(Assign(w, s), s.person, subject).value.unitId != Some(s.place.id)
    ensures position != s.newId && position !in SubjectIds(w.positions, s.role.id, s.place.id)
    ensures AnchorIn(w, s.person, position) == None && AnchorIn(Assign(w, s), s.person, position).Some?
  {
    var after := Assign(w, s);
    var received := ReceivedBy(after, s.person);
    CameThrough(w, s, subject);
    ThroughExactly(received, subject);
    var e :| e in received && AnchorThrough(e.from, subject) == LastThrough(received, subject);
    position := e.from.id;
    ReceivedIn(NodesOf(after.people[s.person].held), w.edges, w.at, e);
    var n :| n in w.positions && n.PositionNode? && e.from == AsDelegator(n);
    DelegatorIsNoSubject(w, s, subject, n);
    if AnchorIn(w, s.person, position).Some? { PositionBringsRole(w, s.person, n); }
    AnchoredBy(after, s.person, position);
    assert AnchorThrough(e.from, position).Some?;
  }

  /** Any anchor that does not stay makes some grant table with which the guard agrees and a power is gained. */
  lemma MovedAnchorEnlarges(w: World, s: Step, subject: Id, capability: string) returns (rows: seq<GrantRow>)
    requires Tidy(w) && WellPosed(w, s) && subject != s.newId && !Stays(w, s, subject)
    ensures RowsFit(s, rows) && !AddsNothing(w, s, rows)
  {
    var was, will := AnchorIn(w, s.person, subject), AnchorIn(Assign(w, s), s.person, subject);
    NoSubjects(w, s);
    if was == None {
      var x := subject;
      if subject in SubjectIds(w.positions, s.role.id, s.place.id) { x := BroughtAlong(w, s, subject); }
      rows := Allowing(x, capability, All, w.at);
      NewAnchorEnlarges(w, s, x, capability);
    } else {
      AnchorsGrow(w, s, subject);
      rows := LeftOrGained(w, s, subject, capability);
    }
  }

  lemma LeftOrGained(w: World, s: Step, subject: Id, capability: string) returns (rows: seq<GrantRow>)
    requires Tidy(w) && WellPosed(w, s) && subject != s.newId
    requires AnchorIn(w, s.person, subject).Some? && AnchorIn(Assign(w, s), s.person, subject).Some?
    requires Spot(AnchorIn(w, s.person, subject)) != Spot(AnchorIn(Assign(w, s), s.person, subject))
    ensures RowsFit(s, rows) && !AddsNothing(w, s, rows)
  {
    NoSubjects(w, s);
    SpotsKnown(w, s.person, subject);
    var u := AnchorIn(w, s.person, subject).value.unitId;
    if u.Some? {
      rows := AllowingBut(subject, s.person, capability, w.at);
      LeftUnitEnlarges(w, s, subject, capability, u.value);
    } else {
      TidyKept(w, s);
      SpotsKnown(Assign(w, s), s.person, subject);
      rows := Allowing(subject, capability, OwnUnit, w.at);
      NewUnitEnlarges(w, s, subject, capability, AnchorIn(Assign(w, s), s.person, subject).value.unitId.value);
    }
  }

  /**
   * A person's appointment of themselves adds nothing, whatever the grants, exactly when no anchor of theirs moves but
   * for those the guard has looked at, coming to the unit of the request from nowhere.
   */
  lemma HarmlessExactly(w: World, s: Step)
    requires Tidy(w) && WellPosed(w, s) && s.actor == s.person
    ensures (forall rows :: RowsFit(s, rows) ==> AddsNothing(w, s, rows)) <==> Harmless(w, s)
  {
    if Harmless(w, s) {
      forall rows | RowsFit(s, rows) ensures AddsNothing(w, s, rows) { HarmlessAddsNothing(w, s, rows); }
    } else {
      var subject: Id :| subject != s.newId && !Stays(w, s, subject);
      var rows := MovedAnchorEnlarges(w, s, subject, "");
    }
  }

  lemma HarmlessAddsNothing(w: World, s: Step, rows: seq<GrantRow>)
    requires s.actor in w.people && s.actor == s.person && Harmless(w, s) && RowsFit(s, rows)
    ensures AddsNothing(w, s, rows)
  {
    var v := w.(rows := rows);
    forall r | r in rows ensures Stays(v, s, r.subjectId) {
      AnchorsOfRows(w, s, rows, r.subjectId);
      assert Stays(w, s, r.subjectId);
    }
    if Bounded(v, s) {
      forall c, u | u in w.org.units && May(Assign(v, s), s.person, c, u) ensures May(v, s.person, c, u) {
        AppointedMay(v, s, c, u);
      }
    }
  }

  // ----- What it takes for the anchors to stay -----

  /** The live positions held have not the role yet, or a delegation anchors it, whatever is held. */
  ghost predicate FreshRole(w: World, s: Step)
    requires s.person in w.people
  {
    || LastThrough(ReceivedBy(w, s.person), s.role.id).Some?
    || forall n :: n in NodesOf(w.people[s.person].held) && !Ended(n, w.at) ==> !HasRole(n, s.role.id)
  }

  /** No live delegation goes into the seat. */
  ghost predicate NothingDelegated(w: World, s: Step) {
    forall e :: e in w.edges && e.childId == Seat(w, s).id ==> !LiveAt(e.validFrom, e.validTo, w.at)
  }

  lemma ReceivedStays(w: World, s: Step)
    requires s.person in w.people && !Holds(w, s.person, Seat(w, s).id) && Seat(w, s).PositionNode? && NothingDelegated(w, s)
    ensures ReceivedBy(Assign(w, s), s.person) == ReceivedBy(w, s.person)
  {
    var nodes, at := NodesOf(w.people[s.person].held), w.at;
    var more := nodes + [Seat(w, s)];
    NodesAfter(w, s);
    forall e | e in w.edges
      ensures HeldPosition(more, e.childId) && LiveAt(e.validFrom, e.validTo, at)
         <==> HeldPosition(nodes, e.childId) && LiveAt(e.validFrom, e.validTo, at)
    {
      HeldMore(nodes, Seat(w, s), e.childId);
    }
    FilterAgree(w.edges, (e: DelegationEdge) => HeldPosition(more, e.childId) && LiveAt(e.validFrom, e.validTo, at),
                (e: DelegationEdge) => HeldPosition(nodes, e.childId) && LiveAt(e.validFrom, e.validTo, at));
  }

  /** Delegated anchors stay, the person's own goes with the home unit, and the seat takes what it names. */
  lemma AnchorMoves(w: World, s: Step, subject: Id)
    requires Tidy(w) && WellPosed(w, s) && !Holds(w, s.person, Seat(w, s).id) && NothingDelegated(w, s)
    ensures AnchorIn(Assign(w, s), s.person, subject)
         == if LastThrough(ReceivedBy(w, s.person), subject).Some? then LastThrough(ReceivedBy(w, s.person), subject)
            else if subject == s.person
            then Some(PersonAnchor(PersonInfo(s.person, w.people[s.person].name), HomeIn(Assign(w, s), s.person)))
            else if AnchorFrom(Seat(w, s), subject, w.at).Some? then AnchorFrom(Seat(w, s), subject, w.at)
            else AnchorIn(w, s.person, subject)
  {
    SeatFacts(w, s);
    NodesAfter(w, s);
    ReceivedStays(w, s);
    AnchorAfterAppend(NodesOf(w.people[s.person].held), Seat(w, s), subject, w.at);
  }

  /** Nobody delegates a person. */
  lemma NoPersonDelegated(w: World, p: Id)
    requires Tidy(w) && p in w.people
    ensures LastThrough(ReceivedBy(w, p), p) == None
  {
    ThroughExactly(ReceivedBy(w, p), p);
    forall e | e in ReceivedBy(w, p) ensures AnchorThrough(e.from, p) == None {
      ReceivedIn(NodesOf(w.people[p].held), w.edges, w.at, e);
      var n :| n in w.positions && n.PositionNode? && e.from == AsDelegator(n);
    }
  }

  lemma OwnAnchorStays(w: World, s: Step)
    requires Tidy(w) && WellPosed(w, s) && !Holds(w, s.person, Seat(w, s).id) && NothingDelegated(w, s)
    ensures Stays(w, s, s.person) <==> HomeStays(w, s)
  {
    NoSubjects(w, s);
    NoPersonDelegated(w, s.person);
    AnchorMoves(w, s, s.person);
    HomeAfter(w, s);
    if !HomeStays(w, s) { HomesDiffer(w, s); }
  }

  /** Home units that differ have different ids. */
  lemma HomesDiffer(w: World, s: Step)
    requires Tidy(w) && WellPosed(w, s) && !Holds(w, s.person, Seat(w, s).id) && !HomeStays(w, s)
    ensures HomeIn(w, s.person).Some? && HomeIn(Assign(w, s), s.person).Some?
        ==> HomeIn(w, s.person).value.id != HomeIn(Assign(w, s), s.person).value.id
  {
    SeatFacts(w, s);
    HomeAfter(w, s);
    if HomeIn(w, s.person).Some? { HomeIsUnit(w, s.person); }
  }

  lemma HeldIsHeld(w: World, p: Id, seat: Id, i: nat)
    requires p in w.people && i < |w.people[p].held| && !Holds(w, p, seat)
    ensures NodesOf(w.people[p].held)[i].id != seat
  {
    assert w.people[p].held[i] in w.people[p].held;
  }

  /** The seat's own id is new to the person, or delegated. */
  lemma SeatIsNew(w: World, s: Step)
    requires Tidy(w) && WellPosed(w, s) && !Holds(w, s.person, Seat(w, s).id)
    ensures LastAnchor(NodesOf(w.people[s.person].held), Seat(w, s).id, w.at) == None
  {
    SeatFacts(w, s);
    var nodes := NodesOf(w.people[s.person].held);
    LastAnchorFound(nodes, Seat(w, s).id, w.at);
    forall i | 0 <= i < |nodes| ensures AnchorFrom(nodes[i], Seat(w, s).id, w.at) == None {
      assert nodes[i] in nodes;
      HeldIsHeld(w, s.person, Seat(w, s).id, i);
    }
  }

  lemma OtherAnchorsStay(w: World, s: Step, subject: Id)
    requires Tidy(w) && WellPosed(w, s) && !Holds(w, s.person, Seat(w, s).id) && NothingDelegated(w, s)
    requires subject != s.person && subject != s.role.id && subject != s.newId
    ensures Stays(w, s, subject)
  {
    SeatFacts(w, s);
    AnchorMoves(w, s, subject);
    SeatIsNew(w, s);
    FoundPosition(w.positions, s.role.id, s.place.id);
  }

  /** The last held position that anchors the role, and it sits at another unit than the new seat. */
  lemma RoleIsElsewhere(w: World, s: Step)
    requires Tidy(w) && WellPosed(w, s) && !Holds(w, s.person, Seat(w, s).id)
    ensures var a := LastAnchor(NodesOf(w.people[s.person].held), s.role.id, w.at);
            && (a.Some? ==> a.value.unitId.Some? && a.value.unitId != Some(s.place.id))
            && (a.Some? <==> exists n :: n in NodesOf(w.people[s.person].held) && !Ended(n, w.at) && HasRole(n, s.role.id))
  {
    SeatFacts(w, s);
    var nodes := NodesOf(w.people[s.person].held);
    LastAnchorFound(nodes, s.role.id, w.at);
    forall i | 0 <= i < |nodes| && AnchorFrom(nodes[i], s.role.id, w.at).Some?
      ensures HasRole(nodes[i], s.role.id) && !Ended(nodes[i], w.at)
      ensures AnchorFrom(nodes[i], s.role.id, w.at).value.unitId.Some?
      ensures AnchorFrom(nodes[i], s.role.id, w.at).value.unitId != Some(s.place.id)
    {
      assert nodes[i] in nodes;
      HeldIsHeld(w, s.person, Seat(w, s).id, i);
      OtherSeatIsElsewhere(w, s, nodes[i]);
    }
    if n :| n in nodes && !Ended(n, w.at) && HasRole(n, s.role.id) {
      var i :| 0 <= i < |nodes| && nodes[i] == n;
      assert AnchorFrom(nodes[i], s.role.id, w.at).Some?;
    }
  }

  /** A node that names the role is a live position of it, and at another unit unless it is the seat. */
  lemma OtherSeatIsElsewhere(w: World, s: Step, n: Node)
    requires Tidy(w) && WellPosed(w, s) && (n in w.positions || n in w.groups) && n.id != Seat(w, s).id
    requires AnchorFrom(n, s.role.id, w.at).Some?
    ensures HasRole(n, s.role.id) && !Ended(n, w.at)
    ensures var u := AnchorFrom(n, s.role.id, w.at).value.unitId; u.Some? && u != Some(s.place.id)
  {
    SeatFacts(w, s);
  }

  lemma RoleAnchorStays(w: World, s: Step)
    requires Tidy(w) && WellPosed(w, s) && !Holds(w, s.person, Seat(w, s).id) && NothingDelegated(w, s)
    ensures Stays(w, s, s.role.id) <==> FreshRole(w, s) || Ended(Seat(w, s), w.at)
  {
    SeatFacts(w, s);
    NoSubjects(w, s);
    AnchorMoves(w, s, s.role.id);
    RoleIsElsewhere(w, s);
  }

  /**
   * Where no delegation goes into the seat, an assignment is harmless exactly when the seat is held already, or it
   * leaves the home unit alone and brings no role again, or is over.
   */
  lemma HarmlessMeans(w: World, s: Step)
    requires Tidy(w) && WellPosed(w, s) && NothingDelegated(w, s)
    ensures Harmless(w, s)
       <==> Holds(w, s.person, Seat(w, s).id) || ((FreshRole(w, s) || Ended(Seat(w, s), w.at)) && HomeStays(w, s))
  {
    if !Holds(w, s.person, Seat(w, s).id) {
      OwnAnchorStays(w, s);
      RoleAnchorStays(w, s);
      forall subject: Id | subject != s.person && subject != s.role.id && subject != s.newId ensures Stays(w, s, subject) {
        OtherAnchorsStay(w, s, subject);
      }
    }
  }

  /** A row the person could not use before, anchored at the new position. */
  ghost predicate Conferred(w: World, s: Step, g: Grant)
    requires s.person in w.people
  {
    exists r :: r in w.rows && AnchorIn(w, s.person, r.subjectId) == None && AnchorFrom(Seat(w, s), r.subjectId, w.at).Some?
             && g == Candidate(r, AnchorFrom(Seat(w, s), r.subjectId, w.at).value)
  }

  /** Such an assignment of a live seat adds exactly the seat's grants: nothing a person had moves or goes. */
  lemma AssignAdds(w: World, s: Step, g: Grant)
    requires Tidy(w) && WellPosed(w, s) && NothingDelegated(w, s) && !Holds(w, s.person, Seat(w, s).id)
    requires FreshRole(w, s) && HomeStays(w, s)
    ensures g in GrantsOf(Assign(w, s), s.person) <==> g in GrantsOf(w, s.person) || Conferred(w, s, g)
  {
    NewAnchors(w, s);
    GrantsGrow(w, s, g);
  }

  lemma GrantsGrow(w: World, s: Step, g: Grant)
    requires s.person in w.people
    requires forall subject: Id ::
               var a, seat := AnchorIn(w, s.person, subject), AnchorFrom(Seat(w, s), subject, w.at);
               AnchorIn(Assign(w, s), s.person, subject) == if a == None then seat else a
    ensures g in GrantsOf(Assign(w, s), s.person) <==> g in GrantsOf(w, s.person) || Conferred(w, s, g)
  {
    GrantsIn(w, s.person, g);
    GrantsIn(Assign(w, s), s.person, g);
  }

  lemma NewAnchors(w: World, s: Step)
    requires Tidy(w) && WellPosed(w, s) && NothingDelegated(w, s) && !Holds(w, s.person, Seat(w, s).id)
    requires FreshRole(w, s) && HomeStays(w, s)
    ensures forall subject: Id ::
              var a, seat := AnchorIn(w, s.person, subject), AnchorFrom(Seat(w, s), subject, w.at);
              AnchorIn(Assign(w, s), s.person, subject) == if a == None then seat else a
  {
    SeatFacts(w, s);
    SeatIsNew(w, s);
    RoleIsElsewhere(w, s);
    HomeAfter(w, s);
    forall subject: Id
      ensures var a, seat := AnchorIn(w, s.person, subject), AnchorFrom(Seat(w, s), subject, w.at);
              AnchorIn(Assign(w, s), s.person, subject) == if a == None then seat else a
    {
      AnchorMoves(w, s, subject);
    }
  }
}
