/** Step 1 of a permission check: every grant a person could use, tagged with the unit it came through. */
module Collect {
  import opened Prelude
  import opened OrgGraph
  import opened Grants

  /** A row of the grant table. */
  datatype GrantRow = GrantRow(
    id: Id, subjectId: Id, subjectName: string, capability: string, scope: Scope, effect: Effect,
    validFrom: int, validTo: Option<int>, params: Params := map[])

  datatype RoleInfo = RoleInfo(id: Id, name: string, level: Option<int>)

  datatype UnitInfo = UnitInfo(id: Id, name: string)

  /** What a membership edge points at: a position held or a group joined. */
  datatype Node =
    | PositionNode(id: Id, name: string, role: Option<RoleInfo>, place: Option<UnitInfo>, endsAt: Option<int>)
    | GroupNode(id: Id, name: string, scopeUnitId: Option<Id>, endsAt: Option<int>)

  datatype Membership = Membership(childId: Id, isPrimary: bool)

  datatype PersonInfo = PersonInfo(id: Id, name: string)

  datatype Anchor = Anchor(via: Via, name: string, unitId: Option<Id>, unitName: Option<string>, level: Option<int>)

  predicate Ended(n: Node, at: int) {
    n.endsAt.Some? && n.endsAt.value <= at
  }

  function PlaceAnchor(n: Node, via: Via, name: string): Anchor
    requires n.PositionNode?
  {
    Anchor(via, name,
           if n.place.Some? then Some(n.place.value.id) else None,
           if n.place.Some? then Some(n.place.value.name) else None,
           if n.role.Some? then n.role.value.level else None)
  }

  /** The anchor a live node gives to grants on `subject`, if any. */
  function AnchorFrom(n: Node, subject: Id, at: int): Option<Anchor> {
    if Ended(n, at) then None
    else match n
      case PositionNode(id, name, role, _, _) =>
        if role.Some? && role.value.id == subject then Some(PlaceAnchor(n, Role, role.value.name))
        else if id == subject then Some(PlaceAnchor(n, Position, name))
        else None
      case GroupNode(id, name, scopeUnitId, _) =>
        if id == subject then Some(Anchor(Group, name, scopeUnitId, None, None)) else None
  }

  /** What anchors look like: a position and its role at the position's unit and level, a group at its scope. */
  lemma AnchorsShow(n: Node, subject: Id, at: int)
    requires AnchorFrom(n, subject, at).Some?
    ensures var a := AnchorFrom(n, subject, at).value;
            match n
            case GroupNode(id, name, scope, _) => subject == id && a == Anchor(Group, name, scope, None, None)
            case PositionNode(id, name, role, place, _) =>
              && (a.unitId == None <==> place == None) && (a.unitName == None <==> place == None)
              && (place.Some? ==> a.unitId == Some(place.value.id) && a.unitName == Some(place.value.name))
              && (role == None ==> a.level == None) && (role.Some? ==> a.level == role.value.level)
              && if role.Some? && role.value.id == subject then a.via == Role && a.name == role.value.name
                 else subject == id && a.via == Position && a.name == name
  {}

  /** The last live node that anchors `subject` decides. */
  function LastAnchor(nodes: seq<Node>, subject: Id, at: int): Option<Anchor> {
    if nodes == [] then None
    else
      var last := AnchorFrom(nodes[|nodes| - 1], subject, at);
      if last.Some? then last else LastAnchor(nodes[..|nodes| - 1], subject, at)
  }

  // ----- Delegations -----

  /** The node whose grants are passed on. */
  datatype Delegator = Delegator(id: Id, name: string, role: Option<RoleInfo>, place: Option<UnitInfo>)

  /** A delegation into a position. */
  datatype DelegationEdge = DelegationEdge(childId: Id, from: Delegator, validFrom: int, validTo: Option<int>)

  /** A position reached by a membership, over or not. */
  predicate HeldPosition(nodes: seq<Node>, id: Id) {
    exists n :: n in nodes && n.PositionNode? && n.id == id
  }

  function Received(nodes: seq<Node>, edges: seq<DelegationEdge>, at: int): seq<DelegationEdge> {
    Filter(edges, (e: DelegationEdge) => HeldPosition(nodes, e.childId) && LiveAt(e.validFrom, e.validTo, at))
  }

  function DelegatedAnchor(d: Delegator, name: string): Anchor {
    Anchor(Delegation, name,
           if d.place.Some? then Some(d.place.value.id) else None,
           if d.place.Some? then Some(d.place.value.name) else None,
           if d.role.Some? then d.role.value.level else None)
  }

  /** The anchor a delegation gives to grants on `subject`, if any. */
  function AnchorThrough(d: Delegator, subject: Id): Option<Anchor> {
    if d.role.Some? && d.role.value.id == subject then Some(DelegatedAnchor(d, d.role.value.name))
    else if d.id == subject then Some(DelegatedAnchor(d, d.name))
    else None
  }

  /** A delegated anchor looks like that of the delegator, but says so. */
  lemma DelegatedAnchorsShow(d: Delegator, subject: Id)
    requires AnchorThrough(d, subject).Some?
    ensures var a := AnchorThrough(d, subject).value;
            && a.via == Delegation
            && (a.unitId == None <==> d.place == None) && (a.unitName == None <==> d.place == None)
            && (d.place.Some? ==> a.unitId == Some(d.place.value.id) && a.unitName == Some(d.place.value.name))
            && (d.role == None ==> a.level == None) && (d.role.Some? ==> a.level == d.role.value.level)
            && if d.role.Some? && d.role.value.id == subject then a.name == d.role.value.name else subject == d.id && a.name == d.name
  {}

  function LastThrough(received: seq<DelegationEdge>, subject: Id): Option<Anchor> {
    if received == [] then None
    else
      var last := AnchorThrough(received[|received| - 1].from, subject);
      if last.Some? then last else LastThrough(received[..|received| - 1], subject)
  }

  /** The positions that sit in a unit. */
  function Placed(nodes: seq<Node>): seq<Node> {
    Filter(nodes, (n: Node) => n.PositionNode? && n.place.Some?)
  }

  function Primary(memberships: seq<Membership>, positions: seq<Node>): seq<Node> {
    Filter(positions, (n: Node) => Membership(n.id, true) in memberships)
  }

  /** The unit a grant placed on the person anchors at: the only primary position's, else the only position's. */
  function HomeUnit(memberships: seq<Membership>, nodes: seq<Node>): Option<UnitInfo> {
    var positions := Placed(nodes);
    var primary := Primary(memberships, positions);
    if |primary| == 1 then PlaceOf(primary[0])
    else if primary == [] && |positions| == 1 then PlaceOf(positions[0])
    else None
  }

  function PlaceOf(n: Node): Option<UnitInfo> {
    if n.PositionNode? then n.place else None
  }

  function PersonAnchor(person: PersonInfo, home: Option<UnitInfo>): Anchor {
    Anchor(Person, person.name,
           if home.Some? then Some(home.value.id) else None,
           if home.Some? then Some(home.value.name) else None, None)
  }

  /** Delegations overwrite the person's own anchor, which overwrites those of the nodes. */
  function AnchorOf(person: PersonInfo, memberships: seq<Membership>, nodes: seq<Node>, received: seq<DelegationEdge>,
                    subject: Id, at: int): Option<Anchor>
  {
    if LastThrough(received, subject).Some? then LastThrough(received, subject)
    else if subject == person.id then Some(PersonAnchor(person, HomeUnit(memberships, nodes)))
    else LastAnchor(nodes, subject, at)
  }

  function Candidate(row: GrantRow, a: Anchor): Grant {
    Grant(row.id, row.capability, row.scope, row.effect, a.via, a.name, a.unitId, a.unitName, a.level,
          row.validFrom, row.validTo, row.params)
  }

  /** The anchored rows, in table order. */
  function Candidates(rows: seq<GrantRow>, anchors: map<Id, Anchor>): seq<Grant> {
    if rows == [] then []
    else (if rows[0].subjectId in anchors then [Candidate(rows[0], anchors[rows[0].subjectId])] else [])
         + Candidates(rows[1..], anchors)
  }

  ghost predicate NodeAnchors(anchors: map<Id, Anchor>, nodes: seq<Node>, at: int) {
    forall s :: LastAnchor(nodes, s, at) == if s in anchors then Some(anchors[s]) else None
  }

  function WithNode(anchors: map<Id, Anchor>, n: Node): map<Id, Anchor> {
    match n
    case PositionNode(id, name, role, _, _) =>
      var own := anchors[id := PlaceAnchor(n, Position, name)];
      if role.Some? then own[role.value.id := PlaceAnchor(n, Role, role.value.name)] else own
    case GroupNode(id, name, scopeUnitId, _) =>
      anchors[id := Anchor(Group, name, scopeUnitId, None, None)]
  }

  lemma WithNodeAnchors(anchors: map<Id, Anchor>, nodes: seq<Node>, n: Node, at: int)
    requires NodeAnchors(anchors, nodes, at)
    ensures NodeAnchors(if Ended(n, at) then anchors else WithNode(anchors, n), nodes + [n], at)
  {
    var after := if Ended(n, at) then anchors else WithNode(anchors, n);
    forall s ensures LastAnchor(nodes + [n], s, at) == if s in after then Some(after[s]) else None {
      AnchorAfterAppend(nodes, n, s, at);
      assert LastAnchor(nodes, s, at) == if s in anchors then Some(anchors[s]) else None;
    }
  }

  /** The anchor table the live nodes fill, later entries overwriting earlier ones. */
  function AnchorTable(nodes: seq<Node>, at: int): map<Id, Anchor> {
    if nodes == [] then map[]
    else
      var before, n := AnchorTable(nodes[..|nodes| - 1], at), nodes[|nodes| - 1];
      if Ended(n, at) then before else WithNode(before, n)
  }

  /** In the finished table every subject has the anchor its last live node gave it. */
  lemma {:induction false} AnchorTableIsLastAnchor(nodes: seq<Node>, at: int)
    ensures NodeAnchors(AnchorTable(nodes, at), nodes, at)
  {
    if nodes != [] {
      var init, n := nodes[..|nodes| - 1], nodes[|nodes| - 1];
      AnchorTableIsLastAnchor(init, at);
      WithNodeAnchors(AnchorTable(init, at), init, n, at);
      assert init + [n] == nodes;
    }
  }

  function WithDelegator(anchors: map<Id, Anchor>, d: Delegator): map<Id, Anchor> {
    var own := anchors[d.id := DelegatedAnchor(d, d.name)];
    if d.role.Some? then own[d.role.value.id := DelegatedAnchor(d, d.role.value.name)] else own
  }

  function WithDelegations(anchors: map<Id, Anchor>, received: seq<DelegationEdge>): map<Id, Anchor> {
    if received == [] then anchors
    else WithDelegator(WithDelegations(anchors, received[..|received| - 1]), received[|received| - 1].from)
  }

  lemma {:induction false} DelegationsOverwrite(anchors: map<Id, Anchor>, received: seq<DelegationEdge>, subject: Id)
    ensures var after, through := WithDelegations(anchors, received), LastThrough(received, subject);
            if through.Some? then subject in after && after[subject] == through.value
            else (subject in after <==> subject in anchors) && (subject in anchors ==> after[subject] == anchors[subject])
  {
    if received != [] { DelegationsOverwrite(anchors, received[..|received| - 1], subject); }
  }

  function FullTable(person: PersonInfo, memberships: seq<Membership>, nodes: seq<Node>, received: seq<DelegationEdge>,
                     at: int): map<Id, Anchor>
  {
    WithDelegations(AnchorTable(nodes, at)[person.id := PersonAnchor(person, HomeUnit(memberships, nodes))], received)
  }

  /** Every grant a person could use. */
  function Collected(person: PersonInfo, memberships: seq<Membership>, nodes: seq<Node>, received: seq<DelegationEdge>,
                     rows: seq<GrantRow>, at: int): seq<Grant>
  {
    Candidates(rows, FullTable(person, memberships, nodes, received, at))
  }

  /** A running support session: when it ends, its name, and what it is kept from. */
  datatype SupportWindow = SupportWindow(expiresAt: int, name: string, blocked: seq<string>)

  function SupportGrant(effect: Effect, capability: string, window: SupportWindow): Grant {
    Grant((if effect == Allow then "support:allow:" else "support:deny:") + capability, capability, All, effect,
          Support, window.name, None, None, None, 0, Some(window.expiresAt))
  }

  function SupportGrants(effect: Effect, capabilities: seq<string>, window: SupportWindow): seq<Grant> {
    seq(|capabilities|, i requires 0 <= i < |capabilities| => SupportGrant(effect, capabilities[i], window))
  }

  function Minted(catalogue: seq<string>, window: SupportWindow): seq<Grant> {
    SupportGrants(Allow, catalogue, window) + SupportGrants(Deny, window.blocked, window)
  }

  method CollectGrants(person: Option<PersonInfo>, memberships: seq<Membership>, nodes: seq<Node>,
                       edges: seq<DelegationEdge>, rows: seq<GrantRow>, support: Option<SupportWindow>,
                       catalogue: seq<string>, at: int) returns (grants: seq<Grant>)
    ensures grants == if person.Some? then Collected(person.value, memberships, nodes, Received(nodes, edges, at), rows, at)
                      else if support.Some? then Minted(catalogue, support.value) else []
  {
    if person == None {
      return if support.Some? then Minted(catalogue, support.value) else [];
    }
    var anchors := AnchorNodes(nodes, at);
    anchors := anchors[person.value.id := PersonAnchor(person.value, HomeUnit(memberships, nodes))];
    anchors := AnchorDelegations(anchors, Received(nodes, edges, at));
    grants := Tag(rows, anchors);
  }

  method AnchorNodes(nodes: seq<Node>, at: int) returns (anchors: map<Id, Anchor>)
    ensures anchors == AnchorTable(nodes, at)
  {
    anchors := map[];
    for i := 0 to |nodes|
      invariant anchors == AnchorTable(nodes[..i], at)
    {
      var n := nodes[i];
      assert nodes[..i + 1][..i] == nodes[..i];
      if n.endsAt.Some? && n.endsAt.value <= at { continue; }
      match n {
        case PositionNode(id, name, role, _, _) =>
          anchors := anchors[id := PlaceAnchor(n, Position, name)];
          if role.Some? { anchors := anchors[role.value.id := PlaceAnchor(n, Role, role.value.name)]; }
        case GroupNode(id, name, scopeUnitId, _) =>
          anchors := anchors[id := Anchor(Group, name, scopeUnitId, None, None)];
      }
    }
    assert nodes[..|nodes|] == nodes;
  }

  method AnchorDelegations(start: map<Id, Anchor>, received: seq<DelegationEdge>) returns (anchors: map<Id, Anchor>)
    ensures anchors == WithDelegations(start, received)
  {
    anchors := start;
    for i := 0 to |received|
      invariant anchors == WithDelegations(start, received[..i])
    {
      var d := received[i].from;
      assert received[..i + 1][..i] == received[..i];
      anchors := anchors[d.id := DelegatedAnchor(d, d.name)];
      if d.role.Some? { anchors := anchors[d.role.value.id := DelegatedAnchor(d, d.role.value.name)]; }
    }
    assert received[..|received|] == received;
  }

  /** A collected grant is a table row anchored where the person reaches its subject. */
  lemma CollectedIn(person: PersonInfo, memberships: seq<Membership>, nodes: seq<Node>, received: seq<DelegationEdge>,
                    rows: seq<GrantRow>, at: int, g: Grant)
    ensures g in Collected(person, memberships, nodes, received, rows, at)
       <==> exists r :: r in rows && AnchorOf(person, memberships, nodes, received, r.subjectId, at).Some?
                     && g == Candidate(r, AnchorOf(person, memberships, nodes, received, r.subjectId, at).value)
  {
    var anchors := FullTable(person, memberships, nodes, received, at);
    CandidatesIn(rows, anchors, g);
    forall s ensures AnchorOf(person, memberships, nodes, received, s, at) == if s in anchors then Some(anchors[s]) else None {
      TableIsAnchorOf(person, memberships, nodes, received, s, at);
    }
  }

  lemma TableIsAnchorOf(person: PersonInfo, memberships: seq<Membership>, nodes: seq<Node>, received: seq<DelegationEdge>,
                        subject: Id, at: int)
    ensures var anchors := FullTable(person, memberships, nodes, received, at);
            AnchorOf(person, memberships, nodes, received, subject, at) == if subject in anchors then Some(anchors[subject]) else None
  {
    var table := AnchorTable(nodes, at);
    AnchorTableIsLastAnchor(nodes, at);
    assert LastAnchor(nodes, subject, at) == if subject in table then Some(table[subject]) else None;
    DelegationsOverwrite(table[person.id := PersonAnchor(person, HomeUnit(memberships, nodes))], received, subject);
  }

  /** Delegations anchor a subject exactly when one of them names it. */
  lemma {:induction false} ThroughExactly(received: seq<DelegationEdge>, subject: Id)
    ensures LastThrough(received, subject).Some? <==> exists e :: e in received && AnchorThrough(e.from, subject).Some?
    ensures LastThrough(received, subject).Some? ==>
              exists e :: e in received && AnchorThrough(e.from, subject) == LastThrough(received, subject)
  {
    if received != [] {
      var init, last := received[..|received| - 1], received[|received| - 1];
      ThroughExactly(init, subject);
      assert received == init + [last];
    }
  }

  lemma ReceivedIn(nodes: seq<Node>, edges: seq<DelegationEdge>, at: int, e: DelegationEdge)
    ensures e in Received(nodes, edges, at)
       <==> e in edges && HeldPosition(nodes, e.childId) && LiveAt(e.validFrom, e.validTo, at)
  {
    FilterIn(edges, (e: DelegationEdge) => HeldPosition(nodes, e.childId) && LiveAt(e.validFrom, e.validTo, at), e);
  }

  /** A live delegation into a held position, over or not, that names the subject by its position or its role. */
  ghost predicate Delegated(nodes: seq<Node>, edges: seq<DelegationEdge>, subject: Id, at: int) {
    exists e :: e in edges && HeldPosition(nodes, e.childId) && LiveAt(e.validFrom, e.validTo, at)
             && AnchorThrough(e.from, subject).Some?
  }

  /** What a person's grants may be placed on: themselves, what a live node of theirs names, what is delegated to them. */
  lemma AnchoredExactly(person: PersonInfo, memberships: seq<Membership>, nodes: seq<Node>, edges: seq<DelegationEdge>,
                        subject: Id, at: int)
    ensures AnchorOf(person, memberships, nodes, Received(nodes, edges, at), subject, at).Some?
       <==> || subject == person.id
            || (exists i :: 0 <= i < |nodes| && AnchorFrom(nodes[i], subject, at).Some?)
            || Delegated(nodes, edges, subject, at)
  {
    var received := Received(nodes, edges, at);
    LastAnchorFound(nodes, subject, at);
    ThroughExactly(received, subject);
    forall e ensures e in received <==> e in edges && HeldPosition(nodes, e.childId) && LiveAt(e.validFrom, e.validTo, at) {
      ReceivedIn(nodes, edges, at, e);
    }
  }

  /** A person all of whose positions and groups are over still has exactly the powers delegated into those positions. */
  lemma DelegationPassesOn(person: PersonInfo, memberships: seq<Membership>, nodes: seq<Node>, edges: seq<DelegationEdge>,
                           subject: Id, at: int)
    requires subject != person.id && forall n :: n in nodes ==> Ended(n, at)
    ensures AnchorOf(person, memberships, nodes, Received(nodes, edges, at), subject, at).Some?
       <==> Delegated(nodes, edges, subject, at)
  {
    AnchoredExactly(person, memberships, nodes, edges, subject, at);
  }

  /** A support session may do exactly what the catalogue lists and the blocked list does not, anywhere, until it ends. */
  lemma SupportMay(q: Question, catalogue: seq<string>, window: SupportWindow)
    requires q.at >= 0
    ensures Allowed(q, Minted(catalogue, window))
       <==> q.capability in catalogue && q.capability !in window.blocked && q.at < window.expiresAt
  {
    MintedIn(q, catalogue, window, Allow);
    MintedIn(q, catalogue, window, Deny);
  }

  lemma MintedIn(q: Question, catalogue: seq<string>, window: SupportWindow, effect: Effect)
    requires q.at >= 0
    ensures AnySurvives(q, Minted(catalogue, window), effect)
       <==> q.capability in (if effect == Allow then catalogue else window.blocked) && q.at < window.expiresAt
  {
    var minted, capabilities := Minted(catalogue, window), if effect == Allow then catalogue else window.blocked;
    var part := SupportGrants(effect, capabilities, window);
    forall g | g in part ensures g in minted {}
    if q.capability in capabilities && q.at < window.expiresAt {
      var i :| 0 <= i < |capabilities| && capabilities[i] == q.capability;
      assert part[i] in part && Survives(q, part[i]);
    }
  }

  /** Grants on the person come from the home unit and carry no level. */
  lemma PersonAnchorShows(person: PersonInfo, home: Option<UnitInfo>)
    ensures var a := PersonAnchor(person, home);
            && a.via == Person && a.name == person.name && a.level == None
            && (a.unitId == None <==> home == None) && (a.unitName == None <==> home == None)
            && (home.Some? ==> a.unitId == Some(home.value.id) && a.unitName == Some(home.value.name))
  {}

  /** Support grants say in their ids what they are, and run from the first instant to the end of the session. */
  lemma SupportGrantsShow(catalogue: seq<string>, window: SupportWindow, g: Grant)
    ensures g in Minted(catalogue, window)
       <==> || (exists c :: c in catalogue && g == Grant("support:allow:" + c, c, All, Allow, Support, window.name, None, None, None,
                                                          0, Some(window.expiresAt)))
            || (exists c :: c in window.blocked && g == Grant("support:deny:" + c, c, All, Deny, Support, window.name, None, None, None,
                                                               0, Some(window.expiresAt)))
  {
    var allows, denies := SupportGrants(Allow, catalogue, window), SupportGrants(Deny, window.blocked, window);
    forall i | 0 <= i < |catalogue| ensures catalogue[i] in catalogue && allows[i] == SupportGrant(Allow, catalogue[i], window) {}
    forall i | 0 <= i < |window.blocked|
      ensures window.blocked[i] in window.blocked && denies[i] == SupportGrant(Deny, window.blocked[i], window) {}
    if c :| c in catalogue && g == SupportGrant(Allow, c, window) {
      var i :| 0 <= i < |catalogue| && catalogue[i] == c;
      assert allows[i] in allows;
    }
    if c :| c in window.blocked && g == SupportGrant(Deny, c, window) {
      var i :| 0 <= i < |window.blocked| && window.blocked[i] == c;
      assert denies[i] in denies;
    }
  }

  /** Field by field: a collected grant says what its row says, and comes from where its subject is anchored. */
  lemma CollectedByField(person: PersonInfo, memberships: seq<Membership>, nodes: seq<Node>, received: seq<DelegationEdge>,
                         rows: seq<GrantRow>, at: int, g: Grant)
    ensures g in Collected(person, memberships, nodes, received, rows, at)
       <==> exists r :: r in rows && AnchorOf(person, memberships, nodes, received, r.subjectId, at).Some?
                     && g.grantId == r.id && g.capability == r.capability && g.scope == r.scope && g.effect == r.effect
                     && g.validFrom == r.validFrom && g.validTo == r.validTo && g.params == r.params
                     && IsFrom(g, AnchorOf(person, memberships, nodes, received, r.subjectId, at).value)
  {
    CollectedIn(person, memberships, nodes, received, rows, at, g);
  }

  predicate IsFrom(g: Grant, a: Anchor) {
    && g.via == a.via && g.subjectName == a.name && g.anchorUnitId == a.unitId && g.anchorUnitName == a.unitName
    && g.level == a.level
  }

  method Tag(rows: seq<GrantRow>, anchors: map<Id, Anchor>) returns (grants: seq<Grant>)
    ensures grants == Candidates(rows, anchors)
  {
    grants := [];
    for i := 0 to |rows|
      invariant grants + Candidates(rows[i..], anchors) == Candidates(rows, anchors)
    {
      assert rows[i..][1..] == rows[i + 1..];
      if rows[i].subjectId in anchors {
        grants := grants + [Candidate(rows[i], anchors[rows[i].subjectId])];
      }
    }
  }

  lemma {:induction false} CandidatesIn(rows: seq<GrantRow>, anchors: map<Id, Anchor>, g: Grant)
    ensures g in Candidates(rows, anchors)
       <==> exists r :: r in rows && r.subjectId in anchors && g == Candidate(r, anchors[r.subjectId])
  {
    if rows != [] {
      CandidatesIn(rows[1..], anchors, g);
      assert rows == [rows[0]] + rows[1..];
    }
  }

  // ----- Shared anchors -----

  /** Two live positions of one role disagree about where that role's grants anchor. */
  ghost predicate RoleClash(nodes: seq<Node>, role: Id, at: int) {
    exists i, j :: 0 <= i < j < |nodes| && AnchorFrom(nodes[i], role, at).Some?
                && AnchorFrom(nodes[j], role, at).Some? && AnchorFrom(nodes[i], role, at) != AnchorFrom(nodes[j], role, at)
  }

  lemma {:induction false} LastAnchorFound(nodes: seq<Node>, subject: Id, at: int)
    ensures LastAnchor(nodes, subject, at).Some? <==> exists i :: 0 <= i < |nodes| && AnchorFrom(nodes[i], subject, at).Some?
    ensures LastAnchor(nodes, subject, at).Some? ==>
              exists i :: 0 <= i < |nodes| && AnchorFrom(nodes[i], subject, at) == LastAnchor(nodes, subject, at)
  {
    if nodes != [] {
      var init := nodes[..|nodes| - 1];
      LastAnchorFound(init, subject, at);
      assert forall i :: 0 <= i < |init| ==> init[i] == nodes[i];
    }
  }

  /**
   * Grants on a subject anchor at every live node that names it exactly when those nodes agree and no delegation
   * names it too.
   */
  lemma AnchorsEverywhereIffNoClash(person: PersonInfo, memberships: seq<Membership>, nodes: seq<Node>,
                                    received: seq<DelegationEdge>, subject: Id, at: int)
    requires subject != person.id
    ensures (forall i :: 0 <= i < |nodes| && AnchorFrom(nodes[i], subject, at).Some?
               ==> AnchorOf(person, memberships, nodes, received, subject, at) == AnchorFrom(nodes[i], subject, at))
       <==> !RoleClash(nodes, subject, at) && (LastThrough(received, subject) == None || LastAnchor(nodes, subject, at) == None)
  {
    LastAnchorFound(nodes, subject, at);
    ThroughDelegation(received, subject);
  }

  lemma {:induction false} ThroughDelegation(received: seq<DelegationEdge>, subject: Id)
    ensures LastThrough(received, subject).Some? ==> LastThrough(received, subject).value.via == Delegation
  {
    if received != [] { ThroughDelegation(received[..|received| - 1], subject); }
  }

  /** A position added at the end leaves every anchor it does not name where it was. */
  lemma AnchorAfterAppend(nodes: seq<Node>, n: Node, subject: Id, at: int)
    ensures LastAnchor(nodes + [n], subject, at)
         == if AnchorFrom(n, subject, at).Some? then AnchorFrom(n, subject, at) else LastAnchor(nodes, subject, at)
  {
    assert (nodes + [n])[..|nodes|] == nodes;
  }

  /** Home unit: a chosen one is always a held position's, and two primary positions leave it open. */
  lemma HomeUnitIsHeld(memberships: seq<Membership>, nodes: seq<Node>)
    ensures HomeUnit(memberships, nodes).Some? ==>
              exists n :: n in nodes && n.PositionNode? && n.place == HomeUnit(memberships, nodes)
                       && (Membership(n.id, true) in memberships
                           || forall m :: m in nodes && m.PositionNode? && m.place.Some? ==> m == n)
    ensures forall i, j :: 0 <= i < j < |nodes|
              && nodes[i].PositionNode? && nodes[i].place.Some? && Membership(nodes[i].id, true) in memberships
              && nodes[j].PositionNode? && nodes[j].place.Some? && Membership(nodes[j].id, true) in memberships
              ==> HomeUnit(memberships, nodes) == None
  {
    var positions := Placed(nodes);
    var primary := Primary(memberships, positions);
    forall n ensures n in positions <==> n in nodes && n.PositionNode? && n.place.Some? {
      FilterIn(nodes, (n: Node) => n.PositionNode? && n.place.Some?, n);
    }
    forall n ensures n in primary <==> n in positions && Membership(n.id, true) in memberships {
      FilterIn(positions, (n: Node) => Membership(n.id, true) in memberships, n);
    }
    if |primary| == 1 {
      assert primary[0] in primary;
    } else if primary == [] && |positions| == 1 {
      assert positions[0] in positions;
    }
    forall i, j | 0 <= i < j < |nodes|
              && nodes[i].PositionNode? && nodes[i].place.Some? && Membership(nodes[i].id, true) in memberships
              && nodes[j].PositionNode? && nodes[j].place.Some? && Membership(nodes[j].id, true) in memberships
      ensures HomeUnit(memberships, nodes) == None
    {
      TwoKept(nodes, (n: Node) => n.PositionNode? && n.place.Some?, i, j);
      var a, b :| 0 <= a < b < |positions| && positions[a] == nodes[i] && positions[b] == nodes[j];
      TwoKept(positions, (n: Node) => Membership(n.id, true) in memberships, a, b);
    }
  }

  /** Filtering keeps two kept entries apart and in order. */
  lemma {:induction false} TwoKept<T>(s: seq<T>, keep: T -> bool, i: nat, j: nat)
    requires i < j < |s| && keep(s[i]) && keep(s[j])
    ensures exists a, b :: 0 <= a < b < |Filter(s, keep)| && Filter(s, keep)[a] == s[i] && Filter(s, keep)[b] == s[j]
  {
    var r := Filter(s, keep);
    if i > 0 {
      TwoKept(s[1..], keep, i - 1, j - 1);
      var rest := Filter(s[1..], keep);
      var a, b :| 0 <= a < b < |rest| && rest[a] == s[i] && rest[b] == s[j];
      var d := |r| - |rest|;
      assert r[a + d] == s[i] && r[b + d] == s[j];
    } else {
      FilterIn(s[1..], keep, s[j]);
      assert s[1..][j - 1] == s[j];
      var b :| 0 <= b < |Filter(s[1..], keep)| && Filter(s[1..], keep)[b] == s[j];
      assert r[0] == s[0] && r[b + 1] == s[j];
    }
  }
}
