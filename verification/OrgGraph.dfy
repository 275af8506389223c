/**
 * The organisation graph: the depth-capped recursive queries and the guard that keeps loops out.
 *
 * A recursive query is a working table that is joined with the edge table round after round. Rows are
 * appended without removing repeats, so a row occurs once for every walk that reaches it.
 */
module OrgGraph {
  import opened Prelude

  const MAX_DEPTH: nat := 32

  /** A row of the edge table, of one organisation. */
  datatype EdgeRow = EdgeRow(parent: Id, child: Id, kind: string, dimension: string, validTo: Option<int>)

  /** One organisation's rows: its unit nodes, all its nodes, its edges, and the instant of the query. */
  datatype Org = Org(units: set<Id>, nodes: set<Id>, edges: seq<EdgeRow>, now: int)
  {
    ghost predicate Valid() {
      units <= nodes
    }
  }

  predicate LiveEdge(e: EdgeRow, now: int) {
    e.validTo == None || e.validTo.value > now
  }

  /** One step of a recursive query: a row for `at` produces a row for `to`. */
  datatype Link = Link(at: Id, to: Id)

  /** The links an edge table offers to a query, in table order. */
  function Links(rows: seq<EdgeRow>, link: EdgeRow -> Option<Link>): seq<Link> {
    if rows == [] then []
    else (if link(rows[0]).Some? then [link(rows[0]).value] else []) + Links(rows[1..], link)
  }

  lemma {:induction false} LinksIn(rows: seq<EdgeRow>, link: EdgeRow -> Option<Link>, l: Link)
    ensures l in Links(rows, link) <==> exists e :: e in rows && link(e) == Some(l)
  {
    if rows != [] {
      LinksIn(rows[1..], link, l);
      assert rows == [rows[0]] + rows[1..];
    }
  }

  function Targets(links: seq<Link>, id: Id): seq<Id> {
    if links == [] then [] else (if links[0].at == id then [links[0].to] else []) + Targets(links[1..], id)
  }

  /** The join of the working table with the links. */
  function Join(links: seq<Link>, frontier: seq<Id>): seq<Id> {
    if frontier == [] then [] else Targets(links, frontier[0]) + Join(links, frontier[1..])
  }

  /** The working table at `depth`, and every later one. */
  function Expand(links: seq<Link>, frontier: seq<Id>, depth: nat): seq<Id>
    requires depth <= MAX_DEPTH
    decreases MAX_DEPTH - depth
  {
    if depth == MAX_DEPTH then frontier
    else frontier + Expand(links, Join(links, frontier), depth + 1)
  }

  function DownLink(org: Org): EdgeRow -> Option<Link> {
    (e: EdgeRow) =>
      if e.kind == "contains" && LiveEdge(e, org.now) && e.child in org.nodes
      then Some(Link(e.parent, e.child)) else None
  }

  function UpLink(org: Org): EdgeRow -> Option<Link> {
    (e: EdgeRow) =>
      if e.kind == "contains" && LiveEdge(e, org.now) && e.parent in org.nodes
      then Some(Link(e.child, e.parent)) else None
  }

  /** Every unit at or below `root`. */
  function UnitSubtree(org: Org, root: Id): seq<Id> {
    Expand(Links(org.edges, DownLink(org)), if root in org.units then [root] else [], 0)
  }

  /** Every unit from `unit` up to the root. */
  function UnitAncestors(org: Org, unit: Id): seq<Id> {
    Expand(Links(org.edges, UpLink(org)), if unit in org.units then [unit] else [], 0)
  }

  /** The live links of one dimension; the loop guard does not join the node table. */
  function DimensionLinks(rows: seq<EdgeRow>, dimension: string, now: int): seq<Link> {
    Links(rows, DimensionLink(dimension, now))
  }

  function DimensionLink(dimension: string, now: int): EdgeRow -> Option<Link> {
    (e: EdgeRow) =>
      if e.dimension == dimension && LiveEdge(e, now) then Some(Link(e.parent, e.child)) else None
  }

  /** Would linking `parent` to `child` close a loop? */
  predicate WouldCreateCycle(rows: seq<EdgeRow>, now: int, dimension: string, parent: Id, child: Id) {
    parent == child || parent in Expand(DimensionLinks(rows, dimension, now), [child], 0)
  }

  // ----- Walks: the meaning of the queries -----

  ghost predicate IsWalk(links: seq<Link>, p: seq<Id>, a: Id, b: Id) {
    && p != []
    && p[0] == a
    && p[|p| - 1] == b
    && forall i :: 0 <= i < |p| - 1 ==> Link(p[i], p[i + 1]) in links
  }

  /** A walk of at most `n` links joins `a` to `b`. */
  ghost predicate Within(links: seq<Link>, n: nat, a: Id, b: Id) {
    exists p :: IsWalk(links, p, a, b) && |p| <= n + 1
  }

  ghost predicate Reaches(links: seq<Link>, a: Id, b: Id) {
    exists p :: IsWalk(links, p, a, b)
  }

  lemma {:induction false} TargetsIn(links: seq<Link>, id: Id, x: Id)
    ensures x in Targets(links, id) <==> Link(id, x) in links
  {
    if links != [] {
      TargetsIn(links[1..], id, x);
      assert links == [links[0]] + links[1..];
    }
  }

  lemma {:induction false} JoinIn(links: seq<Link>, frontier: seq<Id>, x: Id)
    ensures x in Join(links, frontier) <==> exists y :: y in frontier && Link(y, x) in links
  {
    if frontier != [] {
      JoinIn(links, frontier[1..], x);
      TargetsIn(links, frontier[0], x);
      assert frontier == [frontier[0]] + frontier[1..];
    }
  }

  /** A walk with room for one more link stays put or takes a first link. */
  lemma WithinStep(links: seq<Link>, n: nat, a: Id, b: Id)
    ensures Within(links, n + 1, a, b) <==> a == b || exists c :: Link(a, c) in links && Within(links, n, c, b)
  {
    if a == b {
      assert IsWalk(links, [a], a, b);
    }
    if c :| Link(a, c) in links && Within(links, n, c, b) {
      var p :| IsWalk(links, p, c, b) && |p| <= n + 1;
      assert IsWalk(links, [a] + p, a, b);
    }
    if Within(links, n + 1, a, b) && a != b {
      var p :| IsWalk(links, p, a, b) && |p| <= n + 2;
      assert IsWalk(links, p[1..], p[1], b);
      assert Link(a, p[1]) in links;
    }
  }

  ghost predicate WithinOfAny(links: seq<Link>, n: nat, frontier: seq<Id>, x: Id) {
    exists y :: y in frontier && Within(links, n, y, x)
  }

  /** One round of the join trades one link of the bound. */
  lemma JoinStep(links: seq<Link>, n: nat, frontier: seq<Id>, x: Id)
    ensures WithinOfAny(links, n + 1, frontier, x)
       <==> x in frontier || WithinOfAny(links, n, Join(links, frontier), x)
  {
    if x in frontier {
      WithinStep(links, n, x, x);
    }
    if WithinOfAny(links, n, Join(links, frontier), x) {
      var z :| z in Join(links, frontier) && Within(links, n, z, x);
      JoinIn(links, frontier, z);
      var y :| y in frontier && Link(y, z) in links;
      WithinStep(links, n, y, x);
    }
    if WithinOfAny(links, n + 1, frontier, x) && x !in frontier {
      var y :| y in frontier && Within(links, n + 1, y, x);
      WithinStep(links, n, y, x);
      var z :| Link(y, z) in links && Within(links, n, z, x);
      JoinIn(links, frontier, z);
    }
  }

  /** The rows from `depth` on are exactly the nodes within the remaining number of links. */
  lemma {:induction false} ExpandIn(links: seq<Link>, frontier: seq<Id>, depth: nat, x: Id)
    requires depth <= MAX_DEPTH
    ensures x in Expand(links, frontier, depth) <==> WithinOfAny(links, MAX_DEPTH - depth, frontier, x)
    decreases MAX_DEPTH - depth
  {
    if depth == MAX_DEPTH {
      if x in frontier {
        assert IsWalk(links, [x], x, x);
      }
      forall y | y in frontier && Within(links, 0, y, x) ensures x in frontier {
        var p :| IsWalk(links, p, y, x) && |p| <= 1;
      }
    } else {
      ExpandIn(links, Join(links, frontier), depth + 1, x);
      JoinStep(links, MAX_DEPTH - depth - 1, frontier, x);
    }
  }

  /** A row in force, written out. */
  predicate InForce(e: EdgeRow, now: int) {
    e.validTo == None || now < e.validTo.value
  }

  /** The links of the subtree query are the contains rows in force whose child is a node. */
  lemma DownLinksAre(org: Org, l: Link)
    ensures l in Links(org.edges, DownLink(org))
       <==> exists e :: e in org.edges && e.kind == "contains" && InForce(e, org.now) && e.child in org.nodes
                     && e.parent == l.at && e.child == l.to
  {
    LinksIn(org.edges, DownLink(org), l);
  }

  /** Those of the ancestor query are the contains rows in force whose parent is a node, turned round. */
  lemma UpLinksAre(org: Org, l: Link)
    ensures l in Links(org.edges, UpLink(org))
       <==> exists e :: e in org.edges && e.kind == "contains" && InForce(e, org.now) && e.parent in org.nodes
                     && e.child == l.at && e.parent == l.to
  {
    LinksIn(org.edges, UpLink(org), l);
  }

  /** Those of the loop guard are the rows in force of one dimension, whatever their kind. */
  lemma DimensionLinksAre(rows: seq<EdgeRow>, dimension: string, now: int, l: Link)
    ensures l in DimensionLinks(rows, dimension, now)
       <==> exists e :: e in rows && e.dimension == dimension && InForce(e, now) && e.parent == l.at && e.child == l.to
  {
    LinksIn(rows, DimensionLink(dimension, now), l);
  }

  /** The subtree query returns exactly the nodes within 32 live links below a unit, loops included. */
  lemma SubtreeIsBoundedReach(org: Org, root: Id, x: Id)
    ensures x in UnitSubtree(org, root)
       <==> root in org.units && Within(Links(org.edges, DownLink(org)), 32, root, x)
  {
    RootedExpandIn(Links(org.edges, DownLink(org)), org.units, root, x);
  }

  lemma AncestorsAreBoundedReach(org: Org, unit: Id, x: Id)
    ensures x in UnitAncestors(org, unit)
       <==> unit in org.units && Within(Links(org.edges, UpLink(org)), 32, unit, x)
  {
    RootedExpandIn(Links(org.edges, UpLink(org)), org.units, unit, x);
  }

  lemma RootedExpandIn(links: seq<Link>, units: set<Id>, root: Id, x: Id)
    ensures x in Expand(links, if root in units then [root] else [], 0)
       <==> root in units && Within(links, MAX_DEPTH, root, x)
  {
    var frontier: seq<Id> := if root in units then [root] else [];
    ExpandIn(links, frontier, 0, x);
    assert root in units ==> frontier[0] in frontier;
  }

  function Backwards(p: seq<Id>): (r: seq<Id>)
    ensures |r| == |p|
  {
    seq(|p|, i requires 0 <= i < |p| => p[|p| - 1 - i])
  }

  /** A walk read backwards is a walk over turned links, if the links at its two ends survive the turn. */
  lemma TurnWalk(links: seq<Link>, turned: seq<Link>, p: seq<Id>, a: Id, b: Id)
    requires IsWalk(links, p, a, b)
    requires forall i :: 0 <= i < |p| - 1 ==> Link(p[i + 1], p[i]) in turned
    ensures IsWalk(turned, Backwards(p), b, a)
  {
    var q := Backwards(p);
    forall i | 0 <= i < |q| - 1 ensures Link(q[i], q[i + 1]) in turned {
      var k := |p| - 2 - i;
      assert q[i] == p[k + 1] && q[i + 1] == p[k];
    }
  }

  /** "Is x inside y" has one answer, whichever end the query starts from. */
  lemma SubtreeAncestorDuality(org: Org, u: Id, v: Id)
    requires org.Valid() && u in org.units && v in org.units
    ensures v in UnitSubtree(org, u) <==> u in UnitAncestors(org, v)
  {
    SubtreeIsBoundedReach(org, u, v);
    AncestorsAreBoundedReach(org, v, u);
    var down, up := Links(org.edges, DownLink(org)), Links(org.edges, UpLink(org));
    if Within(down, MAX_DEPTH, u, v) { WalkUpAgain(org, u, v); }
    if Within(up, MAX_DEPTH, v, u) { WalkDownAgain(org, v, u); }
  }

  lemma WalkUpAgain(org: Org, u: Id, v: Id)
    requires org.Valid() && u in org.units && v in org.units && Within(Links(org.edges, DownLink(org)), MAX_DEPTH, u, v)
    ensures Within(Links(org.edges, UpLink(org)), MAX_DEPTH, v, u)
  {
    var down, up := Links(org.edges, DownLink(org)), Links(org.edges, UpLink(org));
    var p :| IsWalk(down, p, u, v) && |p| <= MAX_DEPTH + 1;
    forall i | 0 <= i < |p| - 1 ensures Link(p[i + 1], p[i]) in up {
      if i > 0 {
        assert Link(p[i - 1], p[i]) in down;
        LinksIn(org.edges, DownLink(org), Link(p[i - 1], p[i]));
      }
      TurnLink(org, p[i], p[i + 1]);
    }
    TurnWalk(down, up, p, u, v);
  }

  lemma WalkDownAgain(org: Org, v: Id, u: Id)
    requires org.Valid() && u in org.units && v in org.units && Within(Links(org.edges, UpLink(org)), MAX_DEPTH, v, u)
    ensures Within(Links(org.edges, DownLink(org)), MAX_DEPTH, u, v)
  {
    var down, up := Links(org.edges, DownLink(org)), Links(org.edges, UpLink(org));
    var p :| IsWalk(up, p, v, u) && |p| <= MAX_DEPTH + 1;
    forall i | 0 <= i < |p| - 1 ensures Link(p[i + 1], p[i]) in down {
      if i > 0 {
        assert Link(p[i - 1], p[i]) in up;
        LinksIn(org.edges, UpLink(org), Link(p[i - 1], p[i]));
      }
      TurnLink(org, p[i + 1], p[i]);
    }
    TurnWalk(up, down, p, v, u);
  }

  lemma TurnLink(org: Org, parent: Id, child: Id)
    ensures Link(parent, child) in Links(org.edges, DownLink(org)) && parent in org.nodes
        ==> Link(child, parent) in Links(org.edges, UpLink(org))
    ensures Link(child, parent) in Links(org.edges, UpLink(org)) && child in org.nodes
        ==> Link(parent, child) in Links(org.edges, DownLink(org))
  {
    LinksIn(org.edges, DownLink(org), Link(parent, child));
    LinksIn(org.edges, UpLink(org), Link(child, parent));
    forall e | e in org.edges && UpLink(org)(e) == Some(Link(child, parent)) && child in org.nodes
      ensures DownLink(org)(e) == Some(Link(parent, child)) {}
    forall e | e in org.edges && DownLink(org)(e) == Some(Link(parent, child)) && parent in org.nodes
      ensures UpLink(org)(e) == Some(Link(child, parent)) {}
  }

  /** Every row of a subtree is the root or a node of the organisation. */
  lemma SubtreeInside(org: Org, root: Id, x: Id)
    requires org.Valid() && x in UnitSubtree(org, root)
    ensures x in org.nodes
    ensures x == root
         || exists e :: e in org.edges && e.kind == "contains" && LiveEdge(e, org.now) && e.child == x
  {
    SubtreeIsBoundedReach(org, root, x);
    var down := Links(org.edges, DownLink(org));
    var p :| IsWalk(down, p, root, x) && |p| <= MAX_DEPTH + 1;
    if |p| > 1 {
      assert Link(p[|p| - 2], x) in down;
      LinksIn(org.edges, DownLink(org), Link(p[|p| - 2], x));
    }
  }

  // ----- Loops -----

  /** No walk of one link or more returns to its start. */
  ghost predicate Acyclic(links: seq<Link>) {
    forall p, a :: IsWalk(links, p, a, a) ==> |p| == 1
  }

  /** Every chain has at most `n` links. */
  ghost predicate ChainsAtMost(links: seq<Link>, n: nat) {
    forall p, a, b :: IsWalk(links, p, a, b) ==> |p| <= n + 1
  }

  lemma JoinWalks(links: seq<Link>, p: seq<Id>, q: seq<Id>, a: Id, b: Id, c: Id)
    requires IsWalk(links, p, a, b) && IsWalk(links, q, b, c)
    ensures IsWalk(links, p + q[1..], a, c)
  {
    var r := p + q[1..];
    forall i | 0 <= i < |r| - 1 ensures Link(r[i], r[i + 1]) in links {
      if i >= |p| - 1 {
        var k := i - (|p| - 1);
        assert r[i] == q[k] && r[i + 1] == q[k + 1];
      }
    }
  }

  /** A walk over a graph with one more link either avoids it, or reaches its tail and leaves its head without it. */
  lemma {:induction false} AvoidLink(links: seq<Link>, e: Link, p: seq<Id>, a: Id, b: Id)
    requires IsWalk(links + [e], p, a, b)
    ensures IsWalk(links, p, a, b) || (Reaches(links, a, e.at) && Reaches(links, e.to, b))
    decreases |p|
  {
    if |p| > 1 {
      var rest := p[1..];
      assert IsWalk(links + [e], rest, p[1], b);
      AvoidLink(links, e, rest, p[1], b);
      assert Link(p[0], p[1]) in links + [e];
      if Link(a, p[1]) in links {
        if !IsWalk(links, rest, p[1], b) {
          var q :| IsWalk(links, q, p[1], e.at);
          assert IsWalk(links, [a] + q, a, e.at);
        }
      } else {
        assert e == Link(a, p[1]);
        assert IsWalk(links, [a], a, a);
      }
    }
  }

  /** Linking closes a loop exactly when the child already reaches the parent. */
  lemma LoopNeedsReturn(links: seq<Link>, parent: Id, child: Id)
    requires Acyclic(links)
    ensures Acyclic(links + [Link(parent, child)]) <==> !Reaches(links, child, parent)
  {
    var more := links + [Link(parent, child)];
    if p :| IsWalk(links, p, child, parent) {
      assert IsWalk(more, [parent] + p, parent, parent);
    }
    if !Acyclic(more) {
      var p, a :| IsWalk(more, p, a, a) && |p| != 1;
      AvoidLink(links, Link(parent, child), p, a, a);
      var x :| IsWalk(links, x, child, a);
      var y :| IsWalk(links, y, a, parent);
      JoinWalks(links, x, y, child, a, parent);
    }
  }

  /** The edge a structural insert writes. */
  function LinkRow(dimension: string, parent: Id, child: Id): EdgeRow {
    EdgeRow(parent, child, "contains", dimension, None)
  }

  lemma {:induction false} LinksAppend(rows: seq<EdgeRow>, e: EdgeRow, link: EdgeRow -> Option<Link>)
    ensures Links(rows + [e], link) == Links(rows, link) + (if link(e).Some? then [link(e).value] else [])
  {
    if rows == [] {
      LinksOne(rows, e, link);
    } else {
      LinksAppend(rows[1..], e, link);
      assert (rows + [e])[1..] == rows[1..] + [e] && (rows + [e])[0] == rows[0];
      Regroup(if link(rows[0]).Some? then [link(rows[0]).value] else [], Links(rows[1..], link),
              if link(e).Some? then [link(e).value] else []);
    }
  }

  lemma LinksOne(none: seq<EdgeRow>, e: EdgeRow, link: EdgeRow -> Option<Link>)
    requires none == []
    ensures Links(none + [e], link) == Links(none, link) + (if link(e).Some? then [link(e).value] else [])
  {
    assert none + [e] == [e] && [e][1..] == none;
    assert Links([e], link) == (if link(e).Some? then [link(e).value] else []) + Links(none, link);
  }

  /** The guard never refuses a harmless link; it is exact whenever the child's return walks are within its depth. */
  lemma GuardExact(rows: seq<EdgeRow>, now: int, dimension: string, parent: Id, child: Id)
    requires Acyclic(DimensionLinks(rows, dimension, now))
    ensures var links := DimensionLinks(rows, dimension, now);
            var after := DimensionLinks(rows + [LinkRow(dimension, parent, child)], dimension, now);
            && (WouldCreateCycle(rows, now, dimension, parent, child) ==> !Acyclic(after))
            && ((WouldCreateCycle(rows, now, dimension, parent, child) <==> !Acyclic(after))
                <==> (Reaches(links, child, parent) ==> Within(links, 32, child, parent)))
  {
    var links := DimensionLinks(rows, dimension, now);
    LinksAppend(rows, LinkRow(dimension, parent, child), DimensionLink(dimension, now));
    LoopNeedsReturn(links, parent, child);
    RootedExpandIn(links, {child}, child, parent);
    if parent == child {
      assert IsWalk(links, [child], child, parent);
    }
  }

  // ----- Chains -----

  /** Written rows, each the link a structural insert writes, from one id to the next; no id occurs twice. */
  ghost predicate IsChain(rows: seq<EdgeRow>, ids: seq<Id>, dimension: string) {
    && |ids| == |rows| + 1 && Distinct(ids)
    && forall i :: 0 <= i < |rows| ==> rows[i] == LinkRow(dimension, ids[i], ids[i + 1])
  }

  /** Links from each id of a list to the next, and no others. */
  ghost predicate Threads(links: seq<Link>, ids: seq<Id>) {
    Distinct(ids) && forall l :: l in links <==> exists i :: 0 <= i < |ids| - 1 && l == Link(ids[i], ids[i + 1])
  }

  lemma RowsThread(rows: seq<EdgeRow>, ids: seq<Id>, link: EdgeRow -> Option<Link>)
    requires |ids| == |rows| + 1 && Distinct(ids)
    requires forall i :: 0 <= i < |rows| ==> link(rows[i]) == Some(Link(ids[i], ids[i + 1]))
    ensures Threads(Links(rows, link), ids)
  {
    forall l ensures l in Links(rows, link) <==> exists i :: 0 <= i < |ids| - 1 && l == Link(ids[i], ids[i + 1]) {
      LinksIn(rows, link, l);
      if l in Links(rows, link) {
        var e :| e in rows && link(e) == Some(l);
        var i :| 0 <= i < |rows| && rows[i] == e;
        assert l == Link(ids[i], ids[i + 1]);
      }
      if i :| 0 <= i < |ids| - 1 && l == Link(ids[i], ids[i + 1]) {
        assert rows[i] in rows;
      }
    }
  }

  lemma RowsThreadBack(rows: seq<EdgeRow>, ids: seq<Id>, link: EdgeRow -> Option<Link>)
    requires |ids| == |rows| + 1 && Distinct(ids)
    requires forall i :: 0 <= i < |rows| ==> link(rows[i]) == Some(Link(ids[i + 1], ids[i]))
    ensures Threads(Links(rows, link), Backwards(ids))
  {
    var back := Backwards(ids);
    var n := |rows|;
    forall l ensures l in Links(rows, link) <==> exists i :: 0 <= i < |back| - 1 && l == Link(back[i], back[i + 1]) {
      LinksIn(rows, link, l);
      if l in Links(rows, link) {
        var e :| e in rows && link(e) == Some(l);
        var i :| 0 <= i < |rows| && rows[i] == e;
        assert l == Link(back[n - 1 - i], back[n - 1 - i + 1]);
      }
      if i :| 0 <= i < |back| - 1 && l == Link(back[i], back[i + 1]) {
        assert rows[n - 1 - i] in rows && link(rows[n - 1 - i]) == Some(Link(ids[n - i], ids[n - 1 - i]));
      }
    }
  }

  /** A walk along a thread takes as many links as lie between its ends. */
  lemma {:induction false} ThreadWalk(links: seq<Link>, ids: seq<Id>, p: seq<Id>, i: nat, k: nat)
    requires Threads(links, ids) && i < |ids| && k < |ids| && IsWalk(links, p, ids[i], ids[k])
    ensures i <= k && |p| == k - i + 1
    decreases |p|
  {
    if |p| > 1 {
      assert Link(p[0], p[1]) in links;
      var j :| 0 <= j < |ids| - 1 && Link(p[0], p[1]) == Link(ids[j], ids[j + 1]);
      assert j == i;
      ThreadWalk(links, ids, p[1..], i + 1, k);
    }
  }

  lemma ThreadWithin(links: seq<Link>, ids: seq<Id>, n: nat, k: nat)
    requires Threads(links, ids) && k < |ids|
    ensures Within(links, n, ids[0], ids[k]) <==> k <= n
    ensures Reaches(links, ids[0], ids[k])
  {
    var p := ids[..k + 1];
    forall i | 0 <= i < |p| - 1 ensures Link(p[i], p[i + 1]) in links { assert Link(p[i], p[i + 1]) == Link(ids[i], ids[i + 1]); }
    assert IsWalk(links, p, ids[0], ids[k]);
    forall q | IsWalk(links, q, ids[0], ids[k]) ensures |q| == k + 1 { ThreadWalk(links, ids, q, 0, k); }
  }

  lemma ThreadHasNoLoop(links: seq<Link>, ids: seq<Id>)
    requires Threads(links, ids)
    ensures Acyclic(links)
  {
    forall p, a | IsWalk(links, p, a, a) ensures |p| == 1 {
      if |p| > 1 {
        assert Link(p[0], p[1]) in links;
        var i :| 0 <= i < |ids| - 1 && Link(p[0], p[1]) == Link(ids[i], ids[i + 1]);
        ThreadWalk(links, ids, p, i, i);
      }
    }
  }

  /** Down a chain of nodes from a unit, exactly 32 of them are in its subtree besides itself. */
  lemma ChainSubtree(org: Org, ids: seq<Id>, dimension: string, k: nat)
    requires IsChain(org.edges, ids, dimension) && (forall i :: 0 <= i < |ids| ==> ids[i] in org.nodes)
    requires ids[0] in org.units && k < |ids|
    ensures ids[k] in UnitSubtree(org, ids[0]) <==> k <= 32
  {
    RowsThread(org.edges, ids, DownLink(org));
    ThreadWithin(Links(org.edges, DownLink(org)), ids, 32, k);
    SubtreeIsBoundedReach(org, ids[0], ids[k]);
  }

  /** And up from a unit at the lower end, as many are among its ancestors. */
  lemma ChainAncestors(org: Org, ids: seq<Id>, dimension: string, k: nat)
    requires IsChain(org.edges, ids, dimension) && (forall i :: 0 <= i < |ids| ==> ids[i] in org.nodes)
    requires ids[|ids| - 1] in org.units && k < |ids|
    ensures ids[|ids| - 1 - k] in UnitAncestors(org, ids[|ids| - 1]) <==> k <= 32
  {
    var back, links := Backwards(ids), Links(org.edges, UpLink(org));
    assert back[0] == ids[|ids| - 1] && back[k] == ids[|ids| - 1 - k];
    RowsThreadBack(org.edges, ids, UpLink(org));
    ThreadWithin(links, back, 32, k);
    AncestorsAreBoundedReach(org, back[0], back[k]);
  }

  /** The link that would close a chain is refused exactly when the chain has at most 32 links. */
  lemma ChainGuard(rows: seq<EdgeRow>, ids: seq<Id>, dimension: string, now: int)
    requires IsChain(rows, ids, dimension)
    ensures WouldCreateCycle(rows, now, dimension, ids[|rows|], ids[0]) <==> |rows| <= 32
  {
    var links := DimensionLinks(rows, dimension, now);
    RowsThread(rows, ids, DimensionLink(dimension, now));
    ThreadWithin(links, ids, 32, |rows|);
    RootedExpandIn(links, {ids[0]}, ids[0], ids[|rows|]);
  }

  /** The depth cap matters: closing any chain longer than 32 links is let through although it makes a loop. */
  lemma DeepChainSlipsThrough(rows: seq<EdgeRow>, ids: seq<Id>, dimension: string, now: int)
    requires IsChain(rows, ids, dimension) && |rows| > 32
    ensures Acyclic(DimensionLinks(rows, dimension, now))
    ensures !WouldCreateCycle(rows, now, dimension, ids[|rows|], ids[0])
    ensures !Acyclic(DimensionLinks(rows + [LinkRow(dimension, ids[|rows|], ids[0])], dimension, now))
  {
    var links := DimensionLinks(rows, dimension, now);
    RowsThread(rows, ids, DimensionLink(dimension, now));
    ThreadHasNoLoop(links, ids);
    ThreadWithin(links, ids, 32, |rows|);
    ChainGuard(rows, ids, dimension, now);
    GuardExact(rows, now, dimension, ids[|rows|], ids[0]);
  }

  /** A change to the edge table: a guarded link of the dimension, or the removal of some rows. */
  datatype Change = AddLink(parent: Id, child: Id) | RemoveRows(gone: set<EdgeRow>)

  function Apply(rows: seq<EdgeRow>, now: int, dimension: string, change: Change): seq<EdgeRow> {
    match change
    case AddLink(parent, child) =>
      if WouldCreateCycle(rows, now, dimension, parent, child) then rows
      else rows + [LinkRow(dimension, parent, child)]
    case RemoveRows(gone) => Filter(rows, (e: EdgeRow) => e !in gone)
  }

  function ApplyAll(rows: seq<EdgeRow>, now: int, dimension: string, changes: seq<Change>): seq<EdgeRow>
    decreases |changes|
  {
    if changes == [] then rows
    else ApplyAll(Apply(rows, now, dimension, changes[0]), now, dimension, changes[1..])
  }

  /** Before each of the links, every chain of the dimension has at most 32 links. */
  ghost predicate ShallowRun(rows: seq<EdgeRow>, now: int, dimension: string, changes: seq<Change>)
    decreases |changes|
  {
    changes == []
    || (&& (changes[0].AddLink? ==> ChainsAtMost(DimensionLinks(rows, dimension, now), 32))
        && ShallowRun(Apply(rows, now, dimension, changes[0]), now, dimension, changes[1..]))
  }

  lemma ShallowGuardKeepsAcyclic(rows: seq<EdgeRow>, now: int, dimension: string, parent: Id, child: Id)
    requires Acyclic(DimensionLinks(rows, dimension, now))
    requires ChainsAtMost(DimensionLinks(rows, dimension, now), 32)
    ensures WouldCreateCycle(rows, now, dimension, parent, child)
       <==> !Acyclic(DimensionLinks(rows + [LinkRow(dimension, parent, child)], dimension, now))
  {
    GuardExact(rows, now, dimension, parent, child);
    var links := DimensionLinks(rows, dimension, now);
    if p :| IsWalk(links, p, child, parent) {
      assert Within(links, 32, child, parent);
    }
  }

  lemma RemovalKeepsAcyclic(rows: seq<EdgeRow>, now: int, dimension: string, gone: set<EdgeRow>)
    requires Acyclic(DimensionLinks(rows, dimension, now))
    ensures Acyclic(DimensionLinks(Filter(rows, (e: EdgeRow) => e !in gone), dimension, now))
  {
    var keep := (e: EdgeRow) => e !in gone;
    var link := DimensionLink(dimension, now);
    var less, links := Links(Filter(rows, keep), link), Links(rows, link);
    forall p, a | IsWalk(less, p, a, a) ensures |p| == 1 {
      forall i | 0 <= i < |p| - 1 ensures Link(p[i], p[i + 1]) in links {
        LinksIn(Filter(rows, keep), link, Link(p[i], p[i + 1]));
        LinksIn(rows, link, Link(p[i], p[i + 1]));
        var e :| e in Filter(rows, keep) && link(e) == Some(Link(p[i], p[i + 1]));
        FilterIn(rows, keep, e);
      }
      assert IsWalk(links, p, a, a);
    }
  }

  /** Any run of guarded links and removals keeps a dimension free of loops. */
  lemma {:induction false} GuardedRunStaysAcyclic(
      rows: seq<EdgeRow>, now: int, dimension: string, changes: seq<Change>)
    requires Acyclic(DimensionLinks(rows, dimension, now))
    requires ShallowRun(rows, now, dimension, changes)
    ensures Acyclic(DimensionLinks(ApplyAll(rows, now, dimension, changes), dimension, now))
    decreases |changes|
  {
    if changes != [] {
      match changes[0] {
        case AddLink(parent, child) => ShallowGuardKeepsAcyclic(rows, now, dimension, parent, child);
        case RemoveRows(gone) => RemovalKeepsAcyclic(rows, now, dimension, gone);
      }
      GuardedRunStaysAcyclic(Apply(rows, now, dimension, changes[0]), now, dimension, changes[1..]);
    }
  }
}
