// The routers as objects: each keeps its own links and its own table, which it
// recomputes from everybody's links whenever the topology changes.
module Ospf {
  import opened Collections
  import opened Graphs
  import opened Dijkstra
  import opened Forwarding
  import opened Topology

  function LinksOf(neighbors: seq<(Router, int)>): seq<Link> {
    seq(|neighbors|, i requires 0 <= i < |neighbors| => Link(neighbors[i].0.id, neighbors[i].1))
  }

  function HopOf(r: Router?): Hop {
    if r == null then Unreachable else Via(r.id)
  }

  function ViewOf(table: map<int, Router?>): Table {
    map d | d in table :: HopOf(table[d])
  }

  ghost predicate Clash(r: Router, q: Router) {
    r != q && r.id == q.id
  }

  ghost predicate UniqueIds(routers: set<Router>) {
    forall r, q {:trigger Clash(r, q)} | r in routers && q in routers :: !Clash(r, q)
  }

  ghost function Ids(routers: set<Router>): set<int> {
    set r | r in routers :: r.id
  }

  // The links of a set of routers, by id.
  ghost function GraphOf(routers: set<Router>): (g: Graph)
    requires UniqueIds(routers)
    reads routers`neighbors
    ensures g.Keys == Ids(routers)
    ensures forall r | r in routers :: g[r.id] == LinksOf(r.neighbors)
  {
    assert forall r, q | r in routers && q in routers && r.id == q.id :: r == q by {
      forall r, q | r in routers && q in routers && r.id == q.id ensures r == q {
        assert !Clash(r, q);
      }
    }
    map r | r in routers :: r.id := LinksOf(r.neighbors)
  }

  ghost predicate LinksWithin(routers: set<Router>)
    reads routers`neighbors
  {
    forall r, n | r in routers && n in r.neighbors :: n.0 in routers
  }

  // Everything updateRoutingTable relies on.
  ghost predicate Wired(routers: set<Router>)
    reads routers`neighbors
  {
    UniqueIds(routers) && LinksWithin(routers) && WellFormed(GraphOf(routers))
  }

  // ---------- The program's variables against the search of Dijkstra ----------

  ghost predicate PredMirror(all: set<Router>, nextHop: map<Router, Router?>, pred: map<int, int>) {
    nextHop.Keys == all &&
    forall r {:trigger MirrorAt(all, nextHop, pred, r)} | r in all :: MirrorAt(all, nextHop, pred, r)
  }

  ghost predicate MirrorAt(all: set<Router>, nextHop: map<Router, Router?>, pred: map<int, int>, r: Router)
    requires r in nextHop
  {
    (nextHop[r] == null <==> r.id !in pred) &&
    (nextHop[r] != null ==> nextHop[r] in all && nextHop[r].id == pred[r.id])
  }

  ghost predicate QueueMirror(all: set<Router>, queue: seq<(int, Router)>, q: seq<(int, int)>) {
    |queue| == |q| &&
    forall i | 0 <= i < |q| :: queue[i].1 in all && q[i] == (queue[i].0, queue[i].1.id)
  }

  ghost predicate Mirrors(all: set<Router>, st: Search, distance: map<int, int>,
                          nextHop: map<Router, Router?>, queue: seq<(int, Router)>) {
    distance == st.dist && PredMirror(all, nextHop, st.pred) && QueueMirror(all, queue, st.queue)
  }

  lemma ImproveMirrors(all: set<Router>, st: Search, distance: map<int, int>,
                       nextHop: map<Router, Router?>, queue: seq<(int, Router)>,
                       node: Router, neighbor: Router, weight: int)
    requires UniqueIds(all) && node in all && neighbor in all
    requires Mirrors(all, st, distance, nextHop, queue)
    requires node.id in st.dist && neighbor.id in st.dist
    requires st.dist[node.id] + weight < st.dist[neighbor.id]
    ensures var d := distance[node.id] + weight;
            Mirrors(all, Relax(st, node.id, Link(neighbor.id, weight)),
                    distance[neighbor.id := d], nextHop[neighbor := node], queue + [(-d, neighbor)])
  {
    var nextHop' := nextHop[neighbor := node];
    var st' := Relax(st, node.id, Link(neighbor.id, weight));
    forall r | r in all ensures MirrorAt(all, nextHop', st'.pred, r) {
      assert MirrorAt(all, nextHop, st.pred, r) && !Clash(r, neighbor);
    }
  }

  lemma PopMirrors(all: set<Router>, st: Search, distance: map<int, int>,
                   nextHop: map<Router, Router?>, queue: seq<(int, Router)>, i: nat)
    requires Mirrors(all, st, distance, nextHop, queue) && i < |queue|
    ensures Mirrors(all, Pop(st, i), distance, nextHop, queue[..i] + queue[i + 1..])
  {
  }

  lemma SearchStart(all: set<Router>, root: Router, distance: map<int, int>, nextHop: map<Router, Router?>)
    requires Wired(all) && root in all
    requires distance.Keys == Ids(all)
    requires forall v | v in distance :: distance[v] == if v == root.id then 0 else INFINITY
    requires nextHop.Keys == all && forall r | r in all :: nextHop[r] == null
    ensures Reachable(GraphOf(all), root.id, Start(GraphOf(all), root.id))
    ensures Mirrors(all, Start(GraphOf(all), root.id), distance, nextHop, [(0, root)])
  {
    GraphAt(all, root);
    ReachableStart(GraphOf(all), root.id);
    assert distance == Start(GraphOf(all), root.id).dist;
  }

  // What the scan of the router on top of the queue may rely on.
  lemma SearchPop(all: set<Router>, root: Router, st: Search, distance: map<int, int>,
                  nextHop: map<Router, Router?>, queue: seq<(int, Router)>, i: nat)
    requires Wired(all) && root in all
    requires Reachable(GraphOf(all), root.id, st)
    requires Mirrors(all, st, distance, nextHop, queue) && Highest(queue, i)
    ensures var node, st' := queue[i].1, Pop(st, i);
            node in all && node.id in st'.dist &&
            (forall n | n in node.neighbors :: n.0 in all && n.0.id in st'.dist) &&
            Mirrors(all, st', distance, nextHop, queue[..i] + queue[i + 1..])
    ensures |st.pops| < 1 + AllLinks(GraphOf(all))
  {
    var g := GraphOf(all);
    GraphAt(all, queue[i].1);
    ReachableInv(g, root.id, st);
    ReachableMeasure(g, root.id, st);
    PopMirrors(all, st, distance, nextHop, queue, i);
  }

  lemma SearchStep(all: set<Router>, root: Router, st: Search, queue: seq<(int, Router)>, i: nat, mid: seq<Search>)
    requires Wired(all) && root in all
    requires Reachable(GraphOf(all), root.id, st)
    requires QueueMirror(all, queue, st.queue) && Highest(queue, i)
    requires var node := queue[i].1;
             IsScan(node.id, LinksOf(node.neighbors), mid) && |mid| == |node.neighbors| + 1 && mid[0] == Pop(st, i)
    ensures Reachable(GraphOf(all), root.id, mid[|mid| - 1])
    ensures |mid[|mid| - 1].pops| == |st.pops| + 1
  {
    var g := GraphOf(all);
    var st' := mid[|mid| - 1];
    GraphAt(all, queue[i].1);
    assert IsStep(g, st, i, st');
    ReachableInv(g, root.id, st);
    StepKeeps(g, root.id, st, i, st');
    ReachableStep(g, root.id, st, i, st');
  }

  lemma SearchTree(all: set<Router>, root: Router, st: Search)
    requires Wired(all) && root in all
    requires Reachable(GraphOf(all), root.id, st) && st.queue == []
    ensures Recorded(GraphOf(all), root.id, st.pred) && IsTree(GraphOf(all), root.id, st.pred)
  {
    GraphAt(all, root);
    ReachableInv(GraphOf(all), root.id, st);
    FinalTree(GraphOf(all), root.id, st);
  }

  // ---------- The next hops, completed ----------

  ghost predicate ParentIs(all: set<Router>, nextHop: map<Router, Router?>, tree: map<int, int>, r: Router)
    requires r in nextHop
  {
    nextHop[r] != null && nextHop[r] in all &&
    nextHop[r].id == if r.id in tree then tree[r.id] else r.id
  }

  ghost predicate Completed(all: set<Router>, nextHop: map<Router, Router?>, tree: map<int, int>) {
    nextHop.Keys == all &&
    forall r {:trigger ParentIs(all, nextHop, tree, r)} | r in all :: ParentIs(all, nextHop, tree, r)
  }

  // The entries of the routers in `done` are in place.
  ghost predicate Filled(g: Graph, s: int, tree: map<int, int>, all: set<Router>, done: set<Router>,
                         table: map<int, Router?>)
    requires s in g
  {
    table.Keys == Ids(done) &&
    forall r | r in done ::
      r.id in table && IsEntry(g, s, tree, r.id, HopOf(table[r.id])) &&
      (table[r.id] == null || table[r.id] in all)
  }

  lemma FilledGrows(g: Graph, s: int, tree: map<int, int>, all: set<Router>, done: set<Router>,
                    table: map<int, Router?>, dest: Router, hop: Router?)
    requires s in g && UniqueIds(all) && done <= all && dest in all
    requires Filled(g, s, tree, all, done, table)
    requires IsEntry(g, s, tree, dest.id, HopOf(hop)) && (hop == null || hop in all)
    ensures Filled(g, s, tree, all, done + {dest}, table[dest.id := hop])
  {
  }

  lemma TableBuilt(all: set<Router>, g: Graph, s: int, tree: map<int, int>, table: map<int, Router?>)
    requires g.Keys == Ids(all) && s in g && Recorded(g, s, tree)
    requires Filled(g, s, tree, all, all, table)
    ensures TableOk(g, s, ViewOf(table))
    ensures forall d | d in table :: table[d] == null || table[d] in all
  {
    var view := ViewOf(table);
    assert view.Keys == g.Keys;
    forall d | d in g ensures IsEntry(g, s, tree, d, view[d]) {
      var r :| r in all && r.id == d;
    }
    assert IsTableOf(g, s, tree, view);
  }

  lemma NullEntries(all: set<Router>, g: Graph, s: int, table: map<int, Router?>)
    requires Sound(g) && g.Keys == Ids(all) && s in g && TableOk(g, s, ViewOf(table))
    ensures table.Keys == Ids(all)
    ensures forall d | d in table :: table[d] == null <==> d != s && AllCost(g, s, d, 100000)
  {
    assert ViewOf(table).Keys == table.Keys;
    forall d | d in table ensures table[d] == null <==> d != s && AllCost(g, s, d, 100000) {
      EntryMissing(g, s, ViewOf(table), d);
    }
  }

  predicate Highest(queue: seq<(int, Router)>, i: nat) {
    i < |queue| && forall j | 0 <= j < |queue| :: queue[j].0 <= queue[i].0
  }

  lemma {:induction false} HighestExists(queue: seq<(int, Router)>) returns (i: nat)
    requires queue != []
    ensures Highest(queue, i)
    decreases |queue|
  {
    var n := |queue| - 1;
    i := n;
    if n > 0 {
      var k := HighestExists(queue[..n]);
      if queue[k].0 > queue[n].0 {
        i := k;
      }
      forall j | 0 <= j < |queue| ensures queue[j].0 <= queue[i].0 {
        if j < n {
          assert queue[..n][j].0 <= queue[..n][k].0;
        }
      }
    }
  }

  lemma GraphAt(all: set<Router>, r: Router)
    requires Wired(all) && r in all
    ensures r.id in GraphOf(all) && GraphOf(all)[r.id] == LinksOf(r.neighbors)
    ensures forall n | n in r.neighbors :: n.0 in all && n.0.id in GraphOf(all)
  {
  }

  ghost predicate Lists(neighbors: seq<(Router, int)>, q: Router) {
    exists n :: n in neighbors && n.0 == q
  }

  lemma NeighborLink(all: set<Router>, neighbors: seq<(Router, int)>, q: Router)
    requires UniqueIds(all) && q in all && forall n | n in neighbors :: n.0 in all
    ensures HasLink(LinksOf(neighbors), q.id) <==> Lists(neighbors, q)
  {
    var links := LinksOf(neighbors);
    if HasLink(links, q.id) {
      var l :| l in links && l.to == q.id;
      var i :| 0 <= i < |links| && links[i] == l;
      assert neighbors[i] in neighbors && !Clash(neighbors[i].0, q);
    }
    if n :| n in neighbors && n.0 == q {
      var i :| 0 <= i < |neighbors| && neighbors[i] == n;
      assert links[i] in links;
    }
  }

  function WithoutRouter(neighbors: seq<(Router, int)>, gone: Router): seq<(Router, int)>
    decreases |neighbors|
  {
    if neighbors == [] then []
    else
      var front, last := WithoutRouter(neighbors[..|neighbors| - 1], gone), neighbors[|neighbors| - 1];
      if last.0 == gone then front else front + [last]
  }

  lemma {:induction false} WithoutRouterMembers(neighbors: seq<(Router, int)>, gone: Router)
    ensures forall n | n in WithoutRouter(neighbors, gone) :: n in neighbors && n.0 != gone
    decreases |neighbors|
  {
    if neighbors != [] {
      WithoutRouterMembers(neighbors[..|neighbors| - 1], gone);
    }
  }

  // Erasing pointers is dropping ids.
  lemma {:induction false} WithoutRouterIs(all: set<Router>, neighbors: seq<(Router, int)>, gone: Router)
    requires UniqueIds(all) && gone in all && forall n | n in neighbors :: n.0 in all
    ensures LinksOf(WithoutRouter(neighbors, gone)) == DropLinks(LinksOf(neighbors), gone.id)
    decreases |neighbors|
  {
    if neighbors != [] {
      var front, last := neighbors[..|neighbors| - 1], neighbors[|neighbors| - 1];
      WithoutRouterIs(all, front, gone);
      assert LinksOf(neighbors)[..|neighbors| - 1] == LinksOf(front);
      assert last in neighbors && !Clash(last.0, gone);
      var kept := WithoutRouter(front, gone);
      assert LinksOf(kept + [last]) == LinksOf(kept) + [Link(last.0.id, last.1)];
    }
  }

  lemma NeighborLinks(all: set<Router>, r: Router, s: set<Router>)
    requires Wired(all) && r in all
    requires forall q :: q in s <==> Lists(r.neighbors, q)
    ensures r.id in GraphOf(all)
    ensures forall q | q in all :: q in s <==> HasLink(GraphOf(all)[r.id], q.id)
  {
    GraphAt(all, r);
    forall q | q in all ensures q in s <==> HasLink(LinksOf(r.neighbors), q.id) {
      NeighborLink(all, r.neighbors, q);
    }
  }

  class Router {
    const id: int
    var neighbors: seq<(Router, int)>
    var routingTable: map<int, Router?>

    constructor (id: int)
      ensures this.id == id && neighbors == [] && routingTable == map[]
    {
      this.id := id;
      neighbors := [];
      routingTable := map[];
    }

    method AddNeighbor(neighbor: Router, weight: int)
      modifies this`neighbors
      ensures neighbors == old(neighbors) + [(neighbor, weight)]
      ensures LinksOf(neighbors) == old(LinksOf(neighbors)) + [Link(neighbor.id, weight)]
    {
      neighbors := neighbors + [(neighbor, weight)];
    }

    method Initialize(all: set<Router>) returns (distance: map<int, int>, nextHop: map<Router, Router?>)
      requires this in all
      ensures distance.Keys == Ids(all)
      ensures forall v | v in distance :: distance[v] == if v == id then 0 else 100000
      ensures nextHop.Keys == all && forall r | r in all :: nextHop[r] == null
    {
      distance, nextHop := map[], map[];
      var todo := all;
      while todo != {}
        invariant todo <= all
        invariant distance.Keys == Ids(all - todo)
        invariant forall v | v in distance :: distance[v] == INFINITY
        invariant nextHop.Keys == all - todo && forall r | r in nextHop :: nextHop[r] == null
        decreases |todo|
      {
        assert Member(todo) in todo;
        var router :| router in todo;
        distance, nextHop := distance[router.id := INFINITY], nextHop[router := null];
        todo := todo - {router};
      }
      distance := distance[id := 0];
    }

    // The inner loop: every link of the router just popped is examined.
    method Scan(all: set<Router>, node: Router, ghost st: Search,
                distance: map<int, int>, nextHop: map<Router, Router?>, queue: seq<(int, Router)>)
      returns (distance': map<int, int>, nextHop': map<Router, Router?>, queue': seq<(int, Router)>,
               ghost mid: seq<Search>)
      requires UniqueIds(all) && node in all && node.id in st.dist
      requires forall n | n in node.neighbors :: n.0 in all && n.0.id in st.dist
      requires Mirrors(all, st, distance, nextHop, queue)
      ensures IsScan(node.id, LinksOf(node.neighbors), mid) && |mid| == |node.neighbors| + 1 && mid[0] == st
      ensures Mirrors(all, mid[|mid| - 1], distance', nextHop', queue')
    {
      ghost var links := LinksOf(node.neighbors);
      distance', nextHop', queue', mid := distance, nextHop, queue, [st];
      for k := 0 to |node.neighbors|
        invariant |mid| == k + 1 && IsScan(node.id, links, mid) && mid[0] == st
        invariant Mirrors(all, mid[k], distance', nextHop', queue')
        invariant distance'.Keys == st.dist.Keys
      {
        assert node.neighbors[k] in node.neighbors;
        var (neighbor, weight) := node.neighbors[k];
        var v := neighbor.id;
        ScanExtends(node.id, links, mid);
        ghost var now := mid[k];
        mid := mid + [Relax(now, node.id, links[k])];
        if distance'[node.id] + weight < distance'[v] {
          ImproveMirrors(all, now, distance', nextHop', queue', node, neighbor, weight);
          distance' := distance'[v := distance'[node.id] + weight];
          nextHop' := nextHop'[neighbor := node];
          queue' := queue' + [(-distance'[v], neighbor)];
        }
      }
    }

    method Begin(all: set<Router>)
      returns (distance: map<int, int>, nextHop: map<Router, Router?>, queue: seq<(int, Router)>, ghost st: Search)
      requires Wired(all) && this in all
      ensures Reachable(GraphOf(all), id, st) && Mirrors(all, st, distance, nextHop, queue)
    {
      distance, nextHop := Initialize(all);
      queue, st := [(0, this)], Start(GraphOf(all), id);
      SearchStart(all, this, distance, nextHop);
    }

    // One turn of the outer loop.
    method Round(all: set<Router>, ghost st: Search,
                 distance: map<int, int>, nextHop: map<Router, Router?>, queue: seq<(int, Router)>)
      returns (distance': map<int, int>, nextHop': map<Router, Router?>, queue': seq<(int, Router)>,
               ghost st': Search)
      requires Wired(all) && this in all && queue != []
      requires Reachable(GraphOf(all), id, st) && Mirrors(all, st, distance, nextHop, queue)
      ensures Reachable(GraphOf(all), id, st') && Mirrors(all, st', distance', nextHop', queue')
      ensures |st'.pops| == |st.pops| + 1 <= 1 + AllLinks(GraphOf(all))
    {
      ghost var top := HighestExists(queue);
      var i: nat :| i < |queue| && Highest(queue, i);
      var node := queue[i].1;
      SearchPop(all, this, st, distance, nextHop, queue, i);
      ghost var mid;
      distance', nextHop', queue', mid :=
        Scan(all, node, Pop(st, i), distance, nextHop, queue[..i] + queue[i + 1..]);
      SearchStep(all, this, st, queue, i, mid);
      st' := mid[|mid| - 1];
    }

    // Dijkstra's algorithm, up to the moment the queue is empty.
    method FindDistances(all: set<Router>)
      returns (distance: map<int, int>, nextHop: map<Router, Router?>, ghost st: Search)
      requires Wired(all) && this in all
      ensures Reachable(GraphOf(all), id, st) && st.queue == []
      ensures distance == st.dist && PredMirror(all, nextHop, st.pred)
    {
      ghost var g := GraphOf(all);
      var queue;
      distance, nextHop, queue, st := Begin(all);
      while queue != []
        invariant GraphOf(all) == g && Reachable(g, id, st)
        invariant Mirrors(all, st, distance, nextHop, queue)
        decreases 1 + AllLinks(g) - |st.pops|
      {
        distance, nextHop, queue, st := Round(all, st, distance, nextHop, queue);
      }
    }

    // A router nothing leads to becomes its own next hop, and so does this one.
    method Complete(all: set<Router>, nextHop: map<Router, Router?>, ghost tree: map<int, int>)
      returns (nextHop': map<Router, Router?>)
      requires PredMirror(all, nextHop, tree)
      ensures Completed(all, nextHop', tree)
    {
      nextHop' := nextHop;
      var todo := all;
      while todo != {}
        invariant todo <= all && nextHop'.Keys == all
        invariant forall r | r in all && r !in todo :: ParentIs(all, nextHop', tree, r)
        invariant forall r | r in todo :: nextHop'[r] == nextHop[r]
        decreases |todo|
      {
        assert Member(todo) in todo;
        var router :| router in todo;
        assert MirrorAt(all, nextHop, tree, router);
        if nextHop'[router] == null {
          nextHop' := nextHop'[router := router];
        }
        todo := todo - {router};
      }
    }

    method NeighborSet(ghost all: set<Router>) returns (s: set<Router>)
      requires Wired(all) && this in all
      ensures forall q | q in all :: q in s <==> HasLink(GraphOf(all)[id], q.id)
    {
      s := {};
      for i := 0 to |neighbors|
        invariant forall q :: q in s <==> exists k :: 0 <= k < i && neighbors[k].0 == q
      {
        s := s + {neighbors[i].0};
      }
      forall q ensures q in s <==> Lists(neighbors, q) {
        if n :| n in neighbors && n.0 == q {
          var k :| 0 <= k < |neighbors| && neighbors[k] == n;
          assert neighbors[k].0 == q;
        }
      }
      NeighborLinks(all, this, s);
    }

    // Walks up from `temp`, the parent of d, to the first direct neighbour.
    method Walk(nh: Router, nextHop: map<Router, Router?>, neighborsSet: set<Router>,
                ghost all: set<Router>, ghost g: Graph, ghost tree: map<int, int>, ghost d: int)
      returns (temp: Router, ghost climb: seq<int>)
      requires id in g && IsTree(g, id, tree) && Completed(all, nextHop, tree)
      requires nh in all && nh.id != id && d in tree && nh.id == tree[d]
      requires forall q | q in all :: q in neighborsSet <==> HasLink(g[id], q.id)
      ensures temp in all
      ensures StopsAt(g[id], tree, d, climb) && climb[|climb| - 1] == temp.id
    {
      temp := nh;
      ghost var j;
      climb, j := ClimbStart(g, id, tree, d);
      while temp !in neighborsSet
        invariant temp in all && Climbs(g, id, tree, d, climb, j) && climb[|climb| - 1] == temp.id
        decreases j
      {
        climb, j := ClimbOn(g, id, tree, d, climb, j);
        assert ParentIs(all, nextHop, tree, temp);
        temp := nextHop[temp];
      }
    }

    // What the table gets for one destination.
    method Entry(dest: Router, nextHop: map<Router, Router?>, neighborsSet: set<Router>,
                 ghost all: set<Router>, ghost g: Graph, ghost tree: map<int, int>)
      returns (hop: Router?)
      requires id in g && IsTree(g, id, tree) && Completed(all, nextHop, tree)
      requires this in all && dest in all && UniqueIds(all)
      requires forall q | q in all :: q in neighborsSet <==> HasLink(g[id], q.id)
      ensures IsEntry(g, id, tree, dest.id, HopOf(hop))
      ensures hop == null || hop in all
    {
      var nh := nextHop[dest];
      assert ParentIs(all, nextHop, tree, dest);
      TreeShape(g, id, tree, dest.id);
      assert !Clash(dest, nh) && !Clash(nh, this) && !Clash(dest, this);
      if dest != nh && nh != this {
        if nh in neighborsSet {
          hop := nh;
          ghost var climb := [dest.id, nh.id];
          assert Up(tree, climb, 0);
          assert StopsAt(g[id], tree, dest.id, climb);
        } else {
          var temp, climb := Walk(nh, nextHop, neighborsSet, all, g, tree, dest.id);
          hop := temp;
        }
      } else if nh == this {
        hop := dest;
      } else {
        hop := null;
      }
    }

    method BuildTable(all: set<Router>, nextHop: map<Router, Router?>, neighborsSet: set<Router>,
                      ghost g: Graph, ghost tree: map<int, int>)
      requires id in g && IsTree(g, id, tree) && Completed(all, nextHop, tree)
      requires this in all && UniqueIds(all)
      requires forall q | q in all :: q in neighborsSet <==> HasLink(g[id], q.id)
      modifies this`routingTable
      ensures Filled(g, id, tree, all, all, routingTable)
    {
      routingTable := map[];
      var todo := all;
      ghost var done: set<Router> := {};
      while todo != {}
        invariant todo <= all && done <= all
        invariant forall r | r in all :: r in done || r in todo
        invariant Filled(g, id, tree, all, done, routingTable)
        decreases |todo|
      {
        assert Member(todo) in todo;
        var dest :| dest in todo;
        var hop := Entry(dest, nextHop, neighborsSet, all, g, tree);
        FilledGrows(g, id, tree, all, done, routingTable, dest, hop);
        routingTable := routingTable[dest.id := hop];
        todo, done := todo - {dest}, done + {dest};
      }
      assert done == all;
    }

    // The search, with the gaps in next_hop filled.
    method NextHops(all: set<Router>) returns (nextHop: map<Router, Router?>, ghost tree: map<int, int>)
      requires Wired(all) && this in all
      ensures Recorded(GraphOf(all), id, tree) && IsTree(GraphOf(all), id, tree)
      ensures Completed(all, nextHop, tree)
    {
      var distance;
      ghost var st;
      distance, nextHop, st := FindDistances(all);
      tree := st.pred;
      SearchTree(all, this, st);
      nextHop := Complete(all, nextHop, tree);
    }

    method UpdateRoutingTable(all: set<Router>)
      requires Wired(all) && this in all
      modifies this`routingTable
      ensures TableOk(GraphOf(all), id, ViewOf(routingTable))
      ensures forall d | d in routingTable :: routingTable[d] == null || routingTable[d] in all
      ensures routingTable.Keys == Ids(all)
      ensures forall d | d in routingTable ::
                routingTable[d] == null <==> d != id && AllCost(GraphOf(all), id, d, 100000)
    {
      ghost var g := GraphOf(all);
      var nextHop, tree := NextHops(all);
      var neighborsSet := NeighborSet(all);
      BuildTable(all, nextHop, neighborsSet, g, tree);
      TableBuilt(all, g, id, tree, routingTable);
      NullEntries(all, g, id, routingTable);
    }

    static method GetRouterByID(wanted: int, all: set<Router>) returns (found: Router?)
      ensures found == null <==> wanted !in Ids(all)
      ensures found != null ==> found in all && found.id == wanted
    {
      var todo := all;
      while todo != {}
        invariant todo <= all
        invariant forall r | r in all && r !in todo :: r.id != wanted
        decreases |todo|
      {
        assert Member(todo) in todo;
        var router :| router in todo;
        if router.id == wanted {
          return router;
        }
        todo := todo - {router};
      }
      found := null;
    }

    // Erases every link to `gone`.
    method Unlink(gone: Router)
      modifies this`neighbors
      ensures neighbors == WithoutRouter(old(neighbors), gone)
    {
      var it := 0;
      ghost var k := 0;
      ghost var before := neighbors;
      while it < |neighbors|
        invariant it <= |neighbors| && k <= |before|
        invariant neighbors[..it] == WithoutRouter(before[..k], gone)
        invariant neighbors[it..] == before[k..]
        decreases |neighbors| - it
      {
        assert neighbors[it] == before[k];
        assert before[..k + 1][..k] == before[..k];
        if neighbors[it].0 == gone {
          neighbors := neighbors[..it] + neighbors[it + 1..];
        } else {
          assert neighbors[..it + 1] == neighbors[..it] + [neighbors[it]];
          it := it + 1;
        }
        k := k + 1;
      }
      assert before[..k] == before;
      assert neighbors[..it] == neighbors;
    }
  }
}
