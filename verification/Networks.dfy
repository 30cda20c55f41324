// The set of all routers, the operations that change it, and path finding.
module Networks {
  import opened Collections
  import opened Graphs
  import opened Forwarding
  import opened Topology
  import opened Ospf

  // What a table says of the live routers.
  ghost function LiveView(routers: set<Router>, table: map<int, Router?>): Table {
    map d | d in table && d in Ids(routers) :: HopOf(table[d])
  }

  // Entries lead to live routers only; a lookup of an unknown router leaves a null one.
  ghost predicate PointsWithin(routers: set<Router>, table: map<int, Router?>) {
    forall d | d in table ::
      if d in Ids(routers) then table[d] == null || table[d] in routers else table[d] == null
  }

  // A router's table is the one its links and everybody else's call for.
  ghost predicate TableRight(routers: set<Router>, r: Router)
    requires UniqueIds(routers) && r in routers
    reads routers`neighbors, r`routingTable
  {
    TableOk(GraphOf(routers), r.id, LiveView(routers, r.routingTable)) && PointsWithin(routers, r.routingTable)
  }

  ghost predicate AllRight(routers: set<Router>, done: set<Router>)
    requires UniqueIds(routers) && done <= routers
    reads routers`neighbors, done`routingTable
  {
    forall r {:trigger TableRight(routers, r)} | r in done :: TableRight(routers, r)
  }

  // The tables of all routers, by id.
  ghost function TablesOf(routers: set<Router>): (tables: map<int, Table>)
    requires UniqueIds(routers)
    reads routers`routingTable
    ensures tables.Keys == Ids(routers)
    ensures forall r | r in routers :: tables[r.id] == LiveView(routers, r.routingTable)
  {
    assert forall r, q | r in routers && q in routers && r.id == q.id :: r == q by {
      forall r, q | r in routers && q in routers && r.id == q.id ensures r == q {
        assert !Clash(r, q);
      }
    }
    map r | r in routers :: r.id := LiveView(routers, r.routingTable)
  }

  // Every table has one entry for every live router, and what else it has is null.
  lemma OneEntryEach(routers: set<Router>, r: Router)
    requires UniqueIds(routers) && r in routers && TableRight(routers, r)
    ensures Ids(routers) <= r.routingTable.Keys
    ensures forall d | d in r.routingTable && d !in Ids(routers) :: r.routingTable[d] == null
  {
    assert LiveView(routers, r.routingTable).Keys == Ids(routers);
  }

  // Nothing but one entry for every live router.
  ghost predicate Exact(routers: set<Router>)
    reads routers`routingTable
  {
    forall r | r in routers :: r.routingTable.Keys == Ids(routers)
  }

  // The tables of `done` have been recomputed.
  ghost predicate Updated(routers: set<Router>, done: set<Router>)
    requires UniqueIds(routers) && done <= routers
    reads routers`neighbors, done`routingTable
  {
    forall r {:trigger UpdatedAt(routers, r)} | r in done :: UpdatedAt(routers, r)
  }

  ghost predicate UpdatedAt(routers: set<Router>, r: Router)
    requires UniqueIds(routers) && r in routers
    reads routers`neighbors, r`routingTable
  {
    TableRight(routers, r) && r.routingTable.Keys == Ids(routers)
  }

  lemma AllUpdated(routers: set<Router>)
    requires UniqueIds(routers) && Updated(routers, routers)
    ensures AllRight(routers, routers) && Exact(routers)
  {
    forall r | r in routers ensures TableRight(routers, r) && r.routingTable.Keys == Ids(routers) {
      assert UpdatedAt(routers, r);
    }
  }

  // A table just computed.
  lemma FreshTable(routers: set<Router>, r: Router)
    requires UniqueIds(routers) && r in routers && TableOk(GraphOf(routers), r.id, ViewOf(r.routingTable))
    requires forall d | d in r.routingTable :: r.routingTable[d] == null || r.routingTable[d] in routers
    ensures UpdatedAt(routers, r)
  {
    assert ViewOf(r.routingTable).Keys == Ids(routers);
    assert LiveView(routers, r.routingTable) == ViewOf(r.routingTable);
  }

  lemma TablesRight(routers: set<Router>)
    requires UniqueIds(routers) && AllRight(routers, routers)
    ensures TablesOk(GraphOf(routers), TablesOf(routers))
  {
    var g, tables := GraphOf(routers), TablesOf(routers);
    forall s | s in g ensures TableOk(g, s, tables[s]) {
      var r :| r in routers && r.id == s;
      assert TableRight(routers, r);
    }
  }

  ghost predicate Indexes(routers: set<Router>, m: map<int, Router>) {
    (forall i | i in m :: m[i] in routers && m[i].id == i) &&
    forall r | r in routers :: r.id in m && m[r.id] == r
  }

  function PathIds(path: seq<Router?>): seq<int>
    requires forall i | 0 <= i < |path| :: path[i] != null
  {
    seq(|path|, i requires 0 <= i < |path| => path[i].id)
  }

  // The k-th router of the way has an entry for finish, and it names the next one.
  ghost predicate LeadsOn(m: map<int, Router>, finish: int, way: seq<int>, k: nat)
    requires k < |way|
    reads m.Values`routingTable
  {
    way[k] != finish && way[k] in m && finish in m[way[k]].routingTable &&
    m[way[k]].routingTable[finish] != null && m[way[k]].routingTable[finish].id == Next(way, finish, k)
  }

  // The way a message takes, or nothing when the first router has no hop for it.
  ghost predicate Track(m: map<int, Router>, start: int, finish: int, way: seq<int>)
    reads m.Values`routingTable
  {
    start in m && start != finish &&
    if way == [] then finish in m[start].routingTable ==> m[start].routingTable[finish] == null
    else
      way[0] == start &&
      forall k {:trigger LeadsOn(m, finish, way, k)} | 0 <= k < |way| :: LeadsOn(m, finish, way, k)
  }

  ghost predicate HasRoute(g: Graph, start: int, finish: int) {
    finish in g && Distance(g, start, finish) < INFINITY
  }

  lemma NoPath(g: Graph, start: int, finish: int)
    requires Sound(g)
    ensures !HasRoute(g, start, finish) <==> AllCost(g, start, finish, 100000)
  {
    CutOffIff(g, start, finish);
  }

  // What a path answers: nothing if there is no route, and otherwise the routers the
  // tables dictate, no router twice, along direct links, from start to the last one
  // before finish.
  ghost predicate Delivers(g: Graph, tables: map<int, Table>, start: int, finish: int, way: seq<int>) {
    if HasRoute(g, start, finish) then
      way != [] && IsWay(tables, start, finish, way) && Linked(g, way, finish) && AllDifferent(way)
    else
      way == []
  }

  lemma DeliversExists(g: Graph, tables: map<int, Table>, start: int, finish: int) returns (way: seq<int>)
    requires Sound(g) && Positive(g) && TablesOk(g, tables) && start in g && start != finish
    ensures Delivers(g, tables, start, finish, way)
  {
    way := [];
    if HasRoute(g, start, finish) {
      way := WayExists(g, tables, start, finish);
      WayLinked(g, tables, start, finish, way);
      WaySimple(g, tables, start, finish, way);
      WayHead(tables, start, finish, way);
    }
  }

  // A live router's entry as the tables by id have it.
  lemma EntryAt(routers: set<Router>, m: map<int, Router>, u: int, finish: int)
    requires UniqueIds(routers) && AllRight(routers, routers) && Indexes(routers, m) && u in m
    ensures Ids(routers) <= m[u].routingTable.Keys
    ensures finish in Ids(routers) ==>
              u in TablesOf(routers) && finish in TablesOf(routers)[u] &&
              TablesOf(routers)[u][finish] == HopOf(m[u].routingTable[finish])
    ensures finish !in Ids(routers) && finish in m[u].routingTable ==> m[u].routingTable[finish] == null
  {
    var r := m[u];
    assert TableRight(routers, r);
    OneEntryEach(routers, r);
    assert TablesOf(routers)[r.id] == LiveView(routers, r.routingTable);
  }

  lemma EntryLeads(routers: set<Router>, m: map<int, Router>, start: int, finish: int, way: seq<int>, k: nat)
    requires UniqueIds(routers) && AllRight(routers, routers) && Indexes(routers, m) && finish in Ids(routers)
    requires IsWay(TablesOf(routers), start, finish, way) && k < |way|
    ensures LeadsOn(m, finish, way, k)
  {
    WayEntry(TablesOf(routers), start, finish, way, k);
    IndexKeys(routers, m);
    EntryAt(routers, m, way[k], finish);
  }

  // The pointers lead along the way the tables dictate.
  lemma Plan(routers: set<Router>, m: map<int, Router>, start: int, finish: int) returns (way: seq<int>)
    requires Wired(routers) && AllRight(routers, routers) && Positive(GraphOf(routers)) && Indexes(routers, m)
    requires start in m && start != finish
    ensures Delivers(GraphOf(routers), TablesOf(routers), start, finish, way)
    ensures Track(m, start, finish, way)
    ensures finish in m ==> finish in m[start].routingTable
  {
    var g, tables := GraphOf(routers), TablesOf(routers);
    IndexKeys(routers, m);
    TablesRight(routers);
    EntryAt(routers, m, start, finish);
    way := DeliversExists(g, tables, start, finish);
    if HasRoute(g, start, finish) {
      WayHead(tables, start, finish, way);
      forall k | 0 <= k < |way| ensures LeadsOn(m, finish, way, k) {
        EntryLeads(routers, m, start, finish, way, k);
      }
    } else if finish in g {
      TableAt(g, tables, start);
      HopOk(g, start, tables[start], finish);
    }
  }

  lemma IndexKeys(routers: set<Router>, m: map<int, Router>)
    requires Indexes(routers, m)
    ensures m.Keys == Ids(routers)
  {
    forall i ensures i in m <==> i in Ids(routers) {
      if i in Ids(routers) {
        var r :| r in routers && r.id == i;
      }
    }
  }

  // What the tables of all routers have to say, by id.
  ghost predicate Shows(routers: set<Router>, tables: map<int, Table>)
    reads routers`routingTable
  {
    tables.Keys == Ids(routers) &&
    forall r | r in routers ::
      tables[r.id] == LiveView(routers, r.routingTable) && PointsWithin(routers, r.routingTable)
  }

  lemma ShowsTables(routers: set<Router>)
    requires UniqueIds(routers) && AllRight(routers, routers)
    ensures Shows(routers, TablesOf(routers))
  {
    forall r | r in routers ensures PointsWithin(routers, r.routingTable) {
      assert TableRight(routers, r);
    }
  }

  lemma ShownTables(routers: set<Router>, tables: map<int, Table>)
    requires UniqueIds(routers) && Shows(routers, tables)
    ensures TablesOf(routers) == tables
  {
    forall u | u in tables ensures TablesOf(routers)[u] == tables[u] {
      var r :| r in routers && r.id == u;
    }
  }

  lemma ShownAt(routers: set<Router>, tables: map<int, Table>, r: Router)
    requires UniqueIds(routers) && Shows(routers, tables) && TablesOk(GraphOf(routers), tables) && r in routers
    ensures TableRight(routers, r)
  {
    assert tables[r.id] == LiveView(routers, r.routingTable);
    TableAt(GraphOf(routers), tables, r.id);
  }

  lemma ShownRight(routers: set<Router>, g: Graph, tables: map<int, Table>)
    requires UniqueIds(routers) && GraphOf(routers) == g && TablesOk(g, tables) && Shows(routers, tables)
    ensures AllRight(routers, routers) && TablesOf(routers) == tables
  {
    ShownTables(routers, tables);
    forall r | r in routers ensures TableRight(routers, r) {
      ShownAt(routers, tables, r);
    }
  }

  lemma BeforeLookUp(routers: set<Router>, r: Router)
    requires UniqueIds(routers) && AllRight(routers, routers) && r in routers
    ensures TablesOk(GraphOf(routers), TablesOf(routers)) && Shows(routers, TablesOf(routers))
    ensures Ids(routers) <= r.routingTable.Keys
  {
    TablesRight(routers);
    ShowsTables(routers);
    assert TableRight(routers, r);
    OneEntryEach(routers, r);
  }

  // A null entry for an unknown router says nothing of the others.
  lemma SameView(routers: set<Router>, table: map<int, Router?>, finish: int)
    requires finish !in Ids(routers) && PointsWithin(routers, table)
    ensures LiveView(routers, table[finish := null]) == LiveView(routers, table)
    ensures PointsWithin(routers, table[finish := null])
  {
  }

  class Network {
    var routers: set<Router>

    ghost predicate Valid()
      reads this, routers
    {
      Wired(routers) && AllRight(routers, routers)
    }

    constructor ()
      ensures Valid() && routers == {}
    {
      routers := {};
    }

    method Recompute(router: Router)
      requires Wired(routers) && router in routers
      modifies router`routingTable
      ensures UpdatedAt(routers, router)
    {
      router.UpdateRoutingTable(routers);
      FreshTable(routers, router);
    }

    method UpdateOne(router: Router, ghost done: set<Router>)
      requires Wired(routers) && done <= routers && Updated(routers, done) && router in routers
      modifies router`routingTable
      ensures UniqueIds(routers) && Updated(routers, done + {router})
      ensures forall r | r in routers :: r.neighbors == old(r.neighbors)
    {
      Recompute(router);
      forall r | r in done ensures UpdatedAt(routers, r) {
        assert old(UpdatedAt(routers, r));
      }
    }

    // Recomputes every table, one router at a time.
    method UpdateAll()
      requires Wired(routers)
      modifies routers`routingTable
      ensures Valid() && Exact(routers) && GraphOf(routers) == old(GraphOf(routers))
    {
      var todo := routers;
      ghost var done: set<Router> := {};
      while todo != {}
        invariant todo <= routers && done <= routers
        invariant forall r | r in routers :: r in done || r in todo
        invariant forall r | r in routers :: r.neighbors == old(r.neighbors)
        invariant Updated(routers, done)
        decreases |todo|
      {
        assert Member(todo) in todo;
        var router :| router in todo;
        SameWiring(routers);
        UpdateOne(router, done);
        todo, done := todo - {router}, done + {router};
      }
      SameWiring(routers);
      assert done == routers;
      AllUpdated(routers);
    }

    method AddLink(neighbor: Router, newRouter: Router, weight: int)
      requires UniqueIds(routers) && neighbor in routers
      requires forall r, n | r in routers && n in r.neighbors :: n.0 in routers || n.0 == newRouter
      modifies neighbor`neighbors
      ensures neighbor.id in old(GraphOf(routers))
      ensures GraphOf(routers) == old(GraphOf(routers))[
                neighbor.id := old(GraphOf(routers))[neighbor.id] + [Link(newRouter.id, weight)]]
      ensures forall r, n | r in routers && n in r.neighbors :: n.0 in routers || n.0 == newRouter
    {
      neighbor.AddNeighbor(newRouter, weight);
      forall r | r in routers && r != neighbor ensures r.id != neighbor.id {
        assert !Clash(r, neighbor);
      }
    }

    method AddIncoming(newRouter: Router, incoming: Request)
      requires UniqueIds(routers) && LinksWithin(routers) && newRouter !in routers
      modifies routers`neighbors
      ensures GraphOf(routers) == WithIncoming(old(GraphOf(routers)), newRouter.id, incoming)
      ensures forall r, n | r in routers && n in r.neighbors :: n.0 in routers || n.0 == newRouter
    {
      for i := 0 to |incoming|
        invariant GraphOf(routers) == WithIncoming(old(GraphOf(routers)), newRouter.id, incoming[..i])
        invariant forall r, n | r in routers && n in r.neighbors :: n.0 in routers || n.0 == newRouter
      {
        assert incoming[..i + 1][..i] == incoming[..i];
        var (neighborId, weight) := incoming[i];
        var neighbor := Router.GetRouterByID(neighborId, routers);
        if neighbor != null {
          AddLink(neighbor, newRouter, weight);
        }
      }
      assert incoming[..|incoming|] == incoming;
    }

    method AddOutgoing(newRouter: Router, outgoing: Request)
      requires UniqueIds(routers) && newRouter !in routers && newRouter.neighbors == []
      modifies newRouter`neighbors
      ensures LinksOf(newRouter.neighbors) == Outgoing(GraphOf(routers), outgoing)
      ensures forall n | n in newRouter.neighbors :: n.0 in routers
    {
      for i := 0 to |outgoing|
        invariant LinksOf(newRouter.neighbors) == Outgoing(GraphOf(routers), outgoing[..i])
        invariant forall n | n in newRouter.neighbors :: n.0 in routers
      {
        assert outgoing[..i + 1][..i] == outgoing[..i];
        var (neighborId, weight) := outgoing[i];
        var neighbor := Router.GetRouterByID(neighborId, routers);
        if neighbor != null {
          newRouter.AddNeighbor(neighbor, weight);
        }
      }
      assert outgoing[..|outgoing|] == outgoing;
    }

    // A router whose id is taken is refused. Otherwise the links are added one by
    // one and every table is recomputed.
    method CreateRouter(id: int, incoming: Request, outgoing: Request) returns (ok: bool)
      requires Wired(routers) && Costed(incoming, 0) && Costed(outgoing, 0)
      modifies this, routers
      ensures Wired(routers) && fresh(routers - old(routers))
      ensures ok <==> id !in old(GraphOf(routers))
      ensures ok ==> IsCreation(old(GraphOf(routers)), id, incoming, outgoing, GraphOf(routers))
      ensures !ok ==> GraphOf(routers) == old(GraphOf(routers))
      ensures GraphOf(routers) == Apply(old(GraphOf(routers)), Create(id, incoming, outgoing))
      ensures ok ==> Valid() && Exact(routers)
      ensures !ok ==> unchanged(this) && unchanged(old(routers))
      ensures old(Valid()) ==> Valid()
    {
      var taken := Router.GetRouterByID(id, routers);
      ok := taken == null;
      if ok {
        Extend(id, incoming, outgoing);
      }
    }

    // The links of a new router, both ways; it is not one of the routers yet.
    method Wire(newRouter: Router, incoming: Request, outgoing: Request)
      requires UniqueIds(routers) && LinksWithin(routers)
      requires newRouter !in routers && newRouter.neighbors == []
      modifies routers`neighbors, newRouter`neighbors
      ensures GraphOf(routers) == WithIncoming(old(GraphOf(routers)), newRouter.id, incoming)
      ensures LinksOf(newRouter.neighbors) == Outgoing(old(GraphOf(routers)), outgoing)
      ensures forall r, n | r in routers && n in r.neighbors :: n.0 in routers || n.0 == newRouter
      ensures forall n | n in newRouter.neighbors :: n.0 in routers
    {
      AddIncoming(newRouter, incoming);
      SameOutgoing(old(GraphOf(routers)), GraphOf(routers), outgoing);
      label wired:
      AddOutgoing(newRouter, outgoing);
      assert forall r | r in routers :: r.neighbors == old@wired(r.neighbors);
    }

    method Build(id: int, incoming: Request, outgoing: Request) returns (newRouter: Router)
      requires Wired(routers) && id !in Ids(routers) && Costed(incoming, 0) && Costed(outgoing, 0)
      modifies routers`neighbors
      ensures fresh(newRouter) && Wired(routers + {newRouter})
      ensures GraphOf(routers + {newRouter}) == Created(old(GraphOf(routers)), id, incoming, outgoing)
    {
      newRouter := new Router(id);
      Wire(newRouter, incoming, outgoing);
      GrownGraph(routers, newRouter, old(GraphOf(routers)), incoming, outgoing);
    }

    method Grow(id: int, incoming: Request, outgoing: Request) returns (newRouter: Router)
      requires Wired(routers) && id !in Ids(routers) && Costed(incoming, 0) && Costed(outgoing, 0)
      modifies this, routers`neighbors
      ensures fresh(newRouter) && routers == old(routers) + {newRouter} && Wired(routers)
      ensures GraphOf(routers) == Created(old(GraphOf(routers)), id, incoming, outgoing)
    {
      newRouter := Build(id, incoming, outgoing);
      ghost var more := routers + {newRouter};
      label grown:
      routers := routers + {newRouter};
      SameWiring@grown(more);
    }

    method Extend(id: int, incoming: Request, outgoing: Request)
      requires Wired(routers) && id !in Ids(routers) && Costed(incoming, 0) && Costed(outgoing, 0)
      modifies this, routers
      ensures Valid() && Wired(routers) && Exact(routers) && fresh(routers - old(routers))
      ensures GraphOf(routers) == Apply(old(GraphOf(routers)), Create(id, incoming, outgoing))
      ensures IsCreation(old(GraphOf(routers)), id, incoming, outgoing, GraphOf(routers))
    {
      var newRouter := Grow(id, incoming, outgoing);
      UpdateAll();
      Creates(old(GraphOf(routers)), id, incoming, outgoing, GraphOf(routers));
    }

    method UnlinkAll(gone: Router)
      requires UniqueIds(routers) && LinksWithin(routers) && gone in routers
      modifies (routers - {gone})`neighbors
      ensures forall r | r in routers && r != gone ::
                LinksOf(r.neighbors) == DropLinks(old(LinksOf(r.neighbors)), gone.id)
      ensures forall r, n | r in routers && r != gone && n in r.neighbors :: n.0 in routers && n.0 != gone
    {
      var todo := routers;
      while todo != {}
        invariant todo <= routers
        invariant forall r | r in routers && r !in todo && r != gone ::
                    r.neighbors == WithoutRouter(old(r.neighbors), gone)
        invariant forall r | r in todo :: r.neighbors == old(r.neighbors)
        decreases |todo|
      {
        assert Member(todo) in todo;
        var router :| router in todo;
        if router != gone {
          router.Unlink(gone);
        }
        todo := todo - {router};
      }
      forall r | r in routers && r != gone
        ensures LinksOf(r.neighbors) == DropLinks(old(LinksOf(r.neighbors)), gone.id)
        ensures forall n | n in r.neighbors :: n.0 in routers && n.0 != gone
      {
        WithoutRouterIs(routers, old(r.neighbors), gone);
        WithoutRouterMembers(old(r.neighbors), gone);
      }
    }

    method DeleteRouter(del: int) returns (ok: bool)
      requires Wired(routers)
      modifies this, routers
      ensures Wired(routers) && routers <= old(routers)
      ensures ok <==> del in old(GraphOf(routers))
      ensures ok ==> IsDeletion(old(GraphOf(routers)), del, GraphOf(routers))
      ensures !ok ==> GraphOf(routers) == old(GraphOf(routers))
      ensures GraphOf(routers) == Apply(old(GraphOf(routers)), Delete(del))
      ensures ok ==> Valid() && Exact(routers)
      ensures !ok ==> unchanged(this) && unchanged(old(routers))
      ensures old(Valid()) ==> Valid()
    {
      var routerToDelete := Router.GetRouterByID(del, routers);
      ok := routerToDelete != null;
      if ok {
        Shrink(routerToDelete);
        UpdateAll();
        Deletes(old(GraphOf(routers)), del, GraphOf(routers));
      }
    }

    method Shrink(gone: Router)
      requires Wired(routers) && gone in routers
      modifies this, routers`neighbors
      ensures routers == old(routers) - {gone} && Wired(routers)
      ensures GraphOf(routers) == Deleted(old(GraphOf(routers)), gone.id)
    {
      ghost var g := GraphOf(routers);
      DeletedWellFormed(g, gone.id);
      UnlinkAll(gone);
      routers := routers - {gone};
      ShrunkGraph(old(routers), gone, g);
    }

    // The index main builds before it looks for a path.
    method NumToPtrs() returns (m: map<int, Router>)
      requires UniqueIds(routers)
      ensures Indexes(routers, m)
    {
      m := map[];
      var todo := routers;
      while todo != {}
        invariant todo <= routers
        invariant forall i | i in m :: m[i] in routers && m[i].id == i
        invariant forall r | r in routers && r !in todo :: r.id in m && m[r.id] == r
        decreases |todo|
      {
        assert Member(todo) in todo;
        var router :| router in todo;
        forall r | r in routers && r !in todo ensures r.id != router.id {
          assert !Clash(r, router);
        }
        m := m[router.id := router];
        todo := todo - {router};
      }
    }

    // Follows the tables until finish is reached or a lookup yields no router.
    method Trace(start: int, finish: int, m: map<int, Router>, ghost way: seq<int>)
      returns (v: seq<Router>, temp: int)
      requires Track(m, start, finish, way)
      ensures |v| == |way| && forall i | 0 <= i < |v| :: way[i] in m && v[i] == m[way[i]]
      ensures temp == if way == [] then start else finish
    {
      v, temp := [], start;
      assert way != [] ==> LeadsOn(m, finish, way, 0);
      while temp != finish && finish in m[temp].routingTable && m[temp].routingTable[finish] != null
        invariant |v| <= |way| && forall i | 0 <= i < |v| :: way[i] in m && v[i] == m[way[i]]
        invariant temp == if |v| < |way| then way[|v|] else if way == [] then start else finish
        invariant temp != finish ==> temp in m
        invariant |v| < |way| ==> LeadsOn(m, finish, way, |v|)
        decreases |way| - |v|
      {
        assert |v| + 1 < |way| ==> LeadsOn(m, finish, way, |v| + 1);
        v, temp := v + [m[temp]], m[temp].routingTable[finish].id;
      }
    }

    // The null entry a lookup leaves for an unknown router.
    method Insert(router: Router, finish: int, ghost tables: map<int, Table>)
      requires UniqueIds(routers) && Shows(routers, tables) && router in routers
      requires finish in router.routingTable || finish !in Ids(routers)
      modifies router`routingTable
      ensures Shows(routers, tables)
      ensures router.routingTable == if finish in Ids(routers) then old(router.routingTable)
                                     else old(router.routingTable)[finish := null]
    {
      if finish !in router.routingTable {
        SameView(routers, router.routingTable, finish);
        router.routingTable := router.routingTable[finish := null];
      } else if finish !in Ids(routers) {
        assert router.routingTable[finish := null] == router.routingTable;
      }
    }

    // As the other routers see it, nothing has changed.
    method Record(router: Router, finish: int, ghost g: Graph, ghost tables: map<int, Table>)
      requires Wired(routers) && GraphOf(routers) == g && TablesOk(g, tables) && Shows(routers, tables)
      requires router in routers && (finish in router.routingTable || finish !in Ids(routers))
      modifies router`routingTable
      ensures Valid() && GraphOf(routers) == g && TablesOf(routers) == tables
      ensures router.routingTable == if finish in Ids(routers) then old(router.routingTable)
                                     else old(router.routingTable)[finish := null]
    {
      Insert(router, finish, tables);
      SameWiring(routers);
      ShownRight(routers, g, tables);
    }

    // The first lookup of finish.
    method LookUp(router: Router, finish: int)
      requires Valid() && router in routers
      modifies router`routingTable
      ensures Valid() && GraphOf(routers) == old(GraphOf(routers)) && TablesOf(routers) == old(TablesOf(routers))
      ensures router.routingTable == if finish in Ids(routers) then old(router.routingTable)
                                     else old(router.routingTable)[finish := null]
    {
      BeforeLookUp(routers, router);
      Record(router, finish, GraphOf(routers), TablesOf(routers));
    }

    // The loop over the lookups.
    method Follow(start: int, finish: int, m: map<int, Router>) returns (path: seq<Router>)
      requires Valid() && Positive(GraphOf(routers)) && Indexes(routers, m) && start in m && start != finish
      ensures forall r | r in path :: r in routers
      ensures Delivers(GraphOf(routers), TablesOf(routers), start, finish, PathIds(path))
    {
      ghost var way := Plan(routers, m, start, finish);
      var temp;
      path, temp := Trace(start, finish, m, way);
      assert PathIds(path) == way;
    }

    // The path to another router.
    method Consult(start: int, finish: int, m: map<int, Router>) returns (path: seq<Router>)
      requires Valid() && Positive(GraphOf(routers)) && Indexes(routers, m) && start in m && start != finish
      modifies {m[start]}`routingTable
      ensures Valid() && GraphOf(routers) == old(GraphOf(routers)) && TablesOf(routers) == old(TablesOf(routers))
      ensures m[start].routingTable == if finish in m then old(m[start].routingTable)
                                       else old(m[start].routingTable)[finish := null]
      ensures forall r | r in path :: r in routers
      ensures Delivers(GraphOf(routers), TablesOf(routers), start, finish, PathIds(path))
      ensures path == [] <==> AllCost(GraphOf(routers), start, finish, 100000)
    {
      IndexKeys(routers, m);
      LookUp(m[start], finish);
      path := Follow(start, finish, m);
      NoPath(GraphOf(routers), start, finish);
    }

    // The lookups of the program insert a null entry for an unknown finish into the table
    // of the first router; nothing else ever changes, and nothing that matters to later
    // lookups.
    method FindPath(start: int, finish: int, m: map<int, Router>) returns (path: seq<Router?>)
      requires Valid() && Positive(GraphOf(routers)) && Indexes(routers, m)
      requires start in m || start == finish
      modifies (if start in m then {m[start]} else {})`routingTable
      ensures Valid() && GraphOf(routers) == old(GraphOf(routers)) && TablesOf(routers) == old(TablesOf(routers))
      ensures start in m ==> m[start].routingTable == if start == finish || finish in m then old(m[start].routingTable)
                                                      else old(m[start].routingTable)[finish := null]
      ensures start == finish ==> path == [if start in m then m[start] else null]
      ensures start != finish ==>
                (forall i | 0 <= i < |path| :: path[i] != null && path[i] in routers) &&
                Delivers(GraphOf(routers), TablesOf(routers), start, finish, PathIds(path))
      ensures start != finish ==> (path == [] <==> AllCost(GraphOf(routers), start, finish, 100000))
    {
      if start == finish {
        path := [if start in m then m[start] else null];
      } else {
        path := Consult(start, finish, m);
      }
    }
  }

  lemma {:induction false} SameOutgoing(g: Graph, g': Graph, outgoing: Request)
    requires g'.Keys == g.Keys
    ensures Outgoing(g', outgoing) == Outgoing(g, outgoing)
    decreases |outgoing|
  {
    if outgoing != [] {
      SameOutgoing(g, g', outgoing[..|outgoing| - 1]);
    }
  }

  lemma GrownGraph(routers: set<Router>, newRouter: Router, g: Graph, incoming: Request, outgoing: Request)
    requires UniqueIds(routers) && newRouter !in routers && newRouter.id !in Ids(routers)
    requires WellFormed(g) && Costed(incoming, 0) && Costed(outgoing, 0)
    requires GraphOf(routers) == WithIncoming(g, newRouter.id, incoming)
    requires LinksOf(newRouter.neighbors) == Outgoing(g, outgoing)
    requires forall r, n | r in routers && n in r.neighbors :: n.0 in routers || n.0 == newRouter
    requires forall n | n in newRouter.neighbors :: n.0 in routers
    ensures Wired(routers + {newRouter})
    ensures GraphOf(routers + {newRouter}) == Created(g, newRouter.id, incoming, outgoing)
  {
    var more := routers + {newRouter};
    CreatedWellFormed(g, newRouter.id, incoming, outgoing);
    forall r, q | r in more && q in more ensures !Clash(r, q) {
      assert r in routers && q in routers ==> !Clash(r, q);
    }
    assert newRouter in more;
    assert forall r | r in routers :: r in more;
    assert GraphOf(more) == Created(g, newRouter.id, incoming, outgoing);
  }

  lemma ShrunkGraph(routers: set<Router>, gone: Router, g: Graph)
    requires UniqueIds(routers) && gone in routers && g.Keys == Ids(routers)
    requires forall r | r in routers && r != gone :: LinksOf(r.neighbors) == DropLinks(g[r.id], gone.id)
    requires forall r, n | r in routers && r != gone && n in r.neighbors :: n.0 in routers && n.0 != gone
    requires WellFormed(Deleted(g, gone.id))
    ensures Wired(routers - {gone}) && GraphOf(routers - {gone}) == Deleted(g, gone.id)
  {
    var fewer := routers - {gone};
    forall r, q | r in fewer && q in fewer ensures !Clash(r, q) {
      assert !Clash(r, q);
    }
    forall r | r in fewer ensures r.id != gone.id {
      assert !Clash(r, gone);
    }
    var g' := GraphOf(fewer);
    forall u ensures u in g' <==> u in Deleted(g, gone.id) {
      if u in g && u != gone.id {
        var r :| r in routers && r.id == u;
        assert r in fewer;
      }
    }
    assert g' == Deleted(g, gone.id);
  }

  twostate lemma SameWiring(routers: set<Router>)
    requires old(Wired(routers)) && forall r | r in routers :: r.neighbors == old(r.neighbors)
    ensures Wired(routers) && GraphOf(routers) == old(GraphOf(routers))
  {
  }
}
