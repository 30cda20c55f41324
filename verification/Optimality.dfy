// Which networks forward along shortest routes however their routers break ties. Ties
// decide only between routers at the same distance, and that is as far as the choice of
// tables goes.
module Optimality {
  import opened Graphs
  import opened Dijkstra
  import opened Forwarding
  import opened Ties

  // ---------- Every tree has a table ----------

  lemma {:induction false} StopExists(g: Graph, s: int, tree: map<int, int>, d: int, climb: seq<int>, j: nat)
    requires s in g && Climbs(g, s, tree, d, climb, j)
    ensures exists longer :: StopsAt(g[s], tree, d, longer)
    decreases j
  {
    if HasLink(g[s], climb[|climb| - 1]) {
      assert StopsAt(g[s], tree, d, climb);
    } else {
      var longer, i := ClimbOn(g, s, tree, d, climb, j);
      StopExists(g, s, tree, d, longer, i);
    }
  }

  ghost function EntryOf(g: Graph, s: int, tree: map<int, int>, d: int): (hop: Hop)
    requires s in g && IsTree(g, s, tree)
    ensures IsEntry(g, s, tree, d, hop)
  {
    if d == s then Via(s)
    else if d !in tree then Unreachable
    else if tree[d] == s then Via(d)
    else
      assert exists climb :: StopsAt(g[s], tree, d, climb) by {
        var climb, j := ClimbStart(g, s, tree, d);
        StopExists(g, s, tree, d, climb, j);
      }
      var climb :| StopsAt(g[s], tree, d, climb);
      Via(climb[|climb| - 1])
  }

  ghost function TableFor(g: Graph, s: int, tree: map<int, int>): (table: Table)
    requires Sound(g) && s in g && Recorded(g, s, tree)
    ensures IsTableOf(g, s, tree, table) && TableOk(g, s, table)
  {
    RecordedIsTree(g, s, tree);
    map d | d in g :: EntryOf(g, s, tree, d)
  }

  ghost function SomeTree(g: Graph, s: int): (tree: map<int, int>)
    requires Sound(g) && Positive(g) && s in g
    ensures Recorded(g, s, tree)
  {
    SelfDistance(g, s);
    assert exists tree :: Recorded(g, s, tree) by {
      var st := CompleteRun(g, s, s);
      assert Recorded(g, s, st.pred);
    }
    var tree :| Recorded(g, s, tree);
    tree
  }

  ghost function SomeTable(g: Graph, s: int): (table: Table)
    requires Sound(g) && Positive(g) && s in g
    ensures TableOk(g, s, table)
  {
    TableFor(g, s, SomeTree(g, s))
  }

  // Tables for all routers, one of them given.
  lemma TablesWith(g: Graph, u: int, table: Table) returns (tables: map<int, Table>)
    requires Sound(g) && Positive(g) && u in g && TableOk(g, u, table)
    ensures TablesOk(g, tables) && tables[u] == table
  {
    tables := map s | s in g :: if s == u then table else SomeTable(g, s);
  }

  // If a neighbour h of u is among the nearest routers a shortest route to v may come
  // from, some breaking of ties sends what u has for v straight to h.
  lemma TablesThrough(g: Graph, u: int, h: int, v: int) returns (tables: map<int, Table>)
    requires Sound(g) && Positive(g) && u in g && h != u && HasLink(g[u], h)
    requires v in g && v != u && CanBeParent(g, u, v, h) && Nearest(g, u, v, h)
    ensures TablesOk(g, tables) && v in tables[u] && tables[u][v] == Via(h)
  {
    RecordedIff(g, u, v, h);
    var tree :| Recorded(g, u, tree) && v in tree && tree[v] == h;
    var table := TableFor(g, u, tree);
    assert IsEntry(g, u, tree, v, table[v]);
    StraightTo(g, u, tree, v, h, table[v]);
    tables := TablesWith(g, u, table);
  }

  // ---------- The condition on the network ----------

  // A shortest route from u passes through its neighbour h and goes on by l, and no
  // router it could come from instead is nearer to u.
  ghost predicate PassesBy(g: Graph, u: int, h: int, l: Link) {
    u in g && h in g && h != u && HasLink(g[u], h) && l in g[h] &&
    Distance(g, u, h) + l.cost == Distance(g, u, l.to) < INFINITY &&
    Nearest(g, u, l.to, h)
  }

  // Whenever it does, the link to that neighbour is a shortest route itself.
  ghost predicate NeighborsTight(g: Graph) {
    forall u, h, l {:trigger PassesBy(g, u, h, l)} | PassesBy(g, u, h, l) :: Lightest(g[u], h) == Distance(g, u, h)
  }

  ghost predicate AllTablesShortest(g: Graph) {
    forall tables {:trigger AlwaysShortest(g, tables)} | TablesOk(g, tables) :: AlwaysShortest(g, tables)
  }

  // The router an entry names is the destination or one a shortest route passes by.
  lemma HopPasses(g: Graph, u: int, table: Table, d: int)
    requires Sound(g) && Positive(g) && NeighborsTight(g)
    requires u in g && d in g && u != d && Distance(g, u, d) < INFINITY && TableOk(g, u, table)
    ensures table[d].Via? && HasLink(g[u], table[d].router)
    ensures Lightest(g[u], table[d].router) == Distance(g, u, table[d].router)
  {
    HopOk(g, u, table, d);
    var h := table[d].router;
    var tree, order := TreeOf(g, u, table);
    assert IsEntry(g, u, tree, d, table[d]);
    LinkDistance(g, u, Link(h, Lightest(g[u], h)));
    if tree[d] == u {
      SelfDistance(g, u);
      assert BranchOk(g, u, tree, d);
    } else {
      var climb :| StopsAt(g[u], tree, d, climb) && climb[|climb| - 1] == h;
      StopPasses(g, u, tree, order, climb);
    }
  }

  lemma StopPasses(g: Graph, u: int, tree: map<int, int>, order: seq<int>, climb: seq<int>)
    requires Sound(g) && Positive(g) && NeighborsTight(g) && u in g && Recorded(g, u, tree)
    requires IsTreeBy(g, u, tree, order) && |climb| >= 2 && climb[0] in tree && tree[climb[0]] != u
    requires StopsAt(g[u], tree, climb[0], climb)
    ensures Lightest(g[u], climb[|climb| - 1]) == Distance(g, u, climb[|climb| - 1])
  {
    var v, h := climb[|climb| - 2], climb[|climb| - 1];
    ClimbFront(tree, climb);
    StopNotRoot(g, u, tree, order, climb);
    RecordedNearest(g, u, tree, v);
    assert PassesBy(g, u, h, Link(v, Distance(g, u, v) - Distance(g, u, h)));
  }

  // Forwarding follows shortest routes however ties are broken if and only if no shortest
  // route passes by a neighbour whose own link a detour betters.
  lemma AllTablesShortestIff(g: Graph)
    requires Sound(g) && Positive(g)
    ensures AllTablesShortest(g) <==> NeighborsTight(g)
  {
    if NeighborsTight(g) {
      forall tables | TablesOk(g, tables) ensures AlwaysShortest(g, tables) {
        TightForwards(g, tables);
      }
    }
    if AllTablesShortest(g) {
      forall u, h, l | PassesBy(g, u, h, l) ensures Lightest(g[u], h) == Distance(g, u, h) {
        ForwardsTight(g, u, h, l);
      }
    }
  }

  lemma TightForwards(g: Graph, tables: map<int, Table>)
    requires Sound(g) && Positive(g) && NeighborsTight(g) && TablesOk(g, tables)
    ensures AlwaysShortest(g, tables)
  {
    forall u, d | u in g && d in g && u != d && Distance(g, u, d) < INFINITY
      ensures TightHop(g, tables, u, d)
    {
      TableAt(g, tables, u);
      HopPasses(g, u, tables[u], d);
    }
    ShortestIff(g, tables);
  }

  lemma ForwardsTight(g: Graph, u: int, h: int, l: Link)
    requires Sound(g) && Positive(g) && AllTablesShortest(g) && PassesBy(g, u, h, l)
    ensures Lightest(g[u], h) == Distance(g, u, h)
  {
    var v := l.to;
    SelfDistance(g, u);
    assert l.cost > 0 && v in g && v != u;
    assert l == Link(v, Distance(g, u, v) - Distance(g, u, h));
    var tables := TablesThrough(g, u, h, v);
    assert AlwaysShortest(g, tables);
    ShortestIff(g, tables);
    assert TightHop(g, tables, u, v);
  }

  // ---------- Two shortest routes, one of them never taken ----------

  // From 1 the routes to 5 through 3 and 2 and through 4 are equally short. Were 2
  // recorded as the predecessor of 5, the message would take the dear link to 2; but 4 is
  // nearer to 1, so it is popped first and stays.
  const PAIR: Graph := map[1 := [Link(2, 10), Link(3, 1), Link(4, 1)], 2 := [Link(5, 1)],
                           3 := [Link(2, 1)], 4 := [Link(5, 2)], 5 := []]

  lemma PairSound()
    ensures Sound(PAIR) && Positive(PAIR) && PAIR.Keys == {1, 2, 3, 4, 5}
  {
  }

  const PAIR_DISTANCES: map<int, int> := map[1 := 0, 2 := 2, 3 := 1, 4 := 1, 5 := 3]

  lemma {:induction false} PairReach(t: int)
    requires t in PAIR_DISTANCES
    ensures Reaches(PAIR, 1, t, PAIR_DISTANCES[t])
    decreases PAIR_DISTANCES[t]
  {
    if t == 1 {
      SelfReaches(PAIR, 1);
    } else {
      var u := if t == 2 then 3 else if t == 5 then 2 else 1;
      PairReach(u);
      ExtendReach(PAIR, 1, u, PAIR_DISTANCES[u], Link(t, 1));
    }
  }

  lemma PairPotential()
    ensures IsPotential(PAIR, 1, PAIR_DISTANCES)
  {
  }

  lemma PairDistance(t: int)
    requires t in PAIR_DISTANCES
    ensures Distance(PAIR, 1, t) == PAIR_DISTANCES[t]
  {
    PairSound();
    PairPotential();
    PairReach(t);
    PotentialDistance(PAIR, 1, PAIR_DISTANCES, t);
  }

  lemma PairDistances()
    ensures Distance(PAIR, 1, 2) == 2 && Distance(PAIR, 1, 3) == 1
    ensures Distance(PAIR, 1, 4) == 1 && Distance(PAIR, 1, 5) == 3
  {
    PairDistance(2);
    PairDistance(3);
    PairDistance(4);
    PairDistance(5);
  }

  lemma PairLinks(u: int, l: Link)
    requires u in PAIR && l in PAIR[u]
    ensures l == Link(2, 10) || l.cost == 1 || (u == 4 && l.to == 5)
    ensures l.to == 5 ==> u == 2 || u == 4
    ensures u != 5
  {
  }

  lemma PairParents()
    ensures CanBeParent(PAIR, 1, 5, 2) && CanBeParent(PAIR, 1, 5, 4)
    ensures forall u | CanBeParent(PAIR, 1, 5, u) :: u == 2 || u == 4
  {
    PairDistances();
    assert Link(5, 1) in PAIR[2] && Link(5, 2) in PAIR[4];
    forall u | CanBeParent(PAIR, 1, 5, u) ensures u == 2 || u == 4 {
      PairParent(u);
    }
  }

  lemma PairParent(u: int)
    requires CanBeParent(PAIR, 1, 5, u)
    ensures u == 2 || u == 4
  {
    PairLinks(u, Link(5, Distance(PAIR, 1, 5) - Distance(PAIR, 1, u)));
  }

  lemma PairDear()
    ensures HasLink(PAIR[1], 2) && Lightest(PAIR[1], 2) == 10
  {
    assert Link(2, 10) in PAIR[1];
  }

  // A single link of cost one is always a shortest route.
  lemma UnitLink(g: Graph, u: int, h: int)
    requires Sound(g) && Positive(g) && u in g && u != h && Link(h, 1) in g[u]
    ensures HasLink(g[u], h) && Lightest(g[u], h) == Distance(g, u, h)
  {
    LinkDistance(g, u, Link(h, 1));
    ApartDistance(g, u, h);
  }

  // No message is handed to 2 on a shortest route from 1.
  lemma PairNotBy(l: Link)
    ensures !PassesBy(PAIR, 1, 2, l)
  {
    if l in PAIR[2] {
      PairDistances();
      PairParents();
      assert l == Link(5, 1);
    }
  }

  lemma PairUnit(u: int, h: int, l: Link)
    requires PassesBy(PAIR, u, h, l)
    ensures Link(h, 1) in PAIR[u]
  {
    PairNotBy(l);
    var k :| k in PAIR[u] && k.to == h;
    PairLinks(u, k);
    PairLinks(h, l);
    assert k == Link(h, k.cost);
    assert k == Link(2, 10) ==> u == 1;
  }

  lemma PairTight()
    ensures NeighborsTight(PAIR)
  {
    PairSound();
    forall u, h, l | PassesBy(PAIR, u, h, l) ensures Lightest(PAIR[u], h) == Distance(PAIR, u, h) {
      PairUnit(u, h, l);
      UnitLink(PAIR, u, h);
    }
  }

  lemma PairRecorded(tree: map<int, int>)
    requires Recorded(PAIR, 1, tree)
    ensures 5 in tree && tree[5] == 4
  {
    PairSound();
    PairDistances();
    PairParents();
    RecordedIsTree(PAIR, 1, tree);
    RecordedNearest(PAIR, 1, tree, 5);
  }

  // So forwarding is shortest here, although the link from 1 to 2 is not, and a shortest
  // route to 5 passes by 2.
  lemma PairShortest()
    ensures AllTablesShortest(PAIR)
    ensures HasLink(PAIR[1], 2) && Lightest(PAIR[1], 2) > Distance(PAIR, 1, 2) && CanBeParent(PAIR, 1, 5, 2)
    ensures forall tree | Recorded(PAIR, 1, tree) :: 5 in tree && tree[5] == 4
  {
    PairSound();
    PairDistances();
    PairParents();
    PairDear();
    PairTight();
    AllTablesShortestIff(PAIR);
    forall tree | Recorded(PAIR, 1, tree) ensures 5 in tree && tree[5] == 4 {
      PairRecorded(tree);
    }
  }
}
