// Routing tables as the program derives them from a shortest-path tree, and the
// path a message takes when every router on it consults its own table.
module Forwarding {
  import opened Graphs
  import opened Dijkstra

  // The program stores a null pointer for a destination it cannot reach.
  datatype Hop = Unreachable | Via(router: int)

  type Table = map<int, Hop>

  ghost predicate HasLink(links: seq<Link>, v: int) {
    exists l :: l in links && l.to == v
  }

  // The climb from d towards the root stops at the first direct neighbour it
  // meets, which is the neighbour nearest to the destination.
  ghost predicate StopsAt(links: seq<Link>, tree: map<int, int>, d: int, climb: seq<int>) {
    IsClimb(tree, climb) && |climb| >= 2 && climb[0] == d &&
    HasLink(links, climb[|climb| - 1]) &&
    forall k | 1 <= k < |climb| - 1 :: !HasLink(links, climb[k])
  }

  ghost predicate IsEntry(g: Graph, s: int, tree: map<int, int>, d: int, hop: Hop)
    requires s in g
  {
    if d == s then hop == Via(s)
    else if d !in tree then hop == Unreachable
    else if tree[d] == s then hop == Via(d)
    else hop.Via? && exists climb :: StopsAt(g[s], tree, d, climb) && climb[|climb| - 1] == hop.router
  }

  ghost predicate IsTableOf(g: Graph, s: int, tree: map<int, int>, table: Table)
    requires s in g
  {
    table.Keys == g.Keys && forall d | d in g :: IsEntry(g, s, tree, d, table[d])
  }

  // A table the program can compute: it goes back to the predecessors of some run.
  ghost predicate TableOk(g: Graph, s: int, table: Table)
    requires s in g
  {
    exists tree :: Recorded(g, s, tree) && IsTableOf(g, s, tree, table)
  }

  ghost predicate TablesOk(g: Graph, tables: map<int, Table>) {
    tables.Keys == g.Keys && forall s {:trigger TableOk(g, s, tables[s])} | s in g :: TableOk(g, s, tables[s])
  }

  // ---------- One hop ----------

  lemma {:induction false} SameClimb(links: seq<Link>, tree: map<int, int>, d: int,
                                     a: seq<int>, b: seq<int>, k: nat)
    requires StopsAt(links, tree, d, a) && StopsAt(links, tree, d, b)
    requires k < |a| && k < |b|
    ensures a[k] == b[k]
    decreases k
  {
    if k > 0 {
      SameClimb(links, tree, d, a, b, k - 1);
      assert Up(tree, a, k - 1) && Up(tree, b, k - 1);
    }
  }

  // The tree leaves no choice: an entry is what the climb dictates.
  lemma EntryUnique(g: Graph, s: int, tree: map<int, int>, d: int, h: Hop, h': Hop)
    requires s in g && IsEntry(g, s, tree, d, h) && IsEntry(g, s, tree, d, h')
    ensures h == h'
  {
    if d != s && d in tree && tree[d] != s {
      var a :| StopsAt(g[s], tree, d, a) && a[|a| - 1] == h.router;
      var b :| StopsAt(g[s], tree, d, b) && b[|b| - 1] == h'.router;
      var k := if |a| <= |b| then |a| - 1 else |b| - 1;
      SameClimb(g[s], tree, d, a, b, k);
    }
  }

  lemma ParentTight(g: Graph, s: int, v: int, u: int)
    requires Sound(g) && CanBeParent(g, s, v, u)
    ensures Distance(g, u, v) == Distance(g, s, v) - Distance(g, s, u)
  {
    LinkDistance(g, u, Link(v, Distance(g, s, v) - Distance(g, s, u)));
    Triangle(g, s, u, v);
  }

  // Climbing the tree retraces a shortest route.
  lemma {:induction false} ClimbTight(g: Graph, s: int, tree: map<int, int>, order: seq<int>, climb: seq<int>)
    requires Sound(g) && IsTreeBy(g, s, tree, order)
    requires IsClimb(tree, climb) && climb[0] in tree
    ensures var c, d := climb[|climb| - 1], climb[0];
            c in g && Distance(g, s, c) < INFINITY &&
            Distance(g, c, d) == Distance(g, s, d) - Distance(g, s, c)
    decreases |climb|
  {
    var c, d := climb[|climb| - 1], climb[0];
    if |climb| == 1 {
      SelfDistance(g, d);
    } else {
      var front := climb[..|climb| - 1];
      var b := climb[|climb| - 2];
      ClimbFront(tree, climb);
      ClimbTight(g, s, tree, order, front);
      assert BranchOk(g, s, tree, b);
      ParentTight(g, s, b, c);
      Triangle(g, c, b, d);
      Triangle(g, s, c, d);
    }
  }

  // A climb that stops at a neighbour never reaches the root itself.
  lemma StopNotRoot(g: Graph, s: int, tree: map<int, int>, order: seq<int>, climb: seq<int>)
    requires Sound(g) && IsTreeBy(g, s, tree, order)
    requires |climb| >= 2 && climb[0] in tree && tree[climb[0]] != s
    requires StopsAt(g[s], tree, climb[0], climb)
    ensures climb[|climb| - 1] != s
  {
    ClimbFront(tree, climb);
    var v := climb[|climb| - 2];
    if tree[v] == s {
      RootLink(g, s, tree, order, v);
    }
  }

  lemma RootLink(g: Graph, s: int, tree: map<int, int>, order: seq<int>, v: int)
    requires IsTreeBy(g, s, tree, order) && v in tree && tree[v] == s
    ensures HasLink(g[s], v)
  {
    assert BranchOk(g, s, tree, v);
  }

  // ---------- Climbing step by step ----------

  lemma ParentRanked(g: Graph, s: int, tree: map<int, int>, order: seq<int>, v: int, j: nat) returns (i: nat)
    requires IsTreeBy(g, s, tree, order) && v in tree && j < |order| && order[j] == v
    ensures i < j && order[i] == tree[v]
  {
    assert RankedAt(s, order, tree, j);
    i :| 0 <= i < j && order[i] == tree[v];
  }

  // A climb on its way to the first neighbour, and how far below the root it is
  // in some order the tree respects.
  ghost predicate Climbs(g: Graph, s: int, tree: map<int, int>, d: int, climb: seq<int>, j: nat)
    requires s in g
  {
    IsClimb(tree, climb) && |climb| >= 2 && climb[0] == d && climb[|climb| - 1] != s &&
    (forall k | 1 <= k < |climb| - 1 :: !HasLink(g[s], climb[k])) &&
    exists order :: IsTreeBy(g, s, tree, order) && j < |order| && order[j] == climb[|climb| - 1]
  }

  lemma ClimbStart(g: Graph, s: int, tree: map<int, int>, d: int) returns (climb: seq<int>, j: nat)
    requires s in g && IsTree(g, s, tree) && d in tree && tree[d] != s
    ensures Climbs(g, s, tree, d, climb, j) && climb == [d, tree[d]]
  {
    var order :| IsTreeBy(g, s, tree, order);
    var i: nat :| i < |order| && order[i] == d;
    j := ParentRanked(g, s, tree, order, d, i);
    climb := [d, tree[d]];
    assert Up(tree, climb, 0);
  }

  // Short of a neighbour, the climb has not reached the root and can go on.
  lemma ClimbOn(g: Graph, s: int, tree: map<int, int>, d: int, climb: seq<int>, j: nat)
    returns (longer: seq<int>, i: nat)
    requires s in g && Climbs(g, s, tree, d, climb, j) && !HasLink(g[s], climb[|climb| - 1])
    ensures climb[|climb| - 1] in tree && longer == climb + [tree[climb[|climb| - 1]]]
    ensures Climbs(g, s, tree, d, longer, i) && i < j
  {
    var order :| IsTreeBy(g, s, tree, order) && j < |order| && order[j] == climb[|climb| - 1];
    var v, u := climb[|climb| - 1], climb[|climb| - 2];
    ClimbFront(tree, climb);
    assert BranchOk(g, s, tree, u);
    assert BranchOk(g, s, tree, v);
    ClimbLonger(tree, climb);
    i := ParentRanked(g, s, tree, order, v, j);
    longer := climb + [tree[v]];
  }

  // A climb never cycles, so no router is its own parent.
  lemma TreeShape(g: Graph, s: int, tree: map<int, int>, d: int)
    requires IsTree(g, s, tree)
    ensures s !in tree && (d in tree ==> tree[d] != d)
  {
    var order :| IsTreeBy(g, s, tree, order);
    if d in tree {
      var j: nat :| j < |order| && order[j] == d;
      var i := FirstIndex(order, d, j);
      var k := ParentRanked(g, s, tree, order, d, i);
    }
  }

  lemma {:induction false} FirstIndex(order: seq<int>, d: int, j: nat) returns (i: nat)
    requires j < |order| && order[j] == d
    ensures i <= j && order[i] == d && d !in order[..i]
    decreases j
  {
    if d in order[..j] {
      var k :| 0 <= k < j && order[k] == d;
      i := FirstIndex(order, d, k);
    } else {
      i := j;
    }
  }

  // ---------- What an entry is worth ----------

  lemma TreeOf(g: Graph, s: int, table: Table) returns (tree: map<int, int>, order: seq<int>)
    requires Sound(g) && s in g && TableOk(g, s, table)
    ensures Recorded(g, s, tree) && IsTreeBy(g, s, tree, order) && IsTableOf(g, s, tree, table)
  {
    tree :| Recorded(g, s, tree) && IsTableOf(g, s, tree, table);
    RecordedIsTree(g, s, tree);
    order :| IsTreeBy(g, s, tree, order);
  }

  // A parent that is a neighbour is where the climb stops.
  lemma StraightTo(g: Graph, u: int, tree: map<int, int>, v: int, h: int, hop: Hop)
    requires u in g && v != u && v in tree && tree[v] == h != u && HasLink(g[u], h)
    requires IsEntry(g, u, tree, v, hop)
    ensures hop == Via(h)
  {
    var climb :| StopsAt(g[u], tree, v, climb) && climb[|climb| - 1] == hop.router;
    assert Up(tree, climb, 0);
    assert climb[1] == h;
  }

  // An entry is missing exactly when there is no route; otherwise it names a direct
  // neighbour on a shortest route to the destination.
  lemma HopOk(g: Graph, s: int, table: Table, d: int)
    requires Sound(g) && s in g && d in g && TableOk(g, s, table)
    ensures table[d] == Unreachable <==> s != d && Distance(g, s, d) == INFINITY
    ensures s == d ==> table[d] == Via(s)
    ensures s != d && table[d].Via? ==>
              var h := table[d].router;
              h in g && h != s && HasLink(g[s], h) &&
              Distance(g, s, h) + Distance(g, h, d) == Distance(g, s, d) < INFINITY
    ensures s != d && table[d].Via? && Positive(g) ==>
              Distance(g, table[d].router, d) < Distance(g, s, d)
  {
    SelfDistance(g, s);
    var tree, order := TreeOf(g, s, table);
    assert IsEntry(g, s, tree, d, table[d]);
    if s != d && table[d].Via? {
      assert BranchOk(g, s, tree, d);
      var h := table[d].router;
      if tree[d] == s {
        SelfDistance(g, d);
      } else {
        var climb :| StopsAt(g[s], tree, d, climb) && climb[|climb| - 1] == h;
        ClimbTight(g, s, tree, order, climb);
        StopNotRoot(g, s, tree, order, climb);
      }
      if Positive(g) {
        ApartDistance(g, s, h);
      }
    }
  }

  // In terms of routes: an entry is missing exactly when all routes cost 100000 or more.
  lemma EntryMissing(g: Graph, s: int, table: Table, d: int)
    requires Sound(g) && s in g && d in g && TableOk(g, s, table)
    ensures table[d] == Unreachable <==>
              s != d && AllCost(g, s, d, 100000)
  {
    HopOk(g, s, table, d);
    CutOffIff(g, s, d);
  }

  // ---------- Hop by hop ----------

  // The routers a message for f passes through, s first and f left out, when
  // each of them looks f up in its own table.
  ghost predicate IsWay(tables: map<int, Table>, s: int, f: int, way: seq<int>)
    decreases |way|
  {
    way != [] && way[0] == s && s != f && s in tables && f in tables[s] &&
    var rest := way[1..];
    if rest == [] then tables[s][f] == Via(f)
    else tables[s][f] == Via(rest[0]) && IsWay(tables, rest[0], f, rest)
  }

  function Next(way: seq<int>, f: int, i: nat): int {
    if i + 1 < |way| then way[i + 1] else f
  }

  // The first hop of a way, and the way of the router it leads to.
  lemma WayHead(tables: map<int, Table>, s: int, f: int, way: seq<int>)
    requires IsWay(tables, s, f, way)
    ensures way != [] && way[0] == s && s != f && s in tables && f in tables[s]
    ensures tables[s][f] == Via(Next(way, f, 0))
    ensures |way| > 1 ==> IsWay(tables, way[1], f, way[1..])
  {
  }

  // Any later part of a way is one itself.
  lemma {:induction false} WayFrom(tables: map<int, Table>, s: int, f: int, way: seq<int>, i: nat)
    requires IsWay(tables, s, f, way) && i < |way|
    ensures IsWay(tables, way[i], f, way[i..])
    decreases i
  {
    WayHead(tables, s, f, way);
    if i == 0 {
      assert way[0..] == way;
    } else {
      WayFrom(tables, way[1], f, way[1..], i - 1);
      assert way[1..][i - 1..] == way[i..];
    }
  }

  lemma WayEntry(tables: map<int, Table>, s: int, f: int, way: seq<int>, i: nat)
    requires IsWay(tables, s, f, way) && i < |way|
    ensures way[i] != f && way[i] in tables && f in tables[way[i]]
    ensures tables[way[i]][f] == Via(Next(way, f, i))
  {
    WayFrom(tables, s, f, way, i);
    WayHead(tables, way[i], f, way[i..]);
    assert Next(way[i..], f, 0) == Next(way, f, i);
  }

  lemma TableAt(g: Graph, tables: map<int, Table>, u: int)
    requires TablesOk(g, tables) && u in tables
    ensures u in g && TableOk(g, u, tables[u])
  {
    assert TableOk(g, u, tables[u]);
  }

  // What HopOk says of the tables as a whole.
  lemma HopAt(g: Graph, tables: map<int, Table>, u: int, f: int)
    requires Sound(g) && Positive(g) && TablesOk(g, tables) && f in g
    requires u in tables && u != f && f in tables[u] && tables[u][f].Via?
    ensures var h := tables[u][f].router;
            u in g && h in g && HasLink(g[u], h) &&
            Distance(g, u, h) + Distance(g, h, f) == Distance(g, u, f) < INFINITY &&
            Distance(g, h, f) < Distance(g, u, f)
  {
    TableAt(g, tables, u);
    HopOk(g, u, tables[u], f);
  }

  // Every hop follows a direct link and brings the message strictly nearer.
  lemma WayHop(g: Graph, tables: map<int, Table>, s: int, f: int, way: seq<int>, i: nat)
    requires Sound(g) && Positive(g) && TablesOk(g, tables) && f in g
    requires IsWay(tables, s, f, way) && i < |way|
    ensures way[i] in g && way[i] != f
    ensures f in tables[way[i]] && tables[way[i]][f] == Via(Next(way, f, i))
    ensures HasLink(g[way[i]], Next(way, f, i))
    ensures Distance(g, Next(way, f, i), f) < Distance(g, way[i], f) < INFINITY
  {
    WayEntry(tables, s, f, way, i);
    HopAt(g, tables, way[i], f);
  }

  lemma {:induction false} Falling(ds: seq<int>, i: nat, j: nat)
    requires forall k | 0 <= k < |ds| - 1 :: ds[k + 1] < ds[k]
    requires i < j < |ds|
    ensures ds[j] < ds[i]
    decreases j
  {
    if i < j - 1 {
      Falling(ds, i, j - 1);
    }
    assert ds[j - 1 + 1] < ds[j - 1];
  }

  // The distances still to go along a way.
  ghost function ToGo(g: Graph, way: seq<int>, f: int): seq<int> {
    seq(|way|, i requires 0 <= i < |way| => Distance(g, way[i], f))
  }

  lemma WayFalls(g: Graph, tables: map<int, Table>, s: int, f: int, way: seq<int>)
    requires Sound(g) && Positive(g) && TablesOk(g, tables) && f in g
    requires IsWay(tables, s, f, way)
    ensures forall k | 0 <= k < |way| - 1 :: ToGo(g, way, f)[k + 1] < ToGo(g, way, f)[k]
  {
    forall k | 0 <= k < |way| - 1 ensures ToGo(g, way, f)[k + 1] < ToGo(g, way, f)[k] {
      WayHop(g, tables, s, f, way, k);
    }
  }

  lemma WayDescends(g: Graph, tables: map<int, Table>, s: int, f: int, way: seq<int>, i: nat, j: nat)
    requires Sound(g) && Positive(g) && TablesOk(g, tables) && f in g
    requires IsWay(tables, s, f, way) && i < j < |way|
    ensures Distance(g, way[j], f) < Distance(g, way[i], f)
  {
    WayFalls(g, tables, s, f, way);
    Falling(ToGo(g, way, f), i, j);
  }

  // Forwarding never loops: no router is passed twice, and f only at the end.
  lemma WaySimple(g: Graph, tables: map<int, Table>, s: int, f: int, way: seq<int>)
    requires Sound(g) && Positive(g) && TablesOk(g, tables) && f in g
    requires IsWay(tables, s, f, way)
    ensures forall i, j | 0 <= i < j < |way| :: way[i] != way[j]
    ensures f !in way
  {
    forall i, j | 0 <= i < j < |way| ensures way[i] != way[j] {
      WayDescends(g, tables, s, f, way, i, j);
    }
    forall i | 0 <= i < |way| ensures way[i] != f {
      WayHop(g, tables, s, f, way, i);
    }
  }

  // Forwarding always arrives when there is a route: the tables of different
  // routers, each computed on its own, agree well enough.
  lemma {:induction false} WayExists(g: Graph, tables: map<int, Table>, s: int, f: int) returns (way: seq<int>)
    requires Sound(g) && Positive(g) && TablesOk(g, tables) && s in g && f in g
    requires s != f && Distance(g, s, f) < INFINITY
    ensures IsWay(tables, s, f, way)
    decreases Distance(g, s, f)
  {
    TableAt(g, tables, s);
    HopOk(g, s, tables[s], f);
    var h := tables[s][f].router;
    if h == f {
      way := [s];
    } else {
      var rest := WayExists(g, tables, h, f);
      way := [s] + rest;
      assert way[1..] == rest;
    }
  }

  // ---------- How good the way is ----------

  ghost function Lightest(links: seq<Link>, v: int): (c: int)
    requires HasLink(links, v)
    ensures Link(v, c) in links
    ensures forall l | l in links && l.to == v :: c <= l.cost
    decreases |links|
  {
    var last, front := links[|links| - 1], links[..|links| - 1];
    assert forall l :: l in links <==> l in front || l == last;
    if last.to != v then Lightest(front, v)
    else if HasLink(front, v) && Lightest(front, v) < last.cost then Lightest(front, v)
    else last.cost
  }

  ghost predicate Linked(g: Graph, way: seq<int>, f: int) {
    forall i | 0 <= i < |way| :: way[i] in g && HasLink(g[way[i]], Next(way, f, i))
  }

  lemma WayLinked(g: Graph, tables: map<int, Table>, s: int, f: int, way: seq<int>)
    requires Sound(g) && Positive(g) && TablesOk(g, tables) && f in g
    requires IsWay(tables, s, f, way)
    ensures Linked(g, way, f)
  {
    forall i | 0 <= i < |way| ensures way[i] in g && HasLink(g[way[i]], Next(way, f, i)) {
      WayHop(g, tables, s, f, way, i);
    }
  }

  // The way taken over the cheapest parallel links.
  ghost function WayCost(g: Graph, way: seq<int>, f: int): int
    requires Linked(g, way, f)
    decreases |way|
  {
    if way == [] then 0
    else
      assert forall i | 0 <= i < |way| - 1 :: Next(way[1..], f, i) == Next(way, f, i + 1);
      assert HasLink(g[way[0]], Next(way, f, 0));
      Lightest(g[way[0]], Next(way, f, 0)) + WayCost(g, way[1..], f)
  }

  // The entry of u for d sends over a link that is itself a shortest route.
  ghost predicate TightHop(g: Graph, tables: map<int, Table>, u: int, d: int) {
    u in tables && u in g && d in tables[u] && tables[u][d].Via? &&
    HasLink(g[u], tables[u][d].router) &&
    Lightest(g[u], tables[u][d].router) == Distance(g, u, tables[u][d].router)
  }

  // A hop never costs less than the distance it covers.
  lemma HopCost(g: Graph, tables: map<int, Table>, u: int, f: int)
    requires Sound(g) && Positive(g) && TablesOk(g, tables) && f in g
    requires u in tables && u != f && f in tables[u] && tables[u][f].Via?
    ensures var h := tables[u][f].router;
            u in g && HasLink(g[u], h) && Lightest(g[u], h) + Distance(g, h, f) >= Distance(g, u, f) &&
            (TightHop(g, tables, u, f) <==> Lightest(g[u], h) + Distance(g, h, f) == Distance(g, u, f))
  {
    HopAt(g, tables, u, f);
    var h := tables[u][f].router;
    LinkDistance(g, u, Link(h, Lightest(g[u], h)));
  }

  lemma CostStep(g: Graph, way: seq<int>, f: int)
    requires way != [] && Linked(g, way, f)
    ensures way[0] in g && HasLink(g[way[0]], Next(way, f, 0)) && Linked(g, way[1..], f)
    ensures WayCost(g, way, f) == Lightest(g[way[0]], Next(way, f, 0)) + WayCost(g, way[1..], f)
  {
  }

  lemma {:induction false} WayCostIs(g: Graph, tables: map<int, Table>, s: int, f: int, way: seq<int>)
    requires Sound(g) && Positive(g) && TablesOk(g, tables) && f in g
    requires IsWay(tables, s, f, way)
    ensures Linked(g, way, f)
    ensures WayCost(g, way, f) >= Distance(g, s, f)
    ensures WayCost(g, way, f) == Distance(g, s, f) <==>
            forall i | 0 <= i < |way| :: TightHop(g, tables, way[i], f)
    decreases |way|
  {
    WayLinked(g, tables, s, f, way);
    WayHead(tables, s, f, way);
    HopCost(g, tables, s, f);
    CostStep(g, way, f);
    AllHops(g, tables, f, way);
    if |way| == 1 {
      SelfDistance(g, f);
      assert WayCost(g, way[1..], f) == 0;
    } else {
      WayCostIs(g, tables, way[1], f, way[1..]);
    }
  }

  lemma AllHops(g: Graph, tables: map<int, Table>, f: int, way: seq<int>)
    requires way != []
    ensures (forall i | 0 <= i < |way| :: TightHop(g, tables, way[i], f)) <==>
            TightHop(g, tables, way[0], f) &&
            forall i | 0 <= i < |way[1..]| :: TightHop(g, tables, way[1..][i], f)
  {
    var rest := way[1..];
    assert forall i | 0 <= i < |rest| :: rest[i] == way[i + 1];
    assert forall i | 1 <= i < |way| :: way[i] == rest[i - 1];
  }

  ghost predicate AlwaysShortest(g: Graph, tables: map<int, Table>) {
    forall s, f, way | s in g && f in g && IsWay(tables, s, f, way) ::
      Linked(g, way, f) && WayCost(g, way, f) == Distance(g, s, f)
  }

  ghost predicate HopsTight(g: Graph, tables: map<int, Table>) {
    forall u, d | u in g && d in g && u != d && Distance(g, u, d) < INFINITY :: TightHop(g, tables, u, d)
  }

  // Forwarding follows shortest routes throughout if and only if every table
  // entry points over a link that is a shortest route to the neighbour.
  lemma ShortestIff(g: Graph, tables: map<int, Table>)
    requires Sound(g) && Positive(g) && TablesOk(g, tables)
    ensures AlwaysShortest(g, tables) <==> HopsTight(g, tables)
  {
    if AlwaysShortest(g, tables) {
      forall u, d | u in g && d in g && u != d && Distance(g, u, d) < INFINITY
        ensures TightHop(g, tables, u, d)
      {
        var way := WayExists(g, tables, u, d);
        WayCostIs(g, tables, u, d, way);
        assert way[0] == u;
      }
    }
    if HopsTight(g, tables) {
      forall s, f, way | s in g && f in g && IsWay(tables, s, f, way)
        ensures Linked(g, way, f) && WayCost(g, way, f) == Distance(g, s, f)
      {
        WayCostIs(g, tables, s, f, way);
        forall i | 0 <= i < |way| ensures TightHop(g, tables, way[i], f) {
          WayHop(g, tables, s, f, way, i);
        }
      }
    }
  }

  // It is enough that no direct link can be bettered by a detour.
  ghost predicate NoDetours(g: Graph) {
    forall u, v | u in g && HasLink(g[u], v) :: Lightest(g[u], v) == Distance(g, u, v)
  }

  lemma NoDetoursShortest(g: Graph, tables: map<int, Table>, s: int, f: int, way: seq<int>)
    requires Sound(g) && Positive(g) && TablesOk(g, tables) && NoDetours(g)
    requires s in g && f in g && IsWay(tables, s, f, way)
    ensures Linked(g, way, f) && WayCost(g, way, f) == Distance(g, s, f)
  {
    forall u, d | u in g && d in g && u != d && Distance(g, u, d) < INFINITY
      ensures TightHop(g, tables, u, d)
    {
      TableAt(g, tables, u);
      HopOk(g, u, tables[u], d);
    }
    ShortestIff(g, tables);
  }

  // ---------- Not always a shortest route ----------

  // From 1 the way to 4 is shortest through 3 and 2, but the link from 1 to 2 is a
  // direct one, however dear.
  const DETOUR: Graph := map[1 := [Link(2, 10), Link(3, 1)], 2 := [Link(4, 1)], 3 := [Link(2, 1)], 4 := []]

  // No link gains more than it costs.
  ghost predicate IsPotential(g: Graph, s: int, h: map<int, int>) {
    h.Keys == g.Keys && s in g && h[s] == 0 &&
    forall u, l | u in g && l in g[u] :: l.to in g && h[l.to] <= h[u] + l.cost
  }

  lemma {:induction false} Potential(g: Graph, s: int, h: map<int, int>, p: Route)
    requires IsPotential(g, s, h) && IsRoute(g, s, p)
    ensures h[End(s, p)] <= Cost(p)
    decreases |p|
  {
    if p != [] {
      Potential(g, s, h, p[..|p| - 1]);
    }
  }

  // A potential that is attained is the distance.
  lemma PotentialDistance(g: Graph, s: int, h: map<int, int>, t: int)
    requires Sound(g) && IsPotential(g, s, h)
    requires t in h && 0 <= h[t] < INFINITY && Reaches(g, s, t, h[t])
    ensures Distance(g, s, t) == h[t]
  {
    forall p | IsRoute(g, s, p) && End(s, p) == t ensures h[t] <= Cost(p) {
      Potential(g, s, h, p);
    }
    DistanceIs(g, s, t, h[t]);
  }

  lemma SelfReaches(g: Graph, s: int)
    requires s in g
    ensures Reaches(g, s, s, 0)
  {
    assert IsRoute(g, s, []) && End(s, []) == s && Cost([]) == 0;
  }

  lemma DetourSound()
    ensures Sound(DETOUR) && Positive(DETOUR) && DETOUR.Keys == {1, 2, 3, 4}
  {
  }

  const DETOUR_DISTANCES: map<int, int> := map[1 := 0, 2 := 2, 3 := 1, 4 := 3]

  lemma {:induction false} DetourReach(t: int)
    requires t in DETOUR_DISTANCES
    ensures Reaches(DETOUR, 1, t, DETOUR_DISTANCES[t])
    decreases DETOUR_DISTANCES[t]
  {
    if t == 1 {
      SelfReaches(DETOUR, 1);
    } else {
      var (u, l) := if t == 2 then (3, Link(2, 1)) else if t == 3 then (1, Link(3, 1)) else (2, Link(4, 1));
      DetourReach(u);
      ExtendReach(DETOUR, 1, u, DETOUR_DISTANCES[u], l);
    }
  }

  lemma DetourPotential()
    ensures IsPotential(DETOUR, 1, DETOUR_DISTANCES)
  {
  }

  lemma DetourDistance(t: int)
    requires t in DETOUR_DISTANCES
    ensures Distance(DETOUR, 1, t) == DETOUR_DISTANCES[t]
  {
    DetourSound();
    DetourPotential();
    DetourReach(t);
    PotentialDistance(DETOUR, 1, DETOUR_DISTANCES, t);
  }

  lemma DetourDistances()
    ensures Distance(DETOUR, 1, 3) == 1 && Distance(DETOUR, 1, 2) == 2 && Distance(DETOUR, 1, 4) == 3
  {
    DetourDistance(3);
    DetourDistance(2);
    DetourDistance(4);
  }

  lemma DetourParent(s: int, tree: map<int, int>, order: seq<int>)
    requires s in DETOUR && s != 4 && IsTreeBy(DETOUR, s, tree, order) && Distance(DETOUR, s, 4) < INFINITY
    ensures 4 in tree && tree[4] == 2
  {
    assert BranchOk(DETOUR, s, tree, 4);
  }

  lemma DetourFirstHop(table: Table)
    requires TableOk(DETOUR, 1, table)
    ensures 4 in table && table[4] == Via(2)
  {
    DetourSound();
    var tree, order := TreeOf(DETOUR, 1, table);
    DetourDistances();
    DetourParent(1, tree, order);
    DetourLinks();
    StraightTo(DETOUR, 1, tree, 4, 2, table[4]);
  }

  lemma DetourSecondHop(table: Table)
    requires TableOk(DETOUR, 2, table)
    ensures 4 in table && table[4] == Via(4)
  {
    DetourSound();
    var tree, order := TreeOf(DETOUR, 2, table);
    LinkDistance(DETOUR, 2, Link(4, 1));
    DetourParent(2, tree, order);
    assert IsEntry(DETOUR, 2, tree, 4, table[4]);
  }

  // Forwarding is not always optimal: whatever the tie-breaking, the message from 1
  // to 4 takes the dear link to 2 and pays 11 where 3 would do.
  lemma DetourTaken(tables: map<int, Table>)
    requires TablesOk(DETOUR, tables)
    ensures IsWay(tables, 1, 4, [1, 2]) && Linked(DETOUR, [1, 2], 4)
    ensures WayCost(DETOUR, [1, 2], 4) == 11 && Distance(DETOUR, 1, 4) == 3
  {
    DetourDistances();
    TableAt(DETOUR, tables, 1);
    DetourFirstHop(tables[1]);
    TableAt(DETOUR, tables, 2);
    DetourSecondHop(tables[2]);
    DetourWay(tables);
    DetourCost();
  }

  lemma DetourWay(tables: map<int, Table>)
    requires 1 in tables && 4 in tables[1] && tables[1][4] == Via(2)
    requires 2 in tables && 4 in tables[2] && tables[2][4] == Via(4)
    ensures IsWay(tables, 1, 4, [1, 2])
  {
    assert [1, 2][1..] == [2] && [2][1..] == [];
    assert IsWay(tables, 2, 4, [2]);
  }

  lemma DetourLinks()
    ensures HasLink(DETOUR[1], 2) && Lightest(DETOUR[1], 2) == 10
    ensures HasLink(DETOUR[2], 4) && Lightest(DETOUR[2], 4) == 1
  {
    assert Link(2, 10) in DETOUR[1] && Link(4, 1) in DETOUR[2];
  }

  lemma DetourCost()
    ensures Linked(DETOUR, [1, 2], 4) && WayCost(DETOUR, [1, 2], 4) == 11
  {
    DetourLinks();
    var way: seq<int> := [1, 2];
    assert way[1..] == [2] && [2][1..] == [];
    assert Next(way, 4, 0) == 2 && Next(way, 4, 1) == 4;
    assert Linked(DETOUR, way, 4);
    CostStep(DETOUR, way, 4);
    CostStep(DETOUR, [2], 4);
  }
}
