// A whole session at the menu: routers are created and deleted, and paths are asked for,
// in any order.
module Sessions {
  import opened Collections
  import opened Graphs
  import opened Forwarding
  import opened Topology
  import opened Ospf
  import opened Networks
  import opened Optimality

  datatype Command = Alter(change: Change) | Ask(start: int, finish: int)

  function Changes(commands: seq<Command>): seq<Change>
    decreases |commands|
  {
    if commands == [] then []
    else
      var front := Changes(commands[..|commands| - 1]);
      match commands[|commands| - 1]
      case Alter(c) => front + [c]
      case Ask(_, _) => front
  }

  // The topology when command k is given.
  function At(commands: seq<Command>, k: nat): Graph
    requires k <= |commands|
  {
    After(Changes(commands[..k]))
  }

  // Costs are positive, and only known routers are asked for a path.
  ghost predicate Admissible(commands: seq<Command>) {
    forall k {:trigger AdmissibleAt(commands, k)} | 0 <= k < |commands| :: AdmissibleAt(commands, k)
  }

  ghost predicate AdmissibleAt(commands: seq<Command>, k: nat)
    requires k < |commands|
  {
    match commands[k]
    case Alter(c) => CostedChange(c, 1)
    case Ask(start, _) => start in At(commands, k)
  }

  // What a path should be: nothing if there is no route, and otherwise a simple path along
  // direct links, every hop of which brings the message strictly nearer; and a shortest
  // route where no detour betters a link that shortest routes pass by.
  ghost predicate Answers(g: Graph, start: int, finish: int, path: seq<int>) {
    if start == finish then path == [start]
    else if AllCost(g, start, finish, 100000) then path == []
    else
      path != [] && path[0] == start && AllDifferent(path) && finish !in path && Linked(g, path, finish) &&
      (forall i | 0 <= i < |path| :: Distance(g, Next(path, finish, i), finish) < Distance(g, path[i], finish)) &&
      (NeighborsTight(g) ==> WayCost(g, path, finish) == Distance(g, start, finish))
  }

  lemma AtNext(commands: seq<Command>, k: nat)
    requires k < |commands|
    ensures At(commands, k + 1) ==
            match commands[k]
            case Alter(c) => Apply(At(commands, k), c)
            case Ask(_, _) => At(commands, k)
  {
    assert commands[..k + 1][..k] == commands[..k];
    if commands[k].Alter? {
      var before := Changes(commands[..k]);
      assert (before + [commands[k].change])[..|before|] == before;
    }
  }

  lemma {:induction false} ChangesCosted(commands: seq<Command>, k: nat)
    requires Admissible(commands) && k <= |commands|
    ensures forall c | c in Changes(commands[..k]) :: CostedChange(c, 1)
    decreases k
  {
    if k > 0 {
      ChangesCosted(commands, k - 1);
      assert commands[..k][..k - 1] == commands[..k - 1];
      assert AdmissibleAt(commands, k - 1);
    }
  }

  // All costs are positive at any time.
  lemma AtPositive(commands: seq<Command>, k: nat)
    requires Admissible(commands) && k <= |commands|
    ensures Positive(At(commands, k))
  {
    ChangesCosted(commands, k);
    HistoryCosts(Changes(commands[..k]), 1);
  }

  lemma DeliversAnswers(g: Graph, tables: map<int, Table>, start: int, finish: int, path: seq<int>)
    requires Sound(g) && Positive(g) && TablesOk(g, tables) && start != finish
    requires Delivers(g, tables, start, finish, path)
    ensures Answers(g, start, finish, path)
  {
    NoPath(g, start, finish);
    if HasRoute(g, start, finish) {
      WayHead(tables, start, finish, path);
      WaySimple(g, tables, start, finish, path);
      forall i | 0 <= i < |path|
        ensures Distance(g, Next(path, finish, i), finish) < Distance(g, path[i], finish)
      {
        WayHop(g, tables, start, finish, path, i);
      }
      if NeighborsTight(g) {
        TightForwards(g, tables);
      }
    }
  }

  method Obey(network: Network, change: Change)
    requires network.Valid() && CostedChange(change, 1)
    modifies network, network.routers
    ensures network.Valid() && fresh(network.routers - old(network.routers))
    ensures GraphOf(network.routers) == Apply(old(GraphOf(network.routers)), change)
  {
    match change
    case Create(id, incoming, outgoing) =>
      assert Costed(incoming, 0) && Costed(outgoing, 0);
      var ok := network.CreateRouter(id, incoming, outgoing);
    case Delete(victim) =>
      var ok := network.DeleteRouter(victim);
  }

  lemma PathRight(routers: set<Router>, start: int, finish: int, path: seq<int>)
    requires Wired(routers) && AllRight(routers, routers) && Positive(GraphOf(routers)) && start != finish
    requires Delivers(GraphOf(routers), TablesOf(routers), start, finish, path)
    ensures Answers(GraphOf(routers), start, finish, path)
  {
    TablesRight(routers);
    DeliversAnswers(GraphOf(routers), TablesOf(routers), start, finish, path);
  }

  method Answer(network: Network, start: int, finish: int) returns (path: seq<int>)
    requires network.Valid() && Positive(GraphOf(network.routers)) && start in GraphOf(network.routers)
    modifies network.routers`routingTable
    ensures network.Valid() && GraphOf(network.routers) == old(GraphOf(network.routers))
    ensures Answers(GraphOf(network.routers), start, finish, path)
  {
    var m := network.NumToPtrs();
    IndexKeys(network.routers, m);
    var routers := network.FindPath(start, finish, m);
    path := PathIds(routers);
    if start != finish {
      PathRight(network.routers, start, finish, path);
    }
  }

  ghost predicate AnsweredAt(commands: seq<Command>, k: nat, path: seq<int>)
    requires k < |commands|
  {
    commands[k].Ask? ==> Answers(At(commands, k), commands[k].start, commands[k].finish, path)
  }

  method Perform(network: Network, commands: seq<Command>, k: nat) returns (path: seq<int>)
    requires Admissible(commands) && k < |commands|
    requires network.Valid() && GraphOf(network.routers) == At(commands, k)
    modifies network, network.routers
    ensures network.Valid() && fresh(network.routers - old(network.routers))
    ensures GraphOf(network.routers) == At(commands, k + 1)
    ensures AnsweredAt(commands, k, path)
  {
    assert AdmissibleAt(commands, k);
    AtPositive(commands, k);
    AtNext(commands, k);
    path := [];
    match commands[k]
    case Alter(change) =>
      Obey(network, change);
    case Ask(start, finish) =>
      path := Answer(network, start, finish);
  }

  ghost predicate Answered(commands: seq<Command>, paths: seq<seq<int>>) {
    |paths| <= |commands| &&
    forall k {:trigger AnsweredAt(commands, k, paths[k])} | 0 <= k < |paths| :: AnsweredAt(commands, k, paths[k])
  }

  lemma AnsweredNext(commands: seq<Command>, paths: seq<seq<int>>, path: seq<int>)
    requires Answered(commands, paths) && |paths| < |commands| && AnsweredAt(commands, |paths|, path)
    ensures Answered(commands, paths + [path])
  {
    var longer := paths + [path];
    forall k | 0 <= k < |longer| ensures AnsweredAt(commands, k, longer[k]) {
      if k < |paths| {
        assert AnsweredAt(commands, k, paths[k]);
      }
    }
  }

  // No router yet.
  method Open(ghost commands: seq<Command>) returns (network: Network)
    ensures fresh(network) && fresh(network.routers)
    ensures network.Valid() && GraphOf(network.routers) == At(commands, 0)
  {
    network := new Network();
  }

  // The next command; what has been answered stays.
  method Proceed(network: Network, commands: seq<Command>, paths: seq<seq<int>>) returns (longer: seq<seq<int>>)
    requires Admissible(commands) && |paths| < |commands| && Answered(commands, paths)
    requires network.Valid() && GraphOf(network.routers) == At(commands, |paths|)
    modifies network, network.routers
    ensures network.Valid() && fresh(network.routers - old(network.routers))
    ensures |longer| == |paths| + 1 && GraphOf(network.routers) == At(commands, |longer|)
    ensures Answered(commands, longer)
  {
    var path := Perform(network, commands, |paths|);
    AnsweredNext(commands, paths, path);
    longer := paths + [path];
  }

  // In any session every path asked for is right for the topology of the moment, whatever
  // has been created, deleted or asked for before.
  method Session(commands: seq<Command>) returns (network: Network, paths: seq<seq<int>>)
    requires Admissible(commands)
    ensures fresh(network) && network.Valid() && GraphOf(network.routers) == At(commands, |commands|)
    ensures |paths| == |commands| && Answered(commands, paths)
  {
    network := Open(commands);
    paths := [];
    while |paths| < |commands|
      invariant fresh(network) && fresh(network.routers)
      invariant |paths| <= |commands| && Answered(commands, paths)
      invariant network.Valid() && GraphOf(network.routers) == At(commands, |paths|)
      decreases |commands| - |paths|
    {
      paths := Proceed(network, commands, paths);
    }
  }
}
