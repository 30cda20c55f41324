// The cache of the web proxy: a doubly linked list between two sentinels, and a
// map from url to node.
module LruCache {
  import opened Collections

  datatype Entry = Entry(url: string, page: string)

  // What get answers when a url is not in the cache.
  const ABSENT: string := "-1"

  class Node {
    const key: string  // never assigned again
    const val: string
    var prev: Node?
    var next: Node?

    constructor (key: string, val: string)
      ensures this.key == key && this.val == val
    {
      this.key := key;
      this.val := val;
    }
  }

  // Neighbours in the sequence point at each other.
  ghost predicate LinkAt(full: seq<Node>, i: nat)
    requires i + 1 < |full|
    reads full[i], full[i + 1]
  {
    full[i].next == full[i + 1] && full[i + 1].prev == full[i]
  }

  ghost predicate Chained(full: seq<Node>)
    reads full
  {
    (forall i, j | 0 <= i < j < |full| :: full[i] != full[j]) &&
    forall i {:trigger LinkAt(full, i)} | 0 <= i < |full| - 1 :: LinkAt(full, i)
  }

  function Urls(list: seq<Entry>): seq<string> {
    seq(|list|, i requires 0 <= i < |list| => list[i].url)
  }

  // The place of a url, or the length of the list when it is not there.
  function Find(list: seq<Entry>, url: string): (k: nat)
    ensures k <= |list|
    ensures k < |list| ==> list[k].url == url
    ensures k < |list| <==> url in Urls(list)
    decreases |list|
  {
    if list == [] then 0
    else if list[0].url == url then
      assert Urls(list)[0] == url;
      0
    else
      var k := Find(list[1..], url);
      assert Urls(list) == [list[0].url] + Urls(list[1..]);
      k + 1
  }

  // A hit.
  function Promoted(list: seq<Entry>, k: nat): seq<Entry>
    requires k < |list|
  {
    [list[k]] + RemoveAt(list, k)
  }

  // A miss: the newcomer goes first, and at capacity the last makes room.
  function Inserted(cap: int, list: seq<Entry>, e: Entry): seq<Entry> {
    [e] + if 0 < |list| == cap then list[..|list| - 1] else list
  }

  function EntriesOf(nodes: seq<Node>): seq<Entry> {
    seq(|nodes|, i requires 0 <= i < |nodes| => Entry(nodes[i].key, nodes[i].val))
  }

  lemma EntriesMoved(nodes: seq<Node>, k: nat)
    requires k < |nodes|
    ensures EntriesOf([nodes[k]] + RemoveAt(nodes, k)) == Promoted(EntriesOf(nodes), k)
    ensures Elements([nodes[k]] + RemoveAt(nodes, k)) == Elements(nodes)
  {
    var nodes' := [nodes[k]] + RemoveAt(nodes, k);
    forall n ensures n in nodes' <==> n in nodes {
      if n in nodes {
        var i :| 0 <= i < |nodes| && nodes[i] == n;
        assert nodes'[if i == k then 0 else if i < k then i + 1 else i] == n;
      }
    }
  }

  lemma EntriesInserted(nodes: seq<Node>, n: Node)
    ensures EntriesOf([n] + nodes) == [Entry(n.key, n.val)] + EntriesOf(nodes)
  {
  }

  // Every listed node is found under its own key, and nothing else is.
  ghost predicate MapFits(m: map<string, Node>, nodes: seq<Node>)
  {
    (forall k | k in m :: m[k] in nodes && m[k].key == k) &&
    forall n {:trigger Mapped(m, n)} | n in nodes :: Mapped(m, n)
  }

  ghost predicate Mapped(m: map<string, Node>, n: Node)
  {
    n.key in m && m[n.key] == n
  }

  lemma MapMoved(m: map<string, Node>, nodes: seq<Node>, nodes': seq<Node>)
    requires MapFits(m, nodes) && Elements(nodes') == Elements(nodes)
    ensures MapFits(m, nodes')
  {
    assert forall n :: n in nodes' <==> n in Elements(nodes);
    assert forall n :: n in nodes <==> n in Elements(nodes);
  }

  lemma MapAdded(m: map<string, Node>, nodes: seq<Node>, n: Node)
    requires MapFits(m, nodes) && n.key !in m
    ensures MapFits(m[n.key := n], [n] + nodes)
  {
    var m', nodes' := m[n.key := n], [n] + nodes;
    forall p | p in nodes ensures p in nodes' {
      var i :| 0 <= i < |nodes| && nodes[i] == p;
      assert nodes'[i + 1] == p;
    }
    forall p | p in nodes' ensures Mapped(m', p) {
      assert p == n || (p in nodes && Mapped(m, p));
    }
  }

  lemma MapDropped(m: map<string, Node>, nodes: seq<Node>)
    requires nodes != [] && MapFits(m, nodes)
    requires forall i, j | 0 <= i < j < |nodes| :: nodes[i].key != nodes[j].key
    ensures MapFits(m - {nodes[|nodes| - 1].key}, nodes[..|nodes| - 1])
  {
    var last := nodes[|nodes| - 1];
    var m', nodes' := m - {last.key}, nodes[..|nodes| - 1];
    forall p | p in nodes' ensures Mapped(m', p) {
      var i :| 0 <= i < |nodes'| && nodes'[i] == p;
      assert nodes[i] == p && Mapped(m, p);
    }
    forall k | k in m' ensures m'[k] in nodes' {
      assert m[k] in nodes && m[k] != last;
      var i :| 0 <= i < |nodes| && nodes[i] == m[k];
      assert nodes'[i] == m[k];
    }
  }

  class Cache {
    var head: Node
    var tail: Node
    var cap: int
    var m: map<string, Node>
    ghost var nodes: seq<Node>

    ghost function Full(): seq<Node>
      reads this
    {
      [head] + nodes + [tail]
    }

    ghost function At(k: nat): Node
      requires k < |nodes| + 2
      reads this
    {
      Full()[k]
    }

    ghost predicate ListOk()
      reads this, Full()
    {
      Chained(Full())
    }

    constructor (capacity: int)
      ensures ListOk() && nodes == [] && m == map[] && cap == capacity
      ensures fresh(head) && fresh(tail)
    {
      head := new Node(ABSENT, ABSENT);
      tail := new Node(ABSENT, ABSENT);
      cap := capacity;
      m := map[];
      nodes := [];
      new;
      head.next := tail;
      tail.prev := head;
    }

    method AddNode(newnode: Node)
      requires ListOk() && newnode !in Full()
      modifies this`nodes, newnode`prev, newnode`next, head`next, At(1)`prev
      ensures ListOk() && nodes == [newnode] + old(nodes) && head.next == newnode
    {
      ghost var full := Full();
      assert LinkAt(full, 0);
      var next := head.next;
      head.next := newnode;
      newnode.prev := head;
      newnode.next := next;
      next.prev := newnode;
      nodes := [newnode] + nodes;
      assert Full() == [full[0], newnode] + full[1..];
      forall i | 0 <= i < |Full()| - 1 ensures LinkAt(Full(), i) {
        if i >= 2 {
          assert old(LinkAt(full, i - 1));
        }
      }
    }

    method DeleteNode(delnode: Node, ghost k: nat)
      requires ListOk() && k < |nodes| && nodes[k] == delnode
      modifies this`nodes, At(k)`next, At(k + 2)`prev
      ensures ListOk() && nodes == RemoveAt(old(nodes), k) && delnode !in Full()
    {
      ghost var full := Full();
      assert full[k + 1] == delnode;
      assert LinkAt(full, k) && LinkAt(full, k + 1);
      var prevv := delnode.prev;
      var nextt := delnode.next;
      prevv.next := nextt;
      nextt.prev := prevv;
      nodes := RemoveAt(nodes, k);
      assert Full() == RemoveAt(full, k + 1);
      forall i | 0 <= i < |Full()| - 1 ensures LinkAt(Full(), i) {
        if i < k {
          assert old(LinkAt(full, i));
        } else if i > k {
          assert old(LinkAt(full, i + 1));
        }
      }
    }

    ghost function Repr(): set<Node>
      reads this
    {
      Elements(nodes) + {head, tail}
    }

    ghost predicate Valid()
      reads this, Repr()
    {
      cap != 0 && ListOk() && MapFits(m, nodes) && (cap > 0 ==> |nodes| <= cap)
    }

    // Most recently used first.
    ghost function Contents(): seq<Entry>
      reads this
    {
      EntriesOf(nodes)
    }

    // Keys are distinct, so the map is as large as the list.
    lemma KeysListed()
      requires Valid()
      ensures forall k :: k in m <==> k in Urls(Contents())
      ensures |m| == |nodes|
      ensures forall i, j | 0 <= i < j < |nodes| :: nodes[i].key != nodes[j].key
    {
      var urls := Urls(Contents());
      forall i, j | 0 <= i < j < |nodes| ensures nodes[i].key != nodes[j].key {
        assert Full()[i + 1] != Full()[j + 1];
        assert Mapped(m, nodes[i]) && Mapped(m, nodes[j]);
      }
      forall k ensures k in m <==> k in urls {
        if k in m {
          var i :| 0 <= i < |nodes| && nodes[i] == m[k];
          assert urls[i] == k;
        }
        if i :| 0 <= i < |urls| && urls[i] == k {
          assert Mapped(m, nodes[i]);
        }
      }
      ElementsSize(urls);
      assert m.Keys == Elements(urls);
    }

    method MoveToFront(resNode: Node, ghost k: nat)
      requires Valid() && k < |nodes| && nodes[k] == resNode
      modifies this`nodes, Repr()`prev, Repr()`next
      ensures Valid() && Repr() == old(Repr()) && head.next == resNode
      ensures Contents() == Promoted(old(Contents()), k)
    {
      EntriesMoved(nodes, k);
      MapMoved(m, nodes, [nodes[k]] + RemoveAt(nodes, k));
      DeleteNode(resNode, k);
      AddNode(resNode);
    }

    method Get(key: string) returns (ans: string)
      requires Valid()
      modifies this`nodes, this`m, Repr()`prev, Repr()`next
      ensures Valid() && Repr() == old(Repr())
      ensures var list, k := old(Contents()), Find(old(Contents()), key);
              if k < |list| then ans == list[k].page && Contents() == Promoted(list, k)
              else ans == "-1" && Contents() == list
    {
      KeysListed();
      ghost var k := Find(Contents(), key);
      if key in m {
        var resNode := m[key];
        assert nodes[k] == resNode by {
          assert Mapped(m, nodes[k]);
        }
        ans := resNode.val;
        MoveToFront(resNode, k);
        m := m[key := head.next];
        assert m == old(m);
      } else {
        ans := ABSENT;
      }
    }

    method DropLast()
      requires Valid() && nodes != []
      modifies this`nodes, this`m, Repr()`prev, Repr()`next
      ensures Valid() && Repr() <= old(Repr()) && m.Keys <= old(m).Keys
      ensures Contents() == old(Contents())[..|old(Contents())| - 1]
    {
      KeysListed();
      ghost var k := |nodes| - 1;
      assert LinkAt(Full(), k + 1);
      MapDropped(m, nodes);
      m := m - {tail.prev.key};
      DeleteNode(tail.prev, k);
      assert nodes == old(nodes)[..k];
    }

    method Insert(key: string, value: string)
      requires Valid() && key !in m && (cap > 0 ==> |nodes| < cap)
      modifies this`nodes, this`m, Repr()`prev, Repr()`next
      ensures Valid() && fresh(Repr() - old(Repr()))
      ensures Contents() == [Entry(key, value)] + old(Contents())
    {
      var node := new Node(key, value);
      MapAdded(m, nodes, node);
      EntriesInserted(nodes, node);
      AddNode(node);
      m := m[key := head.next];
    }

    // The caller has made sure that the url is not in the cache.
    method Put(key: string, value: string)
      requires Valid() && key !in Urls(Contents())
      modifies this`nodes, this`m, Repr()`prev, Repr()`next
      ensures Valid() && fresh(Repr() - old(Repr()))
      ensures Contents() == Inserted(cap, old(Contents()), Entry(key, value))
    {
      KeysListed();
      if |m| == cap {
        DropLast();
      }
      Insert(key, value);
    }
  }
}
