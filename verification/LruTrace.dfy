// What the cache holds after a sequence of requests, and how often it has had to
// fetch, told from the requests alone.
module LruTrace {
  import opened Collections

  function Without<U(==)>(list: seq<U>, u: U): seq<U> {
    if list == [] then []
    else if list[0] == u then Without(list[1..], u)
    else [list[0]] + Without(list[1..], u)
  }

  // One request: a hit moves the url to the front; a miss puts it there, after the
  // last one has made room when the cache is at capacity. (A negative capacity is
  // never reached.)
  function Touch<U(==)>(cap: int, list: seq<U>, u: U): seq<U>
    requires cap != 0
  {
    if u in list then [u] + Without(list, u)
    else if |list| == cap then [u] + list[..|list| - 1]
    else [u] + list
  }

  function Run<U(==)>(cap: int, trace: seq<U>): seq<U>
    requires cap != 0
    decreases |trace|
  {
    if trace == [] then []
    else Touch(cap, Run(cap, trace[..|trace| - 1]), trace[|trace| - 1])
  }

  // The number of requests that had to be fetched.
  function Misses<U(==)>(cap: int, trace: seq<U>): nat
    requires cap != 0
    decreases |trace|
  {
    if trace == [] then 0
    else
      var front, u := trace[..|trace| - 1], trace[|trace| - 1];
      Misses(cap, front) + if u in Run(cap, front) then 0 else 1
  }

  // ---------- The contents, described independently ----------

  // The position of the latest request for u, or -1.
  function LastUse<U(==)>(trace: seq<U>, u: U): (k: int)
    ensures -1 <= k < |trace|
    decreases |trace|
  {
    if trace == [] then -1
    else if trace[|trace| - 1] == u then |trace| - 1
    else LastUse(trace[..|trace| - 1], u)
  }

  lemma {:induction false} LastUseIs<U>(trace: seq<U>, u: U)
    ensures u in trace <==> LastUse(trace, u) >= 0
    ensures LastUse(trace, u) >= 0 ==> trace[LastUse(trace, u)] == u
    ensures forall j | LastUse(trace, u) < j < |trace| :: trace[j] != u
    decreases |trace|
  {
    if trace != [] {
      var n := |trace| - 1;
      LastUseIs(trace[..n], u);
      assert forall j | 0 <= j < n :: trace[..n][j] == trace[j];
      assert trace == trace[..n] + [trace[n]];
    }
  }

  // list holds the most recently used urls, latest first: no url it leaves out was
  // used later than one it holds.
  ghost predicate MostRecent<U>(trace: seq<U>, list: seq<U>) {
    (forall u | u in list :: u in trace) &&
    (forall i, j | 0 <= i < j < |list| :: LastUse(trace, list[j]) < LastUse(trace, list[i])) &&
    forall u {:trigger Older(trace, list, u)} | u in trace && u !in list :: Older(trace, list, u)
  }

  ghost predicate Older<U>(trace: seq<U>, list: seq<U>, u: U) {
    forall i | 0 <= i < |list| :: LastUse(trace, u) < LastUse(trace, list[i])
  }

  function Room(cap: int, n: nat): nat {
    if 0 < cap < n then cap else n
  }

  lemma {:induction false} WithoutMembers<U>(list: seq<U>, u: U)
    ensures forall v :: v in Without(list, u) <==> v in list && v != u
  {
    if list != [] {
      WithoutMembers(list[1..], u);
    }
  }

  lemma {:induction false} WithoutAbsent<U>(list: seq<U>, u: U)
    requires u !in list
    ensures Without(list, u) == list
  {
    if list != [] {
      WithoutAbsent(list[1..], u);
    }
  }

  // In a list without repetition, removal takes one position out.
  lemma {:induction false} WithoutAt<U>(list: seq<U>, k: nat)
    requires k < |list| && AllDifferent(list)
    ensures Without(list, list[k]) == list[..k] + list[k + 1..]
  {
    var rest := list[1..];
    if k == 0 {
      WithoutAbsent(rest, list[0]);
    } else {
      WithoutAt(rest, k - 1);
      assert rest[k - 1] == list[k] && list[0] != list[k];
      assert [list[0]] + (rest[..k - 1] + rest[k..]) == list[..k] + list[k + 1..];
    }
  }

  lemma {:induction false} LastUseAfter<U>(trace: seq<U>, u: U, v: U)
    ensures LastUse(trace + [u], v) == if v == u then |trace| else LastUse(trace, v)
  {
    assert (trace + [u])[..|trace|] == trace;
  }

  // A most-recent list as long as there are urls holds all of them.
  lemma FullList<U>(trace: seq<U>, list: seq<U>)
    requires MostRecent(trace, list)
    ensures AllDifferent(list)
    ensures |list| <= |Elements(trace)|
    ensures |list| == |Elements(trace)| ==> forall u | u in trace :: u in list
  {
    ElementsSize(list);
    SubsetSize(Elements(list), Elements(trace));
    assert Elements(list) == Elements(trace) ==> forall u | u in trace :: u in Elements(list);
  }

  // What one request does to the order of last uses.
  lemma Newest<U>(trace: seq<U>, u: U)
    ensures forall v :: LastUse(trace + [u], v) == if v == u then |trace| else LastUse(trace, v)
  {
    forall v ensures LastUse(trace + [u], v) == if v == u then |trace| else LastUse(trace, v) {
      LastUseAfter(trace, u, v);
    }
  }

  // Putting u before some of the others, in the order they have.
  lemma Promote<U>(trace: seq<U>, list: seq<U>, rest: seq<U>, u: U)
    requires forall v | v in rest :: v in trace && v != u
    requires forall i, j | 0 <= i < j < |rest| :: LastUse(trace, rest[j]) < LastUse(trace, rest[i])
    requires forall v | v in trace && v !in rest && v != u :: Older(trace, rest, v)
    ensures MostRecent(trace + [u], [u] + rest)
  {
    var list', trace' := [u] + rest, trace + [u];
    Newest(trace, u);
    forall v | v in rest ensures v in list' {
      var i :| 0 <= i < |rest| && rest[i] == v;
      assert list'[i + 1] == v;
    }
    forall i, j | 0 <= i < j < |list'| ensures LastUse(trace', list'[j]) < LastUse(trace', list'[i]) {
      assert list'[j] == rest[j - 1] && rest[j - 1] in rest;
      if i > 0 {
        assert list'[i] == rest[i - 1] && rest[i - 1] in rest;
      }
    }
    forall v | v in trace' && v !in list' ensures Older(trace', list', v) {
      assert u == list'[0] && v != u && v in trace;
      assert Older(trace, rest, v);
      forall i | 0 <= i < |list'| ensures LastUse(trace', v) < LastUse(trace', list'[i]) {
        if i > 0 {
          assert list'[i] == rest[i - 1] && rest[i - 1] in rest;
        }
      }
    }
  }

  lemma TouchHit<U>(trace: seq<U>, list: seq<U>, k: nat)
    requires MostRecent(trace, list) && k < |list|
    ensures MostRecent(trace + [list[k]], [list[k]] + (list[..k] + list[k + 1..]))
  {
    var u, rest := list[k], list[..k] + list[k + 1..];
    FullList(trace, list);
    forall i | 0 <= i < |rest| ensures rest[i] == list[if i < k then i else i + 1] && rest[i] in list && rest[i] != u {
    }
    forall v | v in list && v != u ensures v in rest {
      var i :| 0 <= i < |list| && list[i] == v;
      assert rest[if i < k then i else i - 1] == v;
    }
    forall v | v in trace && v !in rest && v != u ensures Older(trace, rest, v) {
      assert Older(trace, list, v);
    }
    Promote(trace, list, rest, u);
  }

  // A miss: all of the list stays, or all but its last.
  lemma TouchMiss<U>(trace: seq<U>, list: seq<U>, u: U, n: nat)
    requires MostRecent(trace, list) && u !in list && n <= |list|
    ensures MostRecent(trace + [u], [u] + list[..n])
  {
    var rest := list[..n];
    forall i | 0 <= i < n ensures list[i] in rest {
      assert rest[i] == list[i];
    }
    forall v | v in trace && v !in rest && v != u ensures Older(trace, rest, v) {
      if j :| 0 <= j < |list| && list[j] == v {
        assert j >= n;
      } else {
        assert Older(trace, list, v);
      }
    }
    assert forall v | v in rest :: v in list;
    Promote(trace, list, rest, u);
  }

  // After any requests the cache lists exactly the most recent urls, as many of
  // them as there is room for, latest first.
  lemma {:induction false} RunMostRecent<U>(cap: int, trace: seq<U>)
    requires cap != 0
    ensures MostRecent(trace, Run(cap, trace))
    ensures |Run(cap, trace)| == Room(cap, |Elements(trace)|)
    decreases |trace|
  {
    if trace != [] {
      var front, u := trace[..|trace| - 1], trace[|trace| - 1];
      assert trace == front + [u];
      RunMostRecent(cap, front);
      TouchRecent(cap, front, Run(cap, front), u);
    }
  }

  lemma TouchRecent<U>(cap: int, front: seq<U>, list: seq<U>, u: U)
    requires cap != 0 && MostRecent(front, list) && |list| == Room(cap, |Elements(front)|)
    ensures MostRecent(front + [u], Touch(cap, list, u))
    ensures |Touch(cap, list, u)| == Room(cap, |Elements(front + [u])|)
  {
    FullList(front, list);
    NewDistinct(front, u);
    if u in list {
      var k: nat :| k < |list| && list[k] == u;
      WithoutAt(list, k);
      TouchHit(front, list, k);
      assert u in front;
      assert Touch(cap, list, u) == [u] + (list[..k] + list[k + 1..]);
    } else if |list| == cap {
      TouchMiss(front, list, u, |list| - 1);
      assert Touch(cap, list, u) == [u] + list[..|list| - 1];
    } else {
      TouchMiss(front, list, u, |list|);
      assert u !in front;
      assert Touch(cap, list, u) == [u] + list[..|list|];
    }
  }

  lemma NewDistinct<U>(front: seq<U>, u: U)
    ensures |Elements(front + [u])| == |Elements(front)| + if u in front then 0 else 1
  {
    assert Elements(front + [u]) == Elements(front) + {u};
    if u in front {
      assert Elements(front) + {u} == Elements(front);
    }
  }

  lemma Misplaced<U>(trace: seq<U>, a: seq<U>, b: seq<U>, k: nat)
    requires MostRecent(trace, a) && MostRecent(trace, b) && k < |a| && k < |b|
    requires forall i | 0 <= i < k :: a[i] == b[i]
    ensures LastUse(trace, b[k]) <= LastUse(trace, a[k])
  {
    var y := b[k];
    FullList(trace, b);
    assert y in b;
    if j :| 0 <= j < |a| && a[j] == y {
      assert j >= k;
    } else {
      assert Older(trace, a, y);
    }
  }

  lemma SameUse<U>(trace: seq<U>, x: U, y: U)
    requires x in trace && y in trace && LastUse(trace, x) == LastUse(trace, y)
    ensures x == y
  {
    LastUseIs(trace, x);
    LastUseIs(trace, y);
  }

  lemma RecentPrefix<U>(trace: seq<U>, a: seq<U>, b: seq<U>, k: nat)
    requires MostRecent(trace, a) && MostRecent(trace, b) && k < |a| && k < |b|
    requires forall i | 0 <= i < k :: a[i] == b[i]
    ensures a[k] == b[k]
  {
    Misplaced(trace, a, b, k);
    Misplaced(trace, b, a, k);
    assert a[k] in a && b[k] in b;
    SameUse(trace, a[k], b[k]);
  }

  // The description leaves one list of each length.
  lemma {:induction false} RecentUnique<U>(trace: seq<U>, a: seq<U>, b: seq<U>, n: nat)
    requires MostRecent(trace, a) && MostRecent(trace, b) && n <= |a| && n <= |b|
    ensures a[..n] == b[..n]
    decreases n
  {
    if n > 0 {
      RecentUnique(trace, a, b, n - 1);
      forall i | 0 <= i < n - 1 ensures a[i] == b[i] {
        assert a[..n - 1][i] == b[..n - 1][i];
      }
      RecentPrefix(trace, a, b, n - 1);
      assert a[..n] == a[..n - 1] + [a[n - 1]] && b[..n] == b[..n - 1] + [b[n - 1]];
    }
  }

  // A larger cache holds what a smaller one does, in the same order, and more.
  lemma Inclusion<U>(c: int, c': int, trace: seq<U>)
    requires 0 < c <= c'
    ensures Run(c, trace) <= Run(c', trace)
  {
    RunMostRecent(c, trace);
    RunMostRecent(c', trace);
    var small, large := Run(c, trace), Run(c', trace);
    RecentUnique(trace, small, large, |small|);
    assert small == small[..|small|] == large[..|small|];
  }

  // Enlarging the cache never adds fetches.
  lemma {:induction false} LargerFetchesLess<U>(c: int, c': int, trace: seq<U>)
    requires 0 < c <= c'
    ensures Misses(c', trace) <= Misses(c, trace)
    decreases |trace|
  {
    if trace != [] {
      var front := trace[..|trace| - 1];
      LargerFetchesLess(c, c', front);
      Inclusion(c, c', front);
      assert forall u :: u in Run(c, front) ==> u in Run(c', front);
    }
  }

  // ---------- At most one fetch per url in a stretch that fits ----------

  // In a stretch with no more distinct urls than the cache has places, a url
  // requested before is still there.
  lemma HitWithin<U>(cap: int, trace: seq<U>, a: nat, i: nat, j: nat)
    requires cap > 0 && a <= i < j < |trace| && trace[i] == trace[j]
    requires |Elements(trace[a..j])| <= cap
    ensures trace[j] in Run(cap, trace[..j])
  {
    var past, u := trace[..j], trace[j];
    var list := Run(cap, past);
    RunMostRecent(cap, past);
    FullList(past, list);
    assert past[i] == u;
    if u !in list {
      assert |list| == cap && Older(past, list, u);
      LastUseIs(past, u);
      StretchHolds(past, list, u, a);
      assert trace[a..j] == past[a..];
      assert trace[a..j][i - a] == u;
      ElementsSize(list);
      SubsetSize(Elements(list) + {u}, Elements(trace[a..j]));
    }
  }

  // Everything listed was used after u, so after a.
  lemma StretchHolds<U>(past: seq<U>, list: seq<U>, u: U, a: nat)
    requires a <= |past| && Older(past, list, u) && LastUse(past, u) >= a
    ensures forall v | v in list :: v in past[a..]
  {
    forall v | v in list ensures v in past[a..] {
      var k :| 0 <= k < |list| && list[k] == v;
      LastUseIs(past, v);
      assert past[a..][LastUse(past, v) - a] == v;
    }
  }

  lemma DistinctWithin<U>(trace: seq<U>, a: nat, j: nat, b: nat)
    requires a <= j <= b <= |trace|
    ensures |Elements(trace[a..j])| <= |Elements(trace[a..b])|
  {
    assert trace[a..j] == trace[a..b][..j - a];
    SubsetSize(Elements(trace[a..j]), Elements(trace[a..b]));
  }

  // Of the requests for one url in such a stretch only the first can be a fetch.
  lemma OneFetchEach<U>(cap: int, trace: seq<U>, a: nat, b: nat, i: nat, j: nat)
    requires cap > 0 && a <= i < j < b <= |trace| && trace[i] == trace[j]
    requires |Elements(trace[a..b])| <= cap
    ensures trace[j] in Run(cap, trace[..j])
  {
    DistinctWithin(trace, a, j, b);
    HitWithin(cap, trace, a, i, j);
  }

  // ---------- Competitive with any other policy ----------

  // What another policy with h places keeps before and after every request: never more
  // than h urls, and always the one just requested. It may fetch what it likes when it
  // likes.
  ghost predicate IsPolicy<U>(h: int, trace: seq<U>, held: seq<set<U>>) {
    |held| == |trace| + 1 && held[0] == {} &&
    (forall i | 0 <= i < |held| :: |held[i]| <= h) &&
    forall i | 0 <= i < |trace| :: trace[i] in held[i + 1]
  }

  ghost function Fetches<U>(held: seq<set<U>>, n: nat): nat
    requires n < |held|
  {
    if n == 0 then 0 else Fetches(held, n - 1) + |held[n] - held[n - 1]|
  }

  // What has been fetched between two moments.
  ghost function Brought<U>(held: seq<set<U>>, m: nat, n: nat): set<U>
    requires m <= n < |held|
  {
    if m == n then {} else Brought(held, m, n - 1) + (held[n] - held[n - 1])
  }

  lemma {:induction false} BroughtSize<U>(held: seq<set<U>>, m: nat, n: nat)
    requires m <= n < |held|
    ensures Fetches(held, m) + |Brought(held, m, n)| <= Fetches(held, n)
    decreases n
  {
    if m < n {
      BroughtSize(held, m, n - 1);
      UnionSize(Brought(held, m, n - 1), held[n] - held[n - 1]);
    }
  }

  lemma UnionSize<U>(a: set<U>, b: set<U>)
    ensures |a + b| <= |a| + |b|
  {
    assert a + b == a + (b - a);
    assert |a + (b - a)| == |a| + |b - a|;
    SubsetSize(b - a, b);
  }

  lemma {:induction false} BroughtHolds<U>(held: seq<set<U>>, m: nat, k: nat, n: nat, u: U)
    requires m <= k <= n < |held| && u !in held[m] && u in held[k]
    ensures u in Brought(held, m, n)
    decreases n
  {
    if k < n {
      BroughtHolds(held, m, k, n - 1, u);
    } else if u in held[n - 1] {
      BroughtHolds(held, m, n - 1, n - 1, u);
    }
  }

  // Whatever is requested and was not held must be fetched.
  lemma MustFetch<U>(h: int, trace: seq<U>, held: seq<set<U>>, m: nat, n: nat, wanted: set<U>)
    requires IsPolicy(h, trace, held) && m <= n <= |trace|
    requires forall u | u in wanted :: u in trace[m..n] && u !in held[m]
    ensures Fetches(held, m) + |wanted| <= Fetches(held, n)
  {
    forall u | u in wanted ensures u in Brought(held, m, n) {
      var k :| 0 <= k < n - m && trace[m..n][k] == u;
      assert trace[m + k] == u;
      BroughtHolds(held, m, m + k + 1, n, u);
    }
    BroughtSize(held, m, n);
    SubsetSize(wanted, Brought(held, m, n));
  }

  // From the request at a to the one before n, the first of them just served: all but h
  // of the distinct urls must be fetched.
  lemma AllButHeld<U>(h: int, trace: seq<U>, held: seq<set<U>>, a: nat, n: nat)
    requires IsPolicy(h, trace, held) && a < n <= |trace|
    ensures Fetches(held, a + 1) + |Elements(trace[a..n])| - h <= Fetches(held, n)
    ensures Fetches(held, a + 1) <= Fetches(held, n)
  {
    var all, before := Elements(trace[a..n]), held[a + 1];
    var wanted := all - before;
    forall u | u in wanted ensures u in trace[a + 1..n] {
      var k :| 0 <= k < n - a && trace[a..n][k] == u;
      assert trace[a] in before && k > 0;
      assert trace[a + 1..n][k - 1] == u;
    }
    MustFetch(h, trace, held, a + 1, n, wanted);
    assert all == wanted + (all * before);
    UnionSize(wanted, all * before);
    SubsetSize(all * before, before);
  }

  // From the start every distinct url must be fetched.
  lemma FirstFetches<U>(h: int, trace: seq<U>, held: seq<set<U>>, n: nat)
    requires IsPolicy(h, trace, held) && n <= |trace|
    ensures |Elements(trace[..n])| <= Fetches(held, n)
  {
    assert trace[0..n] == trace[..n];
    MustFetch(h, trace, held, 0, n, Elements(trace[..n]));
  }

  lemma MissesStep<U>(cap: int, trace: seq<U>, i: nat)
    requires cap != 0 && i < |trace|
    ensures Misses(cap, trace[..i + 1]) ==
            Misses(cap, trace[..i]) + if trace[i] in Run(cap, trace[..i]) then 0 else 1
  {
    assert trace[..i + 1][..i] == trace[..i];
  }

  lemma DistinctStep<U>(trace: seq<U>, a: nat, i: nat)
    requires a <= i < |trace|
    ensures Elements(trace[a..i + 1]) == Elements(trace[a..i]) + {trace[i]}
  {
    assert trace[a..i + 1] == trace[a..i] + [trace[i]];
  }

  // The trace up to i falls into `phases` phases, the last starting at a: at most cap
  // misses in each. The other policy has fetched cap + 1 urls by the first request of the
  // second phase, and cap + 1 - h more by that of each later one.
  lemma {:induction false} Phases<U>(cap: int, h: int, trace: seq<U>, held: seq<set<U>>, i: nat)
    returns (a: nat, phases: nat)
    requires 0 < h <= cap && IsPolicy(h, trace, held) && 0 < i <= |trace|
    ensures InPhases(cap, h, trace, held, i, a, phases)
    decreases i
  {
    if i == 1 {
      a, phases := 0, 1;
      MissesStep(cap, trace, 0);
      assert trace[0..1] == [trace[0]] && Elements([trace[0]]) == {trace[0]};
    } else {
      a, phases := Phases(cap, h, trace, held, i - 1);
      a, phases := NextPhase(cap, h, trace, held, i - 1, a, phases);
    }
  }

  ghost predicate InPhases<U>(cap: int, h: int, trace: seq<U>, held: seq<set<U>>, i: nat, a: nat, phases: nat)
    requires cap != 0 && |held| == |trace| + 1
  {
    a < i <= |trace| && phases >= 1 &&
    |Elements(trace[a..i])| <= cap &&
    Misses(cap, trace[..i]) <= Spent(cap, phases) + |Elements(trace[a..i])| &&
    if phases == 1 then a == 0 else Owed(cap, h, phases) <= Fetches(held, a + 1)
  }

  // The misses of all phases before the last one.
  ghost function Spent(cap: int, phases: nat): (n: int)
    ensures cap >= 0 ==> n >= 0
  {
    if phases <= 1 then 0 else Spent(cap, phases - 1) + cap
  }

  // What the other policy has fetched by the first request of the last phase.
  ghost function Owed(cap: int, h: int, phases: nat): (n: int)
    ensures 0 <= h <= cap ==> n >= 0
  {
    if phases <= 2 then cap + 1 else Owed(cap, h, phases - 1) + (cap + 1 - h)
  }

  lemma NextPhase<U>(cap: int, h: int, trace: seq<U>, held: seq<set<U>>, i: nat, a: nat, phases: nat)
    returns (a': nat, phases': nat)
    requires 0 < h <= cap && IsPolicy(h, trace, held) && i < |trace|
    requires InPhases(cap, h, trace, held, i, a, phases)
    ensures InPhases(cap, h, trace, held, i + 1, a', phases')
  {
    a', phases' := a, phases;
    if trace[i] in Elements(trace[a..i]) {
      SamePhaseHit(cap, h, trace, held, i, a, phases);
    } else if |Elements(trace[a..i])| < cap {
      GrowingPhase(cap, h, trace, held, i, a, phases);
    } else {
      FreshPhase(cap, h, trace, held, i, a, phases);
      a', phases' := i, phases + 1;
    }
  }

  lemma SamePhaseHit<U>(cap: int, h: int, trace: seq<U>, held: seq<set<U>>, i: nat, a: nat, phases: nat)
    requires cap > 0 && |held| == |trace| + 1 && i < |trace| && InPhases(cap, h, trace, held, i, a, phases)
    requires trace[i] in Elements(trace[a..i])
    ensures InPhases(cap, h, trace, held, i + 1, a, phases)
  {
    var k :| 0 <= k < i - a && trace[a..i][k] == trace[i];
    HitWithin(cap, trace, a, a + k, i);
    MissesStep(cap, trace, i);
    DistinctStep(trace, a, i);
    assert Elements(trace[a..i]) + {trace[i]} == Elements(trace[a..i]);
  }

  lemma GrowingPhase<U>(cap: int, h: int, trace: seq<U>, held: seq<set<U>>, i: nat, a: nat, phases: nat)
    requires cap > 0 && |held| == |trace| + 1 && i < |trace| && InPhases(cap, h, trace, held, i, a, phases)
    requires trace[i] !in Elements(trace[a..i]) && |Elements(trace[a..i])| < cap
    ensures InPhases(cap, h, trace, held, i + 1, a, phases)
  {
    MissesStep(cap, trace, i);
    DistinctStep(trace, a, i);
    assert |Elements(trace[a..i + 1])| == |Elements(trace[a..i])| + 1;
  }

  lemma FreshPhase<U>(cap: int, h: int, trace: seq<U>, held: seq<set<U>>, i: nat, a: nat, phases: nat)
    requires 0 < h <= cap && IsPolicy(h, trace, held) && i < |trace|
    requires InPhases(cap, h, trace, held, i, a, phases)
    requires trace[i] !in Elements(trace[a..i]) && |Elements(trace[a..i])| == cap
    ensures InPhases(cap, h, trace, held, i + 1, i, phases + 1)
  {
    DistinctStep(trace, a, i);
    MissesStep(cap, trace, i);
    assert trace[i..i + 1] == [trace[i]] && Elements([trace[i]]) == {trace[i]};
    if phases == 1 {
      assert trace[0..i + 1] == trace[..i + 1];
      FirstFetches(h, trace, held, i + 1);
    } else {
      AllButHeld(h, trace, held, a, i + 1);
    }
  }

  // What the phases come to in the end.
  ghost predicate Balance(cap: int, h: int, misses: nat, fetches: nat, phases: nat, last: nat) {
    misses <= Spent(cap, phases) + last &&
    if phases <= 1 then last <= fetches
    else Owed(cap, h, phases) <= fetches && Owed(cap, h, phases) + last - h <= fetches
  }

  lemma FinalBalance<U>(cap: int, h: int, trace: seq<U>, held: seq<set<U>>) returns (phases: nat, last: nat)
    requires 0 < h <= cap && IsPolicy(h, trace, held) && trace != []
    ensures Balance(cap, h, Misses(cap, trace), Fetches(held, |trace|), phases, last)
  {
    var a;
    a, phases := Phases(cap, h, trace, held, |trace|);
    last := |Elements(trace[a..|trace|])|;
    assert trace[..|trace|] == trace;
    if phases == 1 {
      FirstFetches(h, trace, held, |trace|);
    } else {
      AllButHeld(h, trace, held, a, |trace|);
    }
  }

  lemma Bound(cap: nat, h: nat, misses: nat, fetches: nat, phases: nat, last: nat)
    requires 0 < h <= cap && Balance(cap, h, misses, fetches, phases, last)
    ensures (cap + 1 - h) * misses <= cap * fetches
  {
    if phases <= 1 {
      Scale(cap + 1 - h, cap, misses, fetches);
    } else {
      var more := if last <= h then 0 else last - h;
      ManyPhases(cap, h, phases, last, more);
      Scale(cap + 1 - h, cap + 1 - h, misses, Spent(cap, phases) + last);
      Scale(cap, cap, Owed(cap, h, phases) + more, fetches);
    }
  }

  // Against any policy with h places, h at most the capacity: the cache fetches at most
  // cap / (cap + 1 - h) times as often, however the other one chooses.
  lemma Competitive<U>(cap: int, h: int, trace: seq<U>, held: seq<set<U>>)
    requires 0 < h <= cap && IsPolicy(h, trace, held)
    ensures (cap + 1 - h) * Misses(cap, trace) <= cap * Fetches(held, |trace|)
  {
    if trace != [] {
      var phases, last := FinalBalance(cap, h, trace, held);
      Bound(cap, h, Misses(cap, trace), Fetches(held, |trace|), phases, last);
    } else {
      Scale(cap + 1 - h, cap, 0, 0);
    }
  }

  lemma Scale(c: nat, d: nat, x: nat, y: nat)
    requires c <= d && x <= y
    ensures c * x <= d * y
  {
    assert c * x <= c * y;
    assert c * y <= d * y;
  }

  lemma Distribute(c: int, x: int, y: int)
    ensures c * (x + y) == c * x + c * y
  {
  }

  lemma {:induction false} ManyPhases(cap: nat, h: nat, phases: nat, last: nat, more: nat)
    requires 0 < h <= cap && phases >= 2 && last <= h + more
    ensures (cap + 1 - h) * (Spent(cap, phases) + last) <= cap * (Owed(cap, h, phases) + more)
  {
    var d := cap + 1 - h;
    if phases == 2 {
      assert Spent(cap, 2) == Spent(cap, 1) + cap == cap;
      TwoPhases(cap, h, last, more);
    } else {
      ManyPhases(cap, h, phases - 1, last, more);
      Distribute(d, Spent(cap, phases - 1) + last, cap);
      Distribute(cap, Owed(cap, h, phases - 1) + more, d);
    }
  }

  lemma TwoPhases(cap: nat, h: nat, last: nat, more: nat)
    requires 0 < h <= cap && last <= h + more
    ensures (cap + 1 - h) * (cap + last) <= cap * (cap + 1 + more)
  {
    var d := cap + 1 - h;
    Scale(d, d, cap + last, cap + h + more);
    Distribute(d, cap + h, more);
    Scale(d, cap, more, more);
    Distribute(cap, cap + 1, more);
    assert d * (cap + h) == cap * (cap + 1) - h * (h - 1);
    Scale(0, h, h - 1, h - 1);
  }

  // The cache is itself such a policy, and its fetches are its misses.
  ghost function HeldByRun<U>(cap: int, trace: seq<U>): seq<set<U>>
    requires cap != 0
  {
    seq(|trace| + 1, i requires 0 <= i <= |trace| => Elements(Run(cap, trace[..i])))
  }

  lemma {:induction false} RunIsPolicy<U>(cap: int, trace: seq<U>, n: nat)
    requires cap > 0 && n <= |trace|
    ensures IsPolicy(cap, trace, HeldByRun(cap, trace))
    ensures Fetches(HeldByRun(cap, trace), n) == Misses(cap, trace[..n])
    decreases n
  {
    var held := HeldByRun(cap, trace);
    forall i | 0 <= i < |held| ensures |held[i]| <= cap {
      RunMostRecent(cap, trace[..i]);
      FullList(trace[..i], Run(cap, trace[..i]));
      ElementsSize(Run(cap, trace[..i]));
    }
    forall i | 0 <= i < |trace| ensures trace[i] in held[i + 1] {
      assert trace[..i + 1][..i] == trace[..i];
      assert Run(cap, trace[..i + 1])[0] == trace[i];
    }
    if n > 0 {
      RunIsPolicy(cap, trace, n - 1);
      MissesStep(cap, trace, n - 1);
      TouchAdds(cap, trace, n - 1);
    }
  }

  lemma TouchAdds<U>(cap: int, trace: seq<U>, i: nat)
    requires cap > 0 && i < |trace|
    ensures var list, u := Run(cap, trace[..i]), trace[i];
            |Elements(Run(cap, trace[..i + 1])) - Elements(list)| == if u in list then 0 else 1
  {
    var list, u := Run(cap, trace[..i]), trace[i];
    assert trace[..i + 1][..i] == trace[..i];
    var list' := Run(cap, trace[..i + 1]);
    assert list' == Touch(cap, list, u);
    WithoutMembers(list, u);
    if u in list {
      assert Elements(list') - Elements(list) == {};
    } else {
      assert forall v | v in list' :: v == u || v in list;
      assert list'[0] == u;
      assert Elements(list') - Elements(list) == {u};
    }
  }
}
