// The proxy's main loop: every url is looked up, and fetched when it is missing.
module Proxy {
  import opened Collections
  import opened LruTrace
  import opened LruCache

  function Serve(cap: int, list: seq<Entry>, url: string, page: string): seq<Entry> {
    var k := Find(list, url);
    if k < |list| then Promoted(list, k) else Inserted(cap, list, Entry(url, page))
  }

  function Answer(list: seq<Entry>, url: string, page: string): string {
    var k := Find(list, url);
    if k < |list| then list[k].page else page
  }

  // The contents after the requests, when responses[i] is what fetching the i-th
  // url would bring at that moment.
  function Cached(cap: int, requests: seq<string>, responses: seq<string>): seq<Entry>
    requires cap != 0 && |responses| == |requests|
    decreases |requests|
  {
    if requests == [] then []
    else
      var n := |requests| - 1;
      Serve(cap, Cached(cap, requests[..n], responses[..n]), requests[n], responses[n])
  }

  // The pages handed out.
  function Answers(cap: int, requests: seq<string>, responses: seq<string>): (r: seq<string>)
    requires cap != 0 && |responses| == |requests|
    ensures |r| == |requests|
    decreases |requests|
  {
    if requests == [] then []
    else
      var n := |requests| - 1;
      Answers(cap, requests[..n], responses[..n]) +
      [Answer(Cached(cap, requests[..n], responses[..n]), requests[n], responses[n])]
  }

  // The latest request for u that had to be fetched, or -1.
  function LastFetch(cap: int, requests: seq<string>, u: string): (k: int)
    requires cap != 0
    ensures -1 <= k < |requests|
    decreases |requests|
  {
    if requests == [] then -1
    else
      var n := |requests| - 1;
      if requests[n] == u && u !in Run(cap, requests[..n]) then n
      else LastFetch(cap, requests[..n], u)
  }

  lemma HitUrls(list: seq<Entry>, k: nat)
    requires k < |list| && AllDifferent(Urls(list))
    ensures Urls(Promoted(list, k)) == [list[k].url] + LruTrace.Without(Urls(list), list[k].url)
  {
    var urls := Urls(list);
    WithoutAt(urls, k);
    assert urls[k] == list[k].url;
    assert Urls(Promoted(list, k)) == [urls[k]] + (urls[..k] + urls[k + 1..]);
  }

  lemma MissUrls(cap: int, list: seq<Entry>, e: Entry)
    ensures Urls(Inserted(cap, list, e)) ==
            [e.url] + if 0 < |list| == cap then Urls(list)[..|list| - 1] else Urls(list)
  {
  }

  lemma ServeUrls(cap: int, list: seq<Entry>, url: string, page: string)
    requires cap != 0 && AllDifferent(Urls(list))
    ensures Urls(Serve(cap, list, url, page)) == Touch(cap, Urls(list), url)
  {
    var k := Find(list, url);
    if k < |list| {
      HitUrls(list, k);
    } else {
      MissUrls(cap, list, Entry(url, page));
    }
  }

  // The urls in the cache are those the trace calls for, and they are distinct.
  lemma {:induction false} CachedUrls(cap: int, requests: seq<string>, responses: seq<string>)
    requires cap != 0 && |responses| == |requests|
    ensures Urls(Cached(cap, requests, responses)) == Run(cap, requests)
    ensures var list := Cached(cap, requests, responses);
            AllDifferent(Urls(list))
    decreases |requests|
  {
    if requests != [] {
      var n := |requests| - 1;
      CachedUrls(cap, requests[..n], responses[..n]);
      ServeUrls(cap, Cached(cap, requests[..n], responses[..n]), requests[n], responses[n]);
    }
    var list := Cached(cap, requests, responses);
    RunMostRecent(cap, requests);
    FullList(requests, Run(cap, requests));
    forall i, j | 0 <= i < j < |list| ensures list[i].url != list[j].url {
      assert Urls(list)[i] != Urls(list)[j];
    }
  }

  ghost predicate PageOk(cap: int, requests: seq<string>, responses: seq<string>, e: Entry)
    requires cap != 0 && |responses| == |requests|
  {
    var k := LastFetch(cap, requests, e.url);
    k >= 0 && e.page == responses[k]
  }

  lemma PageKept(cap: int, requests: seq<string>, responses: seq<string>, e: Entry)
    requires cap != 0 && |responses| == |requests| > 0
    requires var n := |requests| - 1; PageOk(cap, requests[..n], responses[..n], e)
    requires var n := |requests| - 1; e.url != requests[n] || e.url in Run(cap, requests[..n])
    ensures PageOk(cap, requests, responses, e)
  {
  }

  lemma ServedFrom(cap: int, list: seq<Entry>, url: string, page: string, e: Entry)
    requires e in Serve(cap, list, url, page)
    ensures e in list || (url !in Urls(list) && e == Entry(url, page))
  {
  }

  lemma InUrls(list: seq<Entry>, e: Entry)
    requires e in list
    ensures e.url in Urls(list)
  {
    var i :| 0 <= i < |list| && list[i] == e;
    assert Urls(list)[i] == e.url;
  }

  // Every page in the cache is the one its url's latest fetch brought.
  lemma {:induction false} CachedPages(cap: int, requests: seq<string>, responses: seq<string>, e: Entry)
    requires cap != 0 && |responses| == |requests| && e in Cached(cap, requests, responses)
    ensures PageOk(cap, requests, responses, e)
    decreases |requests|
  {
    var n := |requests| - 1;
    var list := Cached(cap, requests[..n], responses[..n]);
    CachedUrls(cap, requests[..n], responses[..n]);
    ServedFrom(cap, list, requests[n], responses[n], e);
    if e in list {
      InUrls(list, e);
      CachedPages(cap, requests[..n], responses[..n], e);
      PageKept(cap, requests, responses, e);
    } else {
      PageFetched(cap, requests, responses, e);
    }
  }

  lemma LastAnswer(cap: int, requests: seq<string>, responses: seq<string>)
    requires cap != 0 && |responses| == |requests| > 0
    ensures var n := |requests| - 1;
            PageOk(cap, requests, responses, Entry(requests[n], Answers(cap, requests, responses)[n]))
  {
    var n := |requests| - 1;
    var list := Cached(cap, requests[..n], responses[..n]);
    var e := Entry(requests[n], Answer(list, requests[n], responses[n]));
    CachedUrls(cap, requests[..n], responses[..n]);
    if Find(list, requests[n]) < |list| {
      assert e == list[Find(list, requests[n])];
      CachedPages(cap, requests[..n], responses[..n], e);
      PageKept(cap, requests, responses, e);
    } else {
      PageFetched(cap, requests, responses, e);
    }
  }

  lemma PageFetched(cap: int, requests: seq<string>, responses: seq<string>, e: Entry)
    requires cap != 0 && |responses| == |requests| > 0
    requires var n := |requests| - 1; e == Entry(requests[n], responses[n]) && e.url !in Run(cap, requests[..n])
    ensures PageOk(cap, requests, responses, e)
  {
  }

  lemma {:induction false} AnswerPrefix(cap: int, requests: seq<string>, responses: seq<string>, i: nat)
    requires cap != 0 && |responses| == |requests| && i < |requests|
    ensures Answers(cap, requests, responses)[i] == Answers(cap, requests[..i + 1], responses[..i + 1])[i]
    decreases |requests|
  {
    var n := |requests| - 1;
    if i < n {
      AnswerPrefix(cap, requests[..n], responses[..n], i);
      assert requests[..n][..i + 1] == requests[..i + 1] && responses[..n][..i + 1] == responses[..i + 1];
    } else {
      assert requests[..i + 1] == requests && responses[..i + 1] == responses;
    }
  }

  // Every answer is what the latest fetch of that url brought.
  lemma AnswersFetched(cap: int, requests: seq<string>, responses: seq<string>, i: nat)
    requires cap != 0 && |responses| == |requests| && i < |requests|
    ensures var k := LastFetch(cap, requests[..i + 1], requests[i]);
            k >= 0 && Answers(cap, requests, responses)[i] == responses[k]
  {
    AnswerPrefix(cap, requests, responses, i);
    LastAnswer(cap, requests[..i + 1], responses[..i + 1]);
  }

  // It is a request for u that found u missing, and every later one for u found it held.
  lemma {:induction false} LastFetchIs(cap: int, requests: seq<string>, u: string)
    requires cap != 0
    ensures var k := LastFetch(cap, requests, u);
            (k >= 0 ==> requests[k] == u && u !in Run(cap, requests[..k])) &&
            forall j: nat | k < j < |requests| && requests[j] == u :: u in Run(cap, requests[..j])
    decreases |requests|
  {
    if requests != [] {
      var n := |requests| - 1;
      var k := LastFetch(cap, requests, u);
      LastFetchIs(cap, requests[..n], u);
      assert k >= 0 ==> requests[..n][..k] == requests[..k];
      forall j: nat | k < j < |requests| && requests[j] == u ensures u in Run(cap, requests[..j]) {
        if j < n {
          assert requests[..n][j] == u && requests[..n][..j] == requests[..j];
        }
      }
    }
  }

  // As long as the pages behind the urls do not change, nobody can tell the cache
  // is there.
  lemma Transparent(cap: int, requests: seq<string>, responses: seq<string>, site: map<string, string>, i: nat)
    requires cap != 0 && |responses| == |requests| && i < |requests|
    requires forall j | 0 <= j < |requests| :: requests[j] in site && responses[j] == site[requests[j]]
    ensures Answers(cap, requests, responses)[i] == site[requests[i]]
  {
    AnswersFetched(cap, requests, responses, i);
    LastFetchIs(cap, requests[..i + 1], requests[i]);
    var k := LastFetch(cap, requests[..i + 1], requests[i]);
    assert requests[..i + 1][k] == requests[k];
  }

  // A page that cannot be taken for the answer to a miss.
  ghost predicate Usable(page: string) {
    page != "-1"
  }

  ghost predicate Plain(list: seq<Entry>) {
    forall e | e in list :: Usable(e.page)
  }

  ghost predicate AllUsable(pages: seq<string>) {
    forall i | 0 <= i < |pages| :: Usable(pages[i])
  }

  method ServeOne(cache: Cache, url: string, page: string) returns (ans: string, fetched: bool)
    requires cache.Valid() && Plain(cache.Contents()) && Usable(page)
    modifies cache`nodes, cache`m, cache.Repr()`prev, cache.Repr()`next
    ensures cache.Valid() && fresh(cache.Repr() - old(cache.Repr()))
    ensures cache.Contents() == Serve(cache.cap, old(cache.Contents()), url, page)
    ensures ans == Answer(old(cache.Contents()), url, page)
    ensures fetched <==> url !in old(Urls(cache.Contents()))
  {
    var gt := cache.Get(url);
    ghost var k := Find(old(cache.Contents()), url);
    assert k < |old(cache.Contents())| ==> old(cache.Contents())[k] in old(cache.Contents());
    fetched := gt == ABSENT;
    if gt == ABSENT {
      ans := page;
      cache.Put(url, ans);
    } else {
      ans := gt;
    }
  }

  // One turn of the main loop.
  method ServeNext(cache: Cache, requests: seq<string>, responses: seq<string>, i: nat,
                   answers: seq<string>, fetches: nat)
    returns (answers': seq<string>, fetches': nat)
    requires cache.Valid() && i < |requests| == |responses| && AllUsable(responses)
    requires Progress(cache.cap, requests, responses, i, cache.Contents(), answers, fetches)
    modifies cache`nodes, cache`m, cache.Repr()`prev, cache.Repr()`next
    ensures cache.Valid() && fresh(cache.Repr() - old(cache.Repr()))
    ensures Progress(cache.cap, requests, responses, i + 1, cache.Contents(), answers', fetches')
  {
    ProgressStep(cache.cap, requests, responses, i, cache.Contents(), answers, fetches);
    var ans, fetched := ServeOne(cache, requests[i], responses[i]);
    answers', fetches' := answers + [ans], fetches + if fetched then 1 else 0;
  }

  // The main loop, for any requests and whatever the servers respond.
  method ServeAll(cache: Cache, requests: seq<string>, responses: seq<string>)
    returns (answers: seq<string>, fetches: nat)
    requires cache.Valid() && cache.Contents() == [] && |responses| == |requests|
    requires AllUsable(responses)
    modifies cache`nodes, cache`m, cache.Repr()`prev, cache.Repr()`next
    ensures cache.Valid()
    ensures cache.Contents() == Cached(cache.cap, requests, responses)
    ensures answers == Answers(cache.cap, requests, responses)
    ensures fetches == Misses(cache.cap, requests)
  {
    answers, fetches := [], 0;
    ghost var cap := cache.cap;
    for i := 0 to |requests|
      invariant cache.Valid() && fresh(cache.Repr() - old(cache.Repr())) && cache.cap == cap
      invariant Progress(cap, requests, responses, i, cache.Contents(), answers, fetches)
    {
      answers, fetches := ServeNext(cache, requests, responses, i, answers, fetches);
    }
    ProgressEnd(cap, requests, responses, cache.Contents(), answers, fetches);
  }

  // Where the loop stands after i requests.
  ghost predicate Progress(cap: int, requests: seq<string>, responses: seq<string>, i: nat,
                           list: seq<Entry>, answers: seq<string>, fetches: nat)
    requires cap != 0 && |responses| == |requests| && i <= |requests|
  {
    list == Cached(cap, requests[..i], responses[..i]) &&
    answers == Answers(cap, requests[..i], responses[..i]) &&
    fetches == Misses(cap, requests[..i])
  }

  lemma ProgressStep(cap: int, requests: seq<string>, responses: seq<string>, i: nat,
                     list: seq<Entry>, answers: seq<string>, fetches: nat)
    requires cap != 0 && |responses| == |requests| && i < |requests| && AllUsable(responses)
    requires Progress(cap, requests, responses, i, list, answers, fetches)
    ensures Plain(list) && Usable(responses[i])
    ensures Progress(cap, requests, responses, i + 1, Serve(cap, list, requests[i], responses[i]),
                     answers + [Answer(list, requests[i], responses[i])],
                     fetches + if requests[i] !in Urls(list) then 1 else 0)
  {
    CachedPlain(cap, requests[..i], responses[..i]);
    CachedUrls(cap, requests[..i], responses[..i]);
    assert requests[..i + 1][..i] == requests[..i] && responses[..i + 1][..i] == responses[..i];
  }

  lemma ProgressEnd(cap: int, requests: seq<string>, responses: seq<string>,
                    list: seq<Entry>, answers: seq<string>, fetches: nat)
    requires cap != 0 && |responses| == |requests|
    requires Progress(cap, requests, responses, |requests|, list, answers, fetches)
    ensures list == Cached(cap, requests, responses) && answers == Answers(cap, requests, responses)
    ensures fetches == Misses(cap, requests)
  {
    assert requests[..|requests|] == requests && responses[..|requests|] == responses;
  }

  lemma CachedPlain(cap: int, requests: seq<string>, responses: seq<string>)
    requires cap != 0 && |responses| == |requests| && AllUsable(responses)
    ensures Plain(Cached(cap, requests, responses))
  {
    forall e | e in Cached(cap, requests, responses) ensures Usable(e.page) {
      CachedPages(cap, requests, responses, e);
    }
  }
}
