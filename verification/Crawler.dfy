/**
 The web crawler's frontier: a breadth-first search bounded in depth and in
 pages, with duplicates removed when a URL is taken from the queue.
 */
module Crawler {
  import opened Pages
  import opened Prelude

  function Max(a: int, b: int): int {
    if a >= b then a else b
  }

  class WebCrawler {
    const web: Web
    var pageCache: map<Url, string>

    constructor (web: Web)
      ensures this.web == web && pageCache == map[]
    {
      this.web := web;
      pageCache := map[];
    }

    // -------------------------------------------------------------- the state of the search

    /** What is known of the pages emitted so far, each with its depth. */
    ghost predicate Sound(allowed: set<string>, seeds: seq<Url>, emitted: seq<Entry>) {
      && (forall e | e in emitted :: web.AtDistance(allowed, seeds, e.url, e.depth))
      && (forall i, j | 0 <= i < j < |emitted| ::
            emitted[i].url != emitted[j].url && emitted[i].depth <= emitted[j].depth)
    }

    /** `u` was emitted at depth at most `n`. */
    predicate EmittedBy(emitted: seq<Entry>, u: Url, n: int) {
      exists e | e in emitted :: e.url == u && e.depth <= n
    }

    /** `u` waits in the queue at depth at most `n`. */
    predicate WaitingBy(queue: seq<Entry>, u: Url, n: int) {
      exists e | e in queue :: e.url == u && e.depth <= n
    }

    /** Everything a page's links or the seeds lead to has been dealt with or is waiting early enough. */
    ghost predicate Covered(allowed: set<string>, seeds: seq<Url>, maxDepth: int, queue: seq<Entry>,
                            emitted: seq<Entry>) {
      && (forall u | u in seeds && web.Open(allowed, u) :: EmittedBy(emitted, u, 0) || WaitingBy(queue, u, 0))
      && (forall e, u | e in emitted && e.depth < maxDepth && u in web.Links(e.url) && web.Open(allowed, u) ::
            EmittedBy(emitted, u, e.depth + 1) || WaitingBy(queue, u, e.depth + 1))
    }

    /** An entry is a seed, or a link of a page emitted one depth up. */
    ghost predicate Found(seeds: seq<Url>, emitted: seq<Entry>, e: Entry) {
      if e.depth == 0 then e.url in seeds
      else exists p | p in emitted :: p.depth == e.depth - 1 && e.url in web.Links(p.url)
    }

    /** The queue is in order of depth, holds at most two depths at once, and starts no higher than what was emitted. */
    ghost predicate Frontier(seeds: seq<Url>, maxDepth: int, queue: seq<Entry>, emitted: seq<Entry>) {
      && (forall e | e in queue :: e.depth <= Max(0, maxDepth) && Found(seeds, emitted, e))
      && (forall i, j | 0 <= i < j < |queue| :: queue[i].depth <= queue[j].depth)
      && (queue != [] ==> forall e | e in queue :: e.depth <= queue[0].depth + 1)
      && (queue != [] ==> forall p | p in emitted :: p.depth <= queue[0].depth)
    }

    /** A page within the depth bound is emitted in time unless something at least as close still waits. */
    lemma ReachedEmittedOrWaiting(allowed: set<string>, seeds: seq<Url>, maxDepth: int,
                                  queue: seq<Entry>, emitted: seq<Entry>, u: Url, n: nat)
      requires Covered(allowed, seeds, maxDepth, queue, emitted)
      requires web.Reached(allowed, seeds, u, n) && n <= Max(0, maxDepth)
      ensures EmittedBy(emitted, u, n) || exists e | e in queue :: e.depth <= n
      decreases n
    {
      if n > 0 {
        var p :| web.Reached(allowed, seeds, p, n - 1) && u in web.Links(p);
        ReachedEmittedOrWaiting(allowed, seeds, maxDepth, queue, emitted, p, n - 1);
      }
    }

    /** Whatever is strictly closer than an emitted page was emitted before it. */
    ghost predicate CloserFirst(allowed: set<string>, seeds: seq<Url>, emitted: seq<Entry>) {
      forall i, v, n: nat | 0 <= i < |emitted| && n < emitted[i].depth && web.Reached(allowed, seeds, v, n) ::
        v in Urls(emitted[..i])
    }

    function Urls(emitted: seq<Entry>): seq<Url> {
      seq(|emitted|, i requires 0 <= i < |emitted| => emitted[i].url)
    }

    ghost predicate Searching(allowed: set<string>, seeds: seq<Url>, maxDepth: int,
                              queue: seq<Entry>, seen: set<Url>, emitted: seq<Entry>) {
      && Sound(allowed, seeds, emitted)
      && CloserFirst(allowed, seeds, emitted)
      && Covered(allowed, seeds, maxDepth, queue, emitted)
      && Frontier(seeds, maxDepth, queue, emitted)
      && SeenAndEmitted(allowed, maxDepth, seen, emitted)
    }

    /** Emitted pages have been seen, and open pages that have been seen were emitted. */
    ghost predicate SeenAndEmitted(allowed: set<string>, maxDepth: int, seen: set<Url>, emitted: seq<Entry>) {
      && (forall e | e in emitted :: e.url in seen && e.depth <= Max(0, maxDepth))
      && (forall u | u in seen && web.Open(allowed, u) :: WasEmitted(emitted, u))
    }

    predicate WasEmitted(emitted: seq<Entry>, u: Url) {
      exists e | e in emitted :: e.url == u
    }

    lemma SkipCovered(allowed: set<string>, seeds: seq<Url>, maxDepth: int, queue: seq<Entry>, emitted: seq<Entry>)
      requires Covered(allowed, seeds, maxDepth, queue, emitted) && queue != []
      requires web.Open(allowed, queue[0].url) ==> EmittedBy(emitted, queue[0].url, queue[0].depth)
      ensures Covered(allowed, seeds, maxDepth, queue[1..], emitted)
    {
      forall u, n | WaitingBy(queue, u, n) && web.Open(allowed, u)
        ensures EmittedBy(emitted, u, n) || WaitingBy(queue[1..], u, n)
      {
        var e :| e in queue && e.url == u && e.depth <= n;
        assert queue == [queue[0]] + queue[1..];
        assert e == queue[0] || e in queue[1..];
      }
    }

    lemma TailFrontier(seeds: seq<Url>, maxDepth: int, queue: seq<Entry>, emitted: seq<Entry>)
      requires Frontier(seeds, maxDepth, queue, emitted) && queue != []
      ensures Frontier(seeds, maxDepth, queue[1..], emitted)
    {
    }

    /** Taking an entry that needs no visit: its page is closed or already emitted. */
    lemma SkipHead(allowed: set<string>, seeds: seq<Url>, maxDepth: int,
                   queue: seq<Entry>, seen: set<Url>, emitted: seq<Entry>)
      requires Searching(allowed, seeds, maxDepth, queue, seen, emitted) && queue != []
      requires queue[0].url in seen || !web.Open(allowed, queue[0].url)
      ensures Searching(allowed, seeds, maxDepth, queue[1..], seen, emitted)
      ensures Searching(allowed, seeds, maxDepth, queue[1..], seen + {queue[0].url}, emitted)
    {
      if web.Open(allowed, queue[0].url) {
        assert WasEmitted(emitted, queue[0].url) && queue[0] in queue;
        var e :| e in emitted && e.url == queue[0].url;
        assert EmittedBy(emitted, queue[0].url, queue[0].depth);
      }
      SkipCovered(allowed, seeds, maxDepth, queue, emitted);
      TailFrontier(seeds, maxDepth, queue, emitted);
    }

    lemma CloserEmitted(allowed: set<string>, seeds: seq<Url>, maxDepth: int,
                        queue: seq<Entry>, emitted: seq<Entry>, v: Url, n: nat)
      requires Covered(allowed, seeds, maxDepth, queue, emitted) && Frontier(seeds, maxDepth, queue, emitted)
      requires queue != [] && n < queue[0].depth && web.Reached(allowed, seeds, v, n)
      ensures v in Urls(emitted)
    {
      assert queue[0] in queue;
      ReachedEmittedOrWaiting(allowed, seeds, maxDepth, queue, emitted, v, n);
      assert forall e | e in queue :: queue[0].depth <= e.depth;
      var e :| e in emitted && e.url == v && e.depth <= n;
      var i :| 0 <= i < |emitted| && emitted[i] == e;
      assert Urls(emitted)[i] == v;
    }

    lemma HeadReached(allowed: set<string>, seeds: seq<Url>, maxDepth: int, queue: seq<Entry>, emitted: seq<Entry>)
      requires Sound(allowed, seeds, emitted) && Frontier(seeds, maxDepth, queue, emitted)
      requires queue != [] && web.Open(allowed, queue[0].url)
      ensures web.Reached(allowed, seeds, queue[0].url, queue[0].depth)
    {
      var head := queue[0];
      assert head in queue && Found(seeds, emitted, head);
      if head.depth > 0 {
        var p :| p in emitted && p.depth == head.depth - 1 && head.url in web.Links(p.url);
        assert web.AtDistance(allowed, seeds, p.url, p.depth);
      }
    }

    /** The first time an open page comes up, it is at its true distance and everything closer has been emitted. */
    lemma HeadAtDistance(allowed: set<string>, seeds: seq<Url>, maxDepth: int,
                         queue: seq<Entry>, seen: set<Url>, emitted: seq<Entry>)
      requires Searching(allowed, seeds, maxDepth, queue, seen, emitted) && queue != []
      requires queue[0].url !in seen && web.Open(allowed, queue[0].url)
      ensures web.AtDistance(allowed, seeds, queue[0].url, queue[0].depth)
      ensures forall v, n: nat | n < queue[0].depth && web.Reached(allowed, seeds, v, n) :: v in Urls(emitted)
    {
      HeadReached(allowed, seeds, maxDepth, queue, emitted);
      forall v, n: nat | n < queue[0].depth && web.Reached(allowed, seeds, v, n)
        ensures v in Urls(emitted) && v in seen
      {
        CloserEmitted(allowed, seeds, maxDepth, queue, emitted, v, n);
        var i :| 0 <= i < |Urls(emitted)| && Urls(emitted)[i] == v;
        assert emitted[i] in emitted;
      }
    }

    /** The links of a page that have not been visited, as entries. */
    function NewEntries(links: seq<Url>, seen: set<Url>, depth: nat): (r: seq<Entry>)
      ensures forall k | 0 <= k < |r| :: r[k].depth == depth
    {
      if links == [] then [] else
      NewEntries(links[..|links| - 1], seen, depth)
      + if links[|links| - 1] !in seen then [Entry(links[|links| - 1], depth)] else []
    }

    lemma NewEntriesSnoc(links: seq<Url>, i: nat, seen: set<Url>, depth: nat)
      requires i < |links|
      ensures NewEntries(links[..i + 1], seen, depth) ==
              NewEntries(links[..i], seen, depth) + if links[i] !in seen then [Entry(links[i], depth)] else []
    {
      assert links[..i + 1][..i] == links[..i];
    }

    lemma {:induction false} NewEntriesMembers(links: seq<Url>, seen: set<Url>, depth: nat, e: Entry)
      ensures e in NewEntries(links, seen, depth) <==> e.depth == depth && e.url in links && e.url !in seen
    {
      if links != [] {
        NewEntriesMembers(links[..|links| - 1], seen, depth, e);
        assert links == links[..|links| - 1] + [links[|links| - 1]];
      }
    }

    /** The queue after visiting its head: unvisited links join at the back while depth allows. */
    function Visited(queue: seq<Entry>, seen: set<Url>, maxDepth: int): seq<Entry>
      requires queue != []
    {
      var head := queue[0];
      queue[1..]
      + if head.depth < maxDepth then NewEntries(web.Links(head.url), seen + {head.url}, head.depth + 1) else []
    }

    lemma VisitFrontier(seeds: seq<Url>, maxDepth: int, queue: seq<Entry>, seen: set<Url>, emitted: seq<Entry>)
      requires Frontier(seeds, maxDepth, queue, emitted) && queue != []
      ensures Frontier(seeds, maxDepth, Visited(queue, seen, maxDepth), emitted + [queue[0]])
    {
      var head, after := queue[0], Visited(queue, seen, maxDepth);
      forall e | e in after
        ensures head.depth <= e.depth <= head.depth + 1 && e.depth <= Max(0, maxDepth)
        ensures Found(seeds, emitted + [head], e)
      {
        VisitedEntry(seeds, maxDepth, queue, seen, emitted, e);
      }
      VisitedInOrder(seeds, maxDepth, queue, seen, emitted);
      if after != [] { assert after[0] in after; }
    }

    lemma VisitedInOrder(seeds: seq<Url>, maxDepth: int, queue: seq<Entry>, seen: set<Url>, emitted: seq<Entry>)
      requires Frontier(seeds, maxDepth, queue, emitted) && queue != []
      ensures var after := Visited(queue, seen, maxDepth);
        forall i, j | 0 <= i < j < |after| :: after[i].depth <= after[j].depth
    {
      var after := Visited(queue, seen, maxDepth);
      var n := |queue| - 1;
      forall k | 0 <= k < n ensures after[k] == queue[k + 1] && after[k].depth <= queue[0].depth + 1 {
        assert queue[k + 1] in queue;
      }
      forall k | n <= k < |after| ensures after[k].depth == queue[0].depth + 1 {
        assert after[k] == after[n..][k - n];
      }
    }

    lemma VisitedEntry(seeds: seq<Url>, maxDepth: int, queue: seq<Entry>, seen: set<Url>, emitted: seq<Entry>, e: Entry)
      requires Frontier(seeds, maxDepth, queue, emitted) && queue != [] && e in Visited(queue, seen, maxDepth)
      ensures queue[0].depth <= e.depth <= queue[0].depth + 1 && e.depth <= Max(0, maxDepth)
      ensures Found(seeds, emitted + [queue[0]], e)
    {
      var head := queue[0];
      if e in queue[1..] {
        assert e in queue && Found(seeds, emitted, e);
        if e.depth > 0 {
          var p :| p in emitted && p.depth == e.depth - 1 && e.url in web.Links(p.url);
          assert p in emitted + [head];
        }
      } else {
        NewEntriesMembers(web.Links(head.url), seen + {head.url}, head.depth + 1, e);
        assert head in emitted + [head];
      }
    }

    lemma VisitCovered(allowed: set<string>, seeds: seq<Url>, maxDepth: int,
                       queue: seq<Entry>, seen: set<Url>, emitted: seq<Entry>)
      requires Covered(allowed, seeds, maxDepth, queue, emitted) && queue != []
      requires forall u | u in seen && web.Open(allowed, u) :: EmittedBy(emitted, u, queue[0].depth)
      ensures Covered(allowed, seeds, maxDepth, Visited(queue, seen, maxDepth), emitted + [queue[0]])
    {
      var head := queue[0];
      var after, more := Visited(queue, seen, maxDepth), emitted + [head];
      forall u, n | EmittedBy(emitted, u, n) ensures EmittedBy(more, u, n) { StillEmitted(emitted, head, u, n); }
      forall u, n | WaitingBy(queue, u, n) ensures EmittedBy(more, u, n) || WaitingBy(after, u, n) {
        HeadOrLater(queue, after[|queue| - 1..], emitted, u, n);
        assert after == queue[1..] + after[|queue| - 1..];
      }
      forall u | u in web.Links(head.url) && web.Open(allowed, u) && head.depth < maxDepth
        ensures EmittedBy(more, u, head.depth + 1) || WaitingBy(after, u, head.depth + 1)
      {
        if u in seen {
          StillEmitted(emitted, head, u, head.depth);
        } else {
          LinkWaits(queue, seen, maxDepth, emitted, u);
        }
      }
      forall e, u | e in more && e.depth < maxDepth && u in web.Links(e.url) && web.Open(allowed, u)
        ensures EmittedBy(more, u, e.depth + 1) || WaitingBy(after, u, e.depth + 1)
      {
        if e != head { assert e in emitted; }
      }
    }

    lemma StillEmitted(emitted: seq<Entry>, head: Entry, u: Url, n: nat)
      requires EmittedBy(emitted, u, n)
      ensures EmittedBy(emitted + [head], u, n) && EmittedBy(emitted + [head], u, n + 1)
    {
      var e :| e in emitted && e.url == u && e.depth <= n;
      assert e in emitted + [head];
    }

    lemma HeadOrLater(queue: seq<Entry>, added: seq<Entry>, emitted: seq<Entry>, u: Url, n: nat)
      requires queue != [] && WaitingBy(queue, u, n)
      ensures EmittedBy(emitted + [queue[0]], u, n) || WaitingBy(queue[1..] + added, u, n)
    {
      var e :| e in queue && e.url == u && e.depth <= n;
      assert queue == [queue[0]] + queue[1..];
      assert e in emitted + [queue[0]] || e in queue[1..] + added;
    }

    /** A link not seen before waits one depth further down, if it is not the page itself. */
    lemma LinkWaits(queue: seq<Entry>, seen: set<Url>, maxDepth: int, emitted: seq<Entry>, u: Url)
      requires queue != [] && u in web.Links(queue[0].url) && u !in seen && queue[0].depth < maxDepth
      ensures EmittedBy(emitted + [queue[0]], u, queue[0].depth + 1)
              || WaitingBy(Visited(queue, seen, maxDepth), u, queue[0].depth + 1)
    {
      var head := queue[0];
      if u == head.url {
        assert head in emitted + [head];
      } else {
        NewEntriesMembers(web.Links(head.url), seen + {head.url}, head.depth + 1, Entry(u, head.depth + 1));
        assert Entry(u, head.depth + 1) in Visited(queue, seen, maxDepth);
      }
    }

    lemma VisitHead(allowed: set<string>, seeds: seq<Url>, maxDepth: int,
                    queue: seq<Entry>, seen: set<Url>, emitted: seq<Entry>)
      requires Searching(allowed, seeds, maxDepth, queue, seen, emitted) && queue != []
      requires queue[0].url !in seen && web.Open(allowed, queue[0].url)
      ensures Searching(allowed, seeds, maxDepth, Visited(queue, seen, maxDepth),
                        seen + {queue[0].url}, emitted + [queue[0]])
    {
      var head, more := queue[0], emitted + [queue[0]];
      assert head in queue;
      HeadAtDistance(allowed, seeds, maxDepth, queue, seen, emitted);
      VisitFrontier(seeds, maxDepth, queue, seen, emitted);
      forall u | u in seen && web.Open(allowed, u) ensures EmittedBy(emitted, u, head.depth) {
        assert WasEmitted(emitted, u);
        var e :| e in emitted && e.url == u;
      }
      VisitCovered(allowed, seeds, maxDepth, queue, seen, emitted);
      VisitSound(allowed, seeds, maxDepth, queue, emitted, seen);
      VisitSeen(allowed, maxDepth, seen, emitted, head);
    }

    lemma VisitSeen(allowed: set<string>, maxDepth: int, seen: set<Url>, emitted: seq<Entry>, head: Entry)
      requires SeenAndEmitted(allowed, maxDepth, seen, emitted) && head.depth <= Max(0, maxDepth)
      ensures SeenAndEmitted(allowed, maxDepth, seen + {head.url}, emitted + [head])
    {
      assert head in emitted + [head];
      forall u | u in seen + {head.url} && web.Open(allowed, u) ensures WasEmitted(emitted + [head], u) {
        if u != head.url {
          assert WasEmitted(emitted, u);
          var e :| e in emitted && e.url == u;
          assert e in emitted + [head];
        }
      }
    }

    lemma VisitSound(allowed: set<string>, seeds: seq<Url>, maxDepth: int,
                     queue: seq<Entry>, emitted: seq<Entry>, seen: set<Url>)
      requires Sound(allowed, seeds, emitted) && CloserFirst(allowed, seeds, emitted)
      requires Frontier(seeds, maxDepth, queue, emitted) && queue != []
      requires queue[0].url !in seen && forall e | e in emitted :: e.url in seen
      requires web.AtDistance(allowed, seeds, queue[0].url, queue[0].depth)
      requires forall v, n: nat | n < queue[0].depth && web.Reached(allowed, seeds, v, n) :: v in Urls(emitted)
      ensures Sound(allowed, seeds, emitted + [queue[0]]) && CloserFirst(allowed, seeds, emitted + [queue[0]])
    {
      var more := emitted + [queue[0]];
      assert queue[0] in queue && forall i | 0 <= i < |emitted| :: emitted[i] in emitted;
      forall i, v, n: nat | 0 <= i < |more| && n < more[i].depth && web.Reached(allowed, seeds, v, n)
        ensures v in Urls(more[..i])
      {
        if i < |emitted| {
          assert more[..i] == emitted[..i] && more[i] == emitted[i];
        } else {
          assert more[..i] == emitted;
        }
      }
    }

    // -------------------------------------------------------------- discover

    function Allowed(seeds: seq<Url>, allowedDomains: seq<string>): set<string> {
      if allowedDomains != [] then set d | d in allowedDomains else set s | s in seeds :: web.domain(s)
    }

    /** The open pages within the depth bound. */
    ghost predicate Within(allowed: set<string>, seeds: seq<Url>, maxDepth: int, u: Url) {
      exists n: nat :: n <= Max(0, maxDepth) && web.Reached(allowed, seeds, u, n)
    }

    function Content(u: Url): string {
      if web.get(u).Some? then web.get(u).value.content else ""
    }

    /** The page cache once the emitted pages have been stored in it. */
    function CacheAfter(cache: map<Url, string>, emitted: seq<Entry>): map<Url, string> {
      if emitted == [] then cache
      else var u := emitted[|emitted| - 1].url; CacheAfter(cache, emitted[..|emitted| - 1])[u := Content(u)]
    }

    lemma CachedOneMore(cache: map<Url, string>, emitted: seq<Entry>, head: Entry)
      ensures CacheAfter(cache, emitted + [head]) == CacheAfter(cache, emitted)[head.url := Content(head.url)]
    {
      assert (emitted + [head])[..|emitted|] == emitted;
    }

    /** Every emitted page can be fetched from the cache, and nothing else in it has changed. */
    lemma {:induction false} CacheHolds(cache: map<Url, string>, emitted: seq<Entry>, u: Url)
      ensures u in Urls(emitted) ==> u in CacheAfter(cache, emitted) && CacheAfter(cache, emitted)[u] == Content(u)
      ensures u !in Urls(emitted) ==>
                (u in CacheAfter(cache, emitted) <==> u in cache)
                && (u in cache ==> CacheAfter(cache, emitted)[u] == cache[u])
    {
      if emitted != [] {
        var shorter := emitted[..|emitted| - 1];
        CacheHolds(cache, shorter, u);
        assert Urls(emitted) == Urls(shorter) + [emitted[|emitted| - 1].url];
      }
    }

    lemma EmittedIsCached(allowed: set<string>, seeds: seq<Url>, cache: map<Url, string>, emitted: seq<Entry>, e: Entry)
      requires Sound(allowed, seeds, emitted) && e in emitted
      ensures var after := CacheAfter(cache, emitted);
        e.url in after && web.get(e.url).Some? && after[e.url] == web.get(e.url).value.content
    {
      var i :| 0 <= i < |emitted| && emitted[i] == e;
      assert Urls(emitted)[i] == e.url;
      CacheHolds(cache, emitted, e.url);
      assert web.AtDistance(allowed, seeds, e.url, e.depth);
    }

    lemma AllCached(allowed: set<string>, seeds: seq<Url>, cache: map<Url, string>, emitted: seq<Entry>)
      requires Sound(allowed, seeds, emitted)
      ensures var after := CacheAfter(cache, emitted);
        forall e | e in emitted :: e.url in after && web.get(e.url).Some?
                                   && after[e.url] == web.get(e.url).value.content
    {
      forall e | e in emitted
        ensures var after := CacheAfter(cache, emitted);
          e.url in after && web.get(e.url).Some? && after[e.url] == web.get(e.url).value.content
      {
        EmittedIsCached(allowed, seeds, cache, emitted, e);
      }
    }

    /** No seeds, no pages. */
    lemma {:induction false} NothingReached(allowed: set<string>, u: Url, n: nat)
      ensures !web.Reached(allowed, [], u, n)
      decreases n
    {
      if n > 0 && web.Reached(allowed, [], u, n) {
        var p :| web.Reached(allowed, [], p, n - 1) && u in web.Links(p);
        NothingReached(allowed, p, n - 1);
      }
    }

    lemma NothingWithin(allowed: set<string>, maxDepth: int)
      ensures forall u :: !Within(allowed, [], maxDepth, u)
    {
      forall u ensures !Within(allowed, [], maxDepth, u) {
        forall n: nat ensures !web.Reached(allowed, [], u, n) { NothingReached(allowed, u, n); }
      }
    }

    lemma StartSearching(allowed: set<string>, seeds: seq<Url>, maxDepth: int, queue: seq<Entry>)
      requires |queue| == |seeds| && forall i | 0 <= i < |seeds| :: queue[i] == Entry(seeds[i], 0)
      ensures Searching(allowed, seeds, maxDepth, queue, {}, [])
    {
      forall u | u in seeds ensures WaitingBy(queue, u, 0) {
        var i :| 0 <= i < |seeds| && seeds[i] == u;
        assert queue[i] in queue;
      }
      forall e | e in queue ensures e.depth == 0 && Found(seeds, [], e) {
        var i :| 0 <= i < |queue| && queue[i] == e;
      }
    }

    /** Once the queue is empty, exactly the pages within the bound have been emitted. */
    lemma EmptyQueueIsComplete(allowed: set<string>, seeds: seq<Url>, maxDepth: int, seen: set<Url>,
                               emitted: seq<Entry>, u: Url)
      requires Searching(allowed, seeds, maxDepth, [], seen, emitted)
      ensures u in Urls(emitted) <==> Within(allowed, seeds, maxDepth, u)
    {
      if u in Urls(emitted) {
        var i :| 0 <= i < |emitted| && Urls(emitted)[i] == u;
        assert emitted[i] in emitted;
        assert web.AtDistance(allowed, seeds, u, emitted[i].depth);
      }
      if Within(allowed, seeds, maxDepth, u) {
        var n: nat :| n <= Max(0, maxDepth) && web.Reached(allowed, seeds, u, n);
        ReachedEmittedOrWaiting(allowed, seeds, maxDepth, [], emitted, u, n);
        var e :| e in emitted && e.url == u && e.depth <= n;
        var i :| 0 <= i < |emitted| && emitted[i] == e;
        assert Urls(emitted)[i] == u;
      }
    }

    /** What the search amounts to when it ends, with an empty queue or without. */
    lemma SearchEnds(allowed: set<string>, seeds: seq<Url>, maxDepth: int, left: seq<Entry>, seen: set<Url>,
                     emitted: seq<Entry>)
      requires Searching(allowed, seeds, maxDepth, left, seen, emitted)
      ensures Sound(allowed, seeds, emitted) && CloserFirst(allowed, seeds, emitted)
      ensures forall e | e in emitted :: e.depth <= Max(0, maxDepth)
      ensures left == [] ==> forall u :: u in Urls(emitted) <==> Within(allowed, seeds, maxDepth, u)
    {
      if left == [] {
        forall u ensures u in Urls(emitted) <==> Within(allowed, seeds, maxDepth, u) {
          EmptyQueueIsComplete(allowed, seeds, maxDepth, seen, emitted, u);
        }
      }
    }

    /** Visits the head of the queue and puts its unvisited links at the back, one by one. */
    method FollowLinks(queue: seq<Entry>, seen: set<Url>, maxDepth: int) returns (after: seq<Entry>)
      requires queue != []
      ensures after == Visited(queue, seen, maxDepth)
    {
      var url, depth := queue[0].url, queue[0].depth;
      after := queue[1..];
      if depth < maxDepth {
        var links := web.Links(url);
        for i := 0 to |links|
          invariant after == queue[1..] + NewEntries(links[..i], seen + {url}, depth + 1)
        {
          NewEntriesSnoc(links, i, seen + {url}, depth + 1);
          if links[i] !in seen + {url} {
            after := after + [Entry(links[i], depth + 1)];
          }
        }
        assert links[..|links|] == links;
      }
    }

    /** Whether the page at the head of the queue is emitted. */
    predicate Visits(allowed: set<string>, seen: set<Url>, u: Url) {
      u !in seen && web.Open(allowed, u)
    }

    lemma SkipTurn(allowed: set<string>, seeds: seq<Url>, maxDepth: int, queue: seq<Entry>, seen: set<Url>,
                   emitted: seq<Entry>)
      requires Searching(allowed, seeds, maxDepth, queue, seen, emitted) && queue != []
      requires !Visits(allowed, seen, queue[0].url)
      ensures Searching(allowed, seeds, maxDepth, queue[1..], seen, emitted)
      ensures Searching(allowed, seeds, maxDepth, queue[1..], seen + {queue[0].url}, emitted)
    {
      SkipHead(allowed, seeds, maxDepth, queue, seen, emitted);
    }

    /** One turn of the search: the head is emitted, cached and followed, or dropped. */
    method TakeHead(allowed: set<string>, maxDepth: int, queue0: seq<Entry>, seen0: set<Url>)
      returns (queue: seq<Entry>, seen: set<Url>, visited: bool)
      requires queue0 != []
      modifies this
      ensures visited == Visits(allowed, seen0, queue0[0].url)
      ensures visited ==> queue == Visited(queue0, seen0, maxDepth)
      ensures !visited ==> queue == queue0[1..]
      ensures seen == if web.domain(queue0[0].url) in allowed then seen0 + {queue0[0].url} else seen0
      ensures pageCache == if visited then old(pageCache)[queue0[0].url := Content(queue0[0].url)] else old(pageCache)
    {
      queue, seen, visited := queue0[1..], seen0, false;
      var url := queue0[0].url;
      if url in seen || web.domain(url) !in allowed {
        assert web.domain(url) in allowed ==> seen == seen + {url};
        return;
      }
      seen := seen + {url};
      if !web.robotsAllow(url) || web.get(url).None? || !web.get(url).value.html {
        return;
      }
      pageCache := pageCache[url := web.get(url).value.content];
      visited := true;
      queue := FollowLinks(queue0, seen0, maxDepth);
    }

    /** The links that join the queue are those of the page without the ones that have been seen. */
    lemma {:induction false} LinksThinned(links: seq<Url>, seen: set<Url>, depth: nat)
      ensures Thinned(links, NewEntries(links, seen, depth), seen)
    {
      if links != [] {
        var front, last := links[..|links| - 1], links[|links| - 1];
        LinksThinned(front, seen, depth);
        var waiting := if last !in seen then [Entry(last, depth)] else [];
        assert Thinned([last], waiting, seen) by { assert [last][1..] == []; }
        ThinnedConcat(front, NewEntries(front, seen, depth), [last], waiting, seen);
        assert front + [last] == links;
      }
    }

    /** The URLs discovered so far have been dealt with, wait in the queue, or have been seen. */
    ghost predicate InTurn(allowed: set<string>, seeds: seq<Url>, maxDepth: int, f: nat, queue: seq<Entry>,
                           seen: set<Url>, emitted: seq<Entry>)
    {
      Ordered(web, allowed, Discovered(web, seeds, maxDepth, emitted), f, queue, seen, emitted)
    }

    lemma VisitInOrder(allowed: set<string>, maxDepth: int, urls: seq<Url>, f: nat, queue: seq<Entry>, seen: set<Url>,
                       emitted: seq<Entry>, links: seq<Url>)
      returns (g: nat)
      requires Ordered(web, allowed, urls, f, queue, seen, emitted) && queue != []
      requires Visits(allowed, seen, queue[0].url)
      requires links == if queue[0].depth < maxDepth then web.Links(queue[0].url) else []
      ensures Ordered(web, allowed, urls + links, g, Visited(queue, seen, maxDepth), seen + {queue[0].url},
                      emitted + [queue[0]])
    {
      var head := queue[0];
      var waiting := if head.depth < maxDepth then NewEntries(links, seen + {head.url}, head.depth + 1) else [];
      LinksThinned(links, seen + {head.url}, head.depth + 1);
      g := EmitOrdered(web, allowed, urls, f, queue, seen, emitted, links, waiting);
    }

    lemma TurnInOrder(allowed: set<string>, seeds: seq<Url>, maxDepth: int, f: nat, queue: seq<Entry>, seen: set<Url>,
                      emitted: seq<Entry>)
      returns (g: nat)
      requires InTurn(allowed, seeds, maxDepth, f, queue, seen, emitted) && queue != []
      ensures var head := queue[0];
        var more := if web.domain(head.url) in allowed then seen + {head.url} else seen;
        if Visits(allowed, seen, head.url)
        then InTurn(allowed, seeds, maxDepth, g, Visited(queue, seen, maxDepth), more, emitted + [head])
        else InTurn(allowed, seeds, maxDepth, g, queue[1..], more, emitted)
    {
      var head, urls := queue[0], Discovered(web, seeds, maxDepth, emitted);
      if Visits(allowed, seen, head.url) {
        var links := if head.depth < maxDepth then web.Links(head.url) else [];
        g := VisitInOrder(allowed, maxDepth, urls, f, queue, seen, emitted, links);
        DiscoveredSnoc(web, seeds, maxDepth, emitted, head);
      } else {
        var more := if web.domain(head.url) in allowed then seen + {head.url} else seen;
        g := DropOrdered(web, allowed, urls, f, queue, seen, emitted, more);
      }
    }

    /** What a crawl emits, said of trails and of the order of discovery. */
    ghost predicate Crawled(seeds: seq<Url>, domains: seq<string>, maxDepth: int, emitted: seq<Entry>, all: bool) {
      && (forall e | e in emitted :: e.depth <= Max(0, maxDepth) && Nearest(seeds, domains, e))
      && (forall i, j | 0 <= i < j < |emitted| ::
            emitted[i].url != emitted[j].url && emitted[i].depth <= emitted[j].depth)
      && InOrderOfDiscovery(Discovered(web, seeds, maxDepth, emitted), emitted)
      && (all ==> forall u, n: nat | n <= Max(0, maxDepth) && TrailTo(web, seeds, domains, u, n) :: Emits(emitted, u))
    }

    /** A trail as long as the entry is deep leads to the page, and no shorter one. */
    ghost predicate Nearest(seeds: seq<Url>, domains: seq<string>, e: Entry) {
      TrailTo(web, seeds, domains, e.url, e.depth)
      && forall n: nat | n < e.depth :: !TrailTo(web, seeds, domains, e.url, n)
    }

    lemma CrawledByTrails(seeds: seq<Url>, domains: seq<string>, allowed: set<string>, maxDepth: int,
                          emitted: seq<Entry>, left: seq<Entry>)
      requires AllowedFor(web, seeds, domains, allowed) && Sound(allowed, seeds, emitted)
      requires forall e | e in emitted :: e.depth <= Max(0, maxDepth)
      requires left == [] ==> forall u :: u in Urls(emitted) <==> Within(allowed, seeds, maxDepth, u)
      requires InOrderOfDiscovery(Discovered(web, seeds, maxDepth, emitted), emitted)
      ensures Crawled(seeds, domains, maxDepth, emitted, left == [])
    {
      forall e | e in emitted ensures Nearest(seeds, domains, e) {
        assert web.AtDistance(allowed, seeds, e.url, e.depth);
        ReachedIff(web, seeds, domains, allowed, e.url, e.depth);
        forall n: nat | n < e.depth ensures !TrailTo(web, seeds, domains, e.url, n) {
          ReachedIff(web, seeds, domains, allowed, e.url, n);
        }
      }
      if left == [] {
        forall u, n: nat | n <= Max(0, maxDepth) && TrailTo(web, seeds, domains, u, n) ensures Emits(emitted, u) {
          ReachedIff(web, seeds, domains, allowed, u, n);
          assert Within(allowed, seeds, maxDepth, u);
          var i :| 0 <= i < |Urls(emitted)| && Urls(emitted)[i] == u;
          assert emitted[i] in emitted;
        }
      }
    }

    /**
     Pages in the order they are emitted, each with its depth; `left` is what
     still waited at the end.
     */
    method Discover(seeds: seq<Url>, allowedDomains: seq<string>, maxDepth: int, maxPages: int)
      returns (emitted: seq<Entry>, ghost left: seq<Entry>)
      modifies this
      ensures var allowed := Allowed(seeds, allowedDomains);
        && Sound(allowed, seeds, emitted)
        && CloserFirst(allowed, seeds, emitted)
        && (forall e | e in emitted :: e.depth <= Max(0, maxDepth))
        && (left == [] ==> forall u :: u in Urls(emitted) <==> Within(allowed, seeds, maxDepth, u))
      ensures Crawled(seeds, allowedDomains, maxDepth, emitted, left == [])
      ensures |emitted| <= Max(0, maxPages) && (left == [] || |emitted| == Max(0, maxPages))
      ensures pageCache == CacheAfter(old(pageCache), emitted)
      ensures forall e | e in emitted :: e.url in pageCache && web.get(e.url).Some?
                                         && pageCache[e.url] == web.get(e.url).value.content
    {
      emitted, left := [], [];
      ghost var allowedSet := Allowed(seeds, allowedDomains);
      if seeds == [] {
        NothingWithin(allowedSet, maxDepth);
        CrawledByTrails(seeds, allowedDomains, allowedSet, maxDepth, [], []);
        return;
      }
      var allowed := Allowed(seeds, allowedDomains);
      var seen: set<Url> := {};
      var queue := seq(|seeds|, i requires 0 <= i < |seeds| => Entry(seeds[i], 0));
      StartSearching(allowed, seeds, maxDepth, queue);
      StartOrdered(web, allowed, seeds, queue);
      ghost var f := 0;
      while queue != [] && |emitted| < maxPages
        invariant Searching(allowed, seeds, maxDepth, queue, seen, emitted)
        invariant InTurn(allowed, seeds, maxDepth, f, queue, seen, emitted)
        invariant |emitted| <= Max(0, maxPages)
        invariant pageCache == CacheAfter(old(pageCache), emitted)
        decreases maxPages - |emitted|, |queue|
      {
        var head := queue[0];
        if Visits(allowed, seen, head.url) {
          VisitHead(allowed, seeds, maxDepth, queue, seen, emitted);
        } else {
          SkipTurn(allowed, seeds, maxDepth, queue, seen, emitted);
        }
        f := TurnInOrder(allowed, seeds, maxDepth, f, queue, seen, emitted);
        var visited;
        queue, seen, visited := TakeHead(allowed, maxDepth, queue, seen);
        if visited {
          CachedOneMore(old(pageCache), emitted, head);
          emitted := emitted + [head];
        }
      }
      left := queue;
      SearchEnds(allowed, seeds, maxDepth, queue, seen, emitted);
      CrawledByTrails(seeds, allowedDomains, allowed, maxDepth, emitted, left);
      AllCached(allowed, seeds, old(pageCache), emitted);
    }
  }
}
