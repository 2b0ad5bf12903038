/** The web as a crawl finds it: which pages lead where, and in which order they are discovered. */
module Pages {
  import opened Prelude

  type Url = string

  /** The answer to a GET that did not fail. */
  datatype Response = Response(html: bool, content: string, links: seq<Url>)

  datatype Entry = Entry(url: Url, depth: nat)

  /** The web during one crawl, as a fixed function of the URL. */
  datatype Web = Web(
    domain: Url -> string,
    robotsAllow: Url -> bool,
    get: Url -> Option<Response>)
  {
    /** Pages the crawl may emit and follow. */
    predicate Open(allowed: set<string>, u: Url) {
      domain(u) in allowed && robotsAllow(u) && get(u).Some? && get(u).value.html
    }

    function Links(u: Url): seq<Url> {
      if get(u).Some? then get(u).value.links else []
    }

    /** `u` is an open page reached from a seed by exactly `n` links through open pages. */
    ghost predicate Reached(allowed: set<string>, seeds: seq<Url>, u: Url, n: nat)
      decreases n
    {
      Open(allowed, u) &&
      if n == 0 then u in seeds
      else exists p :: Reached(allowed, seeds, p, n - 1) && u in Links(p)
    }

    ghost predicate AtDistance(allowed: set<string>, seeds: seq<Url>, u: Url, n: nat) {
      Reached(allowed, seeds, u, n) && forall k: nat | k < n :: !Reached(allowed, seeds, u, k)
    }
  }

  // ---------------------------------------------------------------- trails

  /** A page that may be emitted: its domain is listed, or if none is, that of a seed, and it can be read as HTML. */
  ghost predicate Crawlable(web: Web, seeds: seq<Url>, domains: seq<string>, u: Url) {
    && (if domains != [] then web.domain(u) in domains else exists s :: s in seeds && web.domain(s) == web.domain(u))
    && web.robotsAllow(u) && web.get(u).Some? && web.get(u).value.html
  }

  /** From a seed along links through such pages. */
  ghost predicate IsTrail(web: Web, seeds: seq<Url>, domains: seq<string>, path: seq<Url>) {
    && path != [] && path[0] in seeds
    && (forall i | 0 <= i < |path| :: Crawlable(web, seeds, domains, path[i]))
    && (forall i | 0 < i < |path| :: LinksTo(web, path[i - 1], path[i]))
  }

  ghost predicate LinksTo(web: Web, p: Url, u: Url) {
    web.get(p).Some? && u in web.get(p).value.links
  }

  /** A trail of `n` links ends at `u`. */
  ghost predicate TrailTo(web: Web, seeds: seq<Url>, domains: seq<string>, u: Url, n: nat) {
    exists path :: IsTrail(web, seeds, domains, path) && |path| == n + 1 && path[n] == u
  }

  /** `allowed` are the domains a crawl with these arguments stays in. */
  ghost predicate AllowedFor(web: Web, seeds: seq<Url>, domains: seq<string>, allowed: set<string>) {
    forall d :: d in allowed <==> if domains != [] then d in domains else exists s :: s in seeds && web.domain(s) == d
  }

  /** What is reached is what trails lead to. */
  lemma {:induction false} ReachedIff(web: Web, seeds: seq<Url>, domains: seq<string>, allowed: set<string>, u: Url,
                                      n: nat)
    requires AllowedFor(web, seeds, domains, allowed)
    ensures web.Reached(allowed, seeds, u, n) <==> TrailTo(web, seeds, domains, u, n)
    decreases n
  {
    if web.Reached(allowed, seeds, u, n) { ReachedByTrail(web, seeds, domains, allowed, u, n); }
    if TrailTo(web, seeds, domains, u, n) {
      var path :| IsTrail(web, seeds, domains, path) && |path| == n + 1 && path[n] == u;
      TrailReaches(web, seeds, domains, allowed, path, n);
    }
  }

  lemma TrailGoesOn(web: Web, seeds: seq<Url>, domains: seq<string>, path: seq<Url>, u: Url)
    requires IsTrail(web, seeds, domains, path) && Crawlable(web, seeds, domains, u)
    requires LinksTo(web, path[|path| - 1], u)
    ensures IsTrail(web, seeds, domains, path + [u])
  {
    var longer, n := path + [u], |path|;
    forall i | 0 < i < |longer| ensures LinksTo(web, longer[i - 1], longer[i]) {
      if i < n { assert LinksTo(web, path[i - 1], path[i]); }
    }
  }

  lemma {:induction false} ReachedByTrail(web: Web, seeds: seq<Url>, domains: seq<string>, allowed: set<string>, u: Url,
                                          n: nat)
    requires AllowedFor(web, seeds, domains, allowed) && web.Reached(allowed, seeds, u, n)
    ensures TrailTo(web, seeds, domains, u, n)
    decreases n
  {
    assert Crawlable(web, seeds, domains, u);
    if n == 0 {
      assert IsTrail(web, seeds, domains, [u]);
    } else {
      var p :| web.Reached(allowed, seeds, p, n - 1) && u in web.Links(p);
      ReachedByTrail(web, seeds, domains, allowed, p, n - 1);
      var path :| IsTrail(web, seeds, domains, path) && |path| == n && path[n - 1] == p;
      TrailGoesOn(web, seeds, domains, path, u);
      assert (path + [u])[n] == u;
    }
  }

  lemma {:induction false} TrailReaches(web: Web, seeds: seq<Url>, domains: seq<string>, allowed: set<string>,
                                        path: seq<Url>, n: nat)
    requires AllowedFor(web, seeds, domains, allowed) && IsTrail(web, seeds, domains, path) && n < |path|
    ensures web.Reached(allowed, seeds, path[n], n)
    decreases n
  {
    assert Crawlable(web, seeds, domains, path[n]);
    if n > 0 {
      TrailReaches(web, seeds, domains, allowed, path, n - 1);
      assert LinksTo(web, path[n - 1], path[n]);
      assert web.Reached(allowed, seeds, path[n - 1], n - 1) && path[n] in web.Links(path[n - 1]);
    }
  }

  // ---------------------------------------------------------------- the order of discovery

  /** All URLs in the order of their discovery: the seeds, then the links of each emitted page above the depth bound. */
  function Discovered(web: Web, seeds: seq<Url>, maxDepth: int, emitted: seq<Entry>): seq<Url> {
    if emitted == [] then seeds
    else
      var last := emitted[|emitted| - 1];
      Discovered(web, seeds, maxDepth, emitted[..|emitted| - 1])
      + if last.depth < maxDepth && web.get(last.url).Some? then web.get(last.url).value.links else []
  }

  lemma DiscoveredSnoc(web: Web, seeds: seq<Url>, maxDepth: int, emitted: seq<Entry>, head: Entry)
    ensures Discovered(web, seeds, maxDepth, emitted + [head]) ==
            Discovered(web, seeds, maxDepth, emitted) + if head.depth < maxDepth then web.Links(head.url) else []
  {
    assert (emitted + [head])[..|emitted|] == emitted;
  }

  /** `u` stands at `k` in the list and nowhere before. */
  ghost predicate FirstAt(urls: seq<Url>, u: Url, k: nat) {
    k < |urls| && urls[k] == u && forall i | 0 <= i < k :: urls[i] != u
  }

  /** Page `i` is discovered before page `j`. */
  ghost predicate DiscoveredBefore(urls: seq<Url>, emitted: seq<Entry>, i: nat, j: nat)
    requires i < |emitted| && j < |emitted|
  {
    forall k: nat, l: nat :: FirstAt(urls, emitted[i].url, k) && FirstAt(urls, emitted[j].url, l) ==> k < l
  }

  /** Pages are emitted in the order in which they are first discovered. */
  ghost predicate InOrderOfDiscovery(urls: seq<Url>, emitted: seq<Entry>) {
    && (forall e | e in emitted :: e.url in urls)
    && (forall i, j | 0 <= i < j < |emitted| :: DiscoveredBefore(urls, emitted, i, j))
  }

  /** The queue is `rest` without some URLs that have been seen. */
  ghost predicate Thinned(rest: seq<Url>, queue: seq<Entry>, seen: set<Url>) {
    if rest == [] then queue == []
    else
      || (queue != [] && queue[0].url == rest[0] && Thinned(rest[1..], queue[1..], seen))
      || (rest[0] in seen && Thinned(rest[1..], queue, seen))
  }

  predicate Emits(emitted: seq<Entry>, u: Url) {
    exists e | e in emitted :: e.url == u
  }

  /**
   The first `f` URLs discovered have been dealt with: the emitted pages are among them, and
   those among them that are open are emitted; the others wait, unless they have been seen.
   */
  ghost predicate Ordered(web: Web, allowed: set<string>, urls: seq<Url>, f: nat, queue: seq<Entry>, seen: set<Url>,
                          emitted: seq<Entry>)
  {
    && f <= |urls| && Thinned(urls[f..], queue, seen)
    && (forall k | 0 <= k < f && web.Open(allowed, urls[k]) :: Emits(emitted, urls[k]))
    && (forall u | u in seen && web.Open(allowed, u) :: Emits(emitted, u))
    && (forall e | e in emitted :: e.url in urls[..f] && e.url in seen)
    && InOrderOfDiscovery(urls, emitted)
  }

  lemma {:induction false} ThinnedLater(rest: seq<Url>, queue: seq<Entry>, seen: set<Url>, more: set<Url>)
    requires Thinned(rest, queue, seen) && seen <= more
    ensures Thinned(rest, queue, more)
  {
    if rest == [] {
    } else if queue != [] && queue[0].url == rest[0] && Thinned(rest[1..], queue[1..], seen) {
      ThinnedLater(rest[1..], queue[1..], seen, more);
    } else {
      ThinnedLater(rest[1..], queue, seen, more);
    }
  }

  lemma {:induction false} ThinnedConcat(a: seq<Url>, q: seq<Entry>, b: seq<Url>, r: seq<Entry>, seen: set<Url>)
    requires Thinned(a, q, seen) && Thinned(b, r, seen)
    ensures Thinned(a + b, q + r, seen)
  {
    if a == [] {
      assert a + b == b && q + r == r;
    } else {
      assert (a + b)[1..] == a[1..] + b && (a + b)[0] == a[0];
      if q != [] && q[0].url == a[0] && Thinned(a[1..], q[1..], seen) {
        assert (q + r)[1..] == q[1..] + r;
        ThinnedConcat(a[1..], q[1..], b, r, seen);
      } else {
        ThinnedConcat(a[1..], q, b, r, seen);
      }
    }
  }

  /** Where the head of the queue stands: everything before it has been seen. */
  lemma {:induction false} HeadStands(rest: seq<Url>, queue: seq<Entry>, seen: set<Url>) returns (n: nat)
    requires Thinned(rest, queue, seen) && queue != []
    ensures n < |rest| && rest[n] == queue[0].url && Thinned(rest[n + 1..], queue[1..], seen)
    ensures forall k | 0 <= k < n :: rest[k] in seen
  {
    if queue[0].url == rest[0] && Thinned(rest[1..], queue[1..], seen) {
      n := 0;
    } else {
      n := HeadStands(rest[1..], queue, seen);
      assert rest[1..][n + 1..] == rest[n + 2..];
      n := n + 1;
    }
  }

  lemma {:induction false} SeedsWait(seeds: seq<Url>, queue: seq<Entry>)
    requires |queue| == |seeds| && forall i | 0 <= i < |seeds| :: queue[i].url == seeds[i]
    ensures Thinned(seeds, queue, {})
  {
    if seeds != [] { SeedsWait(seeds[1..], queue[1..]); }
  }

  lemma StartOrdered(web: Web, allowed: set<string>, seeds: seq<Url>, queue: seq<Entry>)
    requires |queue| == |seeds| && forall i | 0 <= i < |seeds| :: queue[i].url == seeds[i]
    ensures Ordered(web, allowed, seeds, 0, queue, {}, [])
  {
    SeedsWait(seeds, queue);
    assert seeds[0..] == seeds;
  }

  /** The head is dropped: it has been seen, or is not to be emitted. */
  lemma DropOrdered(web: Web, allowed: set<string>, urls: seq<Url>, f: nat, queue: seq<Entry>, seen: set<Url>,
                    emitted: seq<Entry>, more: set<Url>)
    returns (g: nat)
    requires Ordered(web, allowed, urls, f, queue, seen, emitted) && queue != []
    requires queue[0].url in seen || !web.Open(allowed, queue[0].url)
    requires more == seen || more == seen + {queue[0].url}
    ensures Ordered(web, allowed, urls, g, queue[1..], more, emitted)
  {
    var n := HeadStands(urls[f..], queue, seen);
    g := f + n + 1;
    assert urls[f..][n + 1..] == urls[g..];
    ThinnedLater(urls[g..], queue[1..], seen, more);
    forall k | 0 <= k < g && web.Open(allowed, urls[k]) ensures Emits(emitted, urls[k]) {
      if k >= f { assert urls[k] == urls[f..][k - f]; }
    }
    forall e | e in emitted ensures e.url in urls[..g] { assert urls[..f] == urls[..g][..f]; }
  }

  lemma FirstOfLonger(urls: seq<Url>, links: seq<Url>, u: Url, k: nat)
    requires u in urls && FirstAt(urls + links, u, k)
    ensures k < |urls| && FirstAt(urls, u, k)
  {
    var i :| 0 <= i < |urls| && urls[i] == u;
    assert (urls + links)[i] == u;
    forall j | 0 <= j < k && j < |urls| ensures urls[j] != u { assert (urls + links)[j] == urls[j]; }
  }

  lemma EmitInOrder(web: Web, allowed: set<string>, urls: seq<Url>, f: nat, emitted: seq<Entry>, head: Entry,
                    links: seq<Url>)
    requires f <= |urls| && InOrderOfDiscovery(urls, emitted) && head.url in urls
    requires forall e | e in emitted :: e.url in urls[..f]
    requires head.url !in urls[..f]
    ensures InOrderOfDiscovery(urls + links, emitted + [head])
  {
    var all, more := urls + links, emitted + [head];
    forall i, j | 0 <= i < j < |more| ensures DiscoveredBefore(all, more, i, j) {
      forall k: nat, l: nat | FirstAt(all, more[i].url, k) && FirstAt(all, more[j].url, l) ensures k < l {
        assert emitted[i] in emitted;
        FirstOfLonger(urls, links, more[i].url, k);
        FirstOfLonger(urls, links, more[j].url, l);
        if j < |emitted| {
          assert DiscoveredBefore(urls, emitted, i, j);
        } else {
          FirstWithin(urls, f, more[i].url, k);
          FirstBeyond(urls, f, head.url, l);
        }
      }
    }
  }

  lemma FirstBeyond(urls: seq<Url>, f: nat, u: Url, k: nat)
    requires f <= |urls| && u !in urls[..f] && FirstAt(urls, u, k)
    ensures k >= f
  {
  }

  lemma FirstWithin(urls: seq<Url>, f: nat, u: Url, k: nat)
    requires f <= |urls| && u in urls[..f] && FirstAt(urls, u, k)
    ensures k < f
  {
    var i :| 0 <= i < f && urls[..f][i] == u;
    assert urls[i] == u;
  }

  /** The head is emitted and its links are discovered. */
  lemma EmitOrdered(web: Web, allowed: set<string>, urls: seq<Url>, f: nat, queue: seq<Entry>, seen: set<Url>,
                    emitted: seq<Entry>, links: seq<Url>, waiting: seq<Entry>)
    returns (g: nat)
    requires Ordered(web, allowed, urls, f, queue, seen, emitted) && queue != []
    requires queue[0].url !in seen && web.Open(allowed, queue[0].url)
    requires Thinned(links, waiting, seen + {queue[0].url})
    ensures Ordered(web, allowed, urls + links, g, queue[1..] + waiting, seen + {queue[0].url}, emitted + [queue[0]])
  {
    var head, more, all := queue[0], seen + {queue[0].url}, urls + links;
    var n := HeadStands(urls[f..], queue, seen);
    g := f + n + 1;
    assert urls[f..][n + 1..] == urls[g..] && urls[f..][n] == urls[f + n] == head.url;
    ThinnedLater(urls[g..], queue[1..], seen, more);
    ThinnedConcat(urls[g..], queue[1..], links, waiting, more);
    assert all[g..] == urls[g..] + links;
    NotBefore(web, allowed, urls, f, queue, seen, emitted);
    EmitInOrder(web, allowed, urls, f, emitted, head, links);
    DealtWith(web, allowed, urls, f, g, seen, emitted, head, links);
  }

  lemma NotBefore(web: Web, allowed: set<string>, urls: seq<Url>, f: nat, queue: seq<Entry>, seen: set<Url>,
                  emitted: seq<Entry>)
    requires Ordered(web, allowed, urls, f, queue, seen, emitted) && queue != []
    requires queue[0].url !in seen && web.Open(allowed, queue[0].url)
    ensures queue[0].url !in urls[..f]
  {
  }

  lemma DealtWith(web: Web, allowed: set<string>, urls: seq<Url>, f: nat, g: nat, seen: set<Url>, emitted: seq<Entry>,
                  head: Entry, links: seq<Url>)
    requires f < g <= |urls| && urls[g - 1] == head.url && forall k | f <= k < g - 1 :: urls[k] in seen
    requires forall k | 0 <= k < f && web.Open(allowed, urls[k]) :: Emits(emitted, urls[k])
    requires forall u | u in seen && web.Open(allowed, u) :: Emits(emitted, u)
    requires forall e | e in emitted :: e.url in urls[..f]
    ensures var all, more := urls + links, emitted + [head];
      && (forall k | 0 <= k < g && web.Open(allowed, all[k]) :: Emits(more, all[k]))
      && (forall u | u in seen + {head.url} && web.Open(allowed, u) :: Emits(more, u))
      && (forall e | e in more :: e.url in all[..g])
  {
    var all, more := urls + links, emitted + [head];
    forall u | Emits(emitted, u) || u == head.url ensures Emits(more, u) {
      if u == head.url {
        assert head in more;
      } else {
        var e :| e in emitted && e.url == u;
        assert e in more;
      }
    }
    forall e | e in more ensures e.url in all[..g] {
      if e == head {
        assert all[..g][g - 1] == head.url;
      } else {
        assert all[..g][..f] == urls[..f];
      }
    }
  }
}
