/** The crawl of the scraping service (`ScrapeWebsiteAsync`) as functions on the crawl
    state: the set of visited URLs, the log of page requests made, and the chunk store.
    The class `Scraper.WebsiteScraper` is proved against these functions. */
module Crawler {
  import opened Wrappers
  import opened Html
  import opened Chunking
  import opened Hex

  /** What the crawler calls into: the HTTP fetch and HTML parse of a page (`None` for a
      response without a success status or a request that throws), `GetAbsoluteUrl`
      (`None` when it throws), whether `new Uri(rootUrl)` accepts the root, the text
      functions of the chunker, and SHA-256 over the UTF-8 bytes of a text. */
  datatype Env = Env(fetch: string -> Option<Node>,
                     resolve: (string, string) -> Option<string>,
                     validUri: string -> bool,
                     tools: TextTools,
                     sha256: string -> Digest)

  /** A page request, made at a depth of the crawl. */
  datatype Request = Request(url: string, depth: int)

  /** A stored chunk: the page URL, the text and its hash (`TextEmbeddingItem` without the
      generated id and the embedding). */
  datatype StoredChunk = StoredChunk(url: string, text: string, textHash: string)

  datatype CrawlState = CrawlState(visited: set<string>, fetches: seq<Request>,
                                   store: seq<StoredChunk>)

  /** The default of `maxDepth` in `KickOffScraping`. */
  const DefaultMaxDepth: int := 10

  /** The state of a service that has not crawled yet. */
  const Initial: CrawlState := CrawlState({}, [], [])

  /** `StoreChunk(url, text)`: the record added to the store. */
  function Chunk(env: Env, url: string, text: string): StoredChunk
  {
    StoredChunk(url, text, ComputeHash(env.sha256(text)))
  }

  /** The records of chunks stored one after the other. */
  function Chunks(env: Env, url: string, texts: seq<string>): (r: seq<StoredChunk>)
    ensures |r| == |texts|
    ensures forall k :: 0 <= k < |texts| ==> r[k] == Chunk(env, url, texts[k])
  {
    seq(|texts|, k requires 0 <= k < |texts| => Chunk(env, url, texts[k]))
  }

  /** `ExtractLinks(doc, url)`. */
  function PageLinks(env: Env, doc: Node, url: string): Option<seq<string>>
  {
    Links(env.resolve, Hrefs(doc), url)
  }

  /** `ScrapeWebsiteAsync(url, maxDepth, depth)`. A URL already visited, or a depth beyond
      `maxDepth`, changes nothing; otherwise the URL is marked visited and requested. A page
      that is not fetched ends there; a fetched page has its chunks stored, and unless the
      chunker or the link extraction throws, its links are crawled one level deeper, in
      order. */
  function Crawl(env: Env, url: string, maxDepth: int, depth: int, s: CrawlState): CrawlState
    decreases maxDepth - depth + 1, 0, 0
  {
    if url in s.visited || depth > maxDepth then s
    else
      var s1 := s.(visited := s.visited + {url}, fetches := s.fetches + [Request(url, depth)]);
      match env.fetch(url)
      case None => s1
      case Some(doc) =>
        var st := Extract(env.tools, doc);
        var s2 := s1.(store := s1.store + Chunks(env, url, st.emitted));
        if st.aborted then s2
        else match PageLinks(env, doc, url)
          case None => s2
          case Some(links) => CrawlLinks(env, links, maxDepth, depth + 1, s2)
  }

  /** The `foreach` over the links of a page: each link crawled in order. */
  function CrawlLinks(env: Env, links: seq<string>, maxDepth: int, depth: int, s: CrawlState)
    : CrawlState
    decreases maxDepth - depth + 1, 1, |links|
  {
    if links == [] then s
    else CrawlLinks(env, links[1..], maxDepth, depth, Crawl(env, links[0], maxDepth, depth, s))
  }

  /** `KickOffScraping(rootUrl, maxDepth)`: a root that is not a URI throws before anything
      happens; otherwise the crawl starts from it at depth 0. */
  function KickOff(env: Env, rootUrl: string, maxDepth: int, s: CrawlState): CrawlState
  {
    if !env.validUri(rootUrl) then s else Crawl(env, rootUrl, maxDepth, 0, s)
  }

  // ---------------------------------------------------------------------------------------
  // How a crawl changes the state.

  /** `t` extends `s`: visited URLs, requests and stored chunks are only added to; every
      request added is for a URL that was not visited in `s` and is visited in `t`, at a
      depth between `depth` and `maxDepth`; and no URL is requested twice. */
  ghost predicate Extends(s: CrawlState, t: CrawlState, maxDepth: int, depth: int)
  {
    s.visited <= t.visited &&
    |s.fetches| <= |t.fetches| && t.fetches[..|s.fetches|] == s.fetches &&
    |s.store| <= |t.store| && t.store[..|s.store|] == s.store &&
    (forall i :: |s.fetches| <= i < |t.fetches| ==>
      t.fetches[i].url !in s.visited && t.fetches[i].url in t.visited &&
      depth <= t.fetches[i].depth <= maxDepth) &&
    (forall i, j :: |s.fetches| <= i < j < |t.fetches| ==> t.fetches[i].url != t.fetches[j].url)
  }

  lemma ExtendsRefl(s: CrawlState, maxDepth: int, depth: int)
    ensures Extends(s, s, maxDepth, depth)
  {
  }

  lemma ExtendsTrans(s: CrawlState, t: CrawlState, u: CrawlState, maxDepth: int,
                     d1: int, d2: int)
    requires d1 <= d2
    requires Extends(s, t, maxDepth, d1) && Extends(t, u, maxDepth, d2)
    ensures Extends(s, u, maxDepth, d1)
  {
    assert u.fetches[..|s.fetches|] == u.fetches[..|t.fetches|][..|s.fetches|];
    assert u.store[..|s.store|] == u.store[..|t.store|][..|s.store|];
    forall i | |s.fetches| <= i < |u.fetches|
      ensures u.fetches[i].url !in s.visited && u.fetches[i].url in u.visited
      ensures d1 <= u.fetches[i].depth <= maxDepth
    {
      if i < |t.fetches| {
        assert u.fetches[i] == t.fetches[i];
      }
    }
    forall i, j | |s.fetches| <= i < j < |u.fetches|
      ensures u.fetches[i].url != u.fetches[j].url
    {
      if i < |t.fetches| && |t.fetches| <= j {
        assert u.fetches[i] == t.fetches[i];
        assert u.fetches[i].url in t.visited;
      } else if j < |t.fetches| {
        assert u.fetches[i] == t.fetches[i] && u.fetches[j] == t.fetches[j];
      }
    }
  }

  /** One crawl call extends the state, with every request at a depth between its own and
      `maxDepth`. */
  lemma {:induction false} CrawlExtends(env: Env, url: string, maxDepth: int, depth: int,
                                        s: CrawlState)
    ensures Extends(s, Crawl(env, url, maxDepth, depth, s), maxDepth, depth)
    decreases maxDepth - depth + 1, 0, 0
  {
    if url in s.visited || depth > maxDepth {
      ExtendsRefl(s, maxDepth, depth);
    } else {
      var s1 := s.(visited := s.visited + {url}, fetches := s.fetches + [Request(url, depth)]);
      assert Extends(s, s1, maxDepth, depth) by {
        assert s1.fetches[..|s.fetches|] == s.fetches;
      }
      if env.fetch(url).Some? {
        var doc := env.fetch(url).value;
        var st := Extract(env.tools, doc);
        var s2 := s1.(store := s1.store + Chunks(env, url, st.emitted));
        assert Extends(s1, s2, maxDepth, depth) by {
          assert s2.store[..|s1.store|] == s1.store;
        }
        ExtendsTrans(s, s1, s2, maxDepth, depth, depth);
        if !st.aborted && PageLinks(env, doc, url).Some? {
          var links := PageLinks(env, doc, url).value;
          CrawlLinksExtends(env, links, maxDepth, depth + 1, s2);
          ExtendsTrans(s, s2, CrawlLinks(env, links, maxDepth, depth + 1, s2), maxDepth,
                       depth, depth + 1);
        }
      }
    }
  }

  lemma {:induction false} CrawlLinksExtends(env: Env, links: seq<string>, maxDepth: int,
                                             depth: int, s: CrawlState)
    ensures Extends(s, CrawlLinks(env, links, maxDepth, depth, s), maxDepth, depth)
    decreases maxDepth - depth + 1, 1, |links|
  {
    if links == [] {
      ExtendsRefl(s, maxDepth, depth);
    } else {
      var t := Crawl(env, links[0], maxDepth, depth, s);
      CrawlExtends(env, links[0], maxDepth, depth, s);
      CrawlLinksExtends(env, links[1..], maxDepth, depth, t);
      ExtendsTrans(s, t, CrawlLinks(env, links[1..], maxDepth, depth, t), maxDepth, depth,
                   depth);
    }
  }

  /** Every URL requested is visited, and no URL is requested twice. */
  ghost predicate FetchedOnce(s: CrawlState)
  {
    (forall i :: 0 <= i < |s.fetches| ==> s.fetches[i].url in s.visited) &&
    (forall i, j :: 0 <= i < j < |s.fetches| ==> s.fetches[i].url != s.fetches[j].url)
  }

  /** At-most-once fetch, across any number of runs: it holds of the initial state and every
      run keeps it, with each new request at a depth between 0 and `maxDepth`. */
  lemma KickOffFetchesOnce(env: Env, rootUrl: string, maxDepth: int, s: CrawlState)
    requires FetchedOnce(s)
    ensures var t := KickOff(env, rootUrl, maxDepth, s);
      FetchedOnce(t) && |s.fetches| <= |t.fetches| && t.fetches[..|s.fetches|] == s.fetches &&
      forall i :: |s.fetches| <= i < |t.fetches| ==> 0 <= t.fetches[i].depth <= maxDepth
  {
    var t := KickOff(env, rootUrl, maxDepth, s);
    if env.validUri(rootUrl) {
      CrawlExtends(env, rootUrl, maxDepth, 0, s);
    }
    assert Extends(s, t, maxDepth, 0);
    forall i, j | 0 <= i < j < |t.fetches|
      ensures t.fetches[i].url != t.fetches[j].url
    {
      if j < |s.fetches| {
        assert t.fetches[i] == s.fetches[i] && t.fetches[j] == s.fetches[j];
      } else if i < |s.fetches| {
        assert t.fetches[i] == s.fetches[i];
      }
    }
    forall i | 0 <= i < |t.fetches|
      ensures t.fetches[i].url in t.visited
    {
      if i < |s.fetches| {
        assert t.fetches[i] == s.fetches[i];
      }
    }
  }

  lemma InitialFetchedOnce()
    ensures FetchedOnce(Initial)
  {
  }

  /** Mark before fetch: a URL not yet visited, within the depth bound, is requested first,
      at its depth, and is visited afterwards. A page that is not fetched, or whose chunking
      throws, leads to no further request. */
  lemma {:induction false} CrawlFirstRequest(env: Env, url: string, maxDepth: int, depth: int,
                                             s: CrawlState)
    requires url !in s.visited && depth <= maxDepth
    ensures var t := Crawl(env, url, maxDepth, depth, s);
      |t.fetches| > |s.fetches| && t.fetches[|s.fetches|] == Request(url, depth) &&
      url in t.visited &&
      (env.fetch(url).None? ==> t == s.(visited := s.visited + {url},
                                        fetches := s.fetches + [Request(url, depth)])) &&
      (env.fetch(url).Some? && Extract(env.tools, env.fetch(url).value).aborted ==>
        t.fetches == s.fetches + [Request(url, depth)])
  {
    var s1 := s.(visited := s.visited + {url}, fetches := s.fetches + [Request(url, depth)]);
    var t := Crawl(env, url, maxDepth, depth, s);
    if env.fetch(url).Some? {
      var doc := env.fetch(url).value;
      var st := Extract(env.tools, doc);
      var s2 := s1.(store := s1.store + Chunks(env, url, st.emitted));
      if !st.aborted && PageLinks(env, doc, url).Some? {
        CrawlLinksExtends(env, PageLinks(env, doc, url).value, maxDepth, depth + 1, s2);
        assert t.fetches[..|s2.fetches|] == s2.fetches;
        assert t.fetches[|s.fetches|] == s2.fetches[|s.fetches|];
      }
    }
  }

  /** Links are crawled in order: the links of two lists are crawled as the first list,
      then the second. */
  lemma {:induction false} CrawlLinksAppend(env: Env, l1: seq<string>, l2: seq<string>,
                                            maxDepth: int, depth: int, s: CrawlState)
    ensures CrawlLinks(env, l1 + l2, maxDepth, depth, s)
      == CrawlLinks(env, l2, maxDepth, depth, CrawlLinks(env, l1, maxDepth, depth, s))
    decreases |l1|
  {
    if l1 == [] {
      assert l1 + l2 == l2;
    } else {
      assert (l1 + l2)[0] == l1[0];
      assert (l1 + l2)[1..] == l1[1..] + l2;
      CrawlLinksAppend(env, l1[1..], l2, maxDepth, depth,
                       Crawl(env, l1[0], maxDepth, depth, s));
    }
  }

  /** `visitedUrls` is never cleared: a run with the same root after any run changes
      nothing, since the root is already visited (or the root is never crawled at all). */
  lemma RerunChangesNothing(env: Env, rootUrl: string, maxDepth: int, s: CrawlState)
    ensures var t := KickOff(env, rootUrl, maxDepth, s);
      KickOff(env, rootUrl, maxDepth, t) == t
  {
    if env.validUri(rootUrl) && rootUrl !in s.visited && 0 <= maxDepth {
      CrawlFirstRequest(env, rootUrl, maxDepth, 0, s);
    }
  }

  // ---------------------------------------------------------------------------------------
  // Where each request comes from.

  /** The page at `from` is fetched and chunked without an exception, and `to` is one of its
      links: the crawl follows it one level deeper. */
  ghost predicate LinksTo(env: Env, from: string, to: string)
  {
    env.fetch(from).Some? && !Extract(env.tools, env.fetch(from).value).aborted &&
    PageLinks(env, env.fetch(from).value, from).Some? &&
    to in PageLinks(env, env.fetch(from).value, from).value
  }

  /** Request `i` of the log is for a link on the page of an earlier request one level
      up. */
  ghost predicate HasParent(env: Env, log: seq<Request>, i: int)
  {
    0 <= i < |log| &&
    exists j :: 0 <= j < i && log[j].depth + 1 == log[i].depth &&
      LinksTo(env, log[j].url, log[i].url)
  }

  /** Every request from index `k` on is for one of `starts` at `depth`, or is deeper and
      was found on the page of an earlier request. */
  ghost predicate Traced(env: Env, log: seq<Request>, k: int, starts: seq<string>, depth: int)
  {
    forall i :: 0 <= k <= i < |log| ==>
      (log[i].depth == depth && log[i].url in starts) ||
      (log[i].depth > depth && HasParent(env, log, i))
  }

  /** `path` is a chain of links: each URL is a link on the page of the one before. */
  ghost predicate LinkPath(env: Env, path: seq<string>)
  {
    forall k :: 0 <= k < |path| - 1 ==> LinksTo(env, path[k], path[k + 1])
  }

  /** A parent stays a parent when the log grows at its end. */
  lemma HasParentPrefix(env: Env, log: seq<Request>, log2: seq<Request>, i: int)
    requires |log| <= |log2| && log2[..|log|] == log && HasParent(env, log, i)
    ensures HasParent(env, log2, i)
  {
    var j :| 0 <= j < i && log[j].depth + 1 == log[i].depth &&
      LinksTo(env, log[j].url, log[i].url);
    assert log2[j] == log[j] && log2[i] == log[i];
  }

  /** The requests of one crawl call: the URL itself at its depth, then links followed from
      pages it reached. */
  lemma {:induction false} CrawlTraced(env: Env, url: string, maxDepth: int, depth: int,
                                       s: CrawlState)
    ensures Traced(env, Crawl(env, url, maxDepth, depth, s).fetches, |s.fetches|, [url], depth)
    decreases maxDepth - depth + 1, 0, 0
  {
    if url !in s.visited && depth <= maxDepth {
      var n := |s.fetches|;
      var s1 := s.(visited := s.visited + {url}, fetches := s.fetches + [Request(url, depth)]);
      if env.fetch(url).Some? {
        var doc := env.fetch(url).value;
        var st := Extract(env.tools, doc);
        var s2 := s1.(store := s1.store + Chunks(env, url, st.emitted));
        if !st.aborted && PageLinks(env, doc, url).Some? {
          var links := PageLinks(env, doc, url).value;
          var t := CrawlLinks(env, links, maxDepth, depth + 1, s2);
          CrawlLinksTraced(env, links, maxDepth, depth + 1, s2);
          CrawlLinksExtends(env, links, maxDepth, depth + 1, s2);
          assert t.fetches[n] == Request(url, depth) by {
            assert t.fetches[..|s2.fetches|] == s2.fetches;
          }
          FollowedTraced(env, url, depth, t.fetches, n, links);
        } else {
          assert Traced(env, s2.fetches, n, [url], depth);
        }
      } else {
        assert Traced(env, s1.fetches, n, [url], depth);
      }
    }
  }

  /** A request whose page links to `links`, followed by requests traced from those links
      one level deeper. */
  lemma FollowedTraced(env: Env, url: string, depth: int, log: seq<Request>, n: int,
                       links: seq<string>)
    requires 0 <= n < |log| && log[n] == Request(url, depth)
    requires env.fetch(url).Some? && !Extract(env.tools, env.fetch(url).value).aborted
    requires PageLinks(env, env.fetch(url).value, url) == Some(links)
    requires Traced(env, log, n + 1, links, depth + 1)
    ensures Traced(env, log, n, [url], depth)
  {
    forall i | n < i < |log|
      ensures log[i].depth > depth && HasParent(env, log, i)
    {
      if log[i].depth == depth + 1 && log[i].url in links {
        assert LinksTo(env, log[n].url, log[i].url);
      }
    }
  }

  lemma {:induction false} CrawlLinksTraced(env: Env, links: seq<string>, maxDepth: int,
                                            depth: int, s: CrawlState)
    ensures Traced(env, CrawlLinks(env, links, maxDepth, depth, s).fetches, |s.fetches|, links,
                   depth)
    decreases maxDepth - depth + 1, 1, |links|
  {
    if links != [] {
      var t1 := Crawl(env, links[0], maxDepth, depth, s);
      var t := CrawlLinks(env, links[1..], maxDepth, depth, t1);
      CrawlTraced(env, links[0], maxDepth, depth, s);
      CrawlExtends(env, links[0], maxDepth, depth, s);
      CrawlLinksTraced(env, links[1..], maxDepth, depth, t1);
      CrawlLinksExtends(env, links[1..], maxDepth, depth, t1);
      forall i | |s.fetches| <= i < |t.fetches|
        ensures (t.fetches[i].depth == depth && t.fetches[i].url in links) ||
                (t.fetches[i].depth > depth && HasParent(env, t.fetches, i))
      {
        if i < |t1.fetches| {
          assert t.fetches[i] == t1.fetches[i] by {
            assert t.fetches[..|t1.fetches|] == t1.fetches;
          }
          if HasParent(env, t1.fetches, i) {
            HasParentPrefix(env, t1.fetches, t.fetches, i);
          }
        } else if t.fetches[i].url in links[1..] {
          assert links == [links[0]] + links[1..];
        }
      }
    }
  }

  /** From a traced log, the chain of links that leads from the root to request `i`. */
  lemma {:induction false} PathOfRequest(env: Env, log: seq<Request>, root: string, i: int)
    returns (path: seq<string>)
    requires Traced(env, log, 0, [root], 0) && 0 <= i < |log|
    ensures |path| == log[i].depth + 1 && path[0] == root && path[|path| - 1] == log[i].url
    ensures LinkPath(env, path)
    decreases i
  {
    if log[i].depth == 0 {
      path := [root];
    } else {
      var j :| 0 <= j < i && log[j].depth + 1 == log[i].depth &&
        LinksTo(env, log[j].url, log[i].url);
      var p := PathOfRequest(env, log, root, j);
      LinkPathExtend(env, p, log[i].url);
      path := p + [log[i].url];
    }
  }

  /** A chain of links grows by a link on the page of its last URL. */
  lemma LinkPathExtend(env: Env, p: seq<string>, u: string)
    requires p != [] && LinkPath(env, p) && LinksTo(env, p[|p| - 1], u)
    ensures LinkPath(env, p + [u])
  {
    var path := p + [u];
    forall k | 0 <= k < |path| - 1
      ensures LinksTo(env, path[k], path[k + 1])
    {
      if k < |p| - 1 {
        assert path[k] == p[k] && path[k + 1] == p[k + 1];
      }
    }
  }

  /** Every page a run requests is reachable from the root by following links, one link
      per level, within `maxDepth` levels: a request at depth `d` ends a chain of `d`
      links that starts at the root. */
  lemma ReachedByLinks(env: Env, rootUrl: string, maxDepth: int, i: int)
    requires 0 <= i < |KickOff(env, rootUrl, maxDepth, Initial).fetches|
    ensures var r := KickOff(env, rootUrl, maxDepth, Initial).fetches[i];
      0 <= r.depth <= maxDepth &&
      exists path :: |path| == r.depth + 1 && path[0] == rootUrl && path[|path| - 1] == r.url &&
        LinkPath(env, path)
  {
    if env.validUri(rootUrl) {
      var t := Crawl(env, rootUrl, maxDepth, 0, Initial);
      CrawlTraced(env, rootUrl, maxDepth, 0, Initial);
      CrawlExtends(env, rootUrl, maxDepth, 0, Initial);
      var path := PathOfRequest(env, t.fetches, rootUrl, i);
    }
  }
}
