/** `WebsiteScrapingService` as a class: the set of visited URLs is a field that the crawl
    updates in place, and the chunk store (the database container) is a sequence it appends
    to. The log of page requests is ghost: it records what the crawl asks the network for.
    Each method is proved against the functions of `Crawler` and `Chunking`. */
module Scraper {
  import opened Wrappers
  import opened Strings
  import opened Whitespace
  import opened Html
  import opened Chunking
  import opened Hex
  import opened Crawler

  class WebsiteScraper {
    const env: Env
    var visitedUrls: set<string>
    var store: seq<StoredChunk>
    ghost var fetches: seq<Request>

    /** The abstract state: what `Crawler` computes on. */
    ghost function State(): CrawlState
      reads this
    {
      CrawlState(visitedUrls, fetches, store)
    }

    constructor (env: Env)
      ensures this.env == env && State() == Initial
    {
      this.env := env;
      visitedUrls := {};
      store := [];
      fetches := [];
    }

    /** `KickOffScraping(rootUrl, maxDepth = 10)`. */
    method KickOffScraping(rootUrl: string, maxDepth: int := DefaultMaxDepth)
      modifies this
      ensures State() == KickOff(env, rootUrl, maxDepth, old(State()))
    {
      if !env.validUri(rootUrl) {
        return;
      }
      ScrapeWebsite(rootUrl, maxDepth);
    }

    /** `ScrapeWebsiteAsync(url, maxDepth, currentDepth = 0)`. */
    method ScrapeWebsite(url: string, maxDepth: int, currentDepth: int := 0)
      modifies this
      ensures State() == Crawl(env, url, maxDepth, currentDepth, old(State()))
      decreases maxDepth - currentDepth + 1
    {
      if url in visitedUrls || currentDepth > maxDepth {
        return;
      }
      visitedUrls := visitedUrls + {url};
      fetches := fetches + [Request(url, currentDepth)];
      var page := env.fetch(url);
      if page.None? {
        return;
      }
      var doc := page.value;
      var ok := ExtractChunks(url, doc);
      if !ok {
        return;
      }
      var links := ExtractLinks(doc, url);
      if links.None? {
        return;
      }
      var ls := links.value;
      ghost var afterPage := State();
      var i := 0;
      while i < |ls|
        invariant 0 <= i <= |ls|
        invariant CrawlLinks(env, ls[i..], maxDepth, currentDepth + 1, State())
               == CrawlLinks(env, ls, maxDepth, currentDepth + 1, afterPage)
      {
        assert ls[i..][1..] == ls[i + 1..];
        ScrapeWebsite(ls[i], maxDepth, currentDepth + 1);
        i := i + 1;
      }
    }

    /** `ExtractLinks(documentNode, baseUrl)`: the links of the page in document order;
        `None` when `GetAbsoluteUrl` throws. */
    method ExtractLinks(doc: Node, baseUrl: string) returns (links: Option<seq<string>>)
      ensures links == PageLinks(env, doc, baseUrl)
    {
      var hrefs := Hrefs(doc);
      var acc: seq<string> := [];
      var i := 0;
      while i < |hrefs|
        invariant 0 <= i <= |hrefs|
        invariant Links(env.resolve, hrefs[..i], baseUrl) == Some(acc)
      {
        var href := hrefs[i];
        LinksStep(env.resolve, hrefs, i, baseUrl);
        if href != [] {
          var absoluteUrl := env.resolve(baseUrl, href);
          if absoluteUrl.None? {
            LinksFailed(env.resolve, hrefs, i + 1, baseUrl);
            return None;
          }
          acc := acc + [absoluteUrl.value];
        }
        i := i + 1;
      }
      assert hrefs[..i] == hrefs;
      links := Some(acc);
    }

    /** `ExtractChunks(url, node)`: `ok` is false when the split exception ends it. */
    method ExtractChunks(url: string, node: Node) returns (ok: bool)
      modifies this`store
      ensures store == old(store) + Chunks(env, url, Extract(env.tools, node).emitted)
      ensures ok == !Extract(env.tools, node).aborted
    {
      if Denied(node) {
        assert store == old(store) + [];
        return true;
      }
      var accumulatedText: seq<string> := [];
      accumulatedText, ok := ProcessNode(url, node, accumulatedText);
      if !ok {
        return;
      }
      ghost var walked := Walk(env.tools, node, []).emitted;
      ok := StoreAccumulatedChunks(url, accumulatedText);
      StoreStep(env, url, old(store), walked, Flush(accumulatedText).emitted);
    }

    /** `ProcessNodeAsync(node)` on the buffer `accumulatedText`. */
    method ProcessNode(url: string, node: Node, accumulatedText: seq<string>)
      returns (buffer: seq<string>, ok: bool)
      modifies this`store
      ensures var s := Walk(env.tools, node, accumulatedText);
        store == old(store) + Chunks(env, url, s.emitted) && ok == !s.aborted &&
        buffer == s.buffer
      decreases node, 1
    {
      if Denied(node) {
        assert store == old(store) + [];
        return accumulatedText, true;
      }
      var visited := Visit(env.tools, node, accumulatedText);
      buffer, ok := AddNodeText(url, node, accumulatedText);
      if !ok {
        return;
      }
      buffer, ok := ProcessChildren(url, node.children, buffer);
      ghost var rest := WalkAll(env.tools, node.children, visited.buffer);
      WalkUnfold(env.tools, node, accumulatedText);
      StoreStep(env, url, old(store), visited.emitted, rest.emitted);
    }

    /** The `foreach` over the children in `ProcessNodeAsync`. */
    method ProcessChildren(url: string, children: seq<Node>, accumulatedText: seq<string>)
      returns (buffer: seq<string>, ok: bool)
      modifies this`store
      ensures var s := WalkAll(env.tools, children, accumulatedText);
        store == old(store) + Chunks(env, url, s.emitted) && ok == !s.aborted &&
        buffer == s.buffer
      decreases children, 0
    {
      buffer := accumulatedText;
      ghost var emitted: seq<string> := [];
      ThenIdle(buffer, WalkAll(env.tools, children[0..], buffer));
      assert children[0..] == children;
      var i := 0;
      while i < |children|
        invariant 0 <= i <= |children|
        invariant store == old(store) + Chunks(env, url, emitted)
        invariant WalkAll(env.tools, children, accumulatedText)
               == Then(Step(buffer, emitted, false), WalkAll(env.tools, children[i..], buffer))
      {
        ghost var child := Walk(env.tools, children[i], buffer);
        WalkAllStep(env.tools, children, i, buffer, emitted);
        ghost var before := store;
        var childOk;
        buffer, childOk := ProcessNode(url, children[i], buffer);
        StoreStep(env, url, old(store), emitted, child.emitted);
        emitted := emitted + child.emitted;
        if !childOk {
          return buffer, false;
        }
        i := i + 1;
      }
      assert Then(Step(buffer, emitted, false), Idle(buffer)) == Step(buffer, emitted, false);
      ok := true;
    }

    /** The part of `ProcessNodeAsync(node)` before the children: a `p` or `div` whose
        trimmed, de-entitised text holds a letter or digit appends its cleaned text, and the
        buffer is stored once it holds 200 words. */
    method AddNodeText(url: string, node: Node, accumulatedText: seq<string>)
      returns (buffer: seq<string>, ok: bool)
      modifies this`store
      ensures var s := Visit(env.tools, node, accumulatedText);
        store == old(store) + Chunks(env, url, s.emitted) && ok == !s.aborted &&
        buffer == s.buffer
    {
      buffer, ok := accumulatedText, true;
      if node.name == "p" || node.name == "div" {
        var text := env.tools.deEntitize(Trim(node.innerText));
        if text != [] && exists k :: 0 <= k < |text| && env.tools.isLetterOrDigit(text[k]) {
          var cleanedText := CleanWhitespace(text);
          buffer := buffer + [cleanedText];
          var wordCount := WordCount(buffer);
          if wordCount >= WordThreshold {
            ok := StoreAccumulatedChunks(url, buffer);
            buffer := [];
            return;
          }
        }
      }
      assert store == old(store) + [];
    }

    /** `StoreAccumulatedChunksAsync()`: `ok` is false when `Substring` throws. The caller
        clears its buffer. */
    method StoreAccumulatedChunks(url: string, accumulatedText: seq<string>) returns (ok: bool)
      modifies this`store
      ensures store == old(store) + Chunks(env, url, Flush(accumulatedText).emitted)
      ensures ok == !Flush(accumulatedText).aborted
    {
      if |accumulatedText| > 0 {
        var combinedText := Join(" ", accumulatedText);
        if |combinedText| > MaxChunkLength {
          var breakPoint := Min(IndexOf(combinedText, '.', PeriodSearchStart), LatestBreak);
          if breakPoint < 0 {
            assert store == old(store) + [];
            return false;
          }
          StoreChunk(url, combinedText[..breakPoint]);
          StoreChunk(url, combinedText[breakPoint..]);
          ChunksTwo(env, url, old(store), combinedText[..breakPoint], combinedText[breakPoint..]);
        } else {
          StoreChunk(url, combinedText);
          ChunksTwo(env, url, old(store), combinedText, []);
        }
      } else {
        assert store == old(store) + [];
      }
      ok := true;
    }

    /** `StoreChunk(url, sentence)`: one record with the text and its hash. */
    method StoreChunk(url: string, sentence: string)
      modifies this`store
      ensures store == old(store) + [Chunk(env, url, sentence)]
    {
      var textHash := ComputeHash(env.sha256(sentence));
      store := store + [StoredChunk(url, sentence, textHash)];
    }
  }

  lemma ChunksAppend(env: Env, url: string, a: seq<string>, b: seq<string>)
    ensures Chunks(env, url, a + b) == Chunks(env, url, a) + Chunks(env, url, b)
  {
  }

  /** Storing the chunks of `a`, then those of `b`, stores the chunks of `a + b`. */
  lemma StoreStep(env: Env, url: string, s: seq<StoredChunk>, a: seq<string>, b: seq<string>)
    ensures (s + Chunks(env, url, a)) + Chunks(env, url, b) == s + Chunks(env, url, a + b)
  {
    ChunksAppend(env, url, a, b);
  }

  /** Storing one chunk, or two one after the other. */
  lemma ChunksTwo(env: Env, url: string, s: seq<StoredChunk>, a: string, b: string)
    ensures s + [Chunk(env, url, a)] == s + Chunks(env, url, [a])
    ensures s + [Chunk(env, url, a)] + [Chunk(env, url, b)] == s + Chunks(env, url, [a, b])
  {
  }

  /** One turn of the loop over children: the next child's walk, then the rest. */
  lemma WalkAllStep(tt: TextTools, cs: seq<Node>, i: nat, b: seq<string>, e: seq<string>)
    requires i < |cs|
    ensures var t := Walk(tt, cs[i], b);
      Then(Step(b, e, false), WalkAll(tt, cs[i..], b))
        == Then(Step(t.buffer, e + t.emitted, t.aborted), WalkAll(tt, cs[i + 1..], t.buffer))
  {
    assert cs[i..][0] == cs[i];
    assert cs[i..][1..] == cs[i + 1..];
    var t := Walk(tt, cs[i], b);
    if !t.aborted {
      var w := WalkAll(tt, cs[i + 1..], t.buffer);
      assert e + (t.emitted + w.emitted) == (e + t.emitted) + w.emitted;
    }
  }

  /** The walk of a node that is not denied and whose own text did not end the walk. */
  lemma WalkUnfold(tt: TextTools, n: Node, b: seq<string>)
    requires !Denied(n) && !Visit(tt, n, b).aborted
    ensures var v := Visit(tt, n, b); var w := WalkAll(tt, n.children, v.buffer);
      Walk(tt, n, b) == Step(w.buffer, v.emitted + w.emitted, w.aborted)
  {
  }
}
