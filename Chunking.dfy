/** The chunker of the scraping service (`ExtractChunks`) as functions over a page tree.
    A walk is a sequence of steps on the text buffer; each step may store chunks (`emitted`)
    and may end the walk with the exception that a split without a period raises
    (`aborted`). The methods of `Scraper.WebsiteScraper` are proved against these
    functions. */
module Chunking {
  import opened Strings
  import opened Whitespace
  import opened Html

  /** The two text functions the chunker calls into: `HtmlEntity.DeEntitize` and
      `char.IsLetterOrDigit`. */
  datatype TextTools = TextTools(deEntitize: string -> string, isLetterOrDigit: char -> bool)

  /** A buffer longer than this is split in two before it is stored. */
  const MaxChunkLength: int := 7000 * 4
  /** Where the search for a period starts, and where the split happens at the latest. */
  const PeriodSearchStart: int := 5000
  const LatestBreak: int := 7000
  /** A buffer holding this many words is stored. */
  const WordThreshold: int := 200

  /** The buffer after a piece of the walk, the chunks stored during it, and whether it
      ended in the split exception. */
  datatype Step = Step(buffer: seq<string>, emitted: seq<string>, aborted: bool)

  /** No change: the buffer is `b` and nothing is stored. */
  function Idle(b: seq<string>): Step
  {
    Step(b, [], false)
  }

  /** `s` followed by `t`, where `t` starts from the buffer `s` leaves. An aborted `s`
      ends the walk. */
  function Then(s: Step, t: Step): Step
  {
    if s.aborted then s else Step(t.buffer, s.emitted + t.emitted, t.aborted)
  }

  /** `accumulatedText.Sum(t => t.Split(' ').Length)`. */
  function WordCount(buffer: seq<string>): nat
  {
    if buffer == [] then 0 else SplitLength(buffer[0], ' ') + WordCount(buffer[1..])
  }

  function Min(a: int, b: int): int
  {
    if a <= b then a else b
  }

  /** `StoreAccumulatedChunksAsync`: store the joined buffer, split in two near a period
      when it is too long, and clear the buffer. With no period at or after position 5000
      the break point is -1 and `Substring` throws: nothing is stored. */
  function Flush(b: seq<string>): (r: Step)
    ensures r.buffer == []
    ensures r.aborted ==> r.emitted == []
  {
    if b == [] then Idle([])
    else
      var j := Join(" ", b);
      if |j| > MaxChunkLength then
        var breakPoint := Min(IndexOf(j, '.', PeriodSearchStart), LatestBreak);
        if breakPoint < 0 then Step([], [], true)
        else Step([], [j[..breakPoint], j[breakPoint..]], false)
      else Step([], [j], false)
  }

  /** The flush rule: an empty buffer stores nothing; a joined buffer of at most 28000
      characters is stored whole; a longer one is stored as exactly two pieces cut near a
      period, or, with no period at or after position 5000, not at all and the walk ends. */
  lemma FlushRule(b: seq<string>)
    ensures b == [] ==> Flush(b) == Idle([])
    ensures b != [] && |Join(" ", b)| <= MaxChunkLength ==>
      Flush(b) == Step([], [Join(" ", b)], false)
    ensures b != [] && |Join(" ", b)| > MaxChunkLength ==>
      var j := Join(" ", b);
      (Flush(b).aborted <==> forall k :: PeriodSearchStart <= k < |j| ==> j[k] != '.') &&
      (!Flush(b).aborted ==> SplitNearPeriod(j, Flush(b).emitted))
  {
    if b != [] && |Join(" ", b)| > MaxChunkLength {
      var j := Join(" ", b);
      var breakPoint := Min(IndexOf(j, '.', PeriodSearchStart), LatestBreak);
      if breakPoint >= 0 {
        assert j[..breakPoint] + j[breakPoint..] == j;
      }
    }
  }

  /** `parts` is `j` cut in exactly two, at the first period at or after position 5000
      when that is no later than 7000, and at 7000 otherwise. */
  predicate SplitNearPeriod(j: string, parts: seq<string>)
  {
    |parts| == 2 && parts[0] + parts[1] == j &&
    PeriodSearchStart <= |parts[0]| <= LatestBreak &&
    (forall k :: PeriodSearchStart <= k < |parts[0]| ==> j[k] != '.') &&
    ((parts[1] != [] && parts[1][0] == '.') || |parts[0]| == LatestBreak)
  }

  /** A text is added to the buffer; once the buffer holds 200 words or more it is
      flushed. */
  function Append(b: seq<string>, text: string): (r: Step)
    ensures WordCount(b + [text]) < WordThreshold ==> r == Idle(b + [text])
    ensures WordCount(b + [text]) >= WordThreshold ==> r == Flush(b + [text])
    ensures !r.aborted ==> WordCount(r.buffer) < WordThreshold
  {
    var buffer := b + [text];
    if WordCount(buffer) >= WordThreshold then Flush(buffer) else Idle(buffer)
  }

  /** The text a `p` or `div` contributes: its inner text, trimmed, then de-entitised. */
  function NodeText(tt: TextTools, n: Node): string
  {
    tt.deEntitize(Trim(n.innerText))
  }

  /** A `p` or `div` whose text is non-empty and holds a letter or a digit. */
  predicate Eligible(tt: TextTools, n: Node)
  {
    (n.name == "p" || n.name == "div") &&
    var text := NodeText(tt, n);
    text != [] && exists i :: 0 <= i < |text| && tt.isLetterOrDigit(text[i])
  }

  /** What a node does before its children are visited: an eligible node appends its
      cleaned text. */
  function Visit(tt: TextTools, n: Node, b: seq<string>): Step
  {
    if Eligible(tt, n) then Append(b, CleanWhitespace(NodeText(tt, n))) else Idle(b)
  }

  /** `ProcessNodeAsync(n)` from buffer `b`. */
  function Walk(tt: TextTools, n: Node, b: seq<string>): Step
    decreases n
  {
    if Denied(n) then Idle(b)
    else
      var s := Visit(tt, n, b);
      Then(s, WalkAll(tt, n.children, s.buffer))
  }

  /** The `foreach` over children: each child in order, from the buffer the previous one
      left. */
  function WalkAll(tt: TextTools, cs: seq<Node>, b: seq<string>): Step
    decreases cs
  {
    if cs == [] then Idle(b)
    else
      var s := Walk(tt, cs[0], b);
      Then(s, WalkAll(tt, cs[1..], s.buffer))
  }

  /** `ExtractChunks(url, root)` from its empty buffer: the walk, then the final flush. */
  function Extract(tt: TextTools, root: Node): Step
  {
    if Denied(root) then Idle([])
    else
      var s := Walk(tt, root, []);
      Then(s, Flush(s.buffer))
  }

  // ---------------------------------------------------------------------------------------
  // Reference definition: the texts a walk appends, and the buffer fed with them.

  /** The cleaned texts that enter the buffer, in visiting order. */
  function Collected(tt: TextTools, n: Node): seq<string>
    decreases n
  {
    if Denied(n) then []
    else
      (if Eligible(tt, n) then [CleanWhitespace(NodeText(tt, n))] else []) +
      CollectedAll(tt, n.children)
  }

  function CollectedAll(tt: TextTools, cs: seq<Node>): seq<string>
    decreases cs
  {
    if cs == [] then [] else Collected(tt, cs[0]) + CollectedAll(tt, cs[1..])
  }

  /** The buffer `b` fed with `texts` one at a time. */
  function Feed(texts: seq<string>, b: seq<string>): Step
  {
    if texts == [] then Idle(b)
    else
      var s := Append(b, texts[0]);
      Then(s, Feed(texts[1..], s.buffer))
  }

  lemma ThenAssociative(s: Step, t: Step, u: Step)
    ensures Then(s, Then(t, u)) == Then(Then(s, t), u)
  {
  }

  lemma ThenIdle(b: seq<string>, t: Step)
    ensures Then(Idle(b), t) == t
  {
    assert [] + t.emitted == t.emitted;
  }

  /** Feeding two lists of texts is feeding the first, then the second from the buffer the
      first left. */
  lemma {:induction false} FeedAppend(xs: seq<string>, ys: seq<string>, b: seq<string>)
    ensures Feed(xs + ys, b) == Then(Feed(xs, b), Feed(ys, Feed(xs, b).buffer))
  {
    if xs == [] {
      assert xs + ys == ys;
      ThenIdle(b, Feed(ys, b));
    } else {
      var s := Append(b, xs[0]);
      assert (xs + ys)[0] == xs[0];
      assert (xs + ys)[1..] == xs[1..] + ys;
      FeedAppend(xs[1..], ys, s.buffer);
      var f := Feed(xs[1..], s.buffer);
      ThenAssociative(s, f, Feed(ys, f.buffer));
    }
  }

  /** The walk of a node is the buffer fed with the node's collected texts. */
  lemma {:induction false} WalkIsFeed(tt: TextTools, n: Node, b: seq<string>)
    ensures Walk(tt, n, b) == Feed(Collected(tt, n), b)
    decreases n, 1
  {
    if !Denied(n) {
      var own := if Eligible(tt, n) then [CleanWhitespace(NodeText(tt, n))] else [];
      var s := Visit(tt, n, b);
      FeedAppend(own, CollectedAll(tt, n.children), b);
      WalkAllIsFeed(tt, n.children, s.buffer);
      if Eligible(tt, n) {
        assert Feed(own, b) == Then(s, Idle(s.buffer));
        assert Then(s, Idle(s.buffer)) == s;
      } else {
        assert Feed(own, b) == s;
      }
    }
  }

  /** The walk of a list of siblings is the buffer fed with their collected texts. */
  lemma {:induction false} WalkAllIsFeed(tt: TextTools, cs: seq<Node>, b: seq<string>)
    ensures WalkAll(tt, cs, b) == Feed(CollectedAll(tt, cs), b)
    decreases cs, 0
  {
    if cs != [] {
      var s := Walk(tt, cs[0], b);
      WalkIsFeed(tt, cs[0], b);
      WalkAllIsFeed(tt, cs[1..], s.buffer);
      FeedAppend(Collected(tt, cs[0]), CollectedAll(tt, cs[1..]), b);
    }
  }

  /** Between appends the buffered word count stays below the threshold. */
  lemma {:induction false} FeedBelowThreshold(texts: seq<string>, b: seq<string>)
    requires WordCount(b) < WordThreshold
    ensures !Feed(texts, b).aborted ==> WordCount(Feed(texts, b).buffer) < WordThreshold
  {
    if texts != [] {
      var s := Append(b, texts[0]);
      if !s.aborted {
        FeedBelowThreshold(texts[1..], s.buffer);
      }
    }
  }

  /** A walk that starts below the threshold and does not abort leaves the buffer below
      it. */
  lemma WalkBelowThreshold(tt: TextTools, n: Node, b: seq<string>)
    requires WordCount(b) < WordThreshold
    ensures !Walk(tt, n, b).aborted ==> WordCount(Walk(tt, n, b).buffer) < WordThreshold
  {
    WalkIsFeed(tt, n, b);
    FeedBelowThreshold(Collected(tt, n), b);
  }

  /** The check `ExtractChunks` makes on the root before the walk changes nothing: the walk
      makes it again. */
  lemma ExtractIsWalkThenFlush(tt: TextTools, root: Node)
    ensures var s := Walk(tt, root, []); Extract(tt, root) == Then(s, Flush(s.buffer))
  {
  }

  /** The stored chunks of a page are the chunks of the buffer fed with the page's
      collected texts, then flushed once. */
  lemma ExtractIsFeed(tt: TextTools, root: Node)
    ensures var s := Feed(Collected(tt, root), []); Extract(tt, root) == Then(s, Flush(s.buffer))
  {
    WalkIsFeed(tt, root, []);
  }

  lemma {:induction false} CollectedAllAppend(tt: TextTools, cs1: seq<Node>, cs2: seq<Node>)
    ensures CollectedAll(tt, cs1 + cs2) == CollectedAll(tt, cs1) + CollectedAll(tt, cs2)
  {
    if cs1 == [] {
      assert cs1 + cs2 == cs2;
    } else {
      assert (cs1 + cs2)[0] == cs1[0];
      assert (cs1 + cs2)[1..] == cs1[1..] + cs2;
      CollectedAllAppend(tt, cs1[1..], cs2);
    }
  }

  /** Denylist pruning: a denied child can be removed from the tree without changing what the
      walk of its parent stores or leaves in the buffer. The parent's own inner text is a
      field of its own and keeps the denied child's text. */
  lemma DeniedChildPruned(tt: TextTools, n: Node, i: nat, b: seq<string>)
    requires i < |n.children| && Denied(n.children[i])
    ensures Walk(tt, n, b) == Walk(tt, n.(children := n.children[..i] + n.children[i + 1..]), b)
  {
    var cs := n.children;
    var m := n.(children := cs[..i] + cs[i + 1..]);
    assert cs == cs[..i] + ([cs[i]] + cs[i + 1..]);
    CollectedAllAppend(tt, cs[..i], [cs[i]] + cs[i + 1..]);
    CollectedAllAppend(tt, cs[..i], cs[i + 1..]);
    assert ([cs[i]] + cs[i + 1..])[1..] == cs[i + 1..];
    assert CollectedAll(tt, [cs[i]] + cs[i + 1..]) == CollectedAll(tt, cs[i + 1..]);
    assert Collected(tt, n) == Collected(tt, m);
    WalkIsFeed(tt, n, b);
    WalkIsFeed(tt, m, b);
  }

  /** An eligible `p` inside an eligible `div`: the `div`'s inner text includes the
      paragraph's, and the paragraph is still visited, so the same text enters the buffer
      twice. */
  lemma NestedTextCollectedTwice(tt: TextTools)
    requires tt.deEntitize("a") == "a" && tt.isLetterOrDigit('a')
    ensures var p := Node("p", map[], "a", []);
            Collected(tt, Node("div", map[], "a", [p])) == ["a", "a"]
  {
    var p := Node("p", map[], "a", []);
    var d := Node("div", map[], "a", [p]);
    assert !Denied(p) && !Denied(d);
    assert TrimStart("a") == "a";
    assert TrimEnd("a") == "a";
    assert NodeText(tt, p) == "a";
    assert Eligible(tt, p) by { assert tt.isLetterOrDigit("a"[0]); }
    assert Eligible(tt, d) by { assert tt.isLetterOrDigit("a"[0]); }
    assert Words("a") == ["a"] by {
      assert TakeWord("a") == "a";
      assert "a"[1..] == [];
    }
    CleanWhitespaceMeaning("a");
    assert CleanWhitespace("a") == "a";
    assert CollectedAll(tt, [p]) == ["a"];
  }
}
