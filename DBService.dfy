/** The retrieval side of the vector store: a nearest-neighbour query over the stored
    chunks, whose result pages are flattened into one list of strings. The database runs the
    query (ordering by vector distance and keeping the first `topNResults`); here it is the
    function `run`, and only the collection of its pages is modelled. */
module DBService {

  /** A stored chunk as the container holds it: the URL is also the partition key. */
  datatype TextEmbeddingItem = TextEmbeddingItem(id: string, url: string, text: string,
                                                 embedding: seq<real>, textHash: string)

  /** The query text, with its two parameters `@n` and `@embedding`. */
  const VectorQuery: string :=
    "SELECT TOP @n c.Text, c.Url, VectorDistance(c.Embedding,@embedding) AS SimilarityScore FROM c ORDER BY VectorDistance(c.Embedding,@embedding)"

  const DefaultTopN: int := 5

  /** A query with its parameters bound. */
  datatype QueryDefinition = QueryDefinition(query: string, n: int, embedding: seq<real>)

  /** The query of `GetNNearestTextsAndEmbeddingsAsync`: `@n` is bound to `topNResults`,
      `@embedding` to the query embedding. */
  function NearestQuery(queryEmbedding: seq<real>, topNResults: int): (q: QueryDefinition)
    ensures q.n == topNResults && q.embedding == queryEmbedding
  {
    QueryDefinition(VectorQuery, topNResults, queryEmbedding)
  }

  /** What the database answers to a query: its result pages, in the order the feed
      iterator hands them out. */
  type QueryRunner = QueryDefinition -> seq<seq<TextEmbeddingItem>>

  const Separator: string := "from URL: "

  /** The string one item contributes: its text, then `from URL: ` and its URL, with nothing
      between the text and `from`. */
  function Entry(item: TextEmbeddingItem): (r: string)
    ensures |r| == |item.text| + |Separator| + |item.url|
    ensures r[..|item.text|] == item.text
    ensures r[|item.text|..|item.text| + |Separator|] == Separator
    ensures r[|item.text| + |Separator|..] == item.url
  {
    item.text + Separator + item.url
  }

  /** All items of all pages, page after page. */
  function Flatten(pages: seq<seq<TextEmbeddingItem>>): seq<TextEmbeddingItem>
  {
    if pages == [] then [] else Flatten(pages[..|pages| - 1]) + pages[|pages| - 1]
  }

  /** The number of items over all pages. */
  function TotalItems(pages: seq<seq<TextEmbeddingItem>>): nat
  {
    if pages == [] then 0 else |pages[0]| + TotalItems(pages[1..])
  }

  /** The entries of a list of items, in the same order. */
  function Entries(items: seq<TextEmbeddingItem>): seq<string>
  {
    if items == [] then [] else Entries(items[..|items| - 1]) + [Entry(items[|items| - 1])]
  }

  /** `GetNNearestTextsAndEmbeddingsAsync(queryEmbedding, topNResults = 5)`: binds the
      parameters, then reads the feed page by page and each page item by item. */
  method GetNNearestTexts(run: QueryRunner, queryEmbedding: seq<real>,
                          topNResults: int := DefaultTopN)
    returns (results: seq<string>)
    ensures results == Entries(Flatten(run(NearestQuery(queryEmbedding, topNResults))))
  {
    var queryDef := NearestQuery(queryEmbedding, topNResults);
    var feed := run(queryDef);
    results := [];
    var p := 0;
    while p < |feed|
      invariant 0 <= p <= |feed|
      invariant results == Entries(Flatten(feed[..p]))
    {
      var response := feed[p];
      ghost var read := Flatten(feed[..p]);
      assert read + response[..0] == read;
      var j := 0;
      while j < |response|
        invariant 0 <= j <= |response|
        invariant results == Entries(read + response[..j])
      {
        var item := response[j];
        EntriesStep(read, response, j);
        results := results + [Entry(item)];
        j := j + 1;
      }
      assert response[..j] == response;
      FlattenStep(feed, p);
      p := p + 1;
    }
    assert feed[..p] == feed;
  }

  /** One turn of the outer loop: the next page's items follow those read so far. */
  lemma FlattenStep(pages: seq<seq<TextEmbeddingItem>>, p: nat)
    requires p < |pages|
    ensures Flatten(pages[..p + 1]) == Flatten(pages[..p]) + pages[p]
  {
    assert pages[..p + 1][..p] == pages[..p];
  }

  /** One turn of the inner loop: the next item of the page adds its entry at the end. */
  lemma EntriesStep(read: seq<TextEmbeddingItem>, page: seq<TextEmbeddingItem>, j: nat)
    requires j < |page|
    ensures Entries(read + page[..j + 1]) == Entries(read + page[..j]) + [Entry(page[j])]
  {
    assert (read + page[..j + 1])[..|read| + j] == read + page[..j];
  }

  // ---------------------------------------------------------------------------------------
  // What the collected list promises.

  /** One entry per item: as many entries as items over all pages. */
  lemma {:induction false} EntriesLength(pages: seq<seq<TextEmbeddingItem>>)
    ensures |Entries(Flatten(pages))| == TotalItems(pages)
  {
    EntriesPointwise(Flatten(pages));
    FlattenLength(pages);
  }

  /** Entry `k` is the entry of item `k`, order kept. */
  lemma {:induction false} EntriesPointwise(items: seq<TextEmbeddingItem>)
    ensures |Entries(items)| == |items|
    ensures forall k :: 0 <= k < |items| ==> Entries(items)[k] == Entry(items[k])
  {
    if items != [] {
      EntriesPointwise(items[..|items| - 1]);
    }
  }

  lemma {:induction false} FlattenLength(pages: seq<seq<TextEmbeddingItem>>)
    ensures |Flatten(pages)| == TotalItems(pages)
  {
    if pages != [] {
      FlattenCons(pages[0], pages[1..]);
      assert [pages[0]] + pages[1..] == pages;
      FlattenLength(pages[1..]);
    }
  }

  /** Reading one page and then the rest is reading them all. */
  lemma {:induction false} FlattenCons(page: seq<TextEmbeddingItem>,
                                       rest: seq<seq<TextEmbeddingItem>>)
    ensures Flatten([page] + rest) == page + Flatten(rest)
  {
    FlattenAppend([page], rest);
    assert [page][..0] == [];
  }

  /** Pages are consumed in order: the items of two runs of pages are the first run's items,
      then the second's. */
  lemma {:induction false} FlattenAppend(p1: seq<seq<TextEmbeddingItem>>,
                                         p2: seq<seq<TextEmbeddingItem>>)
    ensures Flatten(p1 + p2) == Flatten(p1) + Flatten(p2)
  {
    if p2 == [] {
      assert p1 + p2 == p1;
    } else {
      var last := p2[|p2| - 1];
      var init := p2[..|p2| - 1];
      assert (p1 + p2)[..|p1 + p2| - 1] == p1 + init;
      assert (p1 + p2)[|p1 + p2| - 1] == last;
      assert Flatten(p1 + p2) == Flatten(p1 + init) + last;
      FlattenAppend(p1, init);
      assert Flatten(p2) == Flatten(init) + last;
      assert Flatten(p1) + Flatten(init) + last == Flatten(p1) + (Flatten(init) + last);
    }
  }

  /** Where an item ends up: item `j` of page `p` gives the entry at position
      `TotalItems(pages[..p]) + j` of the result. */
  lemma {:induction false} EntryPosition(pages: seq<seq<TextEmbeddingItem>>, p: nat, j: nat)
    requires p < |pages| && j < |pages[p]|
    ensures TotalItems(pages[..p]) + j < |Entries(Flatten(pages))|
    ensures Entries(Flatten(pages))[TotalItems(pages[..p]) + j] == Entry(pages[p][j])
  {
    assert pages == pages[..p] + ([pages[p]] + pages[p + 1..]);
    FlattenAppend(pages[..p], [pages[p]] + pages[p + 1..]);
    FlattenCons(pages[p], pages[p + 1..]);
    FlattenLength(pages[..p]);
    FlattenLength(pages);
    EntriesPointwise(Flatten(pages));
  }
}
