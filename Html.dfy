/** A parsed HTML page, as the scraping service sees it: a tree of element and text nodes.
    Parsing is not modelled; `innerText` is the text the parser reports for a node and all
    its descendants. */
module Html {
  import opened Strings
  import opened Wrappers

  /** A node: its lower-case tag name (`#document`, `#text`, `p`, `a`, ...), its attributes by
      name, its inner text and its children in document order. */
  datatype Node = Node(name: string, attrs: map<string, string>, innerText: string,
                       children: seq<Node>)

  const IgnoredTags: set<string> := {"script", "style", "header", "footer", "nav"}
  const IgnoredClassesAndIds: set<string> := {"header", "footer", "nav", "toc", "table-of-contents"}

  /** An attribute whose whole lower-cased value is one of the ignored classes and ids. */
  predicate IgnoredAttribute(n: Node, attr: string)
  {
    attr in n.attrs && ToLowerAscii(n.attrs[attr]) in IgnoredClassesAndIds
  }

  /** The denylist: such a node contributes no text and its subtree is not visited. */
  predicate Denied(n: Node)
  {
    n.name in IgnoredTags || IgnoredAttribute(n, "class") || IgnoredAttribute(n, "id")
  }

  /** The `href` values of the `a` elements that have one (the nodes selected by
      `//a[@href]`), in document order. */
  function Hrefs(n: Node): seq<string>
  {
    (if n.name == "a" && "href" in n.attrs then [n.attrs["href"]] else []) + HrefsAll(n.children)
  }

  function HrefsAll(cs: seq<Node>): seq<string>
  {
    if cs == [] then [] else Hrefs(cs[0]) + HrefsAll(cs[1..])
  }

  /** The links of a list of `href` values: the empty ones are dropped, the others resolved
      against `baseUrl` in order. `resolve` is `GetAbsoluteUrl`; `None` stands for the
      exception it throws on a reference it cannot combine, which ends the whole
      extraction. */
  function Links(resolve: (string, string) -> Option<string>, hrefs: seq<string>,
                 baseUrl: string): (r: Option<seq<string>>)
    ensures r.Some? ==> |r.value| <= |hrefs|
  {
    if hrefs == [] then Some([])
    else
      var rest := Links(resolve, hrefs[1..], baseUrl);
      if hrefs[0] == [] then rest
      else match resolve(baseUrl, hrefs[0])
        case None => None
        case Some(u) => if rest.None? then None else Some([u] + rest.value)
  }

  /** Resolving two lists of `href` values one after the other gives the two lists of
      links one after the other; a failure in either fails the whole. */
  lemma {:induction false} LinksAppend(resolve: (string, string) -> Option<string>,
                                       h1: seq<string>, h2: seq<string>, baseUrl: string)
    ensures Links(resolve, h1 + h2, baseUrl)
      == (var l1, l2 := Links(resolve, h1, baseUrl), Links(resolve, h2, baseUrl);
          if l1.Some? && l2.Some? then Some(l1.value + l2.value) else None)
  {
    if h1 != [] {
      var h := h1[0];
      assert (h1 + h2)[0] == h;
      assert (h1 + h2)[1..] == h1[1..] + h2;
      LinksAppend(resolve, h1[1..], h2, baseUrl);
      var l1, l2 := Links(resolve, h1[1..], baseUrl), Links(resolve, h2, baseUrl);
      if h != [] && resolve(baseUrl, h).Some? {
        var u := resolve(baseUrl, h).value;
        if l1.Some? && l2.Some? {
          assert Links(resolve, h1 + h2, baseUrl) == Some([u] + (l1.value + l2.value));
          assert [u] + (l1.value + l2.value) == ([u] + l1.value) + l2.value;
        }
      }
    } else {
      assert h1 + h2 == h2;
      var l2 := Links(resolve, h2, baseUrl);
      if l2.Some? {
        assert [] + l2.value == l2.value;
      }
    }
  }

  /** Resolving one more `href` value: an empty one is skipped, another adds its link at
      the end or fails the whole. */
  lemma LinksStep(resolve: (string, string) -> Option<string>, hrefs: seq<string>, i: nat,
                  baseUrl: string)
    requires i < |hrefs|
    ensures var l := Links(resolve, hrefs[..i], baseUrl);
      Links(resolve, hrefs[..i + 1], baseUrl) ==
        if l.None? then None
        else if hrefs[i] == [] then l
        else match resolve(baseUrl, hrefs[i])
          case None => None
          case Some(u) => Some(l.value + [u])
  {
    LinksAppend(resolve, hrefs[..i], [hrefs[i]], baseUrl);
    assert hrefs[..i + 1] == hrefs[..i] + [hrefs[i]];
    assert [hrefs[i]][1..] == [];
    var l := Links(resolve, hrefs[..i], baseUrl);
    var h := hrefs[i];
    if h != [] && resolve(baseUrl, h).Some? {
      var u := resolve(baseUrl, h).value;
      assert [u] + [] == [u];
      assert Links(resolve, [h], baseUrl) == Some([u]);
    } else if h == [] {
      assert Links(resolve, [h], baseUrl) == Some([]);
      if l.Some? {
        assert l.value + [] == l.value;
      }
    }
  }

  /** Once a prefix of the `href` values fails, the whole list fails. */
  lemma LinksFailed(resolve: (string, string) -> Option<string>, hrefs: seq<string>, i: nat,
                    baseUrl: string)
    requires i <= |hrefs| && Links(resolve, hrefs[..i], baseUrl).None?
    ensures Links(resolve, hrefs, baseUrl).None?
  {
    assert hrefs[..i] + hrefs[i..] == hrefs;
    LinksAppend(resolve, hrefs[..i], hrefs[i..], baseUrl);
    assert Links(resolve, hrefs[..i] + hrefs[i..], baseUrl).None?;
  }

  /** A single non-empty `href` that fails to resolve fails the whole list. */
  lemma LinksFailAt(resolve: (string, string) -> Option<string>, hrefs: seq<string>, k: nat,
                    baseUrl: string)
    requires k < |hrefs| && hrefs[k] != [] && resolve(baseUrl, hrefs[k]).None?
    ensures Links(resolve, hrefs, baseUrl).None?
  {
    LinksStep(resolve, hrefs, k, baseUrl);
    LinksFailed(resolve, hrefs, k + 1, baseUrl);
  }

  /** Exactly the non-empty `href` values become links, each resolved against the base, in
      document order, duplicates kept. */
  lemma {:induction false} LinksPointwise(resolve: (string, string) -> Option<string>,
                                          hrefs: seq<string>, baseUrl: string)
    requires forall h :: h in hrefs && h != [] ==> resolve(baseUrl, h).Some?
    ensures Links(resolve, hrefs, baseUrl) == Some(ResolveAll(resolve, NonEmpty(hrefs), baseUrl))
  {
    if hrefs != [] {
      assert forall h :: h in hrefs[1..] ==> h in hrefs;
      LinksPointwise(resolve, hrefs[1..], baseUrl);
    }
  }

  /** Reference definitions for `LinksPointwise`: filter, then map. */
  function NonEmpty(hrefs: seq<string>): (r: seq<string>)
    ensures forall h :: h in r <==> h in hrefs && h != []
  {
    if hrefs == [] then []
    else if hrefs[0] == [] then NonEmpty(hrefs[1..])
    else [hrefs[0]] + NonEmpty(hrefs[1..])
  }

  function ResolveAll(resolve: (string, string) -> Option<string>, hrefs: seq<string>,
                      baseUrl: string): (r: seq<string>)
    requires forall h :: h in hrefs ==> resolve(baseUrl, h).Some?
    ensures |r| == |hrefs|
    ensures forall i :: 0 <= i < |hrefs| ==> r[i] == resolve(baseUrl, hrefs[i]).value
  {
    if hrefs == [] then []
    else [resolve(baseUrl, hrefs[0]).value] + ResolveAll(resolve, hrefs[1..], baseUrl)
  }
}
