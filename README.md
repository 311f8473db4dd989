# easy-agent: a verified model of the crawler, the chunker and the agent's tool loop

easy-agent is a site-specific chat assistant in two halves.

- **Ingestion.** A background service (`WebsiteScrapingService`) crawls a website depth first from a root URL. It cuts the text of each page into chunks and stores each chunk with its URL and a SHA-256 text hash in a vector container.
- **Query.** An HTTP controller (`ChatController`) forwards a user message to a hosted agent and answers the agent's tool calls. The tools are `calculateAgeInDogYears` and `requestMoreInformationFromSiteContext`; the second looks up the nearest stored chunks through `DBService`. The final message of the run is returned with the thread id.

This project models both halves in Dafny:

- The crawl is the class `Scraper.WebsiteScraper`. Its visited-URL set and the chunk store are fields updated in place.
- Every method of the class is proved against the functional specification in `Crawler` and `Chunking`.
- The agent's streaming loop (`Chat.CallAIFoundryAgent`) is proved against `Chat.Converse`. The result-collection loop of the vector query (`DBService.GetNNearestTexts`) is proved against `DBService.Entries`.

Modules:

| module | what it holds |
|---|---|
| `Wrappers` | `Option` and `Result` |
| `Strings` | the .NET string operations used: `Trim`, `string.Join`, `IndexOf(char, start)`, `Split(' ').Length`, `ToLower` |
| `Whitespace` | `CleanWhitespace` (collapse every white-space run to one space, then trim), characterised by the words of its input |
| `Hex` | the formatting in `ComputeHash`: `BitConverter.ToString`, removing dashes, lower-casing |
| `Html` | the parsed document tree, the denylist of tags, classes and ids, and the `href` collection of `ExtractLinks` |
| `Chunking` | `ExtractChunks` as a pure function: the buffer, the 200-word flush and the 28000-character split |
| `Crawler` | `ScrapeWebsiteAsync` and `KickOffScraping` as functions on the crawl state, and their invariants |
| `Scraper` | the class `WebsiteScraper` |
| `DBService` | `TextEmbeddingItem` and `GetNNearestTextsAndEmbeddingsAsync` |
| `Decimal` | C# `int`: 32-bit wrap-around and `int.ToString()` |
| `Chat` | tool dispatch, the dog-years tool, the site-context tool, the streaming do-while loop, the final reply and `Query`'s exception wrapping |

## How the environment is modelled

External collaborators are parameters, grouped in `Crawler.Env` and `Chat.ChatEnv`. These are:

- the HTTP fetch and parsed page, as `Option<Node>`;
- `GetAbsoluteUrl`, which yields `None` when it throws;
- SHA-256 over the UTF-8 bytes, as a 32-byte digest;
- `HtmlEntity.DeEntitize` and `char.IsLetterOrDigit`;
- `JsonDocument.Parse`;
- the embedding model plus the vector query;
- the thread ids, the message list of a run, and the text of an exception.

The agent runtime is a script: a sequence of streaming segments. Segment 0 answers `CreateRunStreamingAsync`, and segment `k` answers the `k`-th `SubmitToolOutputsToStreamAsync`.

Exceptions are explicit. In the scraper, the exception of `Substring` ends the page: the `try` in `ScrapeWebsiteAsync` swallows it, and the page's links are not followed. In the controller, a thrown exception is a `Chat.Fault`. `Query` turns a fault into the reply `Exception during request: …` with a null session id.

## Behaviour worth knowing

The model follows the code, including these consequences of it:

- **Period split.** A buffer longer than 28000 characters is cut at the first `.` at or after index 5000, when that is before 7000. The period begins the *second* chunk (`Substring(0, breakPoint)`); it does not end the first.
- **No period found.** When there is no `.` at or after index 5000, `IndexOf` returns -1. `Math.Min(-1, 7000)` is -1 and `Substring` throws. So the page stores nothing more, its links are not followed, and the buffer has already been cleared. The text is cut at 7000 only when the first period at or after 5000 comes after 7000 (`Chunking.FlushRule`).
- **Repeated runs.** The visited set is a field that is never cleared, and the store is reset once, before the timer loop. Every scheduled run after the first therefore does nothing (`Crawler.RerunChangesNothing`).
- **Blank questions.** Only a null or empty question short-circuits. A question of white space only is embedded and looked up (`Chat.EmptyQuestion`).
- **Entry format.** A retrieved entry is `Text + "from URL: " + Url`, with no space before `from` (`DBService.Entry`).
- **Nested text.** Eligible `p`/`div` nodes are not leaves. A `div` and a paragraph inside it both contribute their whole inner text, so the same text is buffered twice (`Chunking.NestedTextCollectedTwice`).
- **Denied descendants.** A denied descendant is skipped as a node, but its text is still part of an eligible ancestor's `InnerText` (`Chunking.DeniedChildPruned` shows only that its own visit is pruned).
- **Unknown tool names.** An unknown tool name yields a null tool output. It still counts as an output, so the loop submits it (`Chat.DispatchByName`).
- **Dog years overflow.** `humanYears * 10` wraps around in 32 bits (`Chat.DogYearsWrapAround`).

## Model

| member | source | states |
|---|---|---|
| Scraper.WebsiteScraper.constructor | Services/WebsiteScrapingService.cs:14-28 | a new service has visited nothing, requested nothing and stored nothing |
| Scraper.WebsiteScraper.KickOffScraping | Services/WebsiteScrapingService.cs:71-76 | the new state is the crawl from the root at depth 0 with the default bound 10, or no change when the root is not a valid URI |
| Scraper.WebsiteScraper.ScrapeWebsite | Services/WebsiteScrapingService.cs:78-117 | the new visited set, request log and store are those of `Crawler.Crawl`: skip when visited or too deep, mark before fetching, stop on a failed fetch or a chunking exception, then recurse depth + 1 over the links in order |
| Scraper.WebsiteScraper.ExtractLinks | Services/WebsiteScrapingService.cs:119-136 | the links are the resolved non-empty hrefs in document order, and `None` when resolving one throws (`Crawler.PageLinks`) |
| Scraper.WebsiteScraper.ExtractChunks | Services/WebsiteScrapingService.cs:152-222 | the store grows by exactly the chunks of `Chunking.Extract` (nothing for a denied root), and `ok` is false exactly when a split throws |
| Scraper.WebsiteScraper.ProcessNode | Services/WebsiteScrapingService.cs:187-216 | the store grows by the chunks of `Chunking.Walk` of the node, and the returned buffer is the walk's buffer |
| Scraper.WebsiteScraper.ProcessChildren | Services/WebsiteScrapingService.cs:212-215 | the children are walked in order, threading the buffer; the first exception stops the loop; the store grows by `Chunking.WalkAll` |
| Scraper.WebsiteScraper.AddNodeText | Services/WebsiteScrapingService.cs:196-210 | an eligible `p`/`div` appends its cleaned text, and the buffer is flushed and cleared when it reaches 200 words (`Chunking.Visit`) |
| Scraper.WebsiteScraper.StoreAccumulatedChunks | Services/WebsiteScrapingService.cs:166-185 | the store grows by the chunks of `Chunking.Flush` of the buffer, and `ok` is false exactly when `Substring` throws |
| Scraper.WebsiteScraper.StoreChunk | Services/WebsiteScrapingService.cs:224-238 | exactly one record is appended: the URL, the text, and the hash of the text |
| Crawler.Crawl | Services/WebsiteScrapingService.cs:78-117 | `ScrapeWebsiteAsync` on the crawl state; its properties are stated by `Crawler.CrawlExtends`, `Crawler.CrawlFirstRequest` and `Crawler.CrawlTraced` |
| Crawler.CrawlLinks | Services/WebsiteScrapingService.cs:105-108 | the loop over a page's links; stated by `Crawler.CrawlLinksExtends` and `Crawler.CrawlLinksAppend` |
| Crawler.KickOff | Services/WebsiteScrapingService.cs:71-76 | `KickOffScraping`; stated by `Crawler.KickOffFetchesOnce`, `Crawler.ReachedByLinks` and `Crawler.RerunChangesNothing` |
| Crawler.Chunks | Services/WebsiteScrapingService.cs:224-238 | one stored record per chunk text, in order, each with the URL, the text and its hash |
| Crawler.CrawlExtends | Services/WebsiteScrapingService.cs:78-117 | a crawl only adds: the visited set and the request log grow; requests are made at depths within the bound; every requested URL is newly visited and requested once; the store grows at its end |
| Crawler.CrawlLinksExtends | Services/WebsiteScrapingService.cs:105-108 | the same for the loop over a page's links |
| Crawler.KickOffFetchesOnce | Services/WebsiteScrapingService.cs:71-83 | no URL is requested twice in a run, every requested URL is in the visited set, and new requests are at depths 0..maxDepth |
| Crawler.CrawlFirstRequest | Services/WebsiteScrapingService.cs:80-101 | an unvisited URL within depth is requested first, at its depth, and marked visited; a failed fetch or a throwing chunker ends that branch with no further request |
| Crawler.CrawlLinksAppend | Services/WebsiteScrapingService.cs:105-108 | crawling two runs of links one after the other is crawling their concatenation |
| Crawler.CrawlTraced | Services/WebsiteScrapingService.cs:78-117 | the first request of a crawl call is its own URL at its depth; every later one is deeper and is for a link on the page of an earlier request one level up |
| Crawler.CrawlLinksTraced | Services/WebsiteScrapingService.cs:105-108 | the same for the loop over a page's links, whose own requests are for those links |
| Crawler.ReachedByLinks | Services/WebsiteScrapingService.cs:71-117 | every page a run requests at depth d, with 0 <= d <= maxDepth, ends a chain of d links from the root, each a link on the page before it |
| Crawler.RerunChangesNothing | Services/WebsiteScrapingService.cs:43-55 | since the visited set is never cleared, a second kick-off from the same root changes nothing |
| Chunking.WordCount | Services/WebsiteScrapingService.cs:204 | the sum over the buffer of `Split(' ').Length`; `Whitespace.CleanedSplitLength` relates it to the words |
| Chunking.Eligible | Services/WebsiteScrapingService.cs:196-199 | a `p` or `div` whose trimmed, de-entitised inner text is non-empty and holds a letter or digit |
| Chunking.NodeText | Services/WebsiteScrapingService.cs:198 | the de-entitised, trimmed inner text of a node |
| Chunking.Visit | Services/WebsiteScrapingService.cs:196-210 | the step of one node before its children: an eligible node's cleaned text is appended (`Chunking.Append`) |
| Chunking.Walk | Services/WebsiteScrapingService.cs:187-216 | the recursive walk; its meaning is stated by `Chunking.WalkIsFeed` |
| Chunking.Extract | Services/WebsiteScrapingService.cs:152-222 | the whole extraction; its meaning is stated by `Chunking.ExtractIsFeed` |
| Chunking.Flush | Services/WebsiteScrapingService.cs:166-185 | the buffer is always cleared, and a flush that throws stores nothing |
| Chunking.FlushRule | Services/WebsiteScrapingService.cs:166-185 | an empty buffer stores nothing; a joined text of at most 28000 characters is stored whole; a longer one throws exactly when no `.` follows index 5000, and otherwise is stored as two pieces that concatenate to it, cut at the first period in [5000, 7000) or at 7000 |
| Chunking.Append | Services/WebsiteScrapingService.cs:202-208 | a text is buffered and, at 200 words or more, the buffer is flushed; after a step that did not throw, the buffer holds fewer than 200 words |
| Chunking.WalkIsFeed | Services/WebsiteScrapingService.cs:187-216 | the recursive walk equals feeding the node's collected texts (pre-order, denied subtrees pruned) into the buffer one by one |
| Chunking.WalkAllIsFeed | Services/WebsiteScrapingService.cs:212-215 | the same for a list of children |
| Chunking.FeedAppend | Services/WebsiteScrapingService.cs:202-208 | feeding two lists of texts is feeding the first, then the second from the buffer it left |
| Chunking.CollectedAllAppend | Services/WebsiteScrapingService.cs:212-215 | the texts collected from two runs of siblings are those of the first, then the second |
| Chunking.FeedBelowThreshold | Services/WebsiteScrapingService.cs:204-208 | a buffer below 200 words stays below 200 words after any feed that does not throw |
| Chunking.WalkBelowThreshold | Services/WebsiteScrapingService.cs:204-208 | the same for the walk of a node |
| Chunking.ExtractIsWalkThenFlush | Services/WebsiteScrapingService.cs:218-221 | extraction is the walk of the root followed by a final flush of what remains |
| Chunking.ExtractIsFeed | Services/WebsiteScrapingService.cs:152-222 | extraction is feeding the root's collected texts and then a final flush |
| Chunking.DeniedChildPruned | Services/WebsiteScrapingService.cs:189-194 | removing a denied child (by tag, class or id) does not change the walk of its parent |
| Chunking.NestedTextCollectedTwice | Services/WebsiteScrapingService.cs:196-215 | witness on one example tree: a `div` holding a paragraph contributes the paragraph's text twice, once in its own inner text and once through the paragraph |
| Whitespace.Collapse | Services/WebsiteScrapingService.cs:252 | `Regex.Replace(input, @"\s+", " ")`: each run of white space becomes one space; characterised by `Whitespace.CollapseTrimmed` |
| Whitespace.CleanWhitespace | Services/WebsiteScrapingService.cs:250-253 | the collapse, trimmed; its meaning is stated by `Whitespace.CleanWhitespaceMeaning` |
| Whitespace.CollapseTrimmed | Services/WebsiteScrapingService.cs:252 | trimming the collapse of a text gives its words joined by single spaces |
| Whitespace.CleanWhitespaceMeaning | Services/WebsiteScrapingService.cs:250-253 | the cleaned text is the words of the input joined by single spaces, with no leading, trailing or doubled white space |
| Whitespace.CleanWhitespaceIdempotent | Services/WebsiteScrapingService.cs:250-253 | cleaning twice is cleaning once |
| Whitespace.CleanWhitespaceEmpty | Services/WebsiteScrapingService.cs:250-253 | the result is empty exactly when the input is all white space |
| Whitespace.CleanedSplitLength | Services/WebsiteScrapingService.cs:204 | `Split(' ').Length` of a cleaned non-blank text is its number of words |
| Whitespace.WordsOfJoin | Services/WebsiteScrapingService.cs:250-253 | the words of words joined by spaces are those words |
| Whitespace.WordsAreWords | Services/WebsiteScrapingService.cs:250-253 | every word is non-empty and free of white space |
| Strings.IsWhiteSpace | Services/WebsiteScrapingService.cs:198 | `char.IsWhiteSpace`, the set `Trim` removes; the same set is `\s` in the regular expression at line 252 |
| Strings.TrimStartIsSuffix | Services/WebsiteScrapingService.cs:252 | `TrimStart` keeps a suffix, and what it drops is white space |
| Strings.TrimStartDropsWhiteSpace | Services/WebsiteScrapingService.cs:252 | what `TrimStart` drops is white space |
| Strings.TrimEndIsPrefix | Services/WebsiteScrapingService.cs:252 | `TrimEnd` keeps a prefix |
| Strings.Trim | Services/WebsiteScrapingService.cs:252 | the trimmed text neither begins nor ends with white space |
| Strings.TrimMeaning | Services/WebsiteScrapingService.cs:252 | the trimmed text is the slice of the input after its leading white space, and everything outside that slice is white space |
| Strings.TrimEndDropsWhiteSpace | Services/WebsiteScrapingService.cs:252 | what `TrimEnd` removes is white space |
| Strings.IndexOf | Services/WebsiteScrapingService.cs:176 | the first index of the character at or after the start, and -1 exactly when there is none |
| Strings.CountJoin | Services/WebsiteScrapingService.cs:204 | joining n texts with a separator character adds n - 1 occurrences of it |
| Strings.SplitJoin | Controllers/ChatController.cs:202 | splitting a join at its separator gives the parts back, when no part holds the separator |
| Strings.SplitOn | Services/WebsiteScrapingService.cs:204 | `Split(' ')`: at least one piece, none holding the separator; `Strings.SplitJoin` gives its inverse |
| Strings.ToLowerAscii | Services/WebsiteScrapingService.cs:246 | lower-casing keeps the length and maps each ASCII capital to its small letter |
| Hex.BitConverterToString | Services/WebsiteScrapingService.cs:246 | the formatted text of n bytes has 3n - 1 characters, and none for no bytes |
| Hex.BitConverterLayout | Services/WebsiteScrapingService.cs:246 | byte k is written as its two upper-case hex digits at positions 3k and 3k + 1, and a dash follows every pair but the last |
| Hex.ComputeHash | Services/WebsiteScrapingService.cs:241-248 | the hash text has 64 lower-case hex digits and decodes back to the digest |
| Hex.RemoveDashes | Services/WebsiteScrapingService.cs:246 | `Replace("-", "")`: the result is no longer and holds no dash; `Hex.FormattedIsLowerHex` shows it leaves exactly the hex digits |
| Hex.FormattedIsLowerHex | Services/WebsiteScrapingService.cs:246 | `BitConverter.ToString`, then removing dashes, then lower-casing, gives two lower-case hex digits per byte |
| Hex.ComputeHashInjective | Services/WebsiteScrapingService.cs:240-248 | distinct digests give distinct hash texts |
| Hex.DecodeLowerHexRoundTrip | Services/WebsiteScrapingService.cs:246 | decoding the lower-case hex text of bytes gives the bytes back |
| Html.Denied | Services/WebsiteScrapingService.cs:154-162 | a node is skipped when its tag is script, style, header, footer or nav, or its lower-cased class or id is header, footer, nav, toc or table-of-contents; used by `Chunking.DeniedChildPruned` |
| Html.Hrefs | Services/WebsiteScrapingService.cs:122-127 | the `href` values of the anchors of the document, in document order; `Crawler.PageLinks` resolves them through `Html.Links` |
| Html.Links | Services/WebsiteScrapingService.cs:119-136 | a successful link list has at most one link per href |
| Html.LinksPointwise | Services/WebsiteScrapingService.cs:125-133 | when every non-empty href resolves, the links are the resolved non-empty hrefs in order |
| Html.LinksAppend | Services/WebsiteScrapingService.cs:125-133 | the links of two runs of hrefs are the first run's, then the second's, and fail when either fails |
| Html.LinksFailed | Services/WebsiteScrapingService.cs:128-135 | once the hrefs up to some point fail, the whole list fails |
| Html.LinksFailAt | Services/WebsiteScrapingService.cs:130 | a single non-empty href that fails to resolve fails the whole list |
| DBService.NearestQuery | Services/DBService.cs:42-44 | `@n` is bound to `topNResults` and `@embedding` to the query embedding |
| DBService.Entry | Services/DBService.cs:56 | an entry is the item's text, then `from URL: `, then the URL |
| DBService.GetNNearestTexts | Services/DBService.cs:40-61 | the result is the entries of all items of all pages that the bound query returns, page after page |
| DBService.EntriesLength | Services/DBService.cs:51-58 | there is one entry per item over all pages |
| DBService.EntryPosition | Services/DBService.cs:51-58 | item j of page p gives the entry at position (items in earlier pages) + j |
| DBService.EntriesPointwise | Services/DBService.cs:54-57 | entry k is the entry of item k |
| DBService.FlattenAppend | Services/DBService.cs:51-58 | the items of two runs of pages are the first run's, then the second's |
| Decimal.Wrap32 | Controllers/ChatController.cs:184 | the wrapped value is a 32-bit int congruent to the exact one modulo 2^32, and equal to it when it fits |
| Decimal.DecimalString | Controllers/ChatController.cs:171 | `int.ToString()` starts with `-` exactly for negative values |
| Decimal.DecimalRoundTrip | Controllers/ChatController.cs:171 | the text of an int reads back as that int |
| Chat.GetProperty | Controllers/ChatController.cs:170 | succeeds exactly on an object holding the property and returns its value; a missing property is a key-not-found fault, a non-object an invalid operation |
| Chat.GetInt32 | Controllers/ChatController.cs:170 | succeeds exactly on a JSON integer that fits in an int, and returns it; another number is a format fault, any other value an invalid operation |
| Chat.GetString | Controllers/ChatController.cs:175 | succeeds exactly on a JSON string or null, returning the string or null; any other value is an invalid operation |
| Chat.CalculateAgeInDogYears | Controllers/ChatController.cs:182-185 | ten times the years, wrapped to 32 bits; exact for years in ±214748364 |
| Chat.DogYearsWrapAround | Controllers/ChatController.cs:184 | 214748365 human years give -2147483646 |
| Chat.MoreInformation | Controllers/ChatController.cs:187-205 | the answer of the site-context tool; stated by `Chat.EmptyQuestion` and `Chat.MoreInformationSplits` |
| Chat.RequestMoreInformationFromSiteContext | Controllers/ChatController.cs:187-205 | the context is empty for a null or empty question, and otherwise the retrieved entries joined with `,` |
| Chat.MoreInformationSplits | Controllers/ChatController.cs:202 | when no entry holds a comma, splitting the context at commas gives the entries back |
| Chat.ToolOutputFor | Controllers/ChatController.cs:164-180 | the output for one tool call; stated by `Chat.DispatchByName`, `Chat.DogYearsOutput` and `Chat.EmptyQuestion` |
| Chat.GetResolvedToolOutput | Controllers/ChatController.cs:164-180 | the output is that of `Chat.ToolOutputFor`: parse first, then dispatch by exact name, null for an unknown name |
| Chat.DispatchByName | Controllers/ChatController.cs:164-180 | malformed arguments fail every call; an unknown name gives a null output; every output carries the call's id |
| Chat.DogYearsOutput | Controllers/ChatController.cs:168-172 | the dog-years tool answers with the decimal text of the wrapped product |
| Chat.EmptyQuestion | Controllers/ChatController.cs:173-177 | the site-context tool answers `""` for a null or empty question and the joined entries otherwise |
| Chat.ResolveMeaning | Controllers/ChatController.cs:117-134 | a segment resolves to one output per required action, in order, and fails exactly when one of them fails |
| Chat.LastRunMeaning | Controllers/ChatController.cs:133 | the run submitted to is the run of the last required action of the segment, or the previous one when there is none |
| Chat.OtherUpdatesIgnored | Controllers/ChatController.cs:119-143 | run-created, completed, error and other updates change neither the outputs nor the run |
| Chat.ConsumeSegment | Controllers/ChatController.cs:116-144 | the `await foreach` collects the resolved outputs of the segment and the last run |
| Chat.FaultEndsSegment | Controllers/ChatController.cs:117-134 | once a tool call throws, the rest of the segment does not change the outcome |
| Chat.Converse | Controllers/ChatController.cs:112-150 | the do-while loop over the script of segments; stated by `Chat.Conversation` |
| Chat.Conversation | Controllers/ChatController.cs:112-150 | the loop submits once per segment with required actions, each submission answering exactly that segment's actions; it stops at the first quiet segment; the messages are read for the last submitted run |
| Chat.CallAIFoundryAgent | Controllers/ChatController.cs:100-162 | the reply and the submissions are those of `Chat.AgentReply` and `Chat.Converse` |
| Chat.ThreadFor | Controllers/ChatController.cs:102 | a new thread for a null session id, else the thread it names; stated by `Chat.QueryOutcome` |
| Chat.FinalMessage | Controllers/ChatController.cs:152-161 | fails exactly when there is no message or the first has no content item; otherwise the session id is the thread id |
| Chat.TextReply | Controllers/ChatController.cs:154-155 | a text reply is the message text, then the thread-id label, then the thread id, each at its position, so both can be read back from it |
| Chat.DiagnosticReply | Controllers/ChatController.cs:154-155 | when the latest message does not start with text, the reply is the diagnostic naming that message's id and the run id (empty without a run), with the thread as session id |
| Chat.Answer | Controllers/ChatController.cs:85-98 | the answer of `Query`; stated by `Chat.QueryOutcome` |
| Chat.Query | Controllers/ChatController.cs:85-98 | the response is `Chat.Answer`: the agent's reply, or the exception text with no session id |
| Chat.QueryOutcome | Controllers/ChatController.cs:85-98 | a response has a session id exactly when the agent replied, and it is the request's thread; otherwise the content starts with `Exception during request: ` |

## Left out

- The HTTP fetch with the HTML parse (`HtmlDocument.LoadHtml`, whose tree `fetch` returns), `HtmlEntity.DeEntitize` and `char.IsLetterOrDigit` are parameters. The model fixes only the order in which they are used. The `//a[@href]` selection is not a parameter: `Html.Hrefs` models it as the pre-order list of the `a` nodes that carry an `href`.
- `GetAbsoluteUrl` (reference resolution, section 5.2 of RFC 3986) is an uninterpreted parameter. Its exception is `None`. The `new Uri(rootUrl)` check in `KickOffScraping` is the `validUri` parameter.
- The SHA-256 digest (FIPS 180-4) and UTF-8 encoding are a parameter that yields 32 bytes. Only the hex formatting is modelled.
- Crawler.Chunks: a stored record has no `Id` (a fresh GUID) and no `Embedding` (the embedding model's output). The embedding call and `db.AddEmbedding` are not modelled as effects; a failure of either is not modelled.
- The scheduling loop of `ExecuteAsync`, the three-hour delay, cancellation, `StopAsync` and `CreateFreshContainerAsync` are not modelled. `Crawler.RerunChangesNothing` states what a repeated run does.
- The ordering by vector distance and `TOP @n` are done by the database. They are part of the `QueryRunner` parameter, not modelled.
- `TextEmbeddingItem.ToString` (formatting with `F4`) is not used by the core and is not modelled.
- Strings.ToLowerAscii: lower-cases ASCII letters only. The code's `ToLower()` uses the current culture, and both the invariant and the current culture also lower-case non-ASCII letters (`É` to `é`). That culture can also map the ASCII capital `I` elsewhere (to dotless `ı` under Turkish). Neither the denylisted names nor the hex digits contain `i` or `I`, and they are ASCII, so the comparisons and the hash text come out the same. Class and id values holding `I` or non-ASCII letters may lower-case differently.
- Decimal.DecimalString: takes the current culture's negative sign to be `-`. `int.ToString()` uses the culture's `NegativeSign`, which some cultures set to U+2212 MINUS SIGN.
- Chat.ToolOutputFor: JSON numbers that are not integers (`1.0`, `1e2`) are one case, `JOtherNumber`, which `GetInt32` rejects. Objects with duplicate keys are collapsed into a map.
- Chat.CallAIFoundryAgent: the posting of the user message (`CreateMessageAsync`) has no observable effect in the model. The runtime's behaviour is a script; a script that runs out answers with empty segments. Faults of the agent service itself, such as an unknown thread id or the submission of a null output, are not modelled.
- `EnsureInitialized`, the agent and client set-up, `SiteContextPlugin`, `Program.cs` and the web UI are not part of this model.
- Console logging is left out everywhere. The text of an exception is the `describe` parameter.
- Chunking.FlushRule: lengths and positions count Unicode code points, whereas .NET `Length`, `IndexOf('.', 5000)` and `Substring` count UTF-16 code units. A text with characters outside the Basic Multilingual Plane is longer in .NET than in the model, so the 28000 bound and the cut positions 5000 and 7000 fall elsewhere. A cut between the two halves of a surrogate pair cannot be represented.
- Scraper.WebsiteScraper.StoreAccumulatedChunks: counts code points, not UTF-16 code units, for the same reason as `Chunking.FlushRule`.
- Strings.IndexOf: indices are code points, not UTF-16 code units.
- Chat.RequestMoreInformationFromSiteContext: the embedding call and the vector query are total functions of `ChatEnv`. In the code either can throw, and `Query` then answers `Exception during request: …`; the model does not produce that answer for them.
- Chat.CallAIFoundryAgent: creating or fetching the thread and enumerating the run's messages are total in the model. In the code each can throw, and `Query` then answers `Exception during request: …`.
- Concurrency (overlapping scheduled runs, concurrent queries) is not modelled. The crawl is sequential, as the code is.
