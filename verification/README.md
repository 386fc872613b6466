# hse_crawler core in Dafny

This project models the deterministic core of the hse_crawler pipeline. The core has two parts.

- **The web-graph builder.** This is `WebGraphProcessor.create_edges_list`. It reads the persisted crawl records one after another. Every URL it meets gets a dense integer id in first-seen order (`link_to_id`). It keeps an id → `{url, processed, has_links}` table (`id_to_info`). It appends one directed edge `(subject id, link id)` for each entry of a record's `links` list. The plain-text edge list that `save_edges_list_with_artifacts` writes, one line `"<from> <to>\n"` per edge, is modelled with it, together with a reader that inverts it.
- **The library-free parts of the HTML parser:**
  - the configuration defaults that `HtmlDocumentParser.__init__` applies to `crawler_config.json`;
  - the string logic of `get_cleared_text`: split on `\n` (other line separators such as `\r` stay inside a piece), strip, drop empty pieces, join with `". "`;
  - `PageEncoder.default`, which writes a page as a JSON object;
  - the `Page` and `HeaderSection` constructors;
  - the header level `header_tag.name[1]` in `process_header`.

Modules and files:

| file | module | content |
|---|---|---|
| `wrappers.dfy` | `Wrappers` | `Option` and `Result` |
| `seqs.dfy` | `Seqs` | small sequence lemmas |
| `text.dfy` | `Text` | Python's `split`, `join`, `isspace` and `strip` on `seq<char>` |
| `decimal.dfy` | `Decimal` | `str(int)` and its inverse |
| `json.dfy` | `Json` | loaded JSON values |
| `graph.dfy` | `WebGraph` | the graph builder |
| `edge_list.dfy` | `EdgeList` | the edge-list file |
| `cleared_text.dfy` | `ClearedText` | `get_cleared_text` |
| `config.dfy` | `Config` | configuration defaults |
| `page.dfy` | `Page` | page records, their JSON form, and opening a header section |

**The graph builder.** `WebGraph.Build` is a fold over a `seq<Record>`. A record holds a subject URL and an optional link list; `None` stands for a missing `links` key. The fold state is the triple `Graph(linkToId, idToInfo, edges)`.

`WebGraph.CreateEdgesList` writes the two Python loops out imperatively and is proved equal to `Build`. Independent reference definitions serve as the builder's partners:
- `Subjects`, `Targets` and `LinkingSubjects` for the node set and the flags;
- `EdgesOf` and `TotalLinks` for the edge list;
- `Visits` and `FirstSeenNumbering` for the ids.

All-input lemmas connect `Build` to each of these references.

**The edge list and the page encoding.** The edge list and the JSON form of a page each come with a decoder. Both directions are proved: decoding an encoding gives the value back, and whatever the decoder accepts is exactly an encoding. For the edge list this holds because the number reader accepts only the shortest decimal text, with no leading zero, which is the only text `str(int)` writes.

**Configuration.** `Config.Resolve` models the constructor's handling of the loaded document, including Python's behaviour when the top-level JSON value is not an object.

## Model

| member | source | states |
|---|---|---|
| WebGraph.Intern | src/make_graph.py:24-27 | an unseen URL gets id `len(link_to_id)` and an unflagged node; known URLs, their nodes and the edges are untouched; the tables stay mutually inverse |
| WebGraph.SetInfo | src/make_graph.py:29 | changing one node's flags keeps the URL table, the edges and every other node |
| WebGraph.OutLinks | src/make_graph.py:31-34 | the links a record contributes: its `links` list, or none when the key is missing, so a missing key behaves like an empty list |
| WebGraph.LinkEdges | src/make_graph.py:34-40 | one edge per link, from the same subject |
| WebGraph.AddLink | src/make_graph.py:35-40 | one inner-loop iteration numbers the link if new, appends exactly the edge `(fromId, id(link))`, and leaves other nodes' flags alone; new nodes are unflagged |
| WebGraph.AddLinks | src/make_graph.py:34-40 | the inner loop keeps the tables consistent, only extends them, and keeps the subject's id valid |
| WebGraph.AddLinksKeys | src/make_graph.py:34-38 | the inner loop adds exactly the record's links to the URL table |
| WebGraph.AddLinksEdges | src/make_graph.py:34-40 | the inner loop appends, after the existing edges, one edge per link in list order |
| WebGraph.AddLinksInfo | src/make_graph.py:35-38 | the inner loop keeps the flags of known nodes and adds new nodes with both flags false |
| WebGraph.Mark | src/make_graph.py:23-33 | a record numbers its subject, sets `processed` on it, sets `has_links` on it when its link list is non-empty, and changes no edge and no other node |
| WebGraph.Step | src/make_graph.py:23-40 | processing a record keeps the tables consistent, extends them, and numbers the subject |
| WebGraph.StepKeys | src/make_graph.py:24-38 | a record adds exactly its subject and its links to the URL table |
| WebGraph.StepEdges | src/make_graph.py:31-40 | a record appends one edge from its subject per link-list entry; a missing or empty list appends none |
| WebGraph.StepFlags | src/make_graph.py:27-38 | a record sets `processed` on its subject, sets `has_links` on it iff its link list is non-empty, and keeps all other flags; new targets start unflagged |
| WebGraph.Build | src/make_graph.py:19-40 | after any sequence of records the URL and node tables are mutually inverse over the ids `0..n-1` and every edge endpoint is a node |
| WebGraph.BuildPrefixStep | src/make_graph.py:20-40 | the outer loop processes the records one at a time, in order |
| WebGraph.EdgesOf | src/make_graph.py:31-40 | the reference edge list has one edge per link-list entry in all |
| WebGraph.DenseIds | src/make_graph.py:24-27 | the node table's keys and the URL table's values are exactly `0..n-1`, and every edge endpoint is below `n` |
| WebGraph.TablesAgree | src/make_graph.py:25-28 | each numbered URL's node carries that URL, and each node's URL is numbered with that node's id |
| WebGraph.BuildNodes | src/make_graph.py:24-39 | the nodes are exactly the record subjects and the link targets |
| WebGraph.BuildFlags | src/make_graph.py:27-38 | `processed` iff the URL is a record subject; `has_links` iff it is the subject of a record with a non-empty link list; a link-only URL has both false |
| WebGraph.BuildEdges | src/make_graph.py:31-40 | the edges are, record by record in order, one edge `(id(subject), id(link))` per link-list entry in list order, duplicates and self-loops kept; their number is the total number of entries |
| WebGraph.BuildStable | src/make_graph.py:24-26 | ids are stable: later records never change an id or an earlier edge |
| WebGraph.NodeCountIsDistinctUrls | src/make_graph.py:24-39 | the number of nodes is the number of distinct subject and target URLs |
| WebGraph.NumberFirstSeen | src/make_graph.py:24-26 | numbering a URL when it is first seen keeps a first-seen numbering |
| WebGraph.NumberAllKeys | src/make_graph.py:35-37 | numbering a sequence of URLs adds exactly those URLs |
| WebGraph.NumberAllFirstSeen | src/make_graph.py:24-26 | numbering URLs one at a time gives each the count of distinct URLs seen before it |
| WebGraph.AddLinksNumbers | src/make_graph.py:35-37 | the inner loop's ids are those of numbering its links in order |
| WebGraph.StepNumbers | src/make_graph.py:24-37 | a record's ids are those of numbering its subject, then its links |
| WebGraph.BuildNumbers | src/make_graph.py:19-37 | the URL table is the numbering of all visited URLs in visit order |
| WebGraph.BuildFirstSeen | src/make_graph.py:24-37 | a URL's id is the number of distinct URLs seen before its first visit |
| WebGraph.NumberingOrder | src/make_graph.py:24-26 | under a first-seen numbering, the smaller id belongs exactly to the URL seen first |
| WebGraph.IdsOrderedByFirstSight | src/make_graph.py:24-37 | of two nodes, the one visited first has the smaller id, and conversely |
| WebGraph.CreateEdgesList | src/make_graph.py:19-40 | the imperative outer loop computes the reference fold |
| WebGraph.ProcessRecord | src/make_graph.py:23-40 | the outer loop's body on one record does the same as one fold step |
| WebGraph.AppendLinks | src/make_graph.py:34-40 | the imperative inner loop computes the inner fold |
| WebGraph.AppendLink | src/make_graph.py:35-40 | one in-place iteration of the inner loop does the same as one fold step |
| EdgeList.EdgeBody | src/make_graph.py:50 | an edge's text holds no `\n` |
| EdgeList.EdgeLine | src/make_graph.py:50 | one written line is the edge's text ended by its only `\n` |
| EdgeList.EdgeText | src/make_graph.py:48-50 | the file text is the written lines of the edges in edge order; its line count and its reading back are stated by `EdgeTextLineCount`, `EdgeTextRoundTrip` and `ParseEdgeTextInverse` |
| EdgeList.WriteEdges | src/make_graph.py:48-50 | the write loop produces the lines of the edges one after another, in edge order |
| EdgeList.EdgeTextLineCount | src/make_graph.py:48-50 | the file has exactly one `\n` per edge |
| EdgeList.Bodies | src/make_graph.py:49-50 | one line body per edge, in order |
| EdgeList.EdgeTextIsJoin | src/make_graph.py:48-50 | the file is the edge bodies joined by `\n` and terminated by one |
| EdgeList.EdgeBodyRoundTrip | src/make_graph.py:50 | an edge is read back from its line |
| EdgeList.ParseBodiesRoundTrip | src/make_graph.py:49-50 | the lines read back to the edges in order |
| EdgeList.EdgeTextRoundTrip | src/make_graph.py:48-50 | reading the written file gives back the edge list in order, duplicates and self-loops intact |
| EdgeList.ParseEdgeBodyInverse | src/make_graph.py:50 | a line the reader accepts is exactly the written text of the edge it reads |
| EdgeList.ParseBodiesInverse | src/make_graph.py:49-50 | lines the reader accepts are exactly the written texts of the edges it reads, in order |
| EdgeList.ParseEdgeTextInverse | src/make_graph.py:48-50 | a file the reader accepts is exactly the file written for the edge list it reads |
| Decimal.NatToString | src/make_graph.py:50 | an id's decimal text is a non-empty digit string with no leading zero |
| Decimal.ParseNatToString | src/make_graph.py:50 | an id's decimal text reads back to that id |
| Decimal.NatToStringParse | src/make_graph.py:50 | the number reader accepts only the text `str(int)` writes: what it reads is written back as the same text |
| Decimal.IntToString | src/parser.py:101 | `str(int)` in the f-string: the decimal digits of a non-negative integer, and a minus sign before the digits of a negative one |
| Text.Split | src/parser.py:123 | `split('\n')` gives one piece more than there are separators, and no piece holds a separator |
| Text.JoinSplit | src/parser.py:123 | splitting and re-joining with the separator gives back the text |
| Text.SplitJoin | src/parser.py:123 | joining separator-free pieces and splitting again gives back the pieces |
| Text.SplitNoSep | src/parser.py:123 | text without the separator is one piece |
| Text.SplitAtFirst | src/parser.py:123 | the text before the first separator is the first piece |
| Text.JoinChars | src/parser.py:123 | a join holds no character absent from the pieces and the separator |
| Text.Join | src/parser.py:123 | `". ".join`: the pieces with the separator between each two; `JoinSplit` and `SplitJoin` prove it inverse to `Split` |
| Text.SkipSpace | src/parser.py:123 | the first non-whitespace position at or after a start, with only whitespace skipped |
| Text.TrimEnd | src/parser.py:123 | the position just past the last non-whitespace character, with only whitespace dropped |
| Text.IsSpace | src/parser.py:123 | the whitespace `strip()` removes is Python's `isspace` set; `IsSpaceListed` states it is exactly the 29 listed code points |
| Text.IsSpaceListed | src/parser.py:123 | a character is whitespace for `strip()` iff it is one of the 29 code points Python's `isspace` accepts |
| Text.Strip | src/parser.py:123 | `strip()` is no longer than its input and neither starts nor ends with whitespace |
| Text.StripSlice | src/parser.py:123 | `strip()` is a slice of the input with only whitespace cut off on either side |
| Text.StripChars | src/parser.py:123 | `strip()` introduces no character |
| Text.StripEmptyIff | src/parser.py:123 | `strip()` is empty iff the input is all whitespace |
| Text.StripStripped | src/parser.py:123 | `strip()` of stripped text is that text |
| ClearedText.Segments | src/parser.py:123 | no kept segment is empty |
| ClearedText.SegmentsNoBreak | src/parser.py:123 | kept segments of lines hold no `\n` |
| ClearedText.SegmentsTrimmed | src/parser.py:123 | every kept segment neither starts nor ends with whitespace |
| ClearedText.SegmentsEmpty | src/parser.py:123 | no segment is kept iff every line is all whitespace |
| ClearedText.AllSpacePieces | src/parser.py:123 | a text is all whitespace iff every line of it is |
| ClearedText.ClearText | src/parser.py:122-123 | `get_cleared_text`: the result holds no `\n`, neither starts nor ends with whitespace, and is empty iff the input is all whitespace |
| ClearedText.ClearTextIdempotent | src/parser.py:122-123 | clearing cleared text changes nothing |
| Config.Resolve | src/parser.py:52-58 | an unreadable file gives the defaults; an object is read key by key; a list or string naming a key raises on the subscript, and otherwise gives the defaults; any other scalar raises at the first `in`; a result always has an allowed parser |
| Config.FromObject | src/parser.py:60-103 | the settings for a loaded object, read key by key; the parser is always an allowed one; the per-key behaviour is stated by `ParserChoice`, `OptionsFromKeys` and `DomainPattern` |
| Config.EqualsOne | src/parser.py:75-83 | Python's `== 1` on a loaded value, true for `1` and `true` only; `FlagEqualsOne` shows the cases |
| Config.IsSubstring | src/parser.py:60 | Python's `key in text` on strings; `SubstringHasOffset` and `OffsetIsSubstring` prove it is a match at some offset |
| Config.PyStr | src/parser.py:101 | `str()` of the configured domain inside the f-string, for strings, integers, booleans and null |
| Config.UrlPattern | src/parser.py:100-101 | the f-string pattern around a domain; `PatternDomainRoundTrip` proves the domain can be read back out of it |
| Config.DefaultSettings | src/parser.py:60-103 | the fallbacks of `Config.Defaults`: parser `lxml` (also used for a parser name outside `Config.AllowedParsers`, which are exactly `lxml`, `html5lib` and `html.parser`); header tags `h1`, `h2`; text tags `p`, `span`, `li`, `a`, `strong`, `h3`-`h6`; both save flags false; main classes `main`, `content`; black-listed classes `sidebar`, `footer`; black-listed tags `footer`; link pattern `Config.DefaultUrlRegexp`, the pattern for domain `hse` |
| Config.DefaultPatternIsHse | src/parser.py:100-103 | the spelled-out default pattern is the configured-domain pattern with domain `hse` |
| Config.NoKeysGiveDefaults | src/parser.py:53-103 | an unreadable file, or a configuration with none of the nine keys, gives exactly the default settings |
| Config.PatternDomainRoundTrip | src/parser.py:100-101 | the domain can be read back out of the pattern built around it |
| Config.ParserChoice | src/parser.py:60-63 | the parser is always allowed; it is the configured one when that is an allowed name, and `lxml` otherwise |
| Config.OnlyConfigKeysMatter | src/parser.py:60-103 | keys other than the nine the constructor reads have no effect |
| Config.OptionsFromKeys | src/parser.py:65-98 | each list option is the configured value when its key is present and its default otherwise; each flag is on iff its key is present with a value equal to 1 |
| Config.DomainPattern | src/parser.py:100-103 | the pattern is built around the configured domain's text, or around `hse` without one, and that domain can be read back |
| Config.FlagEqualsOne | src/parser.py:75-83 | `true` and `1` set a flag; `"1"` and `2` do not |
| Config.ResolvedIsCanonical | src/parser.py:52-103 | every resolved setting has an allowed parser and a pattern built around some domain |
| Config.AsConfigRoundTrip | src/parser.py:52-103 | writing canonical settings as a configuration object and resolving it gives them back |
| Config.ListNamingKeyFails | src/parser.py:60-61 | a top-level list naming a key raises |
| Config.StringConfig | src/parser.py:60-61 | a top-level string containing a key raises; the empty string gives the defaults |
| Config.SubstringHasOffset | src/parser.py:60 | Python's `key in text` finds the key at some offset |
| Config.OffsetIsSubstring | src/parser.py:60 | a key at any offset is found by `key in text` |
| Page.NewPage | src/parser.py:14-20 | a new page carries the given url, title and description, with no sections, no links and empty content |
| Page.NewHeaderSection | src/parser.py:24-27 | a new section carries the given level and content, with no responses |
| Json.StringList | src/parser.py:38 | a string list is written element by element, in order |
| Page.EncodeHeader | src/parser.py:35-39 | a section becomes an object with exactly the keys `level`, `content` and `responses` |
| Page.EncodeHeaders | src/parser.py:32-40 | the sections are encoded one for one, in order |
| Page.EncodePage | src/parser.py:41-48 | a page becomes an object with exactly its six keys, with `data` as long as the page's sections |
| Page.StringsRoundTrip | src/parser.py:38 | an encoded string list decodes back |
| Page.StringsDecodeEncode | src/parser.py:38 | a decoded string list encodes to the original JSON |
| Page.HeaderRoundTrip | src/parser.py:35-39 | an encoded section decodes back |
| Page.HeaderDecodeEncode | src/parser.py:35-39 | a decoded section encodes to the original JSON |
| Page.HeadersRoundTrip | src/parser.py:32-40 | the encoded sections decode back, in order |
| Page.HeadersDecodeEncode | src/parser.py:32-40 | decoded sections encode to the original JSON |
| Page.PageRoundTrip | src/parser.py:31-48 | every field of a page, sections in order included, survives encoding and decoding |
| Page.PageDecodeEncode | src/parser.py:31-48 | the decoder accepts exactly the encoder's output |
| Page.EncodePageInjective | src/parser.py:31-48 | different pages have different encodings, so nothing is dropped |
| Page.HeaderLevel | src/parser.py:139 | the level is the tag name's second character, and an `IndexError` exactly when the name is shorter than two characters |
| Page.OpenHeader | src/parser.py:138-140 | a header appends one new section with the tag's level, the cleared header text and no responses; earlier sections and other fields stay unchanged; a short tag name raises |
| Page.HeaderTagLevels | src/parser.py:139 | `h1` to `h6` give the levels `"1"` to `"6"`, and `h` has none |
| Page.OpenHeaderContent | src/parser.py:139 | the new section's content holds no `\n`, empty iff the header text is all whitespace |

## Left out

- WebGraph.Record: a record's `url` is taken to be a string and its `links` a list of strings. The source does not check this: a `links` value of `null` or a number makes `len(doc["links"])` raise, and a string value would be iterated character by character. The record files come from `PageEncoder`, which always writes a list of strings.
- The records are processed in the order given and are not sorted. Python takes that order from `os.listdir`, which is not modelled; the records arrive as an input sequence.
- A record file that cannot be loaded makes `create_edges_list` raise; it is not skipped. The model's records are already loaded, so it has no such error path.
- EdgeList.EdgeText: it is the text passed to `f.write`, not the bytes on disk. `edges.txt` is opened in text mode with the default `newline`, so Python writes each `\n` as `os.linesep`, which is `\r\n` on Windows. Line-ending translation and encoding are not modelled.
- `src/crawler.py` is not part of this model. It is a thread pool, a blocking queue and HTTP requests: concurrency and network I/O.
- `src/ranking.py` is not part of this model. It is floating-point power iteration on sparse matrices.
- The BeautifulSoup-driven extraction in `src/parser.py` is not modelled, because it depends on that library's tree and matching semantics:
  - `find_title`, `find_desc` and `process_elem`;
  - the sibling walk of `process_header`;
  - `process_main_content` and `find_all_links_by_template`;
  - `check_classes` and the exception wrapper of `process_page`.
- The input to `get_cleared_text` is taken as text already extracted with `get_text(separator='\n')`.
- File I/O is not modelled: opening and `json.load` of record files and of `crawler_config.json`, `json.dump` of the tables, `save_page_data`'s `hash()`-based file names, and directory creation. The loaded values are inputs, and an unreadable configuration is the `Unreadable` case.
- A record without a `"url"` key makes Python raise `KeyError`. A `Record` always has a URL, so this error path is not modelled.
- `create_edges_list` keeps its tables in the object, so calling it twice on one processor continues from the earlier state. The model starts every build from the empty graph.
- The GEXF export (`make_save_gexf`) is not modelled, because it is a third-party serialisation library.
- Logging and the `__main__` entry points are not modelled, because they are side effects only.
- JSON floating-point numbers are not modelled: `Json` has integers only. A float `1.0` would also set a flag under Python's `== 1`.
- JSON object key order is not modelled: objects are maps, so the encoder's key order is not stated.
- Config.PyStr: Python's `str()` text of a list or object used as `domain` is not modelled; such a domain is rendered as the empty string.
- Config.DomainPattern: for a list or object `domain` it states the pattern `UrlPattern("")`, which the source does not produce; the source puts Python's `str()` text of the value there.
- The message printed for an invalid configuration file is not modelled, because output is a side effect.
