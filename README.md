# sauron-markdown: the event-stream tree builder and the embedded-HTML sanitizer

This project models the core of `sauron-markdown`, a Rust library that turns
markdown into sauron virtual-DOM nodes, and proves properties of that model.
It has two parts.

- **The tree builder** (`src/markdown.rs`). `MdParser` reads a stream of
  markdown events from a tokenizer. It keeps a `spine` stack of open elements
  and a `nodes` list of completed top-level nodes.
  - A Start event pushes the element `make_tag` builds.
  - An End event pops the spine top. The popped node goes to the new top, or
    to `nodes` when the spine is then empty.
  - Leaf events attach a child to the spine top.
  - `find_title` then searches the resulting forest for the first `h1` whose
    only child is a text.
- **The sanitizer** (`src/markdown/html_parser.rs`). It rebuilds a DOM that
  html5ever has already parsed. It keeps allow-listed tags, allow-listed
  attribute names and text that is not whitespace only. An element with an
  unknown tag is dropped together with its whole subtree.

Files:

- `wrappers.dfy`: `Option`, and `Result`, which stands for the source's panics.
- `nodes.dfy`: the sauron `Node` value: an element (tag, attributes, children, self-closing flag) or a text.
- `decimal.dfy`: `u64::to_string` and the reading of its digits back into a number.
- `strutil.dfy`: `char::is_whitespace`, `trim_start`, `trim` and `starts_with`.
- `markdown.dfy`: events, tags, `make_tag`, the builder as a step function `Step` and its fold `Run`, the `MdParser` class whose `Parse` loop is proved equal to `Run`, the balance theorem, and the title search.
- `html_parser.dfy`: the tables, `match_tag`, `match_attribute`, `extract_attributes`, `process_node`/`process_children`, `parse` and `parse_simple`, with the soundness and idempotence theorems.

Modelling choices:

- **Panics are an error path.** `assert!`, `expect` and `assert_eq!` become
  an `Err` value of `Result`. The property proved is which input streams
  reach that `Err`: a stream panics exactly when it is not well formed
  (`WellFormedFrom`).
- **External code becomes parameters.** `safe_html` is the parameter
  `safeHtml: string -> Node`. The html5ever document and fragment parsers are
  the parameters `parseDocument` and `parseFragment`.
- **The sauron tables are a parameter too.** The tag and attribute slices are
  the fields of a `Tables` value. Every property is proved for every choice of
  tables.
- **A HashSet is modelled by the chain it is collected from.** Lookups in
  `ALL_HTML_TAGS` and `ALL_SVG_TAGS` search those chains. `ALL_ATTRS` is the
  map their pairs produce when inserted in order, so a later pair with the same
  key replaces an earlier one, as `HashMap::from_iter` does.
- **Behaviours of the code worth knowing.**
  - A Rule goes straight to `nodes` even when elements are open. It is not
    attached to the spine top.
  - Inline code becomes a plain text node, not a `code` element.
  - The title is found after parsing, by `find_title` over the tree. No title
    state is kept during the parse.
  - `TableHead` opens `th`. The table's alignments are ignored, and there is no
    table-head flag.
  - A footnote reference is an `a` with `href` equal to its name. There is no
    numbering and no `sup`.
  - Each Html event is passed to `safe_html` on its own. There is no buffer
    that collects consecutive Html events.
  - The sanitizer drops every whitespace-only text node, wherever it sits.
- **Unclosed elements are dropped.** `parse` returns `nodes` only. When the
  stream ends with elements still open on the spine, those elements and
  everything under them are lost. `MatchedStreamClosesAll` states when that
  cannot happen.

## Model

| member | source | states |
|---|---|---|
| `Markdown.MakeTag` | src/markdown.rs:80-132 | `make_tag` panics only on a heading level outside 1..6; every other tag gives an element with no children |
| `Markdown.MakeTagHeading` | src/markdown.rs:83-95 | heading level n is accepted iff 1 <= n <= 6, and then opens `h` followed by the decimal text of n, with no attributes |
| `Markdown.MakeTagList` | src/markdown.rs:105-107 | `List(None)` opens `ul`; `List(Some(1))` opens `ol` with no attributes; `List(Some(k))`, k != 1, opens `ol` whose single `start` attribute is exactly the decimal text of k, with no leading zero, which reads back as k |
| `Decimal.DecimalString` | src/markdown.rs:107 | `to_string` of a number is a non-empty digit string with no leading zero unless the number is 0 |
| `Decimal.DecimalRoundTrip` | src/markdown.rs:107 | reading the decimal text of n back gives n |
| `Decimal.DecimalStringInjective` | src/markdown.rs:107 | different numbers have different decimal texts |
| `Markdown.MdParser.constructor` | src/markdown.rs:9-14 | a new parser has an empty spine and no nodes |
| `Markdown.MdParser.AddChild` | src/markdown.rs:15-21 | panics on an empty spine; otherwise the child becomes the last child of the spine top, the other spine entries and `nodes` are unchanged |
| `Markdown.MdParser.PushToSpine` | src/markdown.rs:24-26 | the node becomes the new spine top; `nodes` is unchanged |
| `Markdown.MdParser.PushToNodes` | src/markdown.rs:29-31 | the node is appended to `nodes`; the spine is unchanged |
| `Markdown.MdParser.Parse` | src/markdown.rs:33-77 | the event loop returns the panic of the first bad event, or the nodes of the fold `Run`, leaving the parser in `Run`'s final state |
| `Markdown.Parse` | src/markdown.rs:135-137 | a fresh parser over the stream gives exactly `RunNodes` |
| `Markdown.ParseWithTitle` | src/markdown.rs:165-169 | gives the nodes of `parse` paired with `find_title` of them, or the panic of `parse` |
| `Markdown.StartPushesOne` | src/markdown.rs:36-38 | a Start event succeeds iff `make_tag` does, and pushes exactly that element; `nodes` is unchanged |
| `Markdown.EndPopsOne` | src/markdown.rs:39-54 | an End event panics iff the spine is empty; with one open element it moves to `nodes`; otherwise it becomes the last child of the element below it and `nodes` is unchanged |
| `Markdown.LeafAttachesOne` | src/markdown.rs:55-73 | Text, SoftBreak, HardBreak, Code, FootnoteReference and TaskListMarker panic iff the spine is empty; otherwise they append exactly one child to the spine top and change nothing else |
| `Markdown.RuleIsTopLevel` | src/markdown.rs:66-69 | a Rule appends `hr` to `nodes` even inside open elements; the spine is unchanged |
| `Markdown.HtmlPlacement` | src/markdown.rs:58-64 | embedded HTML goes to `nodes` when the spine is empty and becomes the last child of the spine top otherwise |
| `Markdown.StepBalance` | src/markdown.rs:36-74 | one event fails iff it is a Start with a heading level outside 1..6, or an End or a leaf event on an empty spine (Html and Rule never fail); otherwise the spine grows by one on Start, shrinks by one on End, is otherwise the same length, stays made of elements, and the old `nodes` is a prefix of the new |
| `Markdown.RunOkIffWellFormed` | src/markdown.rs:33-77 | the loop succeeds iff the stream is well formed (every End and leaf finds an open element, headings 1..6); then final spine length + #End = initial spine length + #Start, and the old `nodes` is a prefix of the new |
| `Markdown.RunSplit` | src/markdown.rs:34-75 | running `a + b` is running `a`, then `b` from where `a` stopped, and stops at the first panic |
| `Markdown.BalanceOnPrefix` | src/markdown.rs:36-54 | for every prefix of a stream `parse` accepts, the spine length is #Start - #End of that prefix |
| `Markdown.MatchedStreamClosesAll` | src/markdown.rs:36-54 | a well-formed stream with as many Ends as Starts succeeds and ends with an empty spine |
| `Markdown.TopLevelTextBlock` | src/markdown.rs:36-55 | Start, Text, End at top level appends one element whose only child is that text |
| `Markdown.FirstTitle` | src/markdown.rs:151-162 | the title of the first node in a list that has one; None iff no node has one |
| `Markdown.FindTitleIsFirstInPreorder` | src/markdown.rs:139-162 | `find_title` (each node checked before its children, siblings left to right) returns the title of the first node, in depth-first pre-order of the forest, that is an `h1` with a single text child; None iff no node in the forest has one |
| `Markdown.TitleOfHeadingThenParagraph` | src/markdown.rs:164-169 | the events of "# Hello" and a paragraph give the forest `h1`, `p` and the title "Hello" |
| `StrUtil.TrimStart` | src/markdown/html_parser.rs:167 | `trim_start` returns the suffix after the leading whitespace, whose first character is not whitespace |
| `StrUtil.TrimEnd` | src/markdown/html_parser.rs:111 | `trim_end` returns the prefix before the trailing whitespace, whose last character is not whitespace |
| `StrUtil.TrimEmptyIffAllWhitespace` | src/markdown/html_parser.rs:111 | `trim().is_empty()` holds iff every character is whitespace |
| `HtmlParser.FromEntries` | src/markdown/html_parser.rs:41-55 | the keys of ALL_ATTRS are exactly the keys of the pairs it is collected from |
| `HtmlParser.FromEntriesValuesListed` | src/markdown/html_parser.rs:41-55 | every value of ALL_ATTRS is the value of one of its pairs |
| `HtmlParser.FromEntriesKeepsPairs` | src/markdown/html_parser.rs:41-55 | with distinct keys, ALL_ATTRS maps each key to the value of its pair |
| `HtmlParser.MatchAttribute` | src/markdown/html_parser.rs:61-66 | `match_attribute(a)` is `Some(a)` iff a is a value of ALL_ATTRS, and None otherwise |
| `HtmlParser.MatchAttributeListed` | src/markdown/html_parser.rs:41-66 | an accepted attribute name is listed in one of the attribute tables |
| `HtmlParser.MatchAttributeAcceptsListed` | src/markdown/html_parser.rs:41-66 | when the keys of ALL_ATTRS are distinct, every listed attribute name is accepted |
| `HtmlParser.Find` | src/markdown/html_parser.rs:72-74 | the iterator `find` returns the sought string iff it occurs |
| `HtmlParser.MatchTag` | src/markdown/html_parser.rs:69-75 | `match_tag(t)` is `Some(t)` iff t is in the union of the HTML and SVG tag sets, and None otherwise |
| `HtmlParser.SelfClosingIsKnown` | src/markdown/html_parser.rs:31-58 | every self-closing tag is a known tag, since HTML_SC_TAGS is part of ALL_HTML_TAGS |
| `HtmlParser.ExtractAttributes` | src/markdown/html_parser.rs:83-97 | every kept attribute has an allow-listed name and a string value, and at most as many attributes come out as went in |
| `HtmlParser.ExtractAttributesAppend` | src/markdown/html_parser.rs:83-97 | the filter works on each attribute on its own and keeps their order |
| `HtmlParser.ExtractAttributesSingle` | src/markdown/html_parser.rs:86-95 | an attribute is kept, with name and value unchanged, iff its name passes `match_attribute` |
| `HtmlParser.ProcessText` | src/markdown/html_parser.rs:109-116 | a text node is dropped iff it is whitespace only, and kept unchanged otherwise |
| `HtmlParser.ProcessElement` | src/markdown/html_parser.rs:118-138 | an unknown tag drops the element and its subtree; a known tag keeps the tag, filters the attributes, processes the children in order, and sets the self-closing flag iff the tag is in the self-closing set |
| `HtmlParser.ProcessDocument` | src/markdown/html_parser.rs:139-149 | a document gives its only processed child, the second of exactly two, and None otherwise |
| `HtmlParser.ProcessOther` | src/markdown/html_parser.rs:150 | doctypes, comments and processing instructions are dropped |
| `HtmlParser.ProcessChildrenAppend` | src/markdown/html_parser.rs:99-105 | processing a concatenation of children is processing each part and concatenating, so order is kept; with `ProcessChildrenSingle`, each child contributes its kept node or nothing |
| `HtmlParser.ProcessChildrenSingle` | src/markdown/html_parser.rs:103 | one child gives its processed node when `process_node` keeps it, and nothing when it drops it |
| `HtmlParser.ProcessNodeSound` | src/markdown/html_parser.rs:107-152 | soundness: every element in the output, at any depth, has an allow-listed tag, allow-listed attribute names and the self-closing flag of its tag; no output text is whitespace only |
| `HtmlParser.ProcessChildrenSound` | src/markdown/html_parser.rs:99-105 | every processed child is sanitized in the same sense |
| `HtmlParser.SanitizedExcludesAttr` | src/markdown/html_parser.rs:83-97 | a sanitized tree carries no attribute outside the allow-list at any depth |
| `HtmlParser.ParseExcludesAttr` | src/markdown/html_parser.rs:166-182 | whatever `parse` returns carries no attribute outside the allow-list, however deep |
| `HtmlParser.ExtractAttributesKeepsSanitized` | src/markdown/html_parser.rs:83-97 | allow-listed, string-valued attributes pass the filter unchanged |
| `HtmlParser.ResanitizeIsIdentity` | src/markdown/html_parser.rs:107-152 | idempotence: sanitizing the DOM of a sanitized tree gives the same tree back |
| `HtmlParser.ResanitizeChildrenIsIdentity` | src/markdown/html_parser.rs:99-105 | sanitizing the DOMs of sanitized children gives the same children back |
| `HtmlParser.DocumentModeIff` | src/markdown/html_parser.rs:167-177 | document mode is used iff the first character that is not whitespace begins `<html` or `<!DOCTYPE`; fragment mode otherwise |
| `HtmlParser.Parse` | src/markdown/html_parser.rs:166-182 | `parse` sanitizes the document parser's DOM when the input, after leading whitespace, opens `<html` or `<!DOCTYPE`, and the fragment parser's DOM otherwise; the node it returns, if any, is sanitized |
| `HtmlParser.ParseSimple` | src/markdown/html_parser.rs:185-196 | an `html` root element gives exactly its children, all sanitized; no node or a text root gives no nodes; panics iff the root is an element other than `html`, naming that tag |

## Left out

- The markdown tokenizer (`pulldown_cmark`): its output is the input `seq<Event>`, so no property depends on the markdown grammar.
- `safe_html`: it is not in the modelled files, so it is the uninterpreted parameter `safeHtml`.
- html5ever's `parse_document`, `parse_fragment` and `parser.one`: they are external tag-soup parsers, so they are the parameters `parseDocument` and `parseFragment`. `Rc`/`RefCell` borrowing becomes plain values.
- The contents of sauron's tag and attribute tables: they live in a crate that is not shown, so they are the fields of `Tables`. The source's own test (`div`, `svg` and `color-profile` are known tags) depends on those contents and is not restated.
- `HtmlParser.MatchAttributeAcceptsListed`: it is proved only for tables whose attribute keys are distinct, because with a repeated key `HashMap::from_iter` keeps only the later value. `MatchAttribute` models that loss exactly.
- sauron's `empty_attr()` on an indented code block: it renders nothing, so the model gives that `code` element no attributes.
- The self-closing flag of the elements the builder makes: `br`, `hr`, `img` and `input` are self-closing and all others are not. This is how sauron's tag functions build them; those functions are not shown.
- The `ParseError` variants (I/O and formatting errors): neither parser produces them, so `Parse` returns an `Option` with no error.
- Rendering (`render`, `render_to_string`), `node_list`, the logging calls, the `println!` calls in `maybe_title`, and the generic message type and event listeners of sauron nodes: they are output or pass-through with no logic.
- Integer widths: a heading level is a `u32` and a list start a `u64` in the source. Both are `nat` here. Every value the tokenizer can produce fits, and no arithmetic is done on them.
- The plugin API behind `markdown`, `markdown_with_plugins` and `MarkdownParser`: `src/lib.rs` re-exports it, but it is not in the modelled files. Footnote numbering, table alignment classes and syntax highlighting, which the tests expect, belong to that API and are not modelled.
