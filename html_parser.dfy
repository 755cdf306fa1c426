/**
 * The allow-list sanitizer for HTML embedded in markdown: it walks a DOM
 * already built by a tag-soup parser and rebuilds a sauron node tree that
 * keeps only known tags, known attribute names and non-blank text.
 *
 * The tag and attribute tables of the sauron crate are not part of this
 * model: they are the fields of a `Tables` value, and every property below
 * holds for all tables.
 */
module HtmlParser {
  import opened Wrappers
  import opened Nodes
  import opened StrUtil

  /** The static slices of sauron's `html::tags`, `svg::tags` and attribute modules. */
  datatype Tables = Tables(
    htmlTags: seq<string>,                      // HTML_TAGS
    htmlScTags: seq<string>,                    // HTML_SC_TAGS (the self-closing tags)
    htmlTagsNonCommon: seq<string>,             // HTML_TAGS_NON_COMMON
    htmlTagsWithMacroNonCommon: seq<string>,    // HTML_TAGS_WITH_MACRO_NON_COMMON
    svgTags: seq<string>,                       // SVG_TAGS
    svgTagsNonCommon: seq<string>,              // SVG_TAGS_NON_COMMON
    svgTagsSpecial: seq<(string, string)>,      // SVG_TAGS_SPECIAL: (function name, tag)
    htmlAttrs: seq<string>,                     // HTML_ATTRS
    svgAttrs: seq<string>,                      // SVG_ATTRS
    htmlAttrsSpecial: seq<(string, string)>,    // HTML_ATTRS_SPECIAL: (function name, attribute)
    svgAttrsSpecial: seq<(string, string)>,     // SVG_ATTRS_SPECIAL
    svgAttrsXlink: seq<(string, string)>)       // SVG_ATTRS_XLINK

  /** An attribute of a DOM element: its local name and its value. */
  datatype DomAttr = DomAttr(name: string, value: string)

  /** The node kinds of an html5ever `RcDom`; an element's name is its local name. */
  datatype Dom =
    | Document(children: seq<Dom>)
    | Doctype(name: string)
    | DomText(contents: string)
    | Comment(contents: string)
    | DomElement(name: string, attrs: seq<DomAttr>, children: seq<Dom>)
    | ProcessingInstruction(target: string, contents: string)

  // ---------------------------------------------------------------- tables

  function Seconds(ps: seq<(string, string)>): (r: seq<string>)
    ensures |r| == |ps| && forall i :: 0 <= i < |ps| ==> r[i] == ps[i].1
  {
    if ps == [] then [] else [ps[0].1] + Seconds(ps[1..])
  }

  function SelfPairs(xs: seq<string>): (r: seq<(string, string)>)
    ensures |r| == |xs| && forall i :: 0 <= i < |xs| ==> r[i] == (xs[i], xs[i])
  {
    if xs == [] then [] else [(xs[0], xs[0])] + SelfPairs(xs[1..])
  }

  /** ALL_SVG_TAGS, in the order its chain lists them. */
  function AllSvgTags(t: Tables): seq<string>
  {
    t.svgTags + t.svgTagsNonCommon + Seconds(t.svgTagsSpecial)
  }

  /** ALL_HTML_TAGS, in the order its chain lists them. */
  function AllHtmlTags(t: Tables): seq<string>
  {
    t.htmlTags + t.htmlScTags + t.htmlTagsNonCommon + t.htmlTagsWithMacroNonCommon
  }

  /** The tag allow-list: the union of the HTML and the SVG tag sets. */
  predicate IsKnownTag(t: Tables, tag: string)
  {
    tag in AllHtmlTags(t) || tag in AllSvgTags(t)
  }

  /** The (key, value) pairs ALL_ATTRS is collected from, in order. */
  function AttrEntries(t: Tables): seq<(string, string)>
  {
    SelfPairs(t.htmlAttrs + t.svgAttrs) + t.htmlAttrsSpecial + t.svgAttrsSpecial + t.svgAttrsXlink
  }

  /** `HashMap::from_iter`: each pair is inserted in turn, so a later pair replaces an earlier one with the same key. */
  function FromEntries(es: seq<(string, string)>): (m: map<string, string>)
    ensures forall k :: k in m <==> exists i :: 0 <= i < |es| && es[i].0 == k
  {
    if es == [] then map[]
    else
      var m := FromEntries(es[..|es| - 1]);
      assert forall i :: 0 <= i < |es| - 1 ==> es[..|es| - 1][i] == es[i];
      m[es[|es| - 1].0 := es[|es| - 1].1]
  }

  /** ALL_ATTRS. */
  function AllAttrs(t: Tables): map<string, string>
  {
    FromEntries(AttrEntries(t))
  }

  /** The attribute allow-list: the values of ALL_ATTRS. */
  predicate IsKnownAttr(t: Tables, name: string)
  {
    name in AllAttrs(t).Values
  }

  /** SELF_CLOSING_TAGS. */
  function SelfClosingTags(t: Tables): set<string>
  {
    set x | x in t.htmlScTags
  }

  // ---------------------------------------------------------------- lookups

  /** Iterator `find` for a string equal to `x`. */
  function Find(s: seq<string>, x: string): (r: Option<string>)
    ensures r.Some? <==> x in s
    ensures r.Some? ==> r.value == x
  {
    if s == [] then None
    else if s[0] == x then Some(s[0])
    else Find(s[1..], x)
  }

  /** `match_attribute`: the entry of ALL_ATTRS whose value is `att`, if any. */
  function MatchAttribute(t: Tables, att: string): (r: Option<string>)
    ensures r.Some? <==> IsKnownAttr(t, att)
    ensures r.Some? ==> r.value == att
  {
    if exists k :: k in AllAttrs(t) && AllAttrs(t)[k] == att then Some(att) else None
  }

  /** `match_tag`: searches ALL_HTML_TAGS, then ALL_SVG_TAGS. */
  function MatchTag(t: Tables, tag: string): (r: Option<string>)
    ensures r == if IsKnownTag(t, tag) then Some(tag) else None
  {
    Find(AllHtmlTags(t) + AllSvgTags(t), tag)
  }

  /** `is_self_closing`. */
  predicate IsSelfClosing(t: Tables, tag: string)
  {
    tag in SelfClosingTags(t)
  }

  // ---------------------------------------------------------------- the walk

  /** `extract_attributes`: keeps the attributes whose name passes `match_attribute`. */
  function ExtractAttributes(t: Tables, attrs: seq<DomAttr>): (r: seq<Attr>)
    ensures |r| <= |attrs|
    ensures forall i :: 0 <= i < |r| ==> IsKnownAttr(t, r[i].name) && r[i].value.Str?
  {
    if attrs == [] then []
    else
      var head := match MatchAttribute(t, attrs[0].name)
        case Some(name) => [Attr(name, Str(attrs[0].value))]
        case None => [];
      head + ExtractAttributes(t, attrs[1..])
  }

  /** `process_node`. */
  function ProcessNode(t: Tables, d: Dom): Option<Node>
    decreases d
  {
    match d
    case DomText(contents) =>
      if Trim(contents) == [] then None else Some(Node.Text(contents))
    case DomElement(name, attrs, children) =>
      (match MatchTag(t, name)
       case Some(tag) =>
         Some(Element(tag, ExtractAttributes(t, attrs), ProcessChildren(t, children), tag in t.htmlScTags))
       case None => None)
    case Document(children) =>
      var nodes := ProcessChildren(t, children);
      if |nodes| == 1 then Some(nodes[0])
      else if |nodes| == 2 then Some(nodes[1])
      else None
    case _ => None
  }

  /** The node `filter_map` keeps from one child, if any. */
  function Kept(n: Option<Node>): seq<Node>
  {
    match n
    case Some(x) => [x]
    case None => []
  }

  /** `process_children`: the processed children, the dropped ones left out. */
  function ProcessChildren(t: Tables, ds: seq<Dom>): seq<Node>
    decreases ds
  {
    if ds == [] then []
    else
      Kept(ProcessNode(t, ds[0])) + ProcessChildren(t, ds[1..])
  }

  // ---------------------------------------------------------------- parse, parse_simple

  /** `parse` uses html5ever's document parser when, after leading whitespace, the input opens an `<html` or `<!DOCTYPE` tag. */
  predicate UsesDocumentMode(html: string)
  {
    var h := TrimStart(html);
    StartsWith(h, "<html") || StartsWith(h, "<!DOCTYPE")
  }

  /**
   * `parse`: builds the DOM with the document parser or with the fragment
   * parser (in a `div` context) and sanitizes it. Both html5ever parsers are
   * parameters; the `ParseError` of the source is never produced by them.
   */
  function Parse(t: Tables, html: string, parseDocument: string -> Dom, parseFragment: string -> Dom): (r: Option<Node>)
    ensures UsesDocumentMode(html) ==> r == ProcessNode(t, parseDocument(html))
    ensures !UsesDocumentMode(html) ==> r == ProcessNode(t, parseFragment(html))
    ensures r.Some? ==> Sanitized(t, r.value)
  {
    var dom := if UsesDocumentMode(html) then parseDocument(html) else parseFragment(html);
    ProcessNodeSound(t, dom);
    ProcessNode(t, dom)
  }

  /** The `assert_eq!` of `parse_simple` fails: the root element is not `html`. */
  datatype ParseFault = RootIsNotHtml(tag: string)

  /** `parse_simple`: the children of the root `html` element, or nothing. */
  function ParseSimple(t: Tables, html: string, parseDocument: string -> Dom, parseFragment: string -> Dom)
    : (r: Result<seq<Node>, ParseFault>)
    ensures var root := Parse(t, html, parseDocument, parseFragment);
      && (r.Err? <==> root.Some? && root.value.Element? && root.value.tag != "html")
      && (r.Err? ==> r.error == RootIsNotHtml(root.value.tag))
      && (root.Some? && root.value.Element? && root.value.tag == "html" ==> r == Ok(root.value.children))
      && (root.None? || root.value.Text? ==> r == Ok([]))
    ensures r.Ok? ==> forall i :: 0 <= i < |r.value| ==> Sanitized(t, r.value[i])
  {
    match Parse(t, html, parseDocument, parseFragment)
    case None => Ok([])
    case Some(n) =>
      if n.Element? then
        (if n.tag == "html" then Ok(n.children) else Err(RootIsNotHtml(n.tag)))
      else Ok([])
  }

  // ---------------------------------------------------------------- properties

  /** No two pairs share a key. */
  predicate DistinctKeys(es: seq<(string, string)>)
  {
    forall i, j :: 0 <= i < j < |es| ==> es[i].0 != es[j].0
  }

  /** Every value of the collected map is the value of some pair it was collected from. */
  lemma {:induction false} FromEntriesValuesListed(es: seq<(string, string)>, v: string)
    requires v in FromEntries(es).Values
    ensures exists i :: 0 <= i < |es| && es[i].1 == v
  {
    var m := FromEntries(es);
    var k :| k in m && m[k] == v;
    var n := |es| - 1;
    if es[n].0 != k {
      var m' := FromEntries(es[..n]);
      assert m'[k] == v;
      FromEntriesValuesListed(es[..n], v);
      var i :| 0 <= i < n && es[..n][i].1 == v;
      assert es[i].1 == v;
    }
  }

  /** With distinct keys, the collected map holds every pair unchanged. */
  lemma {:induction false} FromEntriesKeepsPairs(es: seq<(string, string)>, i: nat)
    requires DistinctKeys(es) && i < |es|
    ensures es[i].0 in FromEntries(es) && FromEntries(es)[es[i].0] == es[i].1
  {
    var n := |es| - 1;
    if i < n {
      assert DistinctKeys(es[..n]);
      FromEntriesKeepsPairs(es[..n], i);
      assert es[..n][i] == es[i];
    }
  }

  /** `match_attribute` accepts only names that the attribute tables list. */
  lemma MatchAttributeListed(t: Tables, att: string)
    requires MatchAttribute(t, att).Some?
    ensures exists i :: 0 <= i < |AttrEntries(t)| && AttrEntries(t)[i].1 == att
  {
    FromEntriesValuesListed(AttrEntries(t), att);
  }

  /** When the keys of ALL_ATTRS are distinct, every listed attribute name is accepted. */
  lemma MatchAttributeAcceptsListed(t: Tables, att: string, i: nat)
    requires DistinctKeys(AttrEntries(t))
    requires i < |AttrEntries(t)| && AttrEntries(t)[i].1 == att
    ensures MatchAttribute(t, att) == Some(att)
  {
    FromEntriesKeepsPairs(AttrEntries(t), i);
  }

  /** A self-closing tag is also a known tag: HTML_SC_TAGS is part of ALL_HTML_TAGS. */
  lemma SelfClosingIsKnown(t: Tables, tag: string)
    requires IsSelfClosing(t, tag)
    ensures MatchTag(t, tag) == Some(tag)
  {
    assert tag in AllHtmlTags(t);
  }

  /** `extract_attributes` filters each attribute on its own and keeps the order. */
  lemma {:induction false} ExtractAttributesAppend(t: Tables, a: seq<DomAttr>, b: seq<DomAttr>)
    ensures ExtractAttributes(t, a + b) == ExtractAttributes(t, a) + ExtractAttributes(t, b)
  {
    if a == [] {
      assert a + b == b;
    } else {
      assert (a + b)[0] == a[0];
      assert (a + b)[1..] == a[1..] + b;
      ExtractAttributesAppend(t, a[1..], b);
    }
  }

  /** One attribute is kept, with its name and value unchanged, exactly when its name is allow-listed. */
  lemma ExtractAttributesSingle(t: Tables, a: DomAttr)
    ensures ExtractAttributes(t, [a]) == if IsKnownAttr(t, a.name) then [Attr(a.name, Str(a.value))] else []
  {
  }

  /** A text node is dropped exactly when it is whitespace only; otherwise it is kept unchanged. */
  lemma ProcessText(t: Tables, contents: string)
    ensures ProcessNode(t, DomText(contents)) ==
      if AllWhitespace(contents) then None else Some(Node.Text(contents))
  {
    TrimEmptyIffAllWhitespace(contents);
  }

  /**
   * An element with an unknown tag is dropped with its whole subtree; a
   * known one keeps its tag, gets the filtered attributes and the processed
   * children, and is self-closing exactly when its tag is in the self-closing set.
   */
  lemma ProcessElement(t: Tables, name: string, attrs: seq<DomAttr>, children: seq<Dom>)
    ensures ProcessNode(t, DomElement(name, attrs, children)) ==
      if IsKnownTag(t, name)
      then Some(Element(name, ExtractAttributes(t, attrs), ProcessChildren(t, children), IsSelfClosing(t, name)))
      else None
  {
  }

  /** A document yields its only processed child, the second of two, and nothing otherwise. */
  lemma ProcessDocument(t: Tables, children: seq<Dom>)
    ensures var nodes := ProcessChildren(t, children);
      ProcessNode(t, Document(children)) ==
        if |nodes| == 1 then Some(nodes[0]) else if |nodes| == 2 then Some(nodes[1]) else None
  {
  }

  /** Doctypes, comments and processing instructions are dropped. */
  lemma ProcessOther(t: Tables, d: Dom)
    requires d.Doctype? || d.Comment? || d.ProcessingInstruction?
    ensures ProcessNode(t, d) == None
  {
  }

  /** `process_children` processes each child on its own and keeps the order. */
  lemma {:induction false} ProcessChildrenAppend(t: Tables, a: seq<Dom>, b: seq<Dom>)
    ensures ProcessChildren(t, a + b) == ProcessChildren(t, a) + ProcessChildren(t, b)
  {
    if a == [] {
      assert a + b == b;
    } else {
      assert (a + b)[0] == a[0];
      assert (a + b)[1..] == a[1..] + b;
      ProcessChildrenAppend(t, a[1..], b);
    }
  }

  /** One child: its processed node when it is kept, and nothing when it is dropped. */
  lemma ProcessChildrenSingle(t: Tables, d: Dom)
    ensures ProcessChildren(t, [d]) == Kept(ProcessNode(t, d))
  {
    assert [d][1..] == [];
  }

  /**
   * A sanitized tree: every element has an allow-listed tag, allow-listed
   * attribute names with string values, the self-closing flag of its tag,
   * and sanitized children; every text is not whitespace only.
   */
  predicate Sanitized(t: Tables, n: Node)
    decreases n
  {
    match n
    case Text(s) => !AllWhitespace(s)
    case Element(tag, attrs, children, selfClosing) =>
      && IsKnownTag(t, tag)
      && selfClosing == IsSelfClosing(t, tag)
      && (forall i :: 0 <= i < |attrs| ==> IsKnownAttr(t, attrs[i].name) && attrs[i].value.Str?)
      && (forall i :: 0 <= i < |children| ==> Sanitized(t, children[i]))
  }

  /** Soundness: whatever `process_node` returns is sanitized, at every depth. */
  lemma {:induction false} ProcessNodeSound(t: Tables, d: Dom)
    ensures ProcessNode(t, d).Some? ==> Sanitized(t, ProcessNode(t, d).value)
    decreases d
  {
    match d
    case DomText(contents) =>
      ProcessText(t, contents);
    case DomElement(name, attrs, children) =>
      ProcessChildrenSound(t, children);
    case Document(children) =>
      ProcessChildrenSound(t, children);
    case _ =>
  }

  lemma {:induction false} ProcessChildrenSound(t: Tables, ds: seq<Dom>)
    ensures forall i :: 0 <= i < |ProcessChildren(t, ds)| ==> Sanitized(t, ProcessChildren(t, ds)[i])
    decreases ds
  {
    if ds != [] {
      ProcessNodeSound(t, ds[0]);
      ProcessChildrenSound(t, ds[1..]);
    }
  }

  /** The node or one of its descendants carries an attribute named `name`. */
  predicate CarriesAttr(n: Node, name: string)
    decreases n
  {
    n.Element? &&
    ((exists i :: 0 <= i < |n.attrs| && n.attrs[i].name == name) ||
     (exists i :: 0 <= i < |n.children| && CarriesAttr(n.children[i], name)))
  }

  /** A sanitized tree carries no attribute outside the allow-list, at any depth. */
  lemma {:induction false} SanitizedExcludesAttr(t: Tables, n: Node, name: string)
    requires Sanitized(t, n) && !IsKnownAttr(t, name)
    ensures !CarriesAttr(n, name)
    decreases n
  {
    if n.Element? {
      forall i | 0 <= i < |n.children| ensures !CarriesAttr(n.children[i], name) {
        SanitizedExcludesAttr(t, n.children[i], name);
      }
    }
  }

  /** Embedded HTML never yields an attribute outside the allow-list, however deep it sits. */
  lemma ParseExcludesAttr(t: Tables, html: string, parseDocument: string -> Dom, parseFragment: string -> Dom, name: string)
    requires !IsKnownAttr(t, name)
    ensures var r := Parse(t, html, parseDocument, parseFragment);
      r.Some? ==> !CarriesAttr(r.value, name)
  {
    var r := Parse(t, html, parseDocument, parseFragment);
    if r.Some? {
      SanitizedExcludesAttr(t, r.value, name);
    }
  }

  /**
   * An idealised read-back of a node tree: each node becomes the DOM node of
   * the same shape. A real render and re-parse can merge adjacent texts,
   * re-nest elements and wrap the result, which this does not model.
   */
  function ToDom(n: Node): Dom
    decreases n
  {
    match n
    case Text(s) => DomText(s)
    case Element(tag, attrs, children, _) => DomElement(tag, ToDomAttrs(attrs), ToDoms(children))
  }

  function ToDoms(ns: seq<Node>): (r: seq<Dom>)
    decreases ns
  {
    if ns == [] then [] else [ToDom(ns[0])] + ToDoms(ns[1..])
  }

  function ToDomAttrs(attrs: seq<Attr>): (r: seq<DomAttr>)
    ensures |r| == |attrs|
    ensures forall i :: 0 <= i < |attrs| ==> r[i].name == attrs[i].name
    ensures forall i :: 0 <= i < |attrs| && attrs[i].value.Str? ==> r[i].value == attrs[i].value.s
  {
    if attrs == [] then []
    else
      var value := match attrs[0].value case Str(s) => s case Bool(b) => if b then "true" else "false";
      [DomAttr(attrs[0].name, value)] + ToDomAttrs(attrs[1..])
  }

  /** Attributes that are all allow-listed and string-valued come back unchanged. */
  lemma {:induction false} ExtractAttributesKeepsSanitized(t: Tables, attrs: seq<Attr>)
    requires forall i :: 0 <= i < |attrs| ==> IsKnownAttr(t, attrs[i].name) && attrs[i].value.Str?
    ensures ExtractAttributes(t, ToDomAttrs(attrs)) == attrs
  {
    if attrs != [] {
      assert ToDomAttrs(attrs)[1..] == ToDomAttrs(attrs[1..]);
      ExtractAttributesKeepsSanitized(t, attrs[1..]);
    }
  }

  /** Idempotence: sanitizing the DOM of a sanitized tree gives the same tree back. */
  lemma {:induction false} ResanitizeIsIdentity(t: Tables, n: Node)
    requires Sanitized(t, n)
    ensures ProcessNode(t, ToDom(n)) == Some(n)
    decreases n
  {
    match n
    case Text(s) =>
      ProcessText(t, s);
    case Element(tag, attrs, children, selfClosing) =>
      ExtractAttributesKeepsSanitized(t, attrs);
      ResanitizeChildrenIsIdentity(t, children);
  }

  lemma {:induction false} ResanitizeChildrenIsIdentity(t: Tables, ns: seq<Node>)
    requires forall i :: 0 <= i < |ns| ==> Sanitized(t, ns[i])
    ensures ProcessChildren(t, ToDoms(ns)) == ns
    decreases ns
  {
    if ns != [] {
      ResanitizeIsIdentity(t, ns[0]);
      ResanitizeChildrenIsIdentity(t, ns[1..]);
      assert ToDoms(ns)[1..] == ToDoms(ns[1..]);
    }
  }

  /**
   * `parse` chooses document mode exactly when the first character that is
   * not whitespace begins `<html` or `<!DOCTYPE`.
   */
  lemma DocumentModeIff(html: string)
    ensures UsesDocumentMode(html) <==>
      exists k :: 0 <= k <= |html| && AllWhitespace(html[..k]) && (k < |html| ==> !IsWhitespace(html[k]))
        && (StartsWith(html[k..], "<html") || StartsWith(html[k..], "<!DOCTYPE"))
  {
    var h := TrimStart(html);
    var k0 := |html| - |h|;
    assert html[k0..] == h;
    assert k0 < |html| ==> html[k0] == h[0];
    forall k | 0 <= k <= |html| && AllWhitespace(html[..k]) && (k < |html| ==> !IsWhitespace(html[k]))
      ensures k == k0
    {
    }
  }
}
