/**
 * The markdown tree builder: `MdParser` turns the linear event stream of a
 * markdown tokenizer into a forest of nested nodes, with a `spine` stack of
 * open elements and a `nodes` list of completed top-level nodes.
 *
 * The tokenizer is not part of this model: its output is the `seq<Event>`
 * given to `Parse`. The function that turns embedded HTML into a node is not
 * part of it either: it is the parameter `safeHtml`.
 */
module Markdown {
  import opened Wrappers
  import opened Nodes
  import Decimal

  // ---------------------------------------------------------------- events

  datatype CodeBlockKind = Indented | Fenced(lang: string)

  datatype Alignment = AlignNone | AlignLeft | AlignCenter | AlignRight

  datatype LinkType =
    | Inline | Reference | ReferenceUnknown | Collapsed | CollapsedUnknown
    | Shortcut | ShortcutUnknown | Autolink | Email

  /** The block and inline kinds a Start or End event names. */
  datatype Tag =
    | Paragraph
    | Heading(level: nat)
    | BlockQuote
    | CodeBlock(kind: CodeBlockKind)
    | List(start: Option<nat>)
    | Item
    | FootnoteDefinition(name: string)
    | Table(alignments: seq<Alignment>)
    | TableHead
    | TableRow
    | TableCell
    | Emphasis
    | Strong
    | Strikethrough
    | Link(linkType: LinkType, dest: string, title: string)
    | Image(linkType: LinkType, dest: string, title: string)

  datatype Event =
    | Start(tag: Tag)
    | End(tag: Tag)
    | Text(text: string)
    | Code(code: string)
    | Html(html: string)
    | FootnoteReference(name: string)
    | SoftBreak
    | HardBreak
    | Rule
    | TaskListMarker(checked: bool)

  /** The conditions under which the source panics. */
  datatype Fault =
    | EndWithEmptySpine                  // the `assert!` on an End event
    | ChildWithEmptySpine                // the `assert!` in `add_child`
    | ChildOfLeaf                        // `add_children(..).expect(..)` on a text node
    | HeadingLevelOutOfRange(level: nat) // the `assert!`s of `make_tag` on a heading level

  /** Events that `add_child` attaches to the spine top. */
  predicate IsLeaf(ev: Event)
  {
    ev.Text? || ev.Code? || ev.FootnoteReference? || ev.SoftBreak? || ev.HardBreak? || ev.TaskListMarker?
  }

  // ---------------------------------------------------------------- make_tag

  function HeadingTag(n: nat): string
    requires 1 <= n <= 6
  {
    if n == 1 then "h1"
    else if n == 2 then "h2"
    else if n == 3 then "h3"
    else if n == 4 then "h4"
    else if n == 5 then "h5"
    else "h6"
  }

  /** `make_tag`: the empty element a Start event opens. */
  function MakeTag(t: Tag): (r: Result<Node, Fault>)
    ensures r.Err? <==> t.Heading? && !(1 <= t.level <= 6)
    ensures r.Ok? ==> r.value.Element? && r.value.children == []
  {
    match t
    case Paragraph => Ok(Elem("p", []))
    case Heading(n) =>
      if n <= 0 || n >= 7 then Err(HeadingLevelOutOfRange(n)) else Ok(Elem(HeadingTag(n), []))
    case BlockQuote => Ok(Elem("blockquote", []))
    case CodeBlock(kind) =>
      // an indented block gets sauron's `empty_attr()`, which renders nothing
      var attrs := if kind.Fenced? then [Attr("class", Str(kind.lang))] else [];
      Ok(Elem("code", attrs))
    case List(start) =>
      (match start
       case None => Ok(Elem("ul", []))
       case Some(k) =>
         if k == 1 then Ok(Elem("ol", [])) else Ok(Elem("ol", [Attr("start", Str(Decimal.DecimalString(k)))])))
    case Item => Ok(Elem("li", []))
    case Table(_) => Ok(Elem("table", []))
    case TableHead => Ok(Elem("th", []))
    case TableRow => Ok(Elem("tr", []))
    case TableCell => Ok(Elem("td", []))
    case Emphasis => Ok(Elem("em", []))
    case Strong => Ok(Elem("strong", []))
    case Link(_, dest, title) => Ok(Elem("a", [Attr("href", Str(dest)), Attr("title", Str(title))]))
    case Image(_, dest, title) => Ok(VoidElem("img", [Attr("src", Str(dest)), Attr("title", Str(title))]))
    case Strikethrough => Ok(Elem("s", []))
    case FootnoteDefinition(name) =>
      Ok(Elem("footer", [Attr("class", Str("footnote-definition")), Attr("id", Str(name))]))
  }

  /** A heading of level `n` is accepted exactly when 1 <= n <= 6, and opens `h{n}`. */
  lemma MakeTagHeading(n: nat)
    ensures MakeTag(Heading(n)).Ok? <==> 1 <= n <= 6
    ensures MakeTag(Heading(n)).Ok? ==> MakeTag(Heading(n)).value == Elem("h" + Decimal.DecimalString(n), [])
  {
  }

  /**
   * A list without a start number opens `ul`; one starting at 1 opens a bare
   * `ol`; any other start `k` opens `ol` whose `start` attribute reads back as `k`.
   */
  lemma MakeTagList(start: Option<nat>)
    ensures start.None? ==> MakeTag(List(start)) == Ok(Elem("ul", []))
    ensures start == Some(1) ==> MakeTag(List(start)) == Ok(Elem("ol", []))
    ensures start.Some? && start.value != 1 ==>
      var r := MakeTag(List(start));
      && r.Ok? && r.value.tag == "ol" && |r.value.attrs| == 1 && r.value.attrs[0].name == "start"
      && r.value.attrs[0].value.Str?
      && Decimal.IsDigits(r.value.attrs[0].value.s)
      && Decimal.DecimalValue(r.value.attrs[0].value.s) == start.value
      && r.value.attrs[0].value == Str(Decimal.DecimalString(start.value))
  {
    if start.Some? && start.value != 1 {
      Decimal.DecimalRoundTrip(start.value);
    }
  }

  // ---------------------------------------------------------------- the builder, as a function

  /** The two lists of an `MdParser`. */
  datatype State = State(spine: seq<Node>, nodes: seq<Node>)

  /** Every open element is an element, so `add_children` on it cannot fail. */
  predicate SpineValid(spine: seq<Node>)
  {
    forall i :: 0 <= i < |spine| ==> spine[i].Element?
  }

  /** `add_child`: `child` becomes the last child of the spine top. */
  function AttachToTop(st: State, child: Node): Result<State, Fault>
  {
    if |st.spine| == 0 then Err(ChildWithEmptySpine)
    else
      var n := |st.spine|;
      if st.spine[n - 1].Text? then Err(ChildOfLeaf)
      else Ok(State(st.spine[n - 1 := AppendChild(st.spine[n - 1], child)], st.nodes))
  }

  /** The element a HardBreak attaches. */
  function LineBreak(): Node { VoidElem("br", []) }

  /** The element a Rule adds to the completed nodes. */
  function HorizontalRule(): Node { VoidElem("hr", []) }

  /** The element a FootnoteReference attaches. */
  function FootnoteLink(name: string): Node { Elem("a", [Attr("href", Str(name))]) }

  /** The element a TaskListMarker attaches. */
  function Checkbox(checked: bool): Node
  {
    VoidElem("input", [Attr("type", Str("checkbox")), Attr("checked", Bool(checked))])
  }

  /** The node a leaf event attaches to the spine top. */
  function LeafNode(ev: Event): Node
    requires IsLeaf(ev)
  {
    match ev
    case Text(s) => Node.Text(s)
    case SoftBreak => Node.Text("\n")
    case HardBreak => LineBreak()
    case Code(c) => Node.Text(c)
    case FootnoteReference(name) => FootnoteLink(name)
    case TaskListMarker(checked) => Checkbox(checked)
  }

  /** One iteration of the event loop of `MdParser::parse`. */
  function Step(st: State, ev: Event, safeHtml: string -> Node): Result<State, Fault>
  {
    match ev
    case Start(tag) =>
      (match MakeTag(tag)
       case Err(f) => Err(f)
       case Ok(n) => Ok(State(st.spine + [n], st.nodes)))
    case End(_) =>
      if |st.spine| == 0 then Err(EndWithEmptySpine)
      else
        var len := |st.spine|;
        var top := st.spine[len - 1];
        var rest := st.spine[..len - 1];
        if len == 1 then Ok(State(rest, st.nodes + [top]))
        else if rest[len - 2].Text? then Err(ChildOfLeaf)
        else Ok(State(rest[len - 2 := AppendChild(rest[len - 2], top)], st.nodes))
    case Html(h) =>
      if |st.spine| == 0 then Ok(State(st.spine, st.nodes + [safeHtml(h)]))
      else AttachToTop(st, safeHtml(h))
    case Rule => Ok(State(st.spine, st.nodes + [HorizontalRule()]))
    case _ => AttachToTop(st, LeafNode(ev))
  }

  /** The event loop: the events in order, stopping at the first panic. */
  function Run(st: State, evs: seq<Event>, safeHtml: string -> Node): Result<State, Fault>
    decreases |evs|
  {
    if evs == [] then Ok(st)
    else
      match Step(st, evs[0], safeHtml)
      case Err(f) => Err(f)
      case Ok(next) => Run(next, evs[1..], safeHtml)
  }

  /** `parse`: the completed nodes of a fresh parser after the whole stream. */
  function RunNodes(evs: seq<Event>, safeHtml: string -> Node): Result<seq<Node>, Fault>
  {
    match Run(State([], []), evs, safeHtml)
    case Err(f) => Err(f)
    case Ok(st) => Ok(st.nodes)
  }

  // ---------------------------------------------------------------- the builder, as an object

  /** `MdParser`: the stack of open elements and the completed top-level nodes. */
  class MdParser {
    var spine: seq<Node>
    var nodes: seq<Node>

    ghost predicate Valid()
      reads this
    {
      SpineValid(spine)
    }

    function Snapshot(): State
      reads this
    {
      State(spine, nodes)
    }

    /** `MdParser::new`. */
    constructor ()
      ensures spine == [] && nodes == []
      ensures Valid()
    {
      spine := [];
      nodes := [];
    }

    /**
     * `add_child`: panics (`ok` false) on an empty spine; otherwise `child`
     * becomes the last child of the spine top and nothing else changes.
     */
    method AddChild(child: Node) returns (ok: bool)
      requires Valid()
      modifies this
      ensures Valid()
      ensures ok == (|old(spine)| > 0)
      ensures ok ==>
        var n := |old(spine)|;
        && spine == old(spine)[n - 1 := AppendChild(old(spine)[n - 1], child)]
        && spine[n - 1].children == old(spine)[n - 1].children + [child]
      ensures !ok ==> spine == old(spine)
      ensures nodes == old(nodes)
    {
      ok := |spine| > 0;
      if ok {
        var n := |spine|;
        spine := spine[n - 1 := AppendChild(spine[n - 1], child)];
      }
    }

    /** `push_to_spine`: `node` becomes the new spine top. */
    method PushToSpine(node: Node)
      modifies this
      ensures spine == old(spine) + [node]
      ensures nodes == old(nodes)
    {
      spine := spine + [node];
    }

    /** `push_to_nodes`: `node` becomes the last completed node. */
    method PushToNodes(node: Node)
      modifies this
      ensures nodes == old(nodes) + [node]
      ensures spine == old(spine)
    {
      nodes := nodes + [node];
    }

    /** `MdParser::parse`: consumes the events in order and returns the completed nodes. */
    method Parse(events: seq<Event>, safeHtml: string -> Node) returns (r: Result<seq<Node>, Fault>)
      requires Valid()
      modifies this
      ensures var run := Run(old(Snapshot()), events, safeHtml);
        && (run.Err? ==> r == Err(run.error))
        && (run.Ok? ==> r == Ok(run.value.nodes) && Snapshot() == run.value && Valid())
    {
      for i := 0 to |events|
        invariant Valid()
        invariant Run(old(Snapshot()), events, safeHtml) == Run(Snapshot(), events[i..], safeHtml)
      {
        assert events[i..][0] == events[i] && events[i..][1..] == events[i + 1..];
        ghost var before := Snapshot();
        match events[i] {
          case Start(tag) =>
            var made := MakeTag(tag);
            if made.Err? {
              return Err(made.error);
            }
            PushToSpine(made.value);
          case End(_) =>
            if |spine| == 0 {
              return Err(EndWithEmptySpine);
            }
            var len := |spine|;
            var top := spine[len - 1];
            spine := spine[..len - 1];
            if len == 1 {
              PushToNodes(top);
            } else {
              spine := spine[len - 2 := AppendChild(spine[len - 2], top)];
            }
          case Text(s) =>
            var ok := AddChild(Node.Text(s));
            if !ok {
              return Err(ChildWithEmptySpine);
            }
          case SoftBreak =>
            var ok := AddChild(Node.Text("\n"));
            if !ok {
              return Err(ChildWithEmptySpine);
            }
          case HardBreak =>
            var ok := AddChild(LineBreak());
            if !ok {
              return Err(ChildWithEmptySpine);
            }
          case Html(h) =>
            if |spine| == 0 {
              PushToNodes(safeHtml(h));
            } else {
              var ok := AddChild(safeHtml(h));
            }
          case Code(c) =>
            var ok := AddChild(Node.Text(c));
            if !ok {
              return Err(ChildWithEmptySpine);
            }
          case Rule =>
            PushToNodes(HorizontalRule());
          case FootnoteReference(name) =>
            var ok := AddChild(FootnoteLink(name));
            if !ok {
              return Err(ChildWithEmptySpine);
            }
          case TaskListMarker(checked) =>
            var ok := AddChild(Checkbox(checked));
            if !ok {
              return Err(ChildWithEmptySpine);
            }
        }
        assert Step(before, events[i], safeHtml) == Ok(Snapshot());
      }
      r := Ok(nodes);
    }
  }

  /** `parse`: a fresh `MdParser` over the whole event stream. */
  method Parse(events: seq<Event>, safeHtml: string -> Node) returns (r: Result<seq<Node>, Fault>)
    ensures r == RunNodes(events, safeHtml)
  {
    var parser := new MdParser();
    r := parser.Parse(events, safeHtml);
  }

  /** `parse_with_title`: the nodes of `parse` and the title `find_title` picks from them. */
  method ParseWithTitle(events: seq<Event>, safeHtml: string -> Node)
    returns (r: Result<(Option<string>, seq<Node>), Fault>)
    ensures match RunNodes(events, safeHtml)
      case Err(f) => r == Err(f)
      case Ok(nodes) => r == Ok((FindTitle(nodes), nodes))
  {
    var parsed := Parse(events, safeHtml);
    match parsed {
      case Err(f) => r := Err(f);
      case Ok(nodes) => r := Ok((FindTitle(nodes), nodes));
    }
  }

  // ---------------------------------------------------------------- the title

  /** `maybe_title`: the text of an `h1` whose only child is a text. */
  function MaybeTitle(n: Node): Option<string>
  {
    if n.Element? && n.tag == "h1" && |n.children| == 1 && n.children[0].Text?
    then Some(n.children[0].text)
    else None
  }

  /** `find_title`: each node in turn, then its descendants, before its later siblings. */
  function FindTitle(ns: seq<Node>): Option<string>
    decreases ns
  {
    if ns == [] then None
    else
      match MaybeTitle(ns[0])
      case Some(title) => Some(title)
      case None =>
        var inner := match ns[0] case Element(_, _, kids, _) => FindTitle(kids) case Text(_) => None;
        match inner
        case Some(title) => Some(title)
        case None => FindTitle(ns[1..])
  }

  /** The nodes of a forest in depth-first pre-order. */
  function Preorder(ns: seq<Node>): seq<Node>
    decreases ns
  {
    if ns == [] then []
    else
      var below := match ns[0] case Element(_, _, kids, _) => Preorder(kids) case Text(_) => [];
      [ns[0]] + below + Preorder(ns[1..])
  }

  /** The title of the first node of `ps` that has one. */
  function FirstTitle(ps: seq<Node>): (r: Option<string>)
    ensures r.None? <==> forall i :: 0 <= i < |ps| ==> MaybeTitle(ps[i]).None?
    ensures r.Some? ==>
      exists i :: 0 <= i < |ps| && MaybeTitle(ps[i]) == r && (forall j :: 0 <= j < i ==> MaybeTitle(ps[j]).None?)
  {
    if ps == [] then None
    else if MaybeTitle(ps[0]).Some? then MaybeTitle(ps[0])
    else
      var r := FirstTitle(ps[1..]);
      assert forall i :: 1 <= i < |ps| ==> ps[i] == ps[1..][i - 1];
      r
  }

  lemma {:induction false} FirstTitleAppend(a: seq<Node>, b: seq<Node>)
    ensures FirstTitle(a + b) == if FirstTitle(a).Some? then FirstTitle(a) else FirstTitle(b)
  {
    if a == [] {
      assert a + b == b;
    } else {
      assert (a + b)[0] == a[0];
      assert (a + b)[1..] == a[1..] + b;
      FirstTitleAppend(a[1..], b);
    }
  }

  /**
   * `find_title` returns the title of the first node, in depth-first
   * pre-order, that is an `h1` with a single text child; an `h1` with other
   * children is passed over but its descendants are still searched.
   */
  lemma {:induction false} FindTitleIsFirstInPreorder(ns: seq<Node>)
    ensures FindTitle(ns) == FirstTitle(Preorder(ns))
    decreases ns
  {
    if ns != [] {
      match ns[0] {
        case Element(_, _, cs, _) => FindTitleIsFirstInPreorder(cs);
        case Text(_) =>
      }
      FindTitleIsFirstInPreorder(ns[1..]);
      var below, later := Preorder(Children(ns[0])), Preorder(ns[1..]);
      PreorderCons(ns);
      FirstTitleCons(ns[0], below + later);
      FirstTitleAppend(below, later);
    }
  }

  /** One unfolding of `Preorder`: a node, then its descendants, then its later siblings. */
  lemma PreorderCons(ns: seq<Node>)
    requires ns != []
    ensures Preorder(ns) == [ns[0]] + (Preorder(Children(ns[0])) + Preorder(ns[1..]))
  {
  }

  lemma FirstTitleCons(x: Node, rest: seq<Node>)
    ensures FirstTitle([x] + rest) == if MaybeTitle(x).Some? then MaybeTitle(x) else FirstTitle(rest)
  {
    assert ([x] + rest)[0] == x && ([x] + rest)[1..] == rest;
  }

  // ---------------------------------------------------------------- what one event does

  /** A Start event pushes exactly the element `make_tag` builds; `nodes` is unchanged. */
  lemma StartPushesOne(st: State, tag: Tag, safeHtml: string -> Node)
    ensures Step(st, Start(tag), safeHtml).Ok? <==> MakeTag(tag).Ok?
    ensures MakeTag(tag).Ok? ==>
      Step(st, Start(tag), safeHtml) == Ok(State(st.spine + [MakeTag(tag).value], st.nodes))
  {
  }

  /**
   * An End event panics on an empty spine. With one open element, that
   * element is appended to `nodes` and the spine empties; otherwise it
   * becomes the last child of the element below it and `nodes` is unchanged.
   */
  lemma EndPopsOne(st: State, tag: Tag, safeHtml: string -> Node)
    requires SpineValid(st.spine)
    ensures Step(st, End(tag), safeHtml).Err? <==> st.spine == []
    ensures |st.spine| == 1 ==> Step(st, End(tag), safeHtml) == Ok(State([], st.nodes + [st.spine[0]]))
    ensures |st.spine| >= 2 ==>
      var n := |st.spine|;
      var next := Step(st, End(tag), safeHtml).value;
      && next.nodes == st.nodes
      && |next.spine| == n - 1
      && next.spine[..n - 2] == st.spine[..n - 2]
      && next.spine[n - 2] == AppendChild(st.spine[n - 2], st.spine[n - 1])
  {
  }

  /**
   * A leaf event panics on an empty spine; otherwise its node becomes the
   * last child of the spine top, and the rest of the spine and `nodes` are unchanged.
   */
  lemma LeafAttachesOne(st: State, ev: Event, safeHtml: string -> Node)
    requires SpineValid(st.spine) && IsLeaf(ev)
    ensures Step(st, ev, safeHtml).Err? <==> st.spine == []
    ensures st.spine != [] ==>
      var n := |st.spine|;
      var next := Step(st, ev, safeHtml).value;
      && next.nodes == st.nodes
      && |next.spine| == n
      && next.spine[..n - 1] == st.spine[..n - 1]
      && next.spine[n - 1].children == st.spine[n - 1].children + [LeafNode(ev)]
      && next.spine[n - 1] == st.spine[n - 1].(children := next.spine[n - 1].children)
  {
  }

  /** A Rule appends `hr` to `nodes` even inside open elements; the spine is unchanged. */
  lemma RuleIsTopLevel(st: State, safeHtml: string -> Node)
    ensures Step(st, Rule, safeHtml) == Ok(State(st.spine, st.nodes + [HorizontalRule()]))
  {
  }

  /** Embedded HTML goes to `nodes` when no element is open, and to the spine top otherwise. */
  lemma HtmlPlacement(st: State, html: string, safeHtml: string -> Node)
    requires SpineValid(st.spine)
    ensures st.spine == [] ==> Step(st, Html(html), safeHtml) == Ok(State([], st.nodes + [safeHtml(html)]))
    ensures st.spine != [] ==>
      var n := |st.spine|;
      Step(st, Html(html), safeHtml) == Ok(State(st.spine[n - 1 := AppendChild(st.spine[n - 1], safeHtml(html))], st.nodes))
  {
  }

  // ---------------------------------------------------------------- balance

  /** The number of Start events. */
  function Opens(evs: seq<Event>): nat
  {
    if evs == [] then 0 else (if evs[0].Start? then 1 else 0) + Opens(evs[1..])
  }

  /** The number of End events. */
  function Closes(evs: seq<Event>): nat
  {
    if evs == [] then 0 else (if evs[0].End? then 1 else 0) + Closes(evs[1..])
  }

  /**
   * A stream a tokenizer may emit when `depth` elements are open: every End
   * and every leaf event finds an open element, and every heading level is 1 to 6.
   */
  predicate WellFormedFrom(depth: nat, evs: seq<Event>)
    decreases |evs|
  {
    if evs == [] then true
    else
      match evs[0]
      case Start(tag) => (!tag.Heading? || 1 <= tag.level <= 6) && WellFormedFrom(depth + 1, evs[1..])
      case End(_) => depth > 0 && WellFormedFrom(depth - 1, evs[1..])
      case Html(_) => WellFormedFrom(depth, evs[1..])
      case Rule => WellFormedFrom(depth, evs[1..])
      case _ => depth > 0 && WellFormedFrom(depth, evs[1..])
  }

  /** One step keeps the spine made of elements, moves its length by at most one and only appends to `nodes`. */
  lemma StepBalance(st: State, ev: Event, safeHtml: string -> Node)
    requires SpineValid(st.spine)
    ensures Step(st, ev, safeHtml).Ok? <==>
      match ev
      case Start(tag) => !tag.Heading? || 1 <= tag.level <= 6
      case Html(_) => true
      case Rule => true
      case _ => |st.spine| > 0
    ensures Step(st, ev, safeHtml).Ok? ==>
      var next := Step(st, ev, safeHtml).value;
      && SpineValid(next.spine)
      && |next.spine| == |st.spine| + (if ev.Start? then 1 else 0) - (if ev.End? then 1 else 0)
      && st.nodes <= next.nodes
  {
    if ev.End? && |st.spine| >= 1 {
      var next := Step(st, ev, safeHtml).value;
      assert forall i :: 0 <= i < |next.spine| ==> next.spine[i] == st.spine[i] || i == |st.spine| - 2;
    }
  }

  /**
   * Balance: started from a spine of elements, the event loop succeeds
   * exactly on a well-formed stream; then the spine length is the initial
   * one plus the Starts minus the Ends, and `nodes` has only grown.
   */
  lemma {:induction false} RunOkIffWellFormed(st: State, evs: seq<Event>, safeHtml: string -> Node)
    requires SpineValid(st.spine)
    ensures Run(st, evs, safeHtml).Ok? <==> WellFormedFrom(|st.spine|, evs)
    ensures Run(st, evs, safeHtml).Ok? ==>
      var fin := Run(st, evs, safeHtml).value;
      && SpineValid(fin.spine)
      && |fin.spine| + Closes(evs) == |st.spine| + Opens(evs)
      && st.nodes <= fin.nodes
    decreases |evs|
  {
    if evs != [] {
      StepBalance(st, evs[0], safeHtml);
      var step := Step(st, evs[0], safeHtml);
      if step.Ok? {
        RunOkIffWellFormed(step.value, evs[1..], safeHtml);
      }
    }
  }

  /** Running `a + b` is running `a`, then `b` from where `a` stopped. */
  lemma {:induction false} RunSplit(st: State, a: seq<Event>, b: seq<Event>, safeHtml: string -> Node)
    ensures Run(st, a + b, safeHtml) ==
      match Run(st, a, safeHtml)
      case Err(f) => Err(f)
      case Ok(mid) => Run(mid, b, safeHtml)
    decreases |a|
  {
    if a == [] {
      assert a + b == b;
    } else {
      assert (a + b)[0] == a[0];
      assert (a + b)[1..] == a[1..] + b;
      var step := Step(st, a[0], safeHtml);
      if step.Ok? {
        RunSplit(step.value, a[1..], b, safeHtml);
      }
    }
  }

  /** For every prefix of a stream `parse` accepts, the spine length is #Start - #End. */
  lemma BalanceOnPrefix(evs: seq<Event>, k: nat, safeHtml: string -> Node)
    requires RunNodes(evs, safeHtml).Ok? && k <= |evs|
    ensures Run(State([], []), evs[..k], safeHtml).Ok?
    ensures |Run(State([], []), evs[..k], safeHtml).value.spine| == Opens(evs[..k]) - Closes(evs[..k])
  {
    assert evs == evs[..k] + evs[k..];
    RunSplit(State([], []), evs[..k], evs[k..], safeHtml);
    RunOkIffWellFormed(State([], []), evs[..k], safeHtml);
  }

  /** A well-formed stream with as many Ends as Starts leaves the spine empty: every element is closed. */
  lemma MatchedStreamClosesAll(evs: seq<Event>, safeHtml: string -> Node)
    requires WellFormedFrom(0, evs) && Opens(evs) == Closes(evs)
    ensures Run(State([], []), evs, safeHtml).Ok?
    ensures Run(State([], []), evs, safeHtml).value.spine == []
  {
    RunOkIffWellFormed(State([], []), evs, safeHtml);
  }

  /** At top level, Start, Text, End yields one completed element whose only child is that text. */
  lemma TopLevelTextBlock(nodes: seq<Node>, tag: Tag, text: string, safeHtml: string -> Node)
    requires MakeTag(tag).Ok?
    ensures
      var e := MakeTag(tag).value;
      Run(State([], nodes), [Start(tag), Event.Text(text), End(tag)], safeHtml)
        == Ok(State([], nodes + [e.(children := [Node.Text(text)])]))
  {
    var e := MakeTag(tag).value;
    var full := e.(children := [Node.Text(text)]);
    StartPushesOne(State([], nodes), tag, safeHtml);
    assert [] + [e] == [e];
    TextIntoOnlyOpen(e, nodes, text, safeHtml);
    EndOfOnlyOpen(full, nodes, tag, safeHtml);
    RunThree(State([], nodes), [Start(tag), Event.Text(text), End(tag)],
      State([e], nodes), State([full], nodes), State([], nodes + [full]), safeHtml);
  }

  /** Text into the only open element, which has no children yet, makes that text its only child. */
  lemma TextIntoOnlyOpen(e: Node, nodes: seq<Node>, text: string, safeHtml: string -> Node)
    requires e.Element? && e.children == []
    ensures Step(State([e], nodes), Event.Text(text), safeHtml)
      == Ok(State([e.(children := [Node.Text(text)])], nodes))
  {
    assert [] + [Node.Text(text)] == [Node.Text(text)];
    assert [e][0 := e.(children := [Node.Text(text)])] == [e.(children := [Node.Text(text)])];
  }

  /** Closing the only open element moves it to the completed nodes. */
  lemma EndOfOnlyOpen(x: Node, nodes: seq<Node>, tag: Tag, safeHtml: string -> Node)
    ensures Step(State([x], nodes), End(tag), safeHtml) == Ok(State([], nodes + [x]))
  {
    assert [x][..0] == [];
  }

  /** Three successful steps in a row make a successful run of those three events. */
  lemma RunThree(st: State, evs: seq<Event>, s1: State, s2: State, s3: State, safeHtml: string -> Node)
    requires |evs| == 3
    requires Step(st, evs[0], safeHtml) == Ok(s1)
    requires Step(s1, evs[1], safeHtml) == Ok(s2)
    requires Step(s2, evs[2], safeHtml) == Ok(s3)
    ensures Run(st, evs, safeHtml) == Ok(s3)
  {
    assert evs[1..][0] == evs[1] && evs[1..][1..][0] == evs[2] && evs[1..][1..][1..] == [];
    assert Run(s2, evs[1..][1..], safeHtml) == Ok(s3);
    assert Run(s1, evs[1..], safeHtml) == Ok(s3);
  }

  /** "# Hello" followed by a paragraph: the forest is the `h1` and the `p`, and the title is "Hello". */
  lemma TitleOfHeadingThenParagraph(safeHtml: string -> Node)
    ensures
      var evs := [Start(Heading(1)), Event.Text("Hello"), End(Heading(1)),
                  Start(Paragraph), Event.Text("body text"), End(Paragraph)];
      var h1 := Element("h1", [], [Node.Text("Hello")], false);
      var p := Element("p", [], [Node.Text("body text")], false);
      && RunNodes(evs, safeHtml) == Ok([h1, p])
      && FindTitle([h1, p]) == Some("Hello")
  {
    var h1 := Element("h1", [], [Node.Text("Hello")], false);
    var p := Element("p", [], [Node.Text("body text")], false);
    HeadingThenParagraphRun(safeHtml);
    assert MaybeTitle(h1) == Some("Hello");
  }

  /** The run behind `TitleOfHeadingThenParagraph`: two top-level blocks, one after the other. */
  lemma HeadingThenParagraphRun(safeHtml: string -> Node)
    ensures
      Run(State([], []), [Start(Heading(1)), Event.Text("Hello"), End(Heading(1)),
                          Start(Paragraph), Event.Text("body text"), End(Paragraph)], safeHtml)
        == Ok(State([], [Element("h1", [], [Node.Text("Hello")], false), Element("p", [], [Node.Text("body text")], false)]))
  {
    var heading := [Start(Heading(1)), Event.Text("Hello"), End(Heading(1))];
    var para := [Start(Paragraph), Event.Text("body text"), End(Paragraph)];
    var h1 := Element("h1", [], [Node.Text("Hello")], false);
    var p := Element("p", [], [Node.Text("body text")], false);
    TopLevelTextBlock([], Heading(1), "Hello", safeHtml);
    TopLevelTextBlock([h1], Paragraph, "body text", safeHtml);
    RunSplit(State([], []), heading, para, safeHtml);
    assert [] + [h1] == [h1] && [h1] + [p] == [h1, p];
    assert heading + para == [Start(Heading(1)), Event.Text("Hello"), End(Heading(1)),
                              Start(Paragraph), Event.Text("body text"), End(Paragraph)];
  }
}
