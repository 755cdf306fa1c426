/**
 * The virtual DOM node of the sauron crate, without its message type and
 * event listeners: an element (tag, attributes, children, self-closing flag)
 * or a text leaf.
 */
module Nodes {

  /** An attribute value: a string or, for `checked(..)`, a boolean. */
  datatype AttrValue = Str(s: string) | Bool(b: bool)

  datatype Attr = Attr(name: string, value: AttrValue)

  datatype Node =
    | Element(tag: string, attrs: seq<Attr>, children: seq<Node>, selfClosing: bool)
    | Text(text: string)

  /** `Node::children()`: a text leaf has none. */
  function Children(n: Node): seq<Node>
  {
    if n.Element? then n.children else []
  }

  /** `add_children([c])` on an element: `c` becomes its last child. */
  function AppendChild(e: Node, c: Node): (r: Node)
    requires e.Element?
  {
    e.(children := e.children + [c])
  }

  /** An element without children, as sauron's ordinary tag functions build it. */
  function Elem(tag: string, attrs: seq<Attr>): Node
  {
    Element(tag, attrs, [], false)
  }

  /** An element built by one of sauron's self-closing tag functions (`br`, `hr`, `img`, `input`). */
  function VoidElem(tag: string, attrs: seq<Attr>): Node
  {
    Element(tag, attrs, [], true)
  }
}
