/** The DOM nodes the image viewer creates, and `Container`
    (renderer/template/components/container.js): a wrapper over the content
    element of an `item-container`, whose child list it clears and appends to. */
module Dom {

  /** What a node shows: a `<p>` with a text, or an `<img-frame>` with a `url` attribute. */
  datatype NodeKind = Paragraph(text: string) | ImgFrame(url: string)

  /** A DOM node; two nodes with the same content are still different nodes. */
  class Node {
    const kind: NodeKind

    constructor (kind: NodeKind)
      ensures this.kind == kind
    {
      this.kind := kind;
    }
  }

  /** What a child list shows, node by node. */
  function Kinds(nodes: seq<Node>): (r: seq<NodeKind>)
    ensures |r| == |nodes|
    ensures forall i :: 0 <= i < |nodes| ==> r[i] == nodes[i].kind
  {
    if nodes == [] then [] else [nodes[0].kind] + Kinds(nodes[1..])
  }

  lemma {:induction false} KindsAppend(a: seq<Node>, b: seq<Node>)
    ensures Kinds(a + b) == Kinds(a) + Kinds(b)
  {
    assert forall i :: 0 <= i < |a + b| ==> (a + b)[i].kind == (Kinds(a) + Kinds(b))[i];
  }

  class Container {
    /** The children of the `.container` element, first child first. */
    var children: seq<Node>

    /** `new Container(root)` over a content element that already holds `initial`. */
    constructor (initial: seq<Node>)
      ensures children == initial
    {
      children := initial;
    }

    /** `clear()`: remove the first child while there is one. `removed` logs
        the removals, one per iteration: every old child is removed once, in
        document order. */
    method Clear() returns (ghost removed: seq<Node>)
      modifies this
      ensures children == []
      ensures removed == old(children)
    {
      removed := [];
      while |children| > 0
        invariant removed + children == old(children)
        decreases |children|
      {
        removed := removed + [children[0]];
        children := children[1..];
      }
    }

    /** `append(item)` of a node the container does not hold yet. */
    method Append(item: Node)
      requires item !in children
      modifies this
      ensures children == old(children) + [item]
    {
      children := children + [item];
    }
  }

  /** `clear()` then `append(a1)` ... `append(an)` of distinct nodes leaves
      exactly those nodes, in that order. */
  method ClearThenAppendAll(c: Container, items: seq<Node>)
    requires forall i, j :: 0 <= i < j < |items| ==> items[i] != items[j]
    modifies c
    ensures c.children == items
  {
    ghost var removed := c.Clear();
    for k := 0 to |items|
      invariant c.children == items[..k]
    {
      c.Append(items[k]);
    }
  }
}
