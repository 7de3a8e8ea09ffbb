/**
 * The part of the Xerces DOM the editor uses: element and text nodes with a
 * name, an attribute map and an ordered list of children, and the mutators
 * removeAttribute, setAttribute, appendChild and removeChild.
 */
module Dom {
  import Seqs

  const TEXT_NODE_NAME: string := "#text"

  class Node {
    /** getNodeName(): the tag of an element, "#text" for text. */
    const nodeName: string
    /** getNodeType() == ELEMENT_NODE */
    const isElement: bool
    var attrs: map<string, string>
    var children: seq<Node>

    /** createElementNS(tag) followed by the attribute and child settings given. */
    constructor Element(tag: string, attributes: map<string, string>, kids: seq<Node>)
      ensures nodeName == tag && isElement
      ensures attrs == attributes && children == kids
    {
      nodeName := tag;
      isElement := true;
      attrs := attributes;
      children := kids;
    }

    /** A text node, such as the white space between elements of a parsed file. */
    constructor Text()
      ensures nodeName == TEXT_NODE_NAME && !isElement
      ensures attrs == map[] && children == []
    {
      nodeName := TEXT_NODE_NAME;
      isElement := false;
      attrs := map[];
      children := [];
    }

    method RemoveAttribute(key: string)
      modifies this
      ensures attrs == old(attrs) - {key}
      ensures children == old(children)
    {
      attrs := attrs - {key};
    }

    method SetAttribute(key: string, value: string)
      modifies this
      ensures attrs == old(attrs)[key := value]
      ensures children == old(children)
    {
      attrs := attrs[key := value];
    }

    method AppendChild(child: Node)
      modifies this
      ensures children == old(children) + [child]
      ensures attrs == old(attrs)
    {
      children := children + [child];
    }

    /** removeChild of the node at position i of the live child list. */
    method RemoveChildAt(i: nat)
      requires i < |children|
      modifies this
      ensures children == old(children[..i] + children[i + 1..])
      ensures attrs == old(attrs)
    {
      children := children[..i] + children[i + 1..];
    }

    /** removeChild(child): the child taken out of the child list, where a node occurs at most once. */
    method RemoveChild(child: Node)
      requires child in children
      modifies this
      ensures children == Seqs.Without(old(children), child)
      ensures attrs == old(attrs)
    {
      children := Seqs.Without(children, child);
    }
  }

  /** getAttribute(): the value, or the empty string when the attribute is absent. */
  function GetAttribute(n: Node, key: string): string
    reads n
  {
    if key in n.attrs then n.attrs[key] else ""
  }

  /** The element's attributes after `removeAttribute(key)` then `setAttribute(key, value)`. */
  function Reset(attrs: map<string, string>, key: string, value: string): (r: map<string, string>)
    ensures key in r && r[key] == value
    ensures forall k :: k != key ==> (k in r <==> k in attrs)
    ensures forall k :: k != key && k in attrs ==> r[k] == attrs[k]
  {
    (attrs - {key})[key := value]
  }
}
