/** The forest produced by the parser: text leaves and named tag nodes. */
module Nodes {

  /** An element of a forest: a text leaf, or a tag node with its children.
      The source keeps leaves as plain strings and nodes as `Node(nodes, attr_name)`. */
  datatype Item = Text(s: string) | Node(children: seq<Item>, name: string)

  /** The only error the parser raises: a listed opening tag with no closing tag after it. */
  datatype ParseError = UnterminatedTag(name: string)

  datatype Result<T> = Ok(value: T) | Err(error: ParseError)

  datatype Option<T> = None | Some(value: T)

  /** Size of an item: one per leaf and one per node, at every depth (a termination measure). */
  function ItemSize(it: Item): (n: nat)
    ensures n >= 1
    decreases it, 0
  {
    match it
    case Text(_) => 1
    case Node(ch, _) => 1 + Size(ch)
  }

  function Size(items: seq<Item>): nat
    decreases items, 1
  {
    if items == [] then 0 else ItemSize(items[0]) + Size(items[1..])
  }

  lemma {:induction false} SizeAppend(a: seq<Item>, b: seq<Item>)
    ensures Size(a + b) == Size(a) + Size(b)
    decreases |a|
  {
    if a == [] {
      assert a + b == b;
    } else {
      assert (a + b)[1..] == a[1..] + b;
      SizeAppend(a[1..], b);
    }
  }

  lemma {:induction false} SizeElement(items: seq<Item>, i: nat)
    requires i < |items|
    ensures ItemSize(items[i]) <= Size(items)
    decreases i
  {
    if i > 0 {
      SizeElement(items[1..], i - 1);
    }
  }

  /** The text of a forest with every tag wrapper removed, in document order. */
  function Content(items: seq<Item>): string
    decreases items, 1
  {
    if items == [] then "" else ItemContent(items[0]) + Content(items[1..])
  }

  function ItemContent(it: Item): string
    decreases it, 0
  {
    match it
    case Text(s) => s
    case Node(ch, _) => Content(ch)
  }

  lemma {:induction false} ContentAppend(a: seq<Item>, b: seq<Item>)
    ensures Content(a + b) == Content(a) + Content(b)
    decreases |a|
  {
    if a == [] {
      assert a + b == b;
    } else {
      assert (a + b)[1..] == a[1..] + b;
      ContentAppend(a[1..], b);
    }
  }

  /** A forest seen as one string of characters with the nodes embedded in it. Splitting a
      text leaf in two, or merging two neighbouring leaves, does not change this view. */
  datatype Atom = Char(c: char) | Embedded(node: Item)

  function Atoms(it: Item): seq<Atom>
  {
    match it
    case Text(s) => seq(|s|, i requires 0 <= i < |s| => Char(s[i]))
    case Node(_, _) => [Embedded(it)]
  }

  function Expand(items: seq<Item>): seq<Atom>
  {
    if items == [] then [] else Atoms(items[0]) + Expand(items[1..])
  }

  lemma {:induction false} ExpandAppend(a: seq<Item>, b: seq<Item>)
    ensures Expand(a + b) == Expand(a) + Expand(b)
    decreases |a|
  {
    if a == [] {
      assert a + b == b;
    } else {
      assert (a + b)[1..] == a[1..] + b;
      ExpandAppend(a[1..], b);
    }
  }

  lemma ExpandSingle(it: Item)
    ensures Expand([it]) == Atoms(it)
  {
    assert [it][1..] == [];
    assert Atoms(it) + [] == Atoms(it);
  }

  lemma AtomsOfConcat(x: string, y: string)
    ensures Atoms(Text(x + y)) == Atoms(Text(x)) + Atoms(Text(y))
  {
  }

  /** No two neighbouring siblings are both text leaves. */
  predicate NoAdjacentText(items: seq<Item>)
  {
    forall i :: 0 <= i < |items| - 1 ==> !(items[i].Text? && items[i + 1].Text?)
  }

  /** Every node, at every depth, has children with no two adjacent text leaves.
      The top-level list itself is not constrained. */
  predicate Normal(items: seq<Item>)
    decreases items
  {
    forall i :: 0 <= i < |items| ==>
      (items[i].Node? ==> NoAdjacentText(items[i].children) && Normal(items[i].children))
  }

  /** Every node, at every depth, is named by a member of `tags`. */
  predicate NamesIn(items: seq<Item>, tags: set<string>)
    decreases items
  {
    forall i :: 0 <= i < |items| ==>
      (items[i].Node? ==> items[i].name in tags && NamesIn(items[i].children, tags))
  }

  /** True when the forest contains no node at all (only text leaves). */
  predicate TextOnly(items: seq<Item>)
  {
    forall i :: 0 <= i < |items| ==> items[i].Text?
  }

  /** Prepends items to the forest of a successful result; an error is passed on. */
  function Prepend(pre: seq<Item>, r: Result<seq<Item>>): Result<seq<Item>>
  {
    match r
    case Ok(items) => Ok(pre + items)
    case Err(e) => Err(e)
  }

  lemma PrependNil(r: Result<seq<Item>>)
    ensures Prepend([], r) == r
  {
    if r.Ok? {
      assert [] + r.value == r.value;
    }
  }

  lemma PrependPrepend(a: seq<Item>, b: seq<Item>, r: Result<seq<Item>>)
    ensures Prepend(a, Prepend(b, r)) == Prepend(a + b, r)
  {
    if r.Ok? {
      assert a + (b + r.value) == (a + b) + r.value;
    }
  }

  lemma {:induction false} NamesInAppend(a: seq<Item>, b: seq<Item>, tags: set<string>)
    ensures NamesIn(a + b, tags) <==> NamesIn(a, tags) && NamesIn(b, tags)
  {
    var ab := a + b;
    assert forall i :: 0 <= i < |a| ==> ab[i] == a[i];
    assert forall i :: 0 <= i < |b| ==> ab[|a| + i] == b[i];
  }
}
