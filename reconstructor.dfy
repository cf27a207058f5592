/** `Xmlish::Reconstructor` (lib/xmlish.rb:109-152): folds a forest back into one string,
    bottom-up, applying the callback registered for each tag name and for text leaves. */
module Reconstructor {
  import opened Nodes
  import Parser

  /** A transform of the rendered content of a node or of a text leaf. */
  type Transform = string -> string

  /** The callback hash: a key mapped to None is registered with no transform (the
      source's nil value); the reserved key "text" applies to every text leaf. */
  type Callbacks = map<string, Option<Transform>>

  function Identity(s: string): string
  {
    s
  }

  /** `callback_for_tag` (lib/xmlish.rb:140-150): nothing for a name that is not a key, the
      identity for a key without a transform, and the registered transform otherwise. */
  function CallbackFor(cb: Callbacks, tag: string): (r: Option<Transform>)
    ensures r.None? <==> tag !in cb
    ensures tag in cb && cb[tag].Some? ==> r == cb[tag]
    ensures tag in cb && cb[tag].None? ==> r.Some? && forall x :: r.value(x) == x
  {
    if tag in cb then
      match cb[tag]
      case Some(f) => Some(f)
      case None => Some(Identity)
    else
      None
  }

  /** `reconstruct` (lib/xmlish.rb:118-136): the items rendered one by one and joined. */
  function ReconstructAll(items: seq<Item>, cb: Callbacks): string
    decreases items, 1
  {
    if items == [] then "" else ReconstructItem(items[0], cb) + ReconstructAll(items[1..], cb)
  }

  /** One item of `reconstruct`: a node's children are rendered first and the node's
      callback, if any, is applied to the result; a text leaf goes through the "text"
      callback, if any. */
  function ReconstructItem(it: Item, cb: Callbacks): string
    decreases it, 0
  {
    match it
    case Node(ch, n) =>
      (match CallbackFor(cb, n)
       case Some(f) => f(ReconstructAll(ch, cb))
       case None => ReconstructAll(ch, cb))
    case Text(s) =>
      (match CallbackFor(cb, "text")
       case Some(f) => f(s)
       case None => s)
  }

  /** The callbacks leave text leaves as they are. */
  predicate PlainText(cb: Callbacks)
  {
    "text" !in cb || cb["text"].None?
  }

  /** Every key is registered without a transform. */
  predicate AllIdentity(cb: Callbacks)
  {
    forall k :: k in cb ==> cb[k].None?
  }

  /** Siblings are rendered left to right and their results concatenated. */
  lemma {:induction false} ReconstructAppend(a: seq<Item>, b: seq<Item>, cb: Callbacks)
    ensures ReconstructAll(a + b, cb) == ReconstructAll(a, cb) + ReconstructAll(b, cb)
    decreases |a|
  {
    if a == [] {
      assert a + b == b;
    } else {
      assert (a + b)[1..] == a[1..] + b;
      ReconstructAppend(a[1..], b, cb);
    }
  }

  /** With no transform registered anywhere, rendering removes the tags and keeps the text. */
  lemma {:induction false} ReconstructIdentity(items: seq<Item>, cb: Callbacks)
    requires AllIdentity(cb)
    ensures ReconstructAll(items, cb) == Content(items)
    decreases items, 1
  {
    if items != [] {
      ReconstructItemIdentity(items[0], cb);
      ReconstructIdentity(items[1..], cb);
    }
  }

  lemma {:induction false} ReconstructItemIdentity(it: Item, cb: Callbacks)
    requires AllIdentity(cb)
    ensures ReconstructItem(it, cb) == ItemContent(it)
    decreases it, 0
  {
    if it.Node? {
      ReconstructIdentity(it.children, cb);
    }
  }

  /** When text leaves are not transformed, merging adjacent leaves does not change the output. */
  lemma {:induction false} ReconstructJoin(xs: seq<Item>, cb: Callbacks)
    requires PlainText(cb)
    ensures ReconstructAll(Parser.JoinAdjacent(xs), cb) == ReconstructAll(xs, cb)
    decreases |xs|
  {
    if xs != [] {
      var init, b := xs[..|xs| - 1], xs[|xs| - 1];
      assert xs == init + [b];
      assert Parser.JoinAdjacent(xs) == Parser.JoinStep(Parser.JoinAdjacent(init), b);
      ReconstructJoin(init, cb);
      ReconstructAppend(init, [b], cb);
      ReconstructJoinStep(Parser.JoinAdjacent(init), b, cb);
    }
  }

  lemma ReconstructJoinStep(acc: seq<Item>, b: Item, cb: Callbacks)
    requires PlainText(cb)
    ensures ReconstructAll(Parser.JoinStep(acc, b), cb) == ReconstructAll(acc, cb) + ReconstructItem(b, cb)
  {
    assert ReconstructAll([b], cb) == ReconstructItem(b, cb);
    if b.Text? && |acc| > 0 && acc[|acc| - 1].Text? {
      var init, last := acc[..|acc| - 1], acc[|acc| - 1];
      assert acc == init + [last];
      ReconstructAppend(init, [last], cb);
      ReconstructAppend(init, [Text(last.s + b.s)], cb);
      assert ReconstructAll([last], cb) == last.s;
      assert ReconstructAll([Text(last.s + b.s)], cb) == last.s + b.s;
    } else {
      ReconstructAppend(acc, [b], cb);
    }
  }

  /** When text leaves are not transformed, normalising a forest does not change its output. */
  lemma {:induction false} ReconstructNormalise(items: seq<Item>, cb: Callbacks)
    requires PlainText(cb)
    ensures ReconstructAll(Parser.NormaliseAll(items), cb) == ReconstructAll(items, cb)
    decreases Size(items), 1, |items|
  {
    if items != [] {
      var r := Parser.NormaliseAll(items);
      assert r == [Parser.NormaliseItem(items[0])] + Parser.NormaliseAll(items[1..]);
      assert r[1..] == Parser.NormaliseAll(items[1..]);
      ReconstructNormaliseItem(items[0], cb);
      ReconstructNormalise(items[1..], cb);
    }
  }

  lemma {:induction false} ReconstructNormaliseItem(it: Item, cb: Callbacks)
    requires PlainText(cb)
    ensures ReconstructItem(Parser.NormaliseItem(it), cb) == ReconstructItem(it, cb)
    decreases ItemSize(it), 0, 0
  {
    if it.Node? {
      var joined := Parser.JoinAdjacent(it.children);
      ReconstructNormalise(joined, cb);
      ReconstructJoin(it.children, cb);
    }
  }
}
