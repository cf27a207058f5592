/** The entry points of the `Xmlish` module (lib/xmlish.rb:1-37): the template is parsed with
    the keys of the callback hash as the listed tags, then either rendered to a string
    (`Xmlish.parse`) or walked (`Xmlish.walk`). */
module Xmlish {
  import opened Nodes
  import opened Scanner
  import Parser
  import ParserFacts
  import Reconstructor
  import Walker

  /** `Xmlish.parse` (lib/xmlish.rb:6-8). */
  function Render(str: string, cb: Reconstructor.Callbacks): Result<string>
  {
    match Parser.Parsed(str, cb.Keys)
    case Err(e) => Err(e)
    case Ok(items) => Ok(Reconstructor.ReconstructAll(items, cb))
  }

  /** `Xmlish.walk` (lib/xmlish.rb:13-15): the outcome holds the joined return values and
      the lines the callbacks recorded, in order. */
  function Traverse(str: string, cb: Walker.Callbacks): Result<Walker.Outcome>
  {
    match Parser.Parsed(str, cb.Keys)
    case Err(e) => Err(e)
    case Ok(items) => Ok(Walker.WalkAll(items, cb))
  }

  /** The callback keys are the only tag names: every node that reaches the reconstructor
      has a callback, and a missing closing tag is only ever reported for a key. */
  lemma RenderUsesKeys(str: string, cb: Reconstructor.Callbacks)
    ensures Parser.Parsed(str, cb.Keys).Ok? ==> NamesIn(Parser.Parsed(str, cb.Keys).value, cb.Keys)
    ensures Render(str, cb).Err? ==> Render(str, cb).error.name in cb
  {
    ParserFacts.ParsedWellFormed(str, cb.Keys);
  }

  lemma ReconstructTextOnly(items: seq<Item>, cb: Reconstructor.Callbacks)
    requires TextOnly(items) && Reconstructor.PlainText(cb)
    ensures Reconstructor.ReconstructAll(items, cb) == Content(items)
    decreases |items|
  {
    if items != [] {
      ReconstructTextOnly(items[1..], cb);
    }
  }

  /** In an aligned template in which no opening tag is named by a key, and without a
      "text" transform, rendering gives back the template unchanged. */
  lemma RenderPassThrough(str: string, cb: Reconstructor.Callbacks)
    requires ParserFacts.Aligned(str)
    requires forall j: nat, n :: OpensAt(str, j, n) ==> n !in cb
    requires Reconstructor.PlainText(cb)
    ensures Render(str, cb) == Ok(str)
  {
    ParserFacts.UnlistedPassThrough(str, cb.Keys);
    var items := Parser.Scan(str, cb.Keys).value;
    Reconstructor.ReconstructNormalise(items, cb);
    ReconstructTextOnly(items, cb);
  }

  /** A template with no opening tag is one text leaf: rendered through the "text"
      transform when there is one, unchanged otherwise; the empty template renders empty. */
  lemma RenderPlainText(str: string, cb: Reconstructor.Callbacks)
    requires NoOpenTag(str)
    ensures Render(str, cb) == Ok(
      if str == "" then ""
      else match Reconstructor.CallbackFor(cb, "text") case Some(f) => f(str) case None => str)
  {
    ParserFacts.PlainText(str, cb.Keys);
    if str != "" {
      var v := Reconstructor.ReconstructItem(Text(str), cb);
      assert [Text(str)][1..] == [];
      assert Reconstructor.ReconstructAll([Text(str)], cb) == v + "";
      assert v + "" == v;
    }
  }

  /** Where the template is not aligned the text is cut wrongly: unless "b" is a key or
      text leaves are transformed, "<<b>" renders as "<b>>". */
  lemma MisalignedRender(str: string, cb: Reconstructor.Callbacks)
    requires str == "<<b>" && "b" !in cb && Reconstructor.PlainText(cb)
    ensures Render(str, cb) == Ok("<b>>")
  {
    var items := [Text("<b>"), Text(">")];
    ParserFacts.MisalignedTagShiftsText(str, cb.Keys);
    Reconstructor.ReconstructNormalise(items, cb);
    ReconstructTextOnly(items, cb);
    MisalignedContent();
  }

  lemma MisalignedContent()
    ensures Content([Text("<b>"), Text(">")]) == "<b>>"
  {
    var items := [Text("<b>"), Text(">")];
    assert items[1..] == [Text(">")] && items[1..][1..] == [];
    assert Content(items[1..]) == ">" + "";
    assert Content(items) == "<b>" + Content(items[1..]);
  }

  /** An unlisted tag that ends the template leaves an empty leaf after it, which the "text"
      transform also sees. */
  lemma TrailingLeafRendered(text: string, n: string, cb: Reconstructor.Callbacks, f: string -> string)
    requires '<' !in text && IsName(n) && n !in cb
    requires "text" in cb && cb["text"] == Some(f)
    ensures Render(text + "<" + n + ">", cb) == Ok(f(text + "<" + n + ">") + f(""))
  {
    var head := text + "<" + n + ">";
    ParserFacts.TrailingEmptyLeaf(text, n, cb.Keys);
    var items := [Text(head), Text("")];
    TextsNormal(items);
    assert Parser.Parsed(head, cb.Keys) == Ok(items);
    RenderTwoLeaves(head, "", cb, f);
  }

  lemma TextsNormal(items: seq<Item>)
    requires TextOnly(items)
    ensures Parser.NormaliseAll(items) == items
  {
    ParserFacts.NormaliseKeepsTopLevel(items);
  }

  lemma RenderTwoLeaves(a: string, b: string, cb: Reconstructor.Callbacks, f: string -> string)
    requires "text" in cb && cb["text"] == Some(f)
    ensures Reconstructor.ReconstructAll([Text(a), Text(b)], cb) == f(a) + f(b)
  {
    var items := [Text(a), Text(b)];
    assert Reconstructor.CallbackFor(cb, "text") == Some(f);
    assert items[1..] == [Text(b)] && items[1..][1..] == [];
    assert Reconstructor.ReconstructAll([Text(b)], cb) == f(b) + "";
    assert f(b) + "" == f(b);
  }

  /** "text" is also a tag name once it is a key: an element `<text>x</text>` is a node
      whose content is a text leaf, so the transform applies twice. */
  lemma TextKeyIsATag(x: string, f: string -> string)
    requires '<' !in x && '\n' !in x && x != ""
    ensures Render("<text>" + x + "</text>", map["text" := Some(f)]) == Ok(f(f(x)))
  {
    var cb: Reconstructor.Callbacks := map["text" := Some(f)];
    var items := [Node([Text(x)], "text")];
    TextElementParses(x, cb.Keys);
    TextElementNormal(x);
    TextElementRenders(x, f, cb);
  }

  lemma TextElementParses(x: string, tags: set<string>)
    requires '<' !in x && '\n' !in x && x != ""
    requires tags == {"text"}
    ensures Parser.Scan("<text>" + x + "</text>", tags) == Ok([Node([Text(x)], "text")])
  {
    assert IsName("text");
    ParserFacts.ScanPlainText(x, tags);
    assert Parser.Scan("", tags) == Ok([]);
    assert NoCloseTag(x, "text");
    ParserFacts.ListedTagNode("", "text", x, "", tags);
    assert "" + "<" + "text" + ">" + x + "</" + "text" + ">" + "" == "<text>" + x + "</text>";
    assert ParserFacts.TextBefore("") == [];
    assert [] + [Node([Text(x)], "text")] + [] == [Node([Text(x)], "text")];
  }

  lemma TextElementNormal(x: string)
    ensures Parser.NormaliseAll([Node([Text(x)], "text")]) == [Node([Text(x)], "text")]
  {
    assert Parser.JoinAdjacent([Text(x)]) == [Text(x)] by {
      ParserFacts.JoinIdempotent([Text(x)]);
    }
    TextsNormal([Text(x)]);
    assert Parser.NormaliseItem(Node([Text(x)], "text")) == Node([Text(x)], "text");
    assert Parser.NormaliseAll([Node([Text(x)], "text")]) == [Node([Text(x)], "text")] + Parser.NormaliseAll([]);
  }

  lemma TextElementRenders(x: string, f: string -> string, cb: Reconstructor.Callbacks)
    requires cb == map["text" := Some(f)]
    ensures Reconstructor.ReconstructAll([Node([Text(x)], "text")], cb) == f(f(x))
  {
    var items := [Node([Text(x)], "text")];
    var fx := f(x);
    assert Reconstructor.CallbackFor(cb, "text") == Some(f);
    assert [Text(x)][1..] == [] && items[1..] == [];
    assert Reconstructor.ReconstructAll([Text(x)], cb) == fx + "";
    assert fx + "" == fx;
    assert Reconstructor.ReconstructItem(items[0], cb) == f(fx);
    assert Reconstructor.ReconstructAll(items, cb) == f(fx) + "";
    assert f(fx) + "" == f(fx);
  }

  /** Walking with the transforms of the reconstructor, each run once, records nothing and
      returns exactly what rendering returns; in particular the two entry points agree when
      every key is registered without a callback. */
  lemma TraverseMirrorsRender(str: string, cb: Reconstructor.Callbacks)
    ensures Traverse(str, Walker.LiftAll(cb)) ==
      if Render(str, cb).Err? then Err(Render(str, cb).error) else Ok(Walker.Outcome(Render(str, cb).value, []))
  {
    assert Walker.LiftAll(cb).Keys == cb.Keys;
    if Parser.Parsed(str, cb.Keys).Ok? {
      Walker.WalkMirrorsReconstruct(Parser.Parsed(str, cb.Keys).value, cb);
    }
  }
}
