/** The examples of the repository's own test suite (spec/xmlish_spec.rb and
    spec/example_spec.rb), stated about the model and proved one tag at a time. */
module Examples {
  import opened ExampleStrings
  import opened Nodes
  import opened Scanner
  import opened Parser
  import ParserFacts
  import Reconstructor
  import Walker
  import Xmlish
  import RoundTrip

  /** A string without `<` scans as one text leaf (none when empty). */
  lemma ScanNoLt(s: string, tags: set<string>)
    requires '<' !in s
    ensures Scan(s, tags) == Ok(if s == "" then [] else [Text(s)])
  {
    ParserFacts.ScanPlainText(s, tags);
  }

  /** An element `<n>inner</n>` in which inner has no `<`, between text without `<`. */
  lemma SimpleElement(text: string, n: string, inner: string, after: string, tags: set<string>)
    requires '<' !in text && '<' !in inner && '\n' !in inner && IsName(n) && n in tags
    ensures Scan(text + "<" + n + ">" + inner + "</" + n + ">" + after, tags) ==
      Prepend(ParserFacts.TextBefore(text) + [Node(if inner == "" then [] else [Text(inner)], n)], Scan(after, tags))
  {
    ScanNoLt(inner, tags);
    ParserFacts.ListedTagNode(text, n, inner, after, tags);
  }

  /** The tag names of the examples. */
  lemma Names()
    ensures IsName("red") && IsName("bold") && IsName("u") && IsName("downcase") && IsName("text")
  {
  }

  // xmlish_spec.rb, "#parse_to_nodes"

  lemma ParsePlainText()
    ensures Parsed("test", {}) == Ok([Text("test")])
  {
    ParserFacts.PlainText("test", {});
  }

  lemma ScanSingleTag(s: string, tags: set<string>)
    requires s == "Press <red>ENTER</red>" && "red" in tags
    ensures Scan(s, tags) == Ok([Text("Press "), Node([Text("ENTER")], "red")])
  {
    RepeatedTagChars();
    Names();
    SingleTagConcat("Press ", "red", "ENTER", "");
    ScanNoLt("ENTER", tags);
    ScanNoLt("", tags);
    ElementThen("Press ", "red", "ENTER", "", tags, [Text("ENTER")], []);
    Two2(Text("Press "), Node([Text("ENTER")], "red"));
  }

  /** The single-tag case for any listed name, after normalising. */
  lemma ParseSingleTag(n: string, tags: set<string>)
    requires IsName(n) && n in tags
    ensures Parsed("Press " + "<" + n + ">" + "ENTER" + "</" + n + ">" + "", tags) ==
      Ok([Text("Press "), Node([Text("ENTER")], n)])
  {
    var f := [Text("Press "), Node([Text("ENTER")], n)];
    SimpleElement("Press ", n, "ENTER", "", tags);
    ScanNoLt("", tags);
    Two2(Text("Press "), Node([Text("ENTER")], n));
    assert Normal(f);
    ParserFacts.NormaliseIdempotent(f);
  }

  lemma ParseRedSingleTag(s: string, tags: set<string>)
    requires s == "Press <red>ENTER</red>" && "red" in tags
    ensures Parsed(s, tags) == Ok([Text("Press "), Node([Text("ENTER")], "red")])
  {
    Names();
    SingleTagConcat("Press ", "red", "ENTER", "");
    ParseSingleTag("red", tags);
  }

  lemma ParseBoldSingleTag(s: string, tags: set<string>)
    requires s == "Press <bold>ENTER</bold>" && "bold" in tags
    ensures Parsed(s, tags) == Ok([Text("Press "), Node([Text("ENTER")], "bold")])
  {
    Names();
    BoldSingleTagConcat("Press ", "bold", "ENTER", "");
    ParseSingleTag("bold", tags);
  }

  lemma ScanBoldEnter(s: string, tags: set<string>)
    requires s == "<bold>ENTER</bold>" && "bold" in tags
    ensures Scan(s, tags) == Ok([Node([Text("ENTER")], "bold")])
  {
    assert "" + "<" + "bold" + ">" + "ENTER" + "</" + "bold" + ">" + "" == "<bold>ENTER</bold>";
    SimpleElement("", "bold", "ENTER", "", tags);
    ScanNoLt("", tags);
    assert [] + [Node([Text("ENTER")], "bold")] + [] == [Node([Text("ENTER")], "bold")];
  }

  lemma ScanRedEsc(tags: set<string>)
    requires "red" in tags
    ensures Scan("<red>ESC</red>", tags) == Ok([Node([Text("ESC")], "red")])
  {
    assert "" + "<" + "red" + ">" + "ESC" + "</" + "red" + ">" + "" == "<red>ESC</red>";
    SimpleElement("", "red", "ESC", "", tags);
    ScanNoLt("", tags);
    assert [] + [Node([Text("ESC")], "red")] + [] == [Node([Text("ESC")], "red")];
  }

  lemma ScanOrBoldRedEsc(s: string, tags: set<string>)
    requires s == " or <bold><red>ESC</red></bold>" && "red" in tags && "bold" in tags
    ensures Scan(s, tags) == Ok([Text(" or "), Node([Node([Text("ESC")], "red")], "bold")])
  {
    OrBoldConcat();
    Names();
    ParserFacts.NoCloseTagByFirstChar("<red>ESC</red>", "bold");
    ParserFacts.ListedTagNode(" or ", "bold", "<red>ESC</red>", "", tags);
    ScanRedEsc(tags);
    ScanNoLt("", tags);
    assert [Text(" or ")] + [Node([Node([Text("ESC")], "red")], "bold")] + [] == [Text(" or "), Node([Node([Text("ESC")], "red")], "bold")];
  }

  /** An element whose children and whose following text have known parses. */
  lemma ElementThen(text: string, n: string, inner: string, after: string, tags: set<string>, kids: seq<Item>, rest: seq<Item>)
    requires '<' !in text
    requires IsName(n)
    requires n in tags
    requires NoCloseTag(inner, n)
    requires '\n' !in inner
    requires Scan(inner, tags) == Ok(kids)
    requires Scan(after, tags) == Ok(rest)
    ensures Scan(text + "<" + n + ">" + inner + "</" + n + ">" + after, tags) == Ok(ParserFacts.TextBefore(text) + [Node(kids, n)] + rest)
  {
    ParserFacts.ListedTagNode(text, n, inner, after, tags);
  }

  lemma Four(a: Item, b: Item, c: Item, d: Item)
    ensures [a] + [b] + [c, d] == [a, b, c, d]
  {
  }

  lemma RepeatedNestedChars()
    ensures '<' !in "Press " && '\n' !in "<bold>ENTER</bold>"
  {
  }

  lemma ScanRepeatedNested(s: string, tags: set<string>)
    requires s == "Press <red><bold>ENTER</bold></red> or <bold><red>ESC</red></bold>"
    requires "red" in tags && "bold" in tags
    ensures Scan(s, tags) ==
      Ok([Text("Press "), Node([Node([Text("ENTER")], "bold")], "red"), Text(" or "), Node([Node([Text("ESC")], "red")], "bold")])
  {
    RepeatedNestedChars();
    RepeatedNestedConcat("Press ", "red", "<bold>ENTER</bold>", " or <bold><red>ESC</red></bold>");
    Names();
    ParserFacts.NoCloseTagByFirstChar("<bold>ENTER</bold>", "red");
    ScanBoldEnter("<bold>ENTER</bold>", tags);
    ScanOrBoldRedEsc(" or <bold><red>ESC</red></bold>", tags);
    ElementThen("Press ", "red", "<bold>ENTER</bold>", " or <bold><red>ESC</red></bold>", tags,
      [Node([Text("ENTER")], "bold")], [Text(" or "), Node([Node([Text("ESC")], "red")], "bold")]);
    Four(Text("Press "), Node([Node([Text("ENTER")], "bold")], "red"), Text(" or "), Node([Node([Text("ESC")], "red")], "bold"));
  }

  // Rendering: reconstruct_from_nodes in xmlish_spec.rb and Xmlish.parse in example_spec.rb

  function Dollar(s: string): string { "$" + s + "$" }
  function Stars(s: string): string { "**" + s + "**" }

  lemma LeafAsIs(s: string, cb: Reconstructor.Callbacks)
    requires Reconstructor.PlainText(cb)
    ensures Reconstructor.ReconstructItem(Text(s), cb) == s
  {
  }

  lemma NodeThrough(ch: seq<Item>, n: string, cb: Reconstructor.Callbacks, f: Reconstructor.Transform)
    requires n in cb && cb[n] == Some(f)
    ensures Reconstructor.ReconstructItem(Node(ch, n), cb) == f(Reconstructor.ReconstructAll(ch, cb))
  {
  }

  lemma NodeAsIs(ch: seq<Item>, n: string, cb: Reconstructor.Callbacks)
    requires n in cb && cb[n].None?
    ensures Reconstructor.ReconstructItem(Node(ch, n), cb) == Reconstructor.ReconstructAll(ch, cb)
  {
  }

  lemma ReconstructOne(a: Item, cb: Reconstructor.Callbacks)
    ensures Reconstructor.ReconstructAll([a], cb) == Reconstructor.ReconstructItem(a, cb)
  {
    assert [a][1..] == [];
  }

  lemma ReconstructTwo(a: Item, b: Item, cb: Reconstructor.Callbacks)
    ensures Reconstructor.ReconstructAll([a, b], cb) == Reconstructor.ReconstructItem(a, cb) + Reconstructor.ReconstructItem(b, cb)
  {
    assert [a, b][1..] == [b];
    ReconstructOne(b, cb);
  }

  lemma ReconstructFour(a: Item, b: Item, c: Item, d: Item, cb: Reconstructor.Callbacks)
    ensures Reconstructor.ReconstructAll([a, b, c, d], cb) ==
      Reconstructor.ReconstructItem(a, cb) + Reconstructor.ReconstructItem(b, cb) + Reconstructor.ReconstructItem(c, cb) + Reconstructor.ReconstructItem(d, cb)
  {
    assert [a, b, c, d] == [a, b] + [c, d];
    Reconstructor.ReconstructAppend([a, b], [c, d], cb);
    ReconstructTwo(a, b, cb);
    ReconstructTwo(c, d, cb);
  }

  lemma DollarStarsWords()
    ensures Dollar(Stars("ENTER")) == "$**ENTER**$" && Stars(Dollar("ESC")) == "**$ESC$**"
  {
  }

  lemma RenderFrom(s: string, cb: Reconstructor.Callbacks, items: seq<Item>)
    requires Scan(s, cb.Keys) == Ok(items) && Reconstructor.PlainText(cb)
    ensures Xmlish.Render(s, cb) == Ok(Reconstructor.ReconstructAll(items, cb))
  {
    Reconstructor.ReconstructNormalise(items, cb);
  }

  lemma ReconstructRepeatedNested(cb: Reconstructor.Callbacks)
    requires cb == map["red" := Some(Dollar), "bold" := Some(Stars)]
    ensures Reconstructor.ReconstructAll([Text("Press "), Node([Node([Text("ENTER")], "bold")], "red"), Text(" or "), Node([Node([Text("ESC")], "red")], "bold")], cb)
      == "Press $**ENTER**$ or **$ESC$**"
  {
    assert Reconstructor.PlainText(cb);
    ReconstructFour(Text("Press "), Node([Node([Text("ENTER")], "bold")], "red"), Text(" or "), Node([Node([Text("ESC")], "red")], "bold"), cb);
    LeafAsIs("Press ", cb);
    LeafAsIs(" or ", cb);
    NodeThrough([Node([Text("ENTER")], "bold")], "red", cb, Dollar);
    ReconstructOne(Node([Text("ENTER")], "bold"), cb);
    NodeThrough([Text("ENTER")], "bold", cb, Stars);
    ReconstructOne(Text("ENTER"), cb);
    LeafAsIs("ENTER", cb);
    NodeThrough([Node([Text("ESC")], "red")], "bold", cb, Stars);
    ReconstructOne(Node([Text("ESC")], "red"), cb);
    NodeThrough([Text("ESC")], "red", cb, Dollar);
    ReconstructOne(Text("ESC"), cb);
    LeafAsIs("ESC", cb);
    DollarStarsWords();
    PressOrConcat("Press ", "$**ENTER**$", " or ", "**$ESC$**");
  }

  /** example_spec.rb, "repeated nested tags". */
  lemma RenderRepeatedNested(s: string, cb: Reconstructor.Callbacks)
    requires s == "Press <red><bold>ENTER</bold></red> or <bold><red>ESC</red></bold>"
    requires cb == map["red" := Some(Dollar), "bold" := Some(Stars)]
    ensures Xmlish.Render(s, cb) == Ok("Press $**ENTER**$ or **$ESC$**")
  {
    var items := [Text("Press "), Node([Node([Text("ENTER")], "bold")], "red"), Text(" or "), Node([Node([Text("ESC")], "red")], "bold")];
    ReconstructRepeatedNested(cb);
    ScanRepeatedNested(s, cb.Keys);
    RenderFrom(s, cb, items);
  }

  // xmlish_spec.rb "repeated tag", and the template of the walk example in example_spec.rb

  lemma RepeatedTagChars()
    ensures '<' !in "Press " && '<' !in "ENTER" && '\n' !in "ENTER" && '<' !in " or " && '<' !in "ESC" && '\n' !in "ESC"
  {
  }

  lemma ScanOrRedEsc(tags: set<string>)
    requires "red" in tags
    ensures Scan(" or <red>ESC</red>", tags) == Ok([Text(" or "), Node([Text("ESC")], "red")])
  {
    RepeatedTagChars();
    Names();
    OrRedEscConcat(" or ", "red", "ESC", "");
    ScanNoLt("ESC", tags);
    ScanNoLt("", tags);
    ElementThen(" or ", "red", "ESC", "", tags, [Text("ESC")], []);
    Two2(Text(" or "), Node([Text("ESC")], "red"));
  }

  lemma Two2(a: Item, b: Item)
    ensures [a] + [b] + [] == [a, b]
  {
  }

  lemma ScanRepeatedTag(tags: set<string>)
    requires "red" in tags
    ensures Scan("Press <red>ENTER</red> or <red>ESC</red>", tags) ==
      Ok([Text("Press "), Node([Text("ENTER")], "red"), Text(" or "), Node([Text("ESC")], "red")])
  {
    RepeatedTagChars();
    Names();
    RepeatedTagConcat("Press ", "red", "ENTER", " or <red>ESC</red>");
    ScanNoLt("ENTER", tags);
    ScanOrRedEsc(tags);
    ElementThen("Press ", "red", "ENTER", " or <red>ESC</red>", tags, [Text("ENTER")], [Text(" or "), Node([Text("ESC")], "red")]);
    Four(Text("Press "), Node([Text("ENTER")], "red"), Text(" or "), Node([Text("ESC")], "red"));
  }

  lemma RepeatedTagNormal()
    ensures Normal([Text("Press "), Node([Text("ENTER")], "red"), Text(" or "), Node([Text("ESC")], "red")])
  {
    assert Normal([Text("ENTER")]) && NoAdjacentText([Text("ENTER")]);
    assert Normal([Text("ESC")]) && NoAdjacentText([Text("ESC")]);
  }

  lemma ParseRepeatedTag(tags: set<string>)
    requires "red" in tags
    ensures Parsed("Press <red>ENTER</red> or <red>ESC</red>", tags) ==
      Ok([Text("Press "), Node([Text("ENTER")], "red"), Text(" or "), Node([Text("ESC")], "red")])
  {
    ScanRepeatedTag(tags);
    RepeatedTagNormal();
    ParserFacts.NormaliseIdempotent([Text("Press "), Node([Text("ENTER")], "red"), Text(" or "), Node([Text("ESC")], "red")]);
  }

  // example_spec.rb, ".walk": callbacks that build their output in the application

  /** Ruby's `upcase` on ASCII letters. */
  function UpChar(c: char): char
  {
    if 'a' <= c <= 'z' then (c as int - 32) as char else c
  }

  function Upcase(s: string): (r: string)
    ensures |r| == |s| && forall i :: 0 <= i < |s| ==> r[i] == UpChar(s[i])
  {
    if s == "" then "" else [UpChar(s[0])] + Upcase(s[1..])
  }

  /** `red` records a line, runs its continuation and records another; `text` records the
      upcased text of its leaf. Their return values are not looked at. */
  function BuildingCallbacks(): Walker.Callbacks
  {
    map["red" := Some(Walker.Script([Walker.Emit("{red-on}"), Walker.Force, Walker.Emit("{red-off}")], Walker.First)),
        "text" := Some(Walker.Script([Walker.EmitForced(Upcase)], Walker.First))]
  }

  lemma UpcaseWords()
    ensures Upcase("Press ") == "PRESS " && Upcase(" or ") == " OR "
  {
  }

  lemma UpcaseKeys()
    ensures Upcase("ENTER") == "ENTER" && Upcase("ESC") == "ESC"
  {
  }

  lemma WalkOne(a: Item, cb: Walker.Callbacks)
    ensures Walker.WalkAll([a], cb).trace == Walker.WalkItem(a, cb).trace
  {
    assert [a][1..] == [];
    assert Walker.WalkItem(a, cb).trace + [] == Walker.WalkItem(a, cb).trace;
  }

  lemma WalkFour(a: Item, b: Item, c: Item, d: Item, cb: Walker.Callbacks)
    ensures Walker.WalkAll([a, b, c, d], cb).trace ==
      Walker.WalkItem(a, cb).trace + Walker.WalkItem(b, cb).trace + Walker.WalkItem(c, cb).trace + Walker.WalkItem(d, cb).trace
  {
    assert [a, b, c, d] == [a, b] + [c, d];
    Walker.WalkAppend([a, b], [c, d], cb);
    Walker.WalkAppend([a], [b], cb);
    Walker.WalkAppend([c], [d], cb);
    assert [a, b] == [a] + [b] && [c, d] == [c] + [d];
    WalkOne(a, cb);
    WalkOne(b, cb);
    WalkOne(c, cb);
    WalkOne(d, cb);
  }

  /** A text leaf under a callback that records f of the forced text. */
  lemma ForcedLeaf(s: string, cb: Walker.Callbacks, f: string -> string, result: seq<string> -> string)
    requires "text" in cb && cb["text"] == Some(Walker.Script([Walker.EmitForced(f)], result))
    ensures Walker.WalkItem(Text(s), cb).trace == [f(s)]
  {
    Walker.RunSingle(Walker.EmitForced(f), Walker.Leaf(s), cb);
    assert [] + [f(s)] == [f(s)];
  }

  lemma Eight(a: string, b: string, c: string, d: string, e: string, f: string, g: string, h: string)
    ensures [a] + ([b] + [c] + [d]) + [e] + ([f] + [g] + [h]) == [a, b, c, d, e, f, g, h]
  {
  }

  lemma WalkRepeatedTag(cb: Walker.Callbacks)
    requires cb == BuildingCallbacks()
    ensures Walker.WalkAll([Text("Press "), Node([Text("ENTER")], "red"), Text(" or "), Node([Text("ESC")], "red")], cb).trace ==
      ["PRESS ", "{red-on}", "ENTER", "{red-off}", " OR ", "{red-on}", "ESC", "{red-off}"]
  {
    var red := Walker.Script([Walker.Emit("{red-on}"), Walker.Force, Walker.Emit("{red-off}")], Walker.First);
    assert "red" in cb && cb["red"] == Some(red);
    assert "text" in cb && cb["text"] == Some(Walker.Script([Walker.EmitForced(Upcase)], Walker.First));
    WalkFour(Text("Press "), Node([Text("ENTER")], "red"), Text(" or "), Node([Text("ESC")], "red"), cb);
    ForcedLeaf("Press ", cb, Upcase, Walker.First);
    ForcedLeaf(" or ", cb, Upcase, Walker.First);
    ForcedLeaf("ENTER", cb, Upcase, Walker.First);
    ForcedLeaf("ESC", cb, Upcase, Walker.First);
    WalkOne(Text("ENTER"), cb);
    WalkOne(Text("ESC"), cb);
    Walker.BracketedSubtree([Text("ENTER")], "red", "{red-on}", "{red-off}", Walker.First, cb);
    Walker.BracketedSubtree([Text("ESC")], "red", "{red-on}", "{red-off}", Walker.First, cb);
    UpcaseWords();
    UpcaseKeys();
    Eight("PRESS ", "{red-on}", "ENTER", "{red-off}", " OR ", "{red-on}", "ESC", "{red-off}");
  }

  lemma WalkBuildsOutput(str: string, cb: Walker.Callbacks)
    requires str == "Press <red>ENTER</red> or <red>ESC</red>" && cb == BuildingCallbacks()
    ensures Xmlish.Traverse(str, cb).Ok?
    ensures Xmlish.Traverse(str, cb).value.trace ==
      ["PRESS ", "{red-on}", "ENTER", "{red-off}", " OR ", "{red-on}", "ESC", "{red-off}"]
  {
    assert "red" in cb.Keys;
    ParseRepeatedTag(cb.Keys);
    WalkRepeatedTag(cb);
  }

  // xmlish_spec.rb, "#reconstruct_from_nodes"

  /** With null callbacks the tags vanish and only the text remains. */
  lemma ReconstructNullNested()
    ensures Reconstructor.ReconstructAll([Text("Press "), Node([Node([Text("ENTER")], "bold")], "red")],
                                         map["red" := None, "bold" := None]) == "Press ENTER"
  {
    var cb: Reconstructor.Callbacks := map["red" := None, "bold" := None];
    var items := [Text("Press "), Node([Node([Text("ENTER")], "bold")], "red")];
    Reconstructor.ReconstructIdentity(items, cb);
    NestedContent();
  }

  lemma NestedContent()
    ensures Content([Text("Press "), Node([Node([Text("ENTER")], "bold")], "red")]) == "Press ENTER"
  {
    assert Content([Text("ENTER")]) == "ENTER";
    assert Content([Node([Text("ENTER")], "bold")]) == "ENTER";
    assert Content([Text("Press "), Node([Node([Text("ENTER")], "bold")], "red")]) == "Press " + "ENTER";
  }

  lemma DollarStarsAgain()
    ensures Dollar(Stars("ESC")) == "$**ESC**$"
  {
  }

  lemma ReconstructModifyingRepeatedNested(cb: Reconstructor.Callbacks)
    requires cb == map["red" := Some(Dollar), "bold" := Some(Stars)]
    ensures Reconstructor.ReconstructAll([Text("Press "), Node([Node([Text("ENTER")], "bold")], "red"), Text(" or "), Node([Node([Text("ESC")], "bold")], "red")], cb)
      == "Press $**ENTER**$ or $**ESC**$"
  {
    assert Reconstructor.PlainText(cb);
    ReconstructFour(Text("Press "), Node([Node([Text("ENTER")], "bold")], "red"), Text(" or "), Node([Node([Text("ESC")], "bold")], "red"), cb);
    LeafAsIs("Press ", cb);
    LeafAsIs(" or ", cb);
    NodeThrough([Node([Text("ENTER")], "bold")], "red", cb, Dollar);
    ReconstructOne(Node([Text("ENTER")], "bold"), cb);
    NodeThrough([Text("ENTER")], "bold", cb, Stars);
    ReconstructOne(Text("ENTER"), cb);
    LeafAsIs("ENTER", cb);
    NodeThrough([Node([Text("ESC")], "bold")], "red", cb, Dollar);
    ReconstructOne(Node([Text("ESC")], "bold"), cb);
    NodeThrough([Text("ESC")], "bold", cb, Stars);
    ReconstructOne(Text("ESC"), cb);
    LeafAsIs("ESC", cb);
    DollarStarsWords();
    DollarStarsAgain();
    PressOrConcatRed("Press ", "$**ENTER**$", " or ", "$**ESC**$");
  }

  // example_spec.rb, "plain text callbacks"

  function Shout(s: string): string { "(" + Upcase(s) + ")" }

  lemma TextThrough(s: string, cb: Reconstructor.Callbacks, f: Reconstructor.Transform)
    requires "text" in cb && cb["text"] == Some(f)
    ensures Reconstructor.ReconstructItem(Text(s), cb) == f(s)
  {
  }

  lemma ShoutWords()
    ensures Shout("Press ") == "(PRESS )" && Shout(" or ") == "( OR )"
  {
    UpcaseWords();
  }

  lemma ShoutKeys()
    ensures Dollar(Shout("ENTER")) == "$(ENTER)$" && Dollar(Shout("ESC")) == "$(ESC)$"
  {
    UpcaseKeys();
  }

  lemma ReconstructShouting(cb: Reconstructor.Callbacks)
    requires cb == map["red" := Some(Dollar), "text" := Some(Shout)]
    ensures Reconstructor.ReconstructAll([Text("Press "), Node([Text("ENTER")], "red"), Text(" or "), Node([Text("ESC")], "red")], cb)
      == "(PRESS )$(ENTER)$( OR )$(ESC)$"
  {
    ReconstructFour(Text("Press "), Node([Text("ENTER")], "red"), Text(" or "), Node([Text("ESC")], "red"), cb);
    TextThrough("Press ", cb, Shout);
    TextThrough(" or ", cb, Shout);
    NodeThrough([Text("ENTER")], "red", cb, Dollar);
    ReconstructOne(Text("ENTER"), cb);
    TextThrough("ENTER", cb, Shout);
    NodeThrough([Text("ESC")], "red", cb, Dollar);
    ReconstructOne(Text("ESC"), cb);
    TextThrough("ESC", cb, Shout);
    ShoutWords();
    ShoutKeys();
    ShoutConcat("(PRESS )", "$(ENTER)$", "( OR )", "$(ESC)$");
  }

  lemma RenderPlainTextCallbacks(str: string, cb: Reconstructor.Callbacks)
    requires str == "Press <red>ENTER</red> or <red>ESC</red>"
    requires cb == map["red" := Some(Dollar), "text" := Some(Shout)]
    ensures Xmlish.Render(str, cb) == Ok("(PRESS )$(ENTER)$( OR )$(ESC)$")
  {
    assert "red" in cb.Keys;
    ParseRepeatedTag(cb.Keys);
    ReconstructShouting(cb);
  }

  // xmlish_spec.rb "non-listed tags pass through like normal text", and the same template
  // rendered in example_spec.rb "should leave tags without callback intact"

  /** A string in which every `<` is followed by `/` has no opening tag. */
  lemma NoOpenTagBySlash(s: string)
    requires forall i :: 0 <= i < |s| - 1 && s[i] == '<' ==> s[i + 1] == '/'
    ensures NoOpenTag(s)
  {
    forall j: nat, n ensures !OpensAt(s, j, n) {
      if j + 1 < |s| && s[j] == '<' && |n| > 0 && j + 1 + |n| <= |s| {
        assert s[j + 1 .. j + 1 + |n|][0] == s[j + 1];
      }
    }
  }

  lemma UnlistedThen(text: string, n: string, rest: string, tags: set<string>, items: seq<Item>)
    requires '<' !in text && IsName(n) && n !in tags
    requires rest != "" && Scan(rest, tags) == Ok(items)
    ensures Scan(text + "<" + n + ">" + rest, tags) == Ok([Text(text + "<" + n + ">")] + items)
  {
    ParserFacts.UnlistedTagCopied(text, n, rest, tags);
  }

  lemma PassThroughText()
    ensures NoOpenTag("ENTER</bold>") && NoOpenTag("</bold>")
  {
    NoOpenTagBySlash("ENTER</bold>");
    NoOpenTagBySlash("</bold>");
  }

  lemma ScanUnlistedBold(tags: set<string>)
    requires "bold" !in tags
    ensures Scan("<bold>ENTER</bold>", tags) == Ok([Text("<bold>"), Text("ENTER</bold>")])
  {
    Names();
    PassThroughText();
    ParserFacts.ScanPlainText("ENTER</bold>", tags);
    BoldOpenConcat("", "bold", "ENTER</bold>");
    UnlistedThen("", "bold", "ENTER</bold>", tags, [Text("ENTER</bold>")]);
    Pair(Text("<bold>"), Text("ENTER</bold>"));
  }

  lemma Pair(a: Item, b: Item)
    ensures [a] + [b] == [a, b]
  {
  }

  lemma ScanRedEscThenClose(tags: set<string>)
    requires "red" in tags
    ensures Scan("<red>ESC</red></bold>", tags) == Ok([Node([Text("ESC")], "red"), Text("</bold>")])
  {
    Names();
    RepeatedTagChars();
    PassThroughText();
    ParserFacts.ScanPlainText("</bold>", tags);
    ScanNoLt("ESC", tags);
    RedEscBoldConcat("", "red", "ESC", "</bold>");
    ElementThen("", "red", "ESC", "</bold>", tags, [Text("ESC")], [Text("</bold>")]);
    assert ParserFacts.TextBefore("") == [];
    Pair(Node([Text("ESC")], "red"), Text("</bold>"));
    assert [] + [Node([Text("ESC")], "red")] == [Node([Text("ESC")], "red")];
  }

  lemma ScanOrUnlistedBold(tags: set<string>)
    requires "red" in tags && "bold" !in tags
    ensures Scan(" or <bold><red>ESC</red></bold>", tags) == Ok([Text(" or <bold>"), Node([Text("ESC")], "red"), Text("</bold>")])
  {
    Names();
    RepeatedTagChars();
    ScanRedEscThenClose(tags);
    OrBoldOpenConcat(" or ", "bold", "<red>ESC</red></bold>");
    UnlistedThen(" or ", "bold", "<red>ESC</red></bold>", tags, [Node([Text("ESC")], "red"), Text("</bold>")]);
    Three(Text(" or <bold>"), Node([Text("ESC")], "red"), Text("</bold>"));
  }

  lemma Three(a: Item, b: Item, c: Item)
    ensures [a] + [b, c] == [a, b, c]
  {
  }

  lemma Five(a: Item, b: Item, c: Item, d: Item, e: Item)
    ensures [a] + [b] + [c, d, e] == [a, b, c, d, e]
  {
  }

  lemma ScanPassThrough(s: string, tags: set<string>)
    requires s == "Press <red><bold>ENTER</bold></red> or <bold><red>ESC</red></bold>"
    requires "red" in tags && "bold" !in tags
    ensures Scan(s, tags) ==
      Ok([Text("Press "), Node([Text("<bold>"), Text("ENTER</bold>")], "red"), Text(" or <bold>"), Node([Text("ESC")], "red"), Text("</bold>")])
  {
    RepeatedNestedChars();
    RepeatedNestedConcat("Press ", "red", "<bold>ENTER</bold>", " or <bold><red>ESC</red></bold>");
    Names();
    ParserFacts.NoCloseTagByFirstChar("<bold>ENTER</bold>", "red");
    ScanUnlistedBold(tags);
    ScanOrUnlistedBold(tags);
    ElementThen("Press ", "red", "<bold>ENTER</bold>", " or <bold><red>ESC</red></bold>", tags,
      [Text("<bold>"), Text("ENTER</bold>")], [Text(" or <bold>"), Node([Text("ESC")], "red"), Text("</bold>")]);
    Five(Text("Press "), Node([Text("<bold>"), Text("ENTER</bold>")], "red"), Text(" or <bold>"), Node([Text("ESC")], "red"), Text("</bold>"));
  }

  lemma JoinTwoTexts(a: string, b: string)
    ensures JoinAdjacent([Text(a), Text(b)]) == [Text(a + b)]
  {
    assert [Text(a), Text(b)][..1] == [Text(a)];
    assert [Text(a)][..0] == [];
    assert JoinAdjacent([Text(a)]) == [Text(a)];
  }

  lemma JoinOneText(a: string)
    ensures JoinAdjacent([Text(a)]) == [Text(a)]
  {
    assert [Text(a)][..0] == [];
  }

  lemma NormaliseTextNode(a: string, n: string)
    ensures NormaliseItem(Node([Text(a)], n)) == Node([Text(a)], n)
  {
    JoinOneText(a);
    assert [Text(a)][1..] == [];
    assert NormaliseAll([Text(a)]) == [Text(a)] + [];
    assert [Text(a)] + [] == [Text(a)];
  }

  lemma NormaliseFive(a: Item, b: Item, c: Item, d: Item, e: Item, a': Item, b': Item, c': Item, d': Item, e': Item)
    requires NormaliseItem(a) == a' && NormaliseItem(b) == b' && NormaliseItem(c) == c'
    requires NormaliseItem(d) == d' && NormaliseItem(e) == e'
    ensures NormaliseAll([a, b, c, d, e]) == [a', b', c', d', e']
  {
    var items := [a, b, c, d, e];
    forall i | 0 <= i < 5 ensures NormaliseAll(items)[i] == [a', b', c', d', e'][i] {
      NormaliseAllAt(items, i);
    }
  }

  lemma ParsePassThrough(tags: set<string>)
    requires "red" in tags && "bold" !in tags
    ensures Parsed("Press <red><bold>ENTER</bold></red> or <bold><red>ESC</red></bold>", tags) ==
      Ok([Text("Press "), Node([Text("<bold>ENTER</bold>")], "red"), Text(" or <bold>"), Node([Text("ESC")], "red"), Text("</bold>")])
  {
    ScanPassThrough("Press <red><bold>ENTER</bold></red> or <bold><red>ESC</red></bold>", tags);
    BoldEnterJoined("<bold>", "ENTER</bold>");
    JoinTwoTexts("<bold>", "ENTER</bold>");
    NormaliseTextNode("<bold>ENTER</bold>", "red");
    NormaliseTextNode("ESC", "red");
    NormaliseFive(Text("Press "), Node([Text("<bold>"), Text("ENTER</bold>")], "red"), Text(" or <bold>"), Node([Text("ESC")], "red"), Text("</bold>"),
                  Text("Press "), Node([Text("<bold>ENTER</bold>")], "red"), Text(" or <bold>"), Node([Text("ESC")], "red"), Text("</bold>"));
  }

  lemma ReconstructFive(a: Item, b: Item, c: Item, d: Item, e: Item, cb: Reconstructor.Callbacks)
    ensures Reconstructor.ReconstructAll([a, b, c, d, e], cb) ==
      Reconstructor.ReconstructItem(a, cb) + Reconstructor.ReconstructItem(b, cb) + Reconstructor.ReconstructItem(c, cb) +
      Reconstructor.ReconstructItem(d, cb) + Reconstructor.ReconstructItem(e, cb)
  {
    assert [a, b, c, d, e] == [a, b, c, d] + [e];
    Reconstructor.ReconstructAppend([a, b, c, d], [e], cb);
    ReconstructFour(a, b, c, d, cb);
    ReconstructOne(e, cb);
  }

  lemma DollarWords()
    ensures Dollar("<bold>ENTER</bold>") == "$<bold>ENTER</bold>$" && Dollar("ESC") == "$ESC$"
  {
  }

  lemma ReconstructLeaveIntact(cb: Reconstructor.Callbacks)
    requires cb == map["red" := Some(Dollar)]
    ensures Reconstructor.ReconstructAll([Text("Press "), Node([Text("<bold>"), Text("ENTER</bold>")], "red"), Text(" or <bold>"), Node([Text("ESC")], "red"), Text("</bold>")], cb)
      == "Press $<bold>ENTER</bold>$ or <bold>$ESC$</bold>"
  {
    assert Reconstructor.PlainText(cb);
    ReconstructFive(Text("Press "), Node([Text("<bold>"), Text("ENTER</bold>")], "red"), Text(" or <bold>"), Node([Text("ESC")], "red"), Text("</bold>"), cb);
    LeafAsIs("Press ", cb);
    LeafAsIs(" or <bold>", cb);
    LeafAsIs("</bold>", cb);
    NodeThrough([Text("<bold>"), Text("ENTER</bold>")], "red", cb, Dollar);
    ReconstructTwo(Text("<bold>"), Text("ENTER</bold>"), cb);
    LeafAsIs("<bold>", cb);
    LeafAsIs("ENTER</bold>", cb);
    BoldEnterJoined("<bold>", "ENTER</bold>");
    NodeThrough([Text("ESC")], "red", cb, Dollar);
    ReconstructOne(Text("ESC"), cb);
    LeafAsIs("ESC", cb);
    DollarWords();
    LeaveIntactConcat("Press ", "$<bold>ENTER</bold>$", " or <bold>", "$ESC$", "</bold>");
  }

  lemma DollarKeys(cb: Reconstructor.Callbacks)
    requires cb == map["red" := Some(Dollar)]
    ensures "red" in cb.Keys && "bold" !in cb.Keys && Reconstructor.PlainText(cb)
  {
  }

  lemma RenderLeaveIntact(str: string, cb: Reconstructor.Callbacks)
    requires str == "Press <red><bold>ENTER</bold></red> or <bold><red>ESC</red></bold>"
    requires cb == map["red" := Some(Dollar)]
    ensures Xmlish.Render(str, cb) == Ok("Press $<bold>ENTER</bold>$ or <bold>$ESC$</bold>")
  {
    DollarKeys(cb);
    ScanPassThrough(str, cb.Keys);
    ReconstructLeaveIntact(cb);
    RenderFrom(str, cb,
      [Text("Press "), Node([Text("<bold>"), Text("ENTER</bold>")], "red"), Text(" or <bold>"), Node([Text("ESC")], "red"), Text("</bold>")]);
  }

  // example_spec.rb, "should tolerate bad syntax in tags without callbacks"

  lemma BadSyntaxChars()
    ensures NoOpenTag("ENTER</bold>") && NoOpenTag("</penguins></>")
    ensures '\n' !in "ENTER</bold>" && NoCloseTag("ENTER</bold>", "red")
  {
    NoOpenTagBySlash("ENTER</bold>");
    NoOpenTagBySlash("</penguins></>");
    Names();
    ParserFacts.NoCloseTagByFirstChar("ENTER</bold>", "red");
  }

  lemma ScanRedEscPenguins(tags: set<string>)
    requires "red" in tags
    ensures Scan("<red>ESC</red></penguins></>", tags) == Ok([Node([Text("ESC")], "red"), Text("</penguins></>")])
  {
    Names();
    RepeatedTagChars();
    BadSyntaxChars();
    ParserFacts.ScanPlainText("</penguins></>", tags);
    ScanNoLt("ESC", tags);
    RedEscPenguinsConcat("", "red", "ESC", "</penguins></>");
    ElementThen("", "red", "ESC", "</penguins></>", tags, [Text("ESC")], [Text("</penguins></>")]);
    assert ParserFacts.TextBefore("") == [];
    Pair(Node([Text("ESC")], "red"), Text("</penguins></>"));
    assert [] + [Node([Text("ESC")], "red")] == [Node([Text("ESC")], "red")];
  }

  lemma ScanOrBoldPenguins(tags: set<string>)
    requires "red" in tags && "bold" !in tags
    ensures Scan(" or <bold><red>ESC</red></penguins></>", tags) == Ok([Text(" or <bold>"), Node([Text("ESC")], "red"), Text("</penguins></>")])
  {
    Names();
    RepeatedTagChars();
    ScanRedEscPenguins(tags);
    OrBoldPenguinsConcat(" or ", "bold", "<red>ESC</red></penguins></>");
    UnlistedThen(" or ", "bold", "<red>ESC</red></penguins></>", tags, [Node([Text("ESC")], "red"), Text("</penguins></>")]);
    Three(Text(" or <bold>"), Node([Text("ESC")], "red"), Text("</penguins></>"));
  }

  lemma ScanBadSyntax(s: string, tags: set<string>)
    requires s == "Press <red>ENTER</bold></red> or <bold><red>ESC</red></penguins></>"
    requires "red" in tags && "bold" !in tags
    ensures Scan(s, tags) ==
      Ok([Text("Press "), Node([Text("ENTER</bold>")], "red"), Text(" or <bold>"), Node([Text("ESC")], "red"), Text("</penguins></>")])
  {
    RepeatedTagChars();
    BadSyntaxChars();
    BadSyntaxConcat("Press ", "red", "ENTER</bold>", " or <bold><red>ESC</red></penguins></>");
    Names();
    ParserFacts.ScanPlainText("ENTER</bold>", tags);
    ScanOrBoldPenguins(tags);
    ElementThen("Press ", "red", "ENTER</bold>", " or <bold><red>ESC</red></penguins></>", tags,
      [Text("ENTER</bold>")], [Text(" or <bold>"), Node([Text("ESC")], "red"), Text("</penguins></>")]);
    Five(Text("Press "), Node([Text("ENTER</bold>")], "red"), Text(" or <bold>"), Node([Text("ESC")], "red"), Text("</penguins></>"));
  }

  lemma BadSyntaxDollars()
    ensures Dollar("ENTER</bold>") == "$ENTER</bold>$"
  {
  }

  lemma ReconstructBadSyntax(cb: Reconstructor.Callbacks)
    requires cb == map["red" := Some(Dollar)]
    ensures Reconstructor.ReconstructAll([Text("Press "), Node([Text("ENTER</bold>")], "red"), Text(" or <bold>"), Node([Text("ESC")], "red"), Text("</penguins></>")], cb)
      == "Press $ENTER</bold>$ or <bold>$ESC$</penguins></>"
  {
    assert Reconstructor.PlainText(cb);
    ReconstructFive(Text("Press "), Node([Text("ENTER</bold>")], "red"), Text(" or <bold>"), Node([Text("ESC")], "red"), Text("</penguins></>"), cb);
    LeafAsIs("Press ", cb);
    LeafAsIs(" or <bold>", cb);
    LeafAsIs("</penguins></>", cb);
    NodeThrough([Text("ENTER</bold>")], "red", cb, Dollar);
    ReconstructOne(Text("ENTER</bold>"), cb);
    LeafAsIs("ENTER</bold>", cb);
    NodeThrough([Text("ESC")], "red", cb, Dollar);
    ReconstructOne(Text("ESC"), cb);
    LeafAsIs("ESC", cb);
    DollarWords();
    BadSyntaxDollars();
    BadSyntaxOutputConcat("Press ", "$ENTER</bold>$", " or <bold>", "$ESC$", "</penguins></>");
  }

  lemma RenderBadSyntax(str: string, cb: Reconstructor.Callbacks)
    requires str == "Press <red>ENTER</bold></red> or <bold><red>ESC</red></penguins></>"
    requires cb == map["red" := Some(Dollar)]
    ensures Xmlish.Render(str, cb) == Ok("Press $ENTER</bold>$ or <bold>$ESC$</penguins></>")
  {
    DollarKeys(cb);
    ScanBadSyntax(str, cb.Keys);
    ReconstructBadSyntax(cb);
    RenderFrom(str, cb,
      [Text("Press "), Node([Text("ENTER</bold>")], "red"), Text(" or <bold>"), Node([Text("ESC")], "red"), Text("</penguins></>")]);
  }

  // Where the round trip of lib/xmlish.rb fails

  /** The smallest case of a newline inside an element: `<red>a\nb</red>` with red listed
      is read as a red node holding `b`, followed by the text `d>`. */
  lemma NewlineExampleScan(s: string, tags: set<string>)
    requires s == "<red>a\nb</red>" && "red" in tags
    ensures Scan(s, tags) == Ok([Node([Text("b")], "red"), Text("d>")])
  {
    var node, tail := Node([Text("b")], "red"), "d>";
    assert Scan(s, tags) == Prepend([node], Scan(tail, tags)) by {
      Names();
      NewlineConcat(RoundTrip.OpenTag("red"), "a", "\n", "b", RoundTrip.CloseTag("red"));
      RoundTrip.NewlineInElement("red", "a", "b", tags);
    }
    ScanNoLt(tail, tags);
    assert [node] + [Text(tail)] == [node, Text(tail)];
  }

  /** Rendered without transforms, `<red>a\nb</red>` gives `bd>`, not its text `a\nb`. */
  lemma NewlineExample(s: string, cb: Reconstructor.Callbacks)
    requires s == "<red>a\nb</red>" && "red" in cb && Reconstructor.AllIdentity(cb)
    ensures Xmlish.Render(s, cb) == Ok("bd>")
  {
    NewlineExampleScan(s, cb.Keys);
    var f := [Node([Text("b")], "red"), Text("d>")];
    assert Normal(f);
    ParserFacts.NormaliseIdempotent(f);
    Reconstructor.ReconstructIdentity(f, cb);
    assert Content(f) == "bd>";
  }
}

