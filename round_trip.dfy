/** Writing a forest out as a template and reading it back. A forest whose nodes are named
    by keys and whose leaves hold no markup comes back unchanged from the parser, so under
    callbacks without transforms `Xmlish.parse` gives back its text content. Two conditions
    come from the code (lib/xmlish.rb:76-80): the closing-tag pattern does not cross a
    newline, and it stops at the first closing tag of the name. Without them the round trip
    fails, as the last lemmas show. */
module RoundTrip {
  import opened Nodes
  import opened Scanner
  import opened Parser
  import ParserFacts
  import Reconstructor
  import Walker
  import Xmlish

  function OpenTag(n: string): string
  {
    "<" + n + ">"
  }

  function CloseTag(n: string): string
  {
    "</" + n + ">"
  }

  /** The template a forest is written as: a leaf as its text, a node as its content
      between its opening and its closing tag. */
  function Unparse(items: seq<Item>): string
    decreases items, 1
  {
    if items == [] then "" else UnparseItem(items[0]) + Unparse(items[1..])
  }

  function UnparseItem(it: Item): string
    decreases it, 0
  {
    match it
    case Text(s) => s
    case Node(ch, n) => OpenTag(n) + Unparse(ch) + CloseTag(n)
  }

  /** The forests whose template the parser reads back, with `tags` the listed names: every
      node is named by a listed name and holds no node of the same name; every leaf is
      non-empty and has no `<`; no two leaves are neighbours; and inside a node (`nested`)
      no leaf has a newline. */
  predicate Template(items: seq<Item>, tags: set<string>, nested: bool)
    decreases items
  {
    && NoAdjacentText(items)
    && forall i :: 0 <= i < |items| ==>
      && (items[i].Text? ==> items[i].s != "" && '<' !in items[i].s && (nested ==> '\n' !in items[i].s))
      && (items[i].Node? ==>
            && IsName(items[i].name) && items[i].name in tags
            && NamesIn(items[i].children, tags - {items[i].name})
            && Template(items[i].children, tags, true))
  }

  /** Every `<` of s is followed, later in s, by a `>`. */
  ghost predicate Closed(s: string)
  {
    forall j :: 0 <= j < |s| && s[j] == '<' ==> exists k :: j < k < |s| && s[k] == '>'
  }

  lemma TemplateTail(items: seq<Item>, tags: set<string>, nested: bool)
    requires items != [] && Template(items, tags, nested)
    ensures Template(items[1..], tags, nested)
  {
    var t := items[1..];
    assert forall i :: 0 <= i < |t| ==> t[i] == items[i + 1];
  }

  lemma NameChars(n: string)
    requires IsName(n)
    ensures '<' !in n && '>' !in n && '\n' !in n && '/' !in n
  {
    assert forall i :: 0 <= i < |n| ==> IsNameChar(n[i]);
  }

  // ---------------------------------------------------------------------------------------
  // Where closing tags can occur in a template

  lemma ClosedAppend(a: string, b: string)
    requires Closed(a) && Closed(b)
    ensures Closed(a + b)
  {
    var s := a + b;
    forall j | 0 <= j < |s| && s[j] == '<' ensures exists k :: j < k < |s| && s[k] == '>' {
      if j < |a| {
        assert a[j] == '<';
        var k :| j < k < |a| && a[k] == '>';
        assert s[k] == '>';
      } else {
        assert b[j - |a|] == '<';
        var k :| j - |a| < k < |b| && b[k] == '>';
        assert s[|a| + k] == '>';
      }
    }
  }

  lemma TagsClosed(n: string)
    requires IsName(n)
    ensures Closed(OpenTag(n)) && Closed(CloseTag(n))
  {
    NameChars(n);
    var o, c := OpenTag(n), CloseTag(n);
    assert o[|o| - 1] == '>' && c[|c| - 1] == '>';
    forall j | 0 < j < |o| ensures o[j] != '<' {
      if j <= |n| {
        assert o[j] == n[j - 1];
      }
    }
    forall j | 0 < j < |c| ensures c[j] != '<' {
      if 2 <= j < 2 + |n| {
        assert c[j] == n[j - 2];
      }
    }
  }

  lemma ClosesShift(a: string, b: string, j: nat, n: string)
    ensures ClosesAt(a + b, |a| + j, n) <==> ClosesAt(b, j, n)
  {
    var s := a + b;
    if |a| + j + |n| + 3 <= |s| {
      assert s[|a| + j + 2 .. |a| + j + 2 + |n|] == b[j + 2 .. j + 2 + |n|];
    }
  }

  lemma ClosesWithin(a: string, b: string, j: nat, n: string)
    requires j + |n| + 3 <= |a|
    ensures ClosesAt(a + b, j, n) <==> ClosesAt(a, j, n)
  {
    var s := a + b;
    assert s[j + 2 .. j + 2 + |n|] == a[j + 2 .. j + 2 + |n|];
  }

  /** No closing tag starts in a and ends in b when every `<` of a is closed within a. */
  lemma ClosesSpan(a: string, b: string, j: nat, n: string)
    requires Closed(a) && IsName(n) && j < |a| < j + |n| + 3
    ensures !ClosesAt(a + b, j, n)
  {
    var s := a + b;
    if a[j] == '<' && j + |n| + 3 <= |s| {
      var k :| j < k < |a| && a[k] == '>';
      assert s[k] == '>';
      if k == j + 1 {
        assert s[j + 1] != '/';
      } else {
        NameChars(n);
        assert s[j + 2 .. j + 2 + |n|][k - j - 2] == '>';
        assert s[j + 2 .. j + 2 + |n|] != n;
      }
    }
  }

  lemma NoCloseAppend(a: string, b: string, n: string)
    requires Closed(a) && IsName(n) && NoCloseTag(a, n) && NoCloseTag(b, n)
    ensures NoCloseTag(a + b, n)
  {
    forall j: nat ensures !ClosesAt(a + b, j, n) {
      if j >= |a| {
        ClosesShift(a, b, j - |a|, n);
      } else if j + |n| + 3 <= |a| {
        ClosesWithin(a, b, j, n);
      } else {
        ClosesSpan(a, b, j, n);
      }
    }
  }

  /** An opening tag holds no closing tag: its `<` is followed by a name character. */
  lemma OpenNoClose(m: string, n: string)
    requires IsName(m)
    ensures NoCloseTag(OpenTag(m), n)
  {
    NameChars(m);
    var o := OpenTag(m);
    forall j: nat ensures !ClosesAt(o, j, n) {
      if j == 0 {
        assert o[1] == m[0];
      } else if j < |o| {
        assert o[j] != '<' by {
          if j <= |m| {
            assert o[j] == m[j - 1];
          }
        }
      }
    }
  }

  lemma TagsNoClose(m: string, n: string)
    requires IsName(m) && IsName(n) && m != n
    ensures NoCloseTag(OpenTag(m), n) && NoCloseTag(CloseTag(m), n)
  {
    NameChars(m);
    OpenNoClose(m, n);
    var c := CloseTag(m);
    forall j: nat ensures !ClosesAt(c, j, n) {
      if j == 0 {
        if |n| < |m| {
          assert c[2 + |n|] == m[|n|];
        } else if |n| == |m| {
          assert c[2 .. 2 + |n|] == m;
        }
      } else if j < |c| {
        assert c[j] != '<' by {
          if 2 <= j < 2 + |m| {
            assert c[j] == m[j - 2];
          }
        }
      }
    }
  }

  lemma LeafNoClose(s: string, n: string)
    requires '<' !in s
    ensures NoCloseTag(s, n) && Closed(s)
  {
  }

  /** The template of a forest closes every `<` it opens. */
  lemma {:induction false} UnparseClosed(items: seq<Item>, tags: set<string>, nested: bool)
    requires Template(items, tags, nested)
    ensures Closed(Unparse(items))
    decreases items
  {
    if items != [] {
      TemplateTail(items, tags, nested);
      UnparseClosed(items[1..], tags, nested);
      ItemClosed(items[0], tags, nested, items);
      ClosedAppend(UnparseItem(items[0]), Unparse(items[1..]));
    }
  }

  lemma {:induction false} ItemClosed(it: Item, tags: set<string>, nested: bool, items: seq<Item>)
    requires Template(items, tags, nested) && it in items
    ensures Closed(UnparseItem(it))
    decreases it
  {
    var i :| 0 <= i < |items| && items[i] == it;
    match it
    case Text(s) =>
      LeafNoClose(s, "");
    case Node(ch, m) =>
      UnparseClosed(ch, tags, true);
      TagsClosed(m);
      ClosedAppend(OpenTag(m), Unparse(ch));
      ClosedAppend(OpenTag(m) + Unparse(ch), CloseTag(m));
  }

  /** The template of a forest without a node named n holds no closing tag of n. */
  lemma {:induction false} UnparseNoClose(items: seq<Item>, tags: set<string>, nested: bool, n: string)
    requires Template(items, tags, nested) && NamesIn(items, tags - {n}) && IsName(n)
    ensures NoCloseTag(Unparse(items), n)
    decreases items
  {
    if items != [] {
      TemplateTail(items, tags, nested);
      assert NamesIn(items[1..], tags - {n}) by {
        NamesInAppend([items[0]], items[1..], tags - {n});
        assert items == [items[0]] + items[1..];
      }
      UnparseNoClose(items[1..], tags, nested, n);
      ItemNoClose(items[0], tags, nested, n, items);
      ItemClosed(items[0], tags, nested, items);
      NoCloseAppend(UnparseItem(items[0]), Unparse(items[1..]), n);
    }
  }

  lemma {:induction false} ItemNoClose(it: Item, tags: set<string>, nested: bool, n: string, items: seq<Item>)
    requires Template(items, tags, nested) && NamesIn(items, tags - {n}) && IsName(n) && it in items
    ensures NoCloseTag(UnparseItem(it), n)
    decreases it
  {
    var i :| 0 <= i < |items| && items[i] == it;
    match it
    case Text(s) =>
      LeafNoClose(s, n);
    case Node(ch, m) =>
      UnparseNoClose(ch, tags, true, n);
      UnparseClosed(ch, tags, true);
      TagsNoClose(m, n);
      TagsClosed(m);
      NoCloseAppend(OpenTag(m), Unparse(ch), n);
      ClosedAppend(OpenTag(m), Unparse(ch));
      NoCloseAppend(OpenTag(m) + Unparse(ch), CloseTag(m), n);
  }

  /** Inside a node the template has no newline. */
  lemma {:induction false} UnparseNoNewline(items: seq<Item>, tags: set<string>)
    requires Template(items, tags, true)
    ensures '\n' !in Unparse(items)
    decreases items
  {
    if items != [] {
      TemplateTail(items, tags, true);
      UnparseNoNewline(items[1..], tags);
      if items[0].Node? {
        var ch, m := items[0].children, items[0].name;
        NameChars(m);
        UnparseNoNewline(ch, tags);
      }
    }
  }

  // ---------------------------------------------------------------------------------------
  // The round trip

  lemma NoOpenTagWithoutLt(s: string)
    requires '<' !in s
    ensures NoOpenTag(s)
  {
  }

  /** An element written out between text and the rest of a template. */
  lemma ElementAndRest(text: string, ch: seq<Item>, n: string, rest: seq<Item>, tags: set<string>)
    requires '<' !in text && IsName(n) && n in tags
    requires NoCloseTag(Unparse(ch), n) && '\n' !in Unparse(ch)
    requires Scan(Unparse(ch), tags) == Ok(ch) && Scan(Unparse(rest), tags) == Ok(rest)
    ensures Scan(text + UnparseItem(Node(ch, n)) + Unparse(rest), tags) ==
      Ok(ParserFacts.TextBefore(text) + [Node(ch, n)] + rest)
  {
    var u, r := Unparse(ch), Unparse(rest);
    assert text + UnparseItem(Node(ch, n)) + r == text + "<" + n + ">" + u + "</" + n + ">" + r;
    ParserFacts.ListedTagNode(text, n, u, r, tags);
  }

  /** The parser reads the template of a forest back as that forest. */
  lemma {:induction false} ScanUnparse(items: seq<Item>, tags: set<string>, nested: bool)
    requires Template(items, tags, nested)
    ensures Scan(Unparse(items), tags) == Ok(items)
    decreases Size(items), 2
  {
    if items == [] {
    } else if items[0].Node? {
      NodeFirst(items, tags, nested);
    } else if |items| == 1 {
      LastLeaf(items, tags, nested);
    } else {
      LeafFirst(items, tags, nested);
    }
  }

  lemma LastLeaf(items: seq<Item>, tags: set<string>, nested: bool)
    requires Template(items, tags, nested) && |items| == 1 && items[0].Text?
    ensures Scan(Unparse(items), tags) == Ok(items)
  {
    var t := items[0].s;
    assert items == [Text(t)];
    assert Unparse(items) == t + Unparse([]) == t;
    NoOpenTagWithoutLt(t);
    ParserFacts.ScanPlainText(t, tags);
  }

  lemma {:induction false} NodeFirst(items: seq<Item>, tags: set<string>, nested: bool)
    requires Template(items, tags, nested) && items != [] && items[0].Node?
    ensures Scan(Unparse(items), tags) == Ok(items)
    decreases Size(items), 1
  {
    NodeAndRest("", items, tags, nested);
    assert "" + Unparse(items) == Unparse(items);
    assert ParserFacts.TextBefore("") + items == items;
  }

  lemma {:induction false} LeafFirst(items: seq<Item>, tags: set<string>, nested: bool)
    requires Template(items, tags, nested) && |items| >= 2 && items[0].Text?
    ensures Scan(Unparse(items), tags) == Ok(items)
    decreases Size(items), 1
  {
    var t, tail := items[0].s, items[1..];
    TemplateTail(items, tags, nested);
    assert items[1].Node?;
    NodeAndRest(t, tail, tags, nested);
    assert ParserFacts.TextBefore(t) + tail == items;
  }

  /** A template starting with a node, after text without `<`. */
  lemma {:induction false} NodeAndRest(text: string, items: seq<Item>, tags: set<string>, nested: bool)
    requires '<' !in text && items != [] && items[0].Node?
    requires Template(items, tags, nested)
    ensures Scan(text + Unparse(items), tags) == Ok(ParserFacts.TextBefore(text) + items)
    decreases Size(items), 0
  {
    var ch, n, rest := items[0].children, items[0].name, items[1..];
    NodeFacts(items, tags, nested);
    ScanUnparse(ch, tags, true);
    ScanUnparse(rest, tags, nested);
    ElementAndRest(text, ch, n, rest, tags);
    UnparseCons(text, items);
  }

  /** What the template of a node's children satisfies, and the sizes that end the recursion. */
  lemma NodeFacts(items: seq<Item>, tags: set<string>, nested: bool)
    requires items != [] && items[0].Node? && Template(items, tags, nested)
    ensures var ch, n := items[0].children, items[0].name;
      && IsName(n) && n in tags && Template(ch, tags, true) && Template(items[1..], tags, nested)
      && NoCloseTag(Unparse(ch), n) && '\n' !in Unparse(ch)
      && Size(ch) < Size(items) && Size(items[1..]) < Size(items)
  {
    var ch, n := items[0].children, items[0].name;
    TemplateTail(items, tags, nested);
    UnparseNoClose(ch, tags, true, n);
    UnparseNoNewline(ch, tags);
  }

  lemma UnparseCons(text: string, items: seq<Item>)
    requires items != []
    ensures text + Unparse(items) == text + UnparseItem(items[0]) + Unparse(items[1..])
    ensures ParserFacts.TextBefore(text) + [items[0]] + items[1..] == ParserFacts.TextBefore(text) + items
  {
    assert [items[0]] + items[1..] == items;
    Assoc(text, UnparseItem(items[0]), Unparse(items[1..]));
  }

  lemma Assoc(x: string, y: string, z: string)
    ensures x + (y + z) == x + y + z
  {
  }

  /** A template forest is already normal: the parse of its template is the forest itself. */
  lemma {:induction false} TemplateNormal(items: seq<Item>, tags: set<string>, nested: bool)
    requires Template(items, tags, nested)
    ensures Normal(items)
    decreases items
  {
    forall i | 0 <= i < |items| && items[i].Node?
      ensures NoAdjacentText(items[i].children) && Normal(items[i].children)
    {
      TemplateNormal(items[i].children, tags, true);
    }
  }

  lemma ParsedUnparse(items: seq<Item>, tags: set<string>)
    requires Template(items, tags, false)
    ensures Parsed(Unparse(items), tags) == Ok(items)
  {
    ScanUnparse(items, tags, false);
    TemplateNormal(items, tags, false);
    ParserFacts.NormaliseIdempotent(items);
  }

  /** Rendering the template of a forest is reconstructing the forest. */
  lemma RenderUnparse(items: seq<Item>, cb: Reconstructor.Callbacks)
    requires Template(items, cb.Keys, false)
    ensures Xmlish.Render(Unparse(items), cb) == Ok(Reconstructor.ReconstructAll(items, cb))
  {
    ParsedUnparse(items, cb.Keys);
  }

  /** The identity round trip: under callbacks without transforms, a template with only
      listed, well-formed tags renders as its text content. */
  lemma IdentityRoundTrip(items: seq<Item>, cb: Reconstructor.Callbacks)
    requires Template(items, cb.Keys, false) && Reconstructor.AllIdentity(cb)
    ensures Xmlish.Render(Unparse(items), cb) == Ok(Content(items))
  {
    RenderUnparse(items, cb);
    Reconstructor.ReconstructIdentity(items, cb);
  }

  /** Walking the template of a forest is walking the forest. */
  lemma TraverseUnparse(items: seq<Item>, cb: Walker.Callbacks)
    requires Template(items, cb.Keys, false)
    ensures Xmlish.Traverse(Unparse(items), cb) == Ok(Walker.WalkAll(items, cb))
  {
    ParsedUnparse(items, cb.Keys);
  }

  // ---------------------------------------------------------------------------------------
  // Where the round trip fails

  /** A newline inside an element: the closing-tag match starts after the last newline before
      `</n>` (lib/xmlish.rb:76-80), so the node keeps only the text after the newline, and the
      cut, as long as that text and the closing tag, leaves the last |x| + 1 characters of the
      template to be scanned again. */
  lemma NewlineInElement(n: string, x: string, y: string, tags: set<string>)
    requires IsName(n) && n in tags && '<' !in x && '<' !in y && '\n' !in y && y != ""
    ensures var r := x + "\n" + y + CloseTag(n);
      Scan(OpenTag(n) + r, tags) == Prepend([Node([Text(y)], n)], Scan(r[|y| + |n| + 3 ..], tags))
  {
    var r := x + "\n" + y + CloseTag(n);
    assert OpenTag(n) + r == "" + "<" + n + ">" + r;
    ParserFacts.ListedTagHead("", n, r, tags);
    NewlineElement(n, x, y, tags);
  }

  lemma NewlineElement(n: string, x: string, y: string, tags: set<string>)
    requires IsName(n) && '<' !in x && '<' !in y && '\n' !in y && y != ""
    ensures var r := x + "\n" + y + CloseTag(n);
      ScanElement([], r, n, tags) == Prepend([Node([Text(y)], n)], Scan(r[|y| + |n| + 3 ..], tags))
  {
    var r := x + "\n" + y + CloseTag(n);
    var m := CloseMatch(|x| + 1, |x| + 1 + |y|);
    assert FindClose(r, n) == Some(m) by {
      NewlineClose(n, x, y);
    }
    assert Scan(r[m.start .. m.lt], tags) == Ok([Text(y)]) by {
      assert r[m.start .. m.lt] == y;
      NoOpenTagWithoutLt(y);
      ParserFacts.ScanPlainText(y, tags);
    }
    ElementAtMatch([], r, n, tags, m, [Text(y)]);
    assert CloseEnd(m, n) - m.start == |y| + |n| + 3;
    assert [] + [Node([Text(y)], n)] == [Node([Text(y)], n)];
  }

  /** An element whose closing-tag match is known, with its content scanned. */
  lemma ElementAtMatch(pre: seq<Item>, rest: string, n: string, tags: set<string>, m: CloseMatch, children: seq<Item>)
    requires FindClose(rest, n) == Some(m) && Scan(rest[m.start .. m.lt], tags) == Ok(children)
    ensures ScanElement(pre, rest, n, tags) ==
      Prepend(pre + [Node(children, n)], Scan(rest[CloseEnd(m, n) - m.start ..], tags))
  {
  }

  /** The closing-tag match in the element of `NewlineInElement`. */
  lemma NewlineClose(n: string, x: string, y: string)
    requires IsName(n) && '<' !in x && '<' !in y && '\n' !in y
    ensures FindClose(x + "\n" + y + CloseTag(n), n) == Some(CloseMatch(|x| + 1, |x| + 1 + |y|))
  {
    var r := x + "\n" + y + CloseTag(n);
    var q, p := |x|, |x| + 1 + |y|;
    NameChars(n);
    assert r[p .. p + |n| + 3] == CloseTag(n);
    assert r[p + 2 .. p + 2 + |n|] == n;
    assert ClosesAt(r, p, n);
    forall j: nat | j < p ensures !ClosesAt(r, j, n) {
      assert r[j] != '<' by {
        if j < q {
          assert r[j] == x[j];
        } else if j > q {
          assert r[j] == y[j - q - 1];
        }
      }
    }
    forall j | q + 1 <= j < p ensures r[j] != '\n' {
      assert r[j] == y[j - q - 1];
    }
    var m := FindClose(r, n).value;
    assert m.lt == p;
    assert r[q] == '\n';
    assert m.start == q + 1;
  }

  /** The template of an element whose text has a newline is not read back as that element. */
  lemma NewlineBreaksRoundTrip(n: string, x: string, y: string, tags: set<string>)
    requires IsName(n) && n in tags && '<' !in x && '<' !in y && '\n' !in y && y != ""
    ensures var f := [Node([Text(x + "\n" + y)], n)];
      Scan(Unparse(f), tags) != Ok(f)
  {
    var w := x + "\n" + y;
    var f := [Node([Text(w)], n)];
    var r := x + "\n" + y + CloseTag(n);
    assert Unparse([Text(w)]) == w + "" == w;
    assert Unparse(f) == OpenTag(n) + w + CloseTag(n) + "";
    assert OpenTag(n) + w + CloseTag(n) + "" == OpenTag(n) + r;
    NewlineInElement(n, x, y, tags);
    var res := Scan(Unparse(f), tags);
    assert res.Ok? ==> res.value[0] == Node([Text(y)], n);
    assert |w| != |y|;
  }

  /** An element nested in an element of the same name: the outer element ends at the first
      closing tag of the name, so the inner opening tag has no closing tag left and the
      parse fails naming it. */
  lemma SameNameNested(n: string, x: string, tags: set<string>)
    requires IsName(n) && n in tags && '<' !in x && '\n' !in x
    ensures Scan(Unparse([Node([Node([Text(x)], n)], n)]), tags) == Err(UnterminatedTag(n))
  {
    var inner := OpenTag(n) + x;
    NameChars(n);
    NestedTemplate(n, x);
    OpenNoClose(n, n);
    TagsClosed(n);
    LeafNoClose(x, n);
    NoCloseAppend(OpenTag(n), x, n);
    ParserFacts.ListedTagNode("", n, inner, CloseTag(n), tags);
    ParserFacts.MissingCloseFails("", n, x, tags);
  }

  lemma NestedTemplate(n: string, x: string)
    ensures Unparse([Node([Node([Text(x)], n)], n)]) ==
      "" + "<" + n + ">" + (OpenTag(n) + x) + "</" + n + ">" + CloseTag(n)
    ensures OpenTag(n) + x == "" + "<" + n + ">" + x
  {
    assert Unparse([Text(x)]) == x + "" == x;
    assert Unparse([Node([Text(x)], n)]) == OpenTag(n) + x + CloseTag(n) + "";
    assert Unparse([Node([Node([Text(x)], n)], n)]) ==
      OpenTag(n) + (OpenTag(n) + x + CloseTag(n) + "") + CloseTag(n) + "";
  }
}
