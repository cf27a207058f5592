/** Properties of the parser model: what joining and normalising preserve, which names the
    nodes of a parse carry, and how the parser treats a string one tag at a time. */
module ParserFacts {
  import opened Nodes
  import opened Scanner
  import opened Parser
  import Reconstructor

  // ---------------------------------------------------------------------------------------
  // join_adjacent_strings and normalise (lib/xmlish.rb:87-106)

  /** The gaps of a list with no neighbouring leaves: the last one holds no leaf exactly
      when the list is empty or ends with a node. */
  lemma LastGap(xs: seq<Item>)
    ensures Gaps(xs)[|Gaps(xs)| - 1].None? <==> xs == [] || xs[|xs| - 1].Node?
  {
  }

  lemma EmptyByGaps(xs: seq<Item>)
    ensures xs == [] <==> NodesOf(xs) == [] && Gaps(xs) == [None]
  {
    if xs != [] {
      var init, x := xs[..|xs| - 1], xs[|xs| - 1];
      assert xs == init + [x];
      GapsSnoc(init, x);
      if x.Node? {
        assert |NodesOf(xs)| > 0;
      } else {
        assert Gaps(xs)[|Gaps(xs)| - 1].Some?;
      }
    }
  }

  lemma InitNoAdjacent(xs: seq<Item>)
    requires xs != [] && NoAdjacentText(xs)
    ensures NoAdjacentText(xs[..|xs| - 1])
  {
    var init := xs[..|xs| - 1];
    assert forall i :: 0 <= i < |init| ==> init[i] == xs[i];
  }

  /** A list with no neighbouring leaves is determined by its nodes and the text of its
      gaps. */
  lemma {:induction false} GapsDetermine(a: seq<Item>, b: seq<Item>)
    requires NoAdjacentText(a) && NoAdjacentText(b)
    requires NodesOf(a) == NodesOf(b) && Gaps(a) == Gaps(b)
    ensures a == b
    decreases |a|
  {
    EmptyByGaps(a);
    EmptyByGaps(b);
    if a != [] {
      var ia, x := a[..|a| - 1], a[|a| - 1];
      var ib, y := b[..|b| - 1], b[|b| - 1];
      assert a == ia + [x] && b == ib + [y];
      InitNoAdjacent(a);
      InitNoAdjacent(b);
      LastGap(a);
      LastGap(b);
      if x.Node? {
        SameLastNode(ia, x, ib, y);
      } else {
        BeforeLastText(a);
        BeforeLastText(b);
        LastGap(ia);
        LastGap(ib);
        SameLastText(ia, x, ib, y);
      }
      GapsDetermine(ia, ib);
    }
  }

  /** In a list with no neighbouring leaves, a final leaf follows a node or nothing. */
  lemma BeforeLastText(a: seq<Item>)
    requires a != [] && NoAdjacentText(a) && a[|a| - 1].Text?
    ensures a[..|a| - 1] == [] || a[..|a| - 1][|a| - 2].Node?
  {
  }

  lemma SameLastNode(ia: seq<Item>, x: Item, ib: seq<Item>, y: Item)
    requires x.Node? && y.Node?
    requires NodesOf(ia + [x]) == NodesOf(ib + [y]) && Gaps(ia + [x]) == Gaps(ib + [y])
    ensures x == y && NodesOf(ia) == NodesOf(ib) && Gaps(ia) == Gaps(ib)
  {
    GapsSnoc(ia, x);
    GapsSnoc(ib, y);
    SnocInjective(NodesOf(ia), NodesOf(ib), x, y);
    SnocInjective(Gaps(ia), Gaps(ib), None, None);
  }

  lemma SameLastText(ia: seq<Item>, x: Item, ib: seq<Item>, y: Item)
    requires x.Text? && y.Text?
    requires Gaps(ia)[|Gaps(ia)| - 1].None? && Gaps(ib)[|Gaps(ib)| - 1].None?
    requires NodesOf(ia + [x]) == NodesOf(ib + [y]) && Gaps(ia + [x]) == Gaps(ib + [y])
    ensures x == y && NodesOf(ia) == NodesOf(ib) && Gaps(ia) == Gaps(ib)
  {
    GapsSnoc(ia, x);
    GapsSnoc(ib, y);
    var ga, gb := Gaps(ia), Gaps(ib);
    var pa, pb := ga[..|ga| - 1], gb[..|gb| - 1];
    assert Glue(ga[|ga| - 1], x.s) == x.s && Glue(gb[|gb| - 1], y.s) == y.s;
    assert Gaps(ia + [x]) == pa + [Some(x.s)];
    assert Gaps(ib + [y]) == pb + [Some(y.s)];
    SnocInjective(pa, pb, Some(x.s), Some(y.s));
    assert ga == pa + [None] && gb == pb + [None];
    assert NodesOf(ia) + [] == NodesOf(ia) && NodesOf(ib) + [] == NodesOf(ib);
  }

  lemma SnocInjective<T>(p: seq<T>, q: seq<T>, x: T, y: T)
    requires p + [x] == q + [y]
    ensures p == q && x == y
  {
    assert p == (p + [x])[..|p|] && q == (q + [y])[..|q|];
    assert x == (p + [x])[|p|];
  }

  /** The result of `join_adjacent_strings` is the one list with no neighbouring leaves
      that keeps the nodes of its input and the text between them. */
  lemma JoinUnique(xs: seq<Item>, r: seq<Item>)
    requires NoAdjacentText(r) && NodesOf(r) == NodesOf(xs) && Gaps(r) == Gaps(xs)
    ensures r == JoinAdjacent(xs)
  {
    JoinKeepsGaps(xs);
    GapsDetermine(r, JoinAdjacent(xs));
  }

  /** Joining changes nothing in a list that has no neighbouring text leaves. */
  lemma {:induction false} JoinIdempotent(xs: seq<Item>)
    requires NoAdjacentText(xs)
    ensures JoinAdjacent(xs) == xs
    decreases |xs|
  {
    if xs != [] {
      var init, b := xs[..|xs| - 1], xs[|xs| - 1];
      assert xs == init + [b];
      assert NoAdjacentText(init) by {
        forall i | 0 <= i < |init| - 1 ensures !(init[i].Text? && init[i + 1].Text?) {
          assert init[i] == xs[i] && init[i + 1] == xs[i + 1];
        }
      }
      JoinIdempotent(init);
      if b.Text? && |init| > 0 {
        assert xs[|xs| - 2] == init[|init| - 1];
      }
    }
  }

  /** Joining keeps every node of the list, so it keeps their names. */
  lemma {:induction false} JoinKeepsNames(xs: seq<Item>, tags: set<string>)
    requires NamesIn(xs, tags)
    ensures NamesIn(JoinAdjacent(xs), tags)
    decreases |xs|
  {
    if xs != [] {
      var init, b := xs[..|xs| - 1], xs[|xs| - 1];
      assert xs == init + [b];
      NamesInAppend(init, [b], tags);
      JoinKeepsNames(init, tags);
      JoinStepNames(JoinAdjacent(init), b, tags);
    }
  }

  lemma JoinStepNames(acc: seq<Item>, b: Item, tags: set<string>)
    requires NamesIn(acc, tags) && NamesIn([b], tags)
    ensures NamesIn(JoinStep(acc, b), tags)
  {
    if b.Text? && |acc| > 0 && acc[|acc| - 1].Text? {
      var last := acc[|acc| - 1];
      assert acc == acc[..|acc| - 1] + [last];
      NamesInAppend(acc[..|acc| - 1], [last], tags);
      NamesInAppend(acc[..|acc| - 1], [Text(last.s + b.s)], tags);
    } else {
      NamesInAppend(acc, [b], tags);
    }
  }

  /** Joining keeps the text of the list. */
  lemma JoinKeepsContent(xs: seq<Item>)
    ensures Content(JoinAdjacent(xs)) == Content(xs)
  {
    var none: Reconstructor.Callbacks := map[];
    Reconstructor.ReconstructJoin(xs, none);
    Reconstructor.ReconstructIdentity(xs, none);
    Reconstructor.ReconstructIdentity(JoinAdjacent(xs), none);
  }

  /** `normalise` leaves the list itself alone: the same length, the same text leaves in the
      same places, and nodes with the same names in the others. */
  lemma NormaliseKeepsTopLevel(items: seq<Item>)
    ensures |NormaliseAll(items)| == |items|
    ensures forall i :: 0 <= i < |items| && items[i].Text? ==> NormaliseAll(items)[i] == items[i]
    ensures forall i :: 0 <= i < |items| && items[i].Node? ==>
      NormaliseAll(items)[i].Node? && NormaliseAll(items)[i].name == items[i].name
    ensures forall i :: 0 <= i < |items| && items[i].Node? ==>
      NormaliseAll(items)[i].children == NormaliseAll(JoinAdjacent(items[i].children))
  {
    forall i | 0 <= i < |items| {
      NormaliseAllAt(items, i);
    }
  }

  lemma KeepsNoAdjacentText(items: seq<Item>)
    requires NoAdjacentText(items)
    ensures NoAdjacentText(NormaliseAll(items))
  {
    NormaliseKeepsTopLevel(items);
  }

  /** After `normalise`, no node at any depth has two neighbouring text leaves. */
  lemma {:induction false} NormaliseMakesNormal(items: seq<Item>)
    ensures Normal(NormaliseAll(items))
    decreases Size(items), 1, |items|
  {
    var r := NormaliseAll(items);
    forall i | 0 <= i < |r| && r[i].Node?
      ensures NoAdjacentText(r[i].children) && Normal(r[i].children)
    {
      NormaliseAllAt(items, i);
      SizeElement(items, i);
      NormaliseItemNormal(items[i]);
    }
  }

  lemma {:induction false} NormaliseItemNormal(it: Item)
    ensures NormaliseItem(it).Node? ==>
      NoAdjacentText(NormaliseItem(it).children) && Normal(NormaliseItem(it).children)
    decreases ItemSize(it), 0, 0
  {
    if it.Node? {
      var joined := JoinAdjacent(it.children);
      KeepsNoAdjacentText(joined);
      NormaliseMakesNormal(joined);
    }
  }

  /** A forest that is already normal is left as it is. */
  lemma {:induction false} NormaliseIdempotent(items: seq<Item>)
    requires Normal(items)
    ensures NormaliseAll(items) == items
    decreases Size(items), 1, |items|
  {
    if items != [] {
      assert Normal(items[1..]) by {
        forall i | 0 <= i < |items[1..]| && items[1..][i].Node?
          ensures NoAdjacentText(items[1..][i].children) && Normal(items[1..][i].children)
        {
          assert items[1..][i] == items[i + 1];
        }
      }
      NormaliseItemIdempotent(items[0]);
      NormaliseIdempotent(items[1..]);
    }
  }

  lemma {:induction false} NormaliseItemIdempotent(it: Item)
    requires it.Node? ==> NoAdjacentText(it.children) && Normal(it.children)
    ensures NormaliseItem(it) == it
    decreases ItemSize(it), 0, 0
  {
    if it.Node? {
      JoinIdempotent(it.children);
      NormaliseIdempotent(it.children);
    }
  }

  /** Normalising twice is normalising once. */
  lemma NormaliseTwice(items: seq<Item>)
    ensures NormaliseAll(NormaliseAll(items)) == NormaliseAll(items)
  {
    NormaliseMakesNormal(items);
    NormaliseIdempotent(NormaliseAll(items));
  }

  /** `normalise` keeps the text of the forest, in order. */
  lemma NormaliseKeepsContent(items: seq<Item>)
    ensures Content(NormaliseAll(items)) == Content(items)
  {
    var none: Reconstructor.Callbacks := map[];
    Reconstructor.ReconstructNormalise(items, none);
    Reconstructor.ReconstructIdentity(items, none);
    Reconstructor.ReconstructIdentity(NormaliseAll(items), none);
  }

  /** `normalise` keeps the names of the nodes. */
  lemma {:induction false} NormaliseKeepsNames(items: seq<Item>, tags: set<string>)
    requires NamesIn(items, tags)
    ensures NamesIn(NormaliseAll(items), tags)
    decreases Size(items), 1, |items|
  {
    var r := NormaliseAll(items);
    forall i | 0 <= i < |r| && r[i].Node?
      ensures r[i].name in tags && NamesIn(r[i].children, tags)
    {
      NormaliseAllAt(items, i);
      SizeElement(items, i);
      NormaliseItemKeepsNames(items[i], tags);
    }
  }

  lemma {:induction false} NormaliseItemKeepsNames(it: Item, tags: set<string>)
    requires it.Node? ==> it.name in tags && NamesIn(it.children, tags)
    ensures NormaliseItem(it).Node? ==>
      NormaliseItem(it).name in tags && NamesIn(NormaliseItem(it).children, tags)
    decreases ItemSize(it), 0, 0
  {
    if it.Node? {
      JoinKeepsNames(it.children, tags);
      NormaliseKeepsNames(JoinAdjacent(it.children), tags);
    }
  }

  // ---------------------------------------------------------------------------------------
  // parse_string (lib/xmlish.rb:55-83)

  /** A parse result whose nodes are all named by listed tags, or whose error names one. */
  predicate WellFormed(r: Result<seq<Item>>, tags: set<string>)
  {
    && (r.Ok? ==> NamesIn(r.value, tags))
    && (r.Err? ==> r.error.name in tags)
  }

  /** Every node the parser builds is named by a listed tag, and the only error it reports
      names a listed tag. */
  lemma {:induction false} ScanWellFormed(s: string, tags: set<string>)
    ensures WellFormed(Scan(s, tags), tags)
    decreases |s|, 2
  {
    if |s| > 0 {
      ScanTagsWellFormed(s, tags);
    }
  }

  lemma {:induction false} ScanTagsWellFormed(s: string, tags: set<string>)
    ensures WellFormed(ScanTags(s, tags), tags)
    decreases |s|, 1
  {
    if FindOpen(s).Some? {
      if FindOpen(s).value.name !in tags {
        UnlistedWellFormed(s, tags);
      } else {
        ListedWellFormed(s, tags);
      }
    }
  }

  lemma {:induction false} UnlistedWellFormed(s: string, tags: set<string>)
    requires FindOpen(s).Some? && FindOpen(s).value.name !in tags
    ensures WellFormed(ScanTags(s, tags), tags)
    decreases |s|, 0
  {
    UnlistedUnfold(s, tags);
    MatchBounds(s);
    ScanTagsWellFormed(AfterMatch(s), tags);
    if ScanTags(AfterMatch(s), tags).Ok? {
      NamesInAppend([Text(MatchedHead(s))], ScanTags(AfterMatch(s), tags).value, tags);
    }
  }

  lemma {:induction false} ListedWellFormed(s: string, tags: set<string>)
    requires FindOpen(s).Some? && FindOpen(s).value.name in tags
    ensures WellFormed(ScanTags(s, tags), tags)
    decreases |s|, 0
  {
    ListedUnfold(s, tags);
    ListedParts(s, tags);
    ScanElementWellFormed(ListedPre(s), s[OpenEnd(FindOpen(s).value) - FindOpen(s).value.start ..], FindOpen(s).value.name, tags);
  }

  function ListedPre(s: string): seq<Item>
    requires FindOpen(s).Some?
  {
    var m := FindOpen(s).value;
    var text := s[m.start .. m.lt];
    if |text| == 0 then [] else [Text(text)]
  }

  lemma ListedParts(s: string, tags: set<string>)
    requires FindOpen(s).Some?
    ensures TextOnly(ListedPre(s))
    ensures var m := FindOpen(s).value; OpenEnd(m) - m.start > 0 && m.start <= OpenEnd(m) <= |s|
  {
  }

  lemma {:induction false} ScanElementWellFormed(pre: seq<Item>, rest: string, name: string, tags: set<string>)
    requires TextOnly(pre) && name in tags
    ensures WellFormed(ScanElement(pre, rest, name, tags), tags)
    decreases |rest|, 2
  {
    match FindClose(rest, name)
    case None =>
    case Some(c) =>
      ScanWellFormed(rest[c.start .. c.lt], tags);
      match Scan(rest[c.start .. c.lt], tags)
      case Err(e) =>
      case Ok(children) =>
        var after := rest[CloseEnd(c, name) - c.start ..];
        ScanWellFormed(after, tags);
        var r := Scan(after, tags);
        NamesInAppend(pre, [Node(children, name)], tags);
        if r.Ok? {
          NamesInAppend(pre + [Node(children, name)], r.value, tags);
        }
  }

  /** What `Parser#parse` returns: nodes named by listed tags only, normal at every depth;
      or an error naming a listed tag. */
  lemma ParsedWellFormed(s: string, tags: set<string>)
    ensures WellFormed(Parsed(s, tags), tags)
    ensures Parsed(s, tags).Ok? ==> Normal(Parsed(s, tags).value)
  {
    ScanWellFormed(s, tags);
    if Scan(s, tags).Ok? {
      NormaliseKeepsNames(Scan(s, tags).value, tags);
      NormaliseMakesNormal(Scan(s, tags).value);
    }
  }

  /** A string with no opening tag at all is scanned as one text leaf (none when empty). */
  lemma ScanPlainText(s: string, tags: set<string>)
    requires NoOpenTag(s)
    ensures Scan(s, tags) == Ok(if s == "" then [] else [Text(s)])
  {
    if s != "" {
      assert FindOpen(s).None?;
    }
  }

  /** A string with no opening tag at all parses to one text leaf (none when it is empty). */
  lemma PlainText(s: string, tags: set<string>)
    requires NoOpenTag(s)
    ensures Parsed(s, tags) == Ok(if s == "" then [] else [Text(s)])
  {
    ScanPlainText(s, tags);
    if s != "" {
      assert [Text(s)][1..] == [];
      assert NormaliseAll([Text(s)]) == [Text(s)];
    }
  }

  /** The leftmost opening tag of a string whose text before the tag has no `<`: the match
      starts at the front. */
  lemma FindOpenAfterText(text: string, n: string, rest: string)
    requires '<' !in text && IsName(n)
    ensures FindOpen(text + "<" + n + ">" + rest) == Some(OpenMatch(0, |text|, n))
  {
    var s := text + "<" + n + ">" + rest;
    var p := |text|;
    assert s[p] == '<' && s[p + 1 + |n|] == '>';
    assert s[p + 1 .. p + 1 + |n|] == n;
    assert OpensAt(s, p, n);
    var m := FindOpen(s).value;
    assert forall j :: 0 <= j < p ==> s[j] == text[j];
    assert m.lt == p;
    OpensAtUnique(s, p, n, m.name);
  }

  lemma OpensAtUnique(s: string, i: nat, n1: string, n2: string)
    requires OpensAt(s, i, n1) && OpensAt(s, i, n2)
    ensures n1 == n2
  {
    OpenTagAtSpec(s, i);
  }

  /** The first closing tag of n that follows text containing no `</n>` and no newline:
      the match starts at the front, and it cannot overlap the end of that text. */
  lemma FindCloseAfterText(inner: string, n: string, after: string)
    requires IsName(n) && NoCloseTag(inner, n) && '\n' !in inner
    ensures FindClose(inner + "</" + n + ">" + after, n) == Some(CloseMatch(0, |inner|))
  {
    var s := inner + "</" + n + ">" + after;
    var p := |inner|;
    assert s[p] == '<' && s[p + 1] == '/' && s[p + 2 + |n|] == '>';
    assert s[p + 2 .. p + 2 + |n|] == n;
    assert ClosesAt(s, p, n);
    forall j: nat | j < p ensures !ClosesAt(s, j, n) {
      if j + |n| + 3 <= p {
        assert s[j .. j + |n| + 3] == inner[j .. j + |n| + 3];
        assert s[j + 2 .. j + 2 + |n|] == inner[j + 2 .. j + 2 + |n|];
        assert !ClosesAt(inner, j, n);
      } else if p == j + 1 {
        assert s[j + 1] != '/';
      } else if p < j + 2 + |n| {
        var k := p - j - 2;
        assert s[j + 2 .. j + 2 + |n|][k] == '<';
        assert IsNameChar(n[k]);
      } else {
        assert s[j + 2 + |n|] != '>';
      }
    }
    forall j | 0 <= j < p ensures s[j] != '\n' {
      assert s[j] == inner[j];
    }
  }

  /** A name whose first character does not occur in s has no closing tag in s. */
  lemma NoCloseTagByFirstChar(s: string, n: string)
    requires |n| > 0 && n[0] !in s
    ensures NoCloseTag(s, n)
  {
  }

  function TextBefore(text: string): seq<Item>
  {
    if text == "" then [] else [Text(text)]
  }

  /** An opening tag that is not listed is copied through as text, together with the text
      before it, and the scan goes on after it (lib/xmlish.rb:61-66). */
  lemma UnlistedTagCopied(text: string, n: string, rest: string, tags: set<string>)
    requires '<' !in text && IsName(n) && n !in tags
    ensures ScanTags(text + "<" + n + ">" + rest, tags) ==
      Prepend([Text(text + "<" + n + ">")], ScanTags(rest, tags))
  {
    var s := text + "<" + n + ">" + rest;
    FindOpenAfterText(text, n, rest);
    assert s[0 .. |text| + |n| + 2] == text + "<" + n + ">";
    assert s[|text| + |n| + 2 ..] == rest;
  }

  /** A listed opening tag becomes a node whose children are parsed from the text up to its
      first closing tag; the text before the tag, if any, is a leaf before the node, and the
      scan resumes after the closing tag (lib/xmlish.rb:73-80). An error inside the node is
      the error of the whole. */
  lemma ListedTagNode(text: string, n: string, inner: string, after: string, tags: set<string>)
    requires '<' !in text && IsName(n) && n in tags
    requires NoCloseTag(inner, n) && '\n' !in inner
    ensures Scan(text + "<" + n + ">" + inner + "</" + n + ">" + after, tags) ==
      if Scan(inner, tags).Err? then Err(Scan(inner, tags).error)
      else Prepend(TextBefore(text) + [Node(Scan(inner, tags).value, n)], Scan(after, tags))
  {
    var rest := inner + "</" + n + ">" + after;
    assert text + "<" + n + ">" + inner + "</" + n + ">" + after == text + "<" + n + ">" + rest;
    ListedTagHead(text, n, rest, tags);
    ElementAfterClose(TextBefore(text), inner, n, after, tags);
  }

  lemma ListedTagHead(text: string, n: string, rest: string, tags: set<string>)
    requires '<' !in text && IsName(n) && n in tags
    ensures Scan(text + "<" + n + ">" + rest, tags) == ScanElement(TextBefore(text), rest, n, tags)
  {
    var s := text + "<" + n + ">" + rest;
    FindOpenAfterText(text, n, rest);
    assert s[0 .. |text|] == text;
    assert s[|text| + |n| + 2 ..] == rest;
  }

  lemma ElementAfterClose(pre: seq<Item>, inner: string, n: string, after: string, tags: set<string>)
    requires IsName(n) && NoCloseTag(inner, n) && '\n' !in inner
    ensures ScanElement(pre, inner + "</" + n + ">" + after, n, tags) ==
      if Scan(inner, tags).Err? then Err(Scan(inner, tags).error)
      else Prepend(pre + [Node(Scan(inner, tags).value, n)], Scan(after, tags))
  {
    var rest := inner + "</" + n + ">" + after;
    FindCloseAfterText(inner, n, after);
    assert rest[0 .. |inner|] == inner;
    assert rest[|inner| + |n| + 3 ..] == after;
  }

  /** A listed opening tag with no closing tag after it is an error naming the tag. (The
      source fails at this point by calling `length` on nil.) */
  lemma MissingCloseFails(text: string, n: string, rest: string, tags: set<string>)
    requires '<' !in text && IsName(n) && n in tags && NoCloseTag(rest, n)
    ensures Scan(text + "<" + n + ">" + rest, tags) == Err(UnterminatedTag(n))
  {
    ListedTagHead(text, n, rest, tags);
    assert FindClose(rest, n).None?;
  }

  /** An unlisted tag that ends the string leaves an empty text leaf at the end: the retry
      loop searches the empty remainder and pushes it (lib/xmlish.rb:59-71). */
  lemma TrailingEmptyLeaf(text: string, n: string, tags: set<string>)
    requires '<' !in text && IsName(n) && n !in tags
    ensures Scan(text + "<" + n + ">", tags) == Ok([Text(text + "<" + n + ">"), Text("")])
  {
    var s := text + "<" + n + ">";
    UnlistedTagCopied(text, n, "", tags);
    assert s + "" == s;
    assert FindOpen("").None?;
    assert [Text(s)] + [Text("")] == [Text(s), Text("")];
  }

  /** Every `<` that comes before an opening tag starts an opening tag itself. In such a
      string every match of the opening-tag pattern starts at the front. */
  ghost predicate Aligned(s: string)
  {
    forall i: nat, j: nat, n :: i < j && OpensAt(s, j, n) && s[i] == '<' ==> exists n' :: OpensAt(s, i, n')
  }

  lemma AlignedSuffix(s: string, k: nat)
    requires Aligned(s) && k <= |s|
    ensures Aligned(s[k..])
  {
    var t := s[k..];
    forall i: nat, j: nat, n | i < j && OpensAt(t, j, n) && t[i] == '<'
      ensures exists n' :: OpensAt(t, i, n')
    {
      assert t[j + 1 .. j + 1 + |n|] == s[k + j + 1 .. k + j + 1 + |n|];
      assert OpensAt(s, k + j, n);
      var n' :| OpensAt(s, k + i, n');
      assert t[i + 1 .. i + 1 + |n'|] == s[k + i + 1 .. k + i + 1 + |n'|];
      assert OpensAt(t, i, n');
    }
  }

  /** In an aligned string whose tags are all unlisted, the parser only copies text:
      every leaf is text and, joined, they give back the string. */
  lemma {:induction false} UnlistedPassThrough(s: string, tags: set<string>)
    requires Aligned(s)
    requires forall j: nat, n :: OpensAt(s, j, n) ==> n !in tags
    ensures Scan(s, tags).Ok? && TextOnly(Scan(s, tags).value) && Content(Scan(s, tags).value) == s
    decreases |s|
  {
    if |s| > 0 {
      ScanTagsPassThrough(s, tags);
    }
  }

  lemma {:induction false} ScanTagsPassThrough(s: string, tags: set<string>)
    requires Aligned(s)
    requires forall j: nat, n :: OpensAt(s, j, n) ==> n !in tags
    ensures ScanTags(s, tags).Ok? && TextOnly(ScanTags(s, tags).value) && Content(ScanTags(s, tags).value) == s
    decreases |s|
  {
    if FindOpen(s).None? {
      assert Content([Text(s)]) == s + "";
    } else {
      AlignedMatchAtFront(s);
      MatchBounds(s);
      var k := |MatchedHead(s)|;
      AlignedSuffix(s, k);
      UnlistedSuffix(s, k, tags);
      ScanTagsPassThrough(AfterMatch(s), tags);
      PassThroughStep(s, tags);
    }
  }

  /** A suffix of a string whose opening tags are all unlisted has only unlisted tags. */
  lemma UnlistedSuffix(s: string, k: nat, tags: set<string>)
    requires k <= |s|
    requires forall j: nat, n :: OpensAt(s, j, n) ==> n !in tags
    ensures forall j: nat, n :: OpensAt(s[k..], j, n) ==> n !in tags
  {
    var t := s[k..];
    forall j: nat, n | OpensAt(t, j, n) ensures n !in tags {
      assert t[j + 1 .. j + 1 + |n|] == s[k + j + 1 .. k + j + 1 + |n|];
      assert OpensAt(s, k + j, n);
    }
  }

  /** In an aligned string the opening-tag pattern matches at the front. */
  lemma AlignedMatchAtFront(s: string)
    requires Aligned(s) && FindOpen(s).Some?
    ensures FindOpen(s).value.start == 0
  {
  }

  lemma PassThroughStep(s: string, tags: set<string>)
    requires FindOpen(s).Some? && FindOpen(s).value.start == 0 && FindOpen(s).value.name !in tags
    requires
      var rest := ScanTags(AfterMatch(s), tags);
      rest.Ok? && TextOnly(rest.value) && Content(rest.value) == AfterMatch(s)
    ensures ScanTags(s, tags).Ok? && TextOnly(ScanTags(s, tags).value) && Content(ScanTags(s, tags).value) == s
  {
    UnlistedUnfold(s, tags);
    MatchBounds(s);
    var h, r := MatchedHead(s), ScanTags(AfterMatch(s), tags).value;
    ContentAppend([Text(h)], r);
    assert Content([Text(h)]) == h + "";
    assert h == s[..|h|];
    assert s[..|h|] + s[|h|..] == s;
  }

  /** Where the string is not aligned the parser cuts the text wrongly: with no tag listed,
      "<<b>" comes out as "<b>" followed by ">" (the first `<` is lost and the `>` repeated). */
  lemma MisalignedTagShiftsText(s: string, tags: set<string>)
    requires s == "<<b>" && "b" !in tags
    ensures Scan(s, tags) == Ok([Text("<b>"), Text(">")])
  {
    assert OpensAt(s, 1, "b") by {
      assert s[2..3] == "b";
    }
    var m := FindOpen(s).value;
    assert m.lt == 1;
    OpensAtUnique(s, 1, "b", m.name);
    assert m.start == 1;
    UnlistedUnfold(s, tags);
    assert MatchedHead(s) == "<b>" && AfterMatch(s) == ">";
    assert FindOpen(">").None?;
    assert ScanTags(">", tags) == Ok([Text(">")]);
    assert [Text("<b>")] + [Text(">")] == [Text("<b>"), Text(">")];
  }
}
