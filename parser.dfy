/** The parser of `Xmlish::Parser` (lib/xmlish.rb:42-107). */
module Parser {
  import opened Nodes
  import opened Scanner

  /** What `parse_string` returns for s when started at the head of its outer loop
      (`while s.length > 0`): the empty string gives the empty forest. */
  function Scan(s: string, tags: set<string>): Result<seq<Item>>
    decreases |s|, 1
  {
    if |s| == 0 then Ok([]) else ScanTags(s, tags)
  }

  /** What `parse_string` returns when started at the head of its inner retry loop, which
      searches for the opening-tag pattern WITHOUT testing first whether s is empty.
      Like the source, it removes each match by its length from the FRONT of s, as if
      the match had started at the front. */
  function ScanTags(s: string, tags: set<string>): Result<seq<Item>>
    decreases |s|, 0
  {
    match FindOpen(s)
    case None => Ok([Text(s)])
    case Some(m) =>
      var rest := s[OpenEnd(m) - m.start ..];
      if m.name !in tags then
        // an unlisted tag: the matched text is copied through and the retry loop goes on
        Prepend([Text(s[m.start .. OpenEnd(m)])], ScanTags(rest, tags))
      else
        var text := s[m.start .. m.lt];
        ScanElement(if |text| == 0 then [] else [Text(text)], rest, m.name, tags)
  }

  /** The rest of `parse_string` once a listed opening tag `<name>` has been cut off: pre
      holds the non-empty text before it, rest what follows it. The node's children are
      parsed from the text up to the NEAREST `</name>`, and scanning resumes after it. */
  function ScanElement(pre: seq<Item>, rest: string, name: string, tags: set<string>): Result<seq<Item>>
    decreases |rest|, 2
  {
    match FindClose(rest, name)
    case None => Err(UnterminatedTag(name))
    case Some(c) =>
      match Scan(rest[c.start .. c.lt], tags)
      case Err(e) => Err(e)
      case Ok(children) =>
        Prepend(pre + [Node(children, name)], Scan(rest[CloseEnd(c, name) - c.start ..], tags))
  }

  // Each lemma below states how one step of `parse_string`'s loops preserves the loop
  // invariant "nodes, followed by what the rest of the scan produces, is the whole result".

  lemma EnterRetry(nodes: seq<Item>, s: string, tags: set<string>, whole: Result<seq<Item>>)
    requires |s| > 0 && Prepend(nodes, Scan(s, tags)) == whole
    ensures Prepend(nodes, ScanTags(s, tags)) == whole
  {
  }

  /** The part of s that the match of the opening-tag pattern covers. */
  function MatchedHead(s: string): string
    requires FindOpen(s).Some?
  {
    s[FindOpen(s).value.start .. OpenEnd(FindOpen(s).value)]
  }

  /** What is left once as many characters as the match covers are cut off the FRONT of s. */
  function AfterMatch(s: string): string
    requires FindOpen(s).Some?
  {
    s[OpenEnd(FindOpen(s).value) - FindOpen(s).value.start ..]
  }

  lemma MatchBounds(s: string)
    requires FindOpen(s).Some?
    ensures |MatchedHead(s)| > 0 && |AfterMatch(s)| == |s| - |MatchedHead(s)|
    ensures AfterMatch(s) == s[|MatchedHead(s)|..]
  {
  }

  /** ScanTags on a string whose first opening tag is unlisted. */
  lemma UnlistedUnfold(s: string, tags: set<string>)
    requires FindOpen(s).Some? && FindOpen(s).value.name !in tags
    ensures ScanTags(s, tags) == Prepend([Text(MatchedHead(s))], ScanTags(AfterMatch(s), tags))
  {
  }

  /** ScanTags on a string whose first opening tag is listed. */
  lemma ListedUnfold(s: string, tags: set<string>)
    requires FindOpen(s).Some? && FindOpen(s).value.name in tags
    ensures var m := FindOpen(s).value; var text := s[m.start .. m.lt];
      ScanTags(s, tags) == ScanElement(if |text| == 0 then [] else [Text(text)], s[OpenEnd(m) - m.start ..], m.name, tags)
  {
  }

  lemma UnlistedStep(nodes: seq<Item>, s: string, head: string, tags: set<string>, whole: Result<seq<Item>>)
    requires FindOpen(s).Some? && FindOpen(s).value.name !in tags
    requires head == s[FindOpen(s).value.start .. OpenEnd(FindOpen(s).value)]
    requires Prepend(nodes, ScanTags(s, tags)) == whole
    ensures Prepend(nodes + [Text(head)], ScanTags(s[|head|..], tags)) == whole
  {
    UnlistedUnfold(s, tags);
    MatchBounds(s);
    PrependPrepend(nodes, [Text(head)], ScanTags(s[|head|..], tags));
  }

  lemma NoTagStep(nodes: seq<Item>, s: string, tags: set<string>, whole: Result<seq<Item>>)
    requires FindOpen(s).None?
    requires Prepend(nodes, ScanTags(s, tags)) == whole
    ensures whole == Ok(nodes + [Text(s)])
  {
  }

  lemma ListedStep(nodes: seq<Item>, s: string, head: string, pre: seq<Item>, tags: set<string>, whole: Result<seq<Item>>)
    requires FindOpen(s).Some? && FindOpen(s).value.name in tags
    requires head == s[FindOpen(s).value.start .. OpenEnd(FindOpen(s).value)]
    requires var text := head[..|head| - |FindOpen(s).value.name| - 2];
      pre == if |text| == 0 then [] else [Text(text)]
    requires Prepend(nodes, ScanTags(s, tags)) == whole
    ensures Prepend(nodes, ScanElement(pre, s[|head|..], FindOpen(s).value.name, tags)) == whole
  {
    ListedUnfold(s, tags);
    ListedHead(s, head);
  }

  /** The matched head of a listed tag is the text before the tag followed by the tag. */
  lemma ListedHead(s: string, head: string)
    requires FindOpen(s).Some?
    requires head == s[FindOpen(s).value.start .. OpenEnd(FindOpen(s).value)]
    ensures |head| == OpenEnd(FindOpen(s).value) - FindOpen(s).value.start
    ensures head[..|head| - |FindOpen(s).value.name| - 2] == s[FindOpen(s).value.start .. FindOpen(s).value.lt]
  {
  }

  lemma UnterminatedStep(nodes: seq<Item>, pre: seq<Item>, rest: string, name: string, tags: set<string>, whole: Result<seq<Item>>)
    requires FindClose(rest, name).None?
    requires Prepend(nodes, ScanElement(pre, rest, name, tags)) == whole
    ensures whole == Err(UnterminatedTag(name))
  {
  }

  lemma ChildErrorStep(nodes: seq<Item>, pre: seq<Item>, rest: string, name: string, head: string, tags: set<string>, whole: Result<seq<Item>>)
    requires FindClose(rest, name).Some?
    requires head == rest[FindClose(rest, name).value.start .. CloseEnd(FindClose(rest, name).value, name)]
    requires Scan(head[..|head| - |name| - 3], tags).Err?
    requires Prepend(nodes, ScanElement(pre, rest, name, tags)) == whole
    ensures whole == Err(Scan(head[..|head| - |name| - 3], tags).error)
  {
    var c := FindClose(rest, name).value;
    assert head[..|head| - |name| - 3] == rest[c.start .. c.lt];
  }

  lemma ElementStep(nodes: seq<Item>, pre: seq<Item>, rest: string, name: string, head: string, tags: set<string>, whole: Result<seq<Item>>)
    requires FindClose(rest, name).Some?
    requires head == rest[FindClose(rest, name).value.start .. CloseEnd(FindClose(rest, name).value, name)]
    requires Scan(head[..|head| - |name| - 3], tags).Ok?
    requires Prepend(nodes, ScanElement(pre, rest, name, tags)) == whole
    ensures Prepend(nodes + (pre + [Node(Scan(head[..|head| - |name| - 3], tags).value, name)]), Scan(rest[|head|..], tags)) == whole
  {
    var c := FindClose(rest, name).value;
    var children := Scan(head[..|head| - |name| - 3], tags).value;
    assert head[..|head| - |name| - 3] == rest[c.start .. c.lt];
    assert ScanElement(pre, rest, name, tags) == Prepend(pre + [Node(children, name)], Scan(rest[|head|..], tags));
    PrependPrepend(nodes, pre + [Node(children, name)], Scan(rest[|head|..], tags));
  }

  lemma FinalStep(nodes: seq<Item>, s: string, tags: set<string>, whole: Result<seq<Item>>)
    requires |s| == 0 && Prepend(nodes, Scan(s, tags)) == whole
    ensures whole == Ok(nodes)
  {
    assert nodes + [] == nodes;
  }

  /** `parse_string` (lib/xmlish.rb:55-83): a loop that cuts matched text off the front of
      the cursor string s and appends leaves and nodes to `nodes`, recursing on the text
      between a listed opening tag and its nearest closing tag. */
  method ParseString(s0: string, tags: set<string>) returns (r: Result<seq<Item>>)
    ensures r == Scan(s0, tags)
    decreases |s0|, 1
  {
    var nodes: seq<Item> := [];
    var s := s0;
    PrependNil(Scan(s0, tags));
    while |s| > 0
      invariant |s| <= |s0|
      invariant Prepend(nodes, Scan(s, tags)) == Scan(s0, tags)
      decreases |s|
    {
      EnterRetry(nodes, s, tags, Scan(s0, tags));
      var m;
      nodes, s, m := SkipUnlisted(nodes, s, tags, Scan(s0, tags));
      if m.None? {
        NoTagStep(nodes, s, tags, Scan(s0, tags));
        r := Ok(nodes + [Text(s)]);
        return;
      }
      var name := m.value.name;
      var head := s[m.value.start .. OpenEnd(m.value)];
      var text := head[..|head| - |name| - 2];
      var pre := if |text| == 0 then [] else [Text(text)];
      ListedStep(nodes, s, head, pre, tags, Scan(s0, tags));
      var err;
      nodes, s, err := ParseElement(nodes, pre, s[|head|..], name, tags, Scan(s0, tags));
      if err.Some? {
        r := Err(err.value);
        return;
      }
    }
    FinalStep(nodes, s, tags, Scan(s0, tags));
    r := Ok(nodes);
  }

  /** The element part of `parse_string` (lib/xmlish.rb:76-80), once the listed opening tag
      `<name>` has been cut off the front of s: the text up to the nearest `</name>` is parsed
      recursively, the node and the text before the tag are pushed, and the closing tag is
      cut off; a missing closing tag, or an error inside, ends the whole parse. */
  method ParseElement(nodes0: seq<Item>, pre: seq<Item>, s0: string, name: string, tags: set<string>,
                      ghost whole: Result<seq<Item>>)
    returns (nodes: seq<Item>, s: string, err: Option<ParseError>)
    requires Prepend(nodes0, ScanElement(pre, s0, name, tags)) == whole
    ensures err.Some? ==> whole == Err(err.value)
    ensures err.None? ==> |s| < |s0| && Prepend(nodes, Scan(s, tags)) == whole
    decreases |s0|, 0
  {
    nodes, s, err := nodes0, s0, None;
    var c := FindClose(s, name);
    if c.None? {
      UnterminatedStep(nodes, pre, s, name, tags, whole);
      err := Some(UnterminatedTag(name));
      return;
    }
    var head := s[c.value.start .. CloseEnd(c.value, name)];
    var nodeText := head[..|head| - |name| - 3];
    var children := ParseString(nodeText, tags);
    if children.Err? {
      ChildErrorStep(nodes, pre, s, name, head, tags, whole);
      err := Some(children.error);
      return;
    }
    ElementStep(nodes, pre, s, name, head, tags, whole);
    nodes := nodes + (pre + [Node(children.value, name)]);
    s := s[|head|..];
  }

  /** The retry loop of `parse_string` (lib/xmlish.rb:59-68): while the first opening tag
      is unlisted, its matched head is pushed as text and cut off the front of s. It ends at
      the first listed tag, or when no opening tag is left. */
  method SkipUnlisted(nodes0: seq<Item>, s0: string, tags: set<string>, ghost whole: Result<seq<Item>>)
    returns (nodes: seq<Item>, s: string, m: Option<OpenMatch>)
    requires Prepend(nodes0, ScanTags(s0, tags)) == whole
    ensures |s| <= |s0|
    ensures m == FindOpen(s) && (m.Some? ==> m.value.name in tags)
    ensures Prepend(nodes, ScanTags(s, tags)) == whole
  {
    nodes, s := nodes0, s0;
    m := FindOpen(s);
    while m.Some? && m.value.name !in tags
      invariant |s| <= |s0|
      invariant m == FindOpen(s)
      invariant Prepend(nodes, ScanTags(s, tags)) == whole
      decreases |s|
    {
      var head := s[m.value.start .. OpenEnd(m.value)];
      UnlistedStep(nodes, s, head, tags, whole);
      nodes := nodes + [Text(head)];
      s := s[|head|..];
      m := FindOpen(s);
    }
  }

  /** The nodes of a list in order, without the leaves around them. */
  function NodesOf(xs: seq<Item>): seq<Item>
    decreases |xs|
  {
    if xs == [] then [] else NodesOf(xs[..|xs| - 1]) + (if xs[|xs| - 1].Node? then [xs[|xs| - 1]] else [])
  }

  /** The text standing in each gap of a list: one gap before the first node, one between
      each two neighbouring nodes and one after the last. A gap holds None when no leaf
      stands there, and otherwise the text of its leaves run together, which may be empty. */
  function Gaps(xs: seq<Item>): (g: seq<Option<string>>)
    ensures |g| == |NodesOf(xs)| + 1
    decreases |xs|
  {
    if xs == [] then [None]
    else
      var g, b := Gaps(xs[..|xs| - 1]), xs[|xs| - 1];
      if b.Node? then g + [None] else g[..|g| - 1] + [Some(Glue(g[|g| - 1], b.s))]
  }

  /** The text of a gap once a leaf s is added to it. */
  function Glue(gap: Option<string>, s: string): string
  {
    match gap
    case None => s
    case Some(t) => t + s
  }

  /** Adding an item at the end: a node ends the last gap and opens an empty one; a leaf
      adds its text to the last gap. */
  lemma GapsSnoc(xs: seq<Item>, b: Item)
    ensures NodesOf(xs + [b]) == NodesOf(xs) + (if b.Node? then [b] else [])
    ensures Gaps(xs + [b]) ==
      if b.Node? then Gaps(xs) + [None]
      else Gaps(xs)[..|Gaps(xs)| - 1] + [Some(Glue(Gaps(xs)[|Gaps(xs)| - 1], b.s))]
  {
    assert (xs + [b])[..|xs|] == xs;
  }

  /** One step of the `inject` fold of `join_adjacent_strings` (lib/xmlish.rb:99-105):
      a text leaf that follows a text leaf is merged into it. */
  function JoinStep(acc: seq<Item>, b: Item): seq<Item>
  {
    if b.Text? && |acc| > 0 && acc[|acc| - 1].Text? then
      acc[..|acc| - 1] + [Text(acc[|acc| - 1].s + b.s)]
    else
      acc + [b]
  }

  /** `join_adjacent_strings` (lib/xmlish.rb:98-106): no two leaves of the result are
      neighbours, and the result has the same characters and nodes in the same order. */
  function JoinAdjacent(xs: seq<Item>): (r: seq<Item>)
    ensures NoAdjacentText(r)
    ensures Expand(r) == Expand(xs)
    ensures |r| <= |xs| && Size(r) <= Size(xs)
    decreases |xs|
  {
    if xs == [] then []
    else
      var init, b := xs[..|xs| - 1], xs[|xs| - 1];
      assert xs == init + [b];
      JoinFoldStep(init, JoinAdjacent(init), b);
      JoinStep(JoinAdjacent(init), b)
  }

  /** One step of the fold keeps what `JoinAdjacent` promises, from a prefix to the prefix
      with one more item. */
  lemma JoinFoldStep(init: seq<Item>, acc: seq<Item>, b: Item)
    requires NoAdjacentText(acc) && Expand(acc) == Expand(init)
    requires |acc| <= |init| && Size(acc) <= Size(init)
    ensures var r := JoinStep(acc, b);
      && NoAdjacentText(r) && Expand(r) == Expand(init + [b])
      && |r| <= |init + [b]| && Size(r) <= Size(init + [b])
  {
    ExpandAppend(init, [b]);
    SizeAppend(init, [b]);
    JoinStepKeeps(acc, b);
  }

  /** Joining keeps the nodes, in order, and the text between each two of them, so a leaf
      between two nodes stays even when it is empty. */
  lemma {:induction false} JoinKeepsGaps(xs: seq<Item>)
    ensures NodesOf(JoinAdjacent(xs)) == NodesOf(xs) && Gaps(JoinAdjacent(xs)) == Gaps(xs)
    decreases |xs|
  {
    if xs != [] {
      var init, b := xs[..|xs| - 1], xs[|xs| - 1];
      assert xs == init + [b];
      JoinKeepsGaps(init);
      var acc := JoinAdjacent(init);
      assert JoinAdjacent(xs) == JoinStep(acc, b);
      JoinStepGaps(acc, b);
      GapsSnoc(acc, b);
      GapsSnoc(init, b);
    }
  }

  /** One step of the fold keeps the nodes and the text of every gap. */
  lemma JoinStepGaps(acc: seq<Item>, b: Item)
    ensures NodesOf(JoinStep(acc, b)) == NodesOf(acc + [b])
    ensures Gaps(JoinStep(acc, b)) == Gaps(acc + [b])
  {
    if b.Text? && |acc| > 0 && acc[|acc| - 1].Text? {
      var init, t := acc[..|acc| - 1], acc[|acc| - 1].s;
      assert acc == init + [Text(t)];
      assert JoinStep(acc, b) == init + [Text(t + b.s)];
      MergeGaps(init, t, b.s);
    } else {
      assert JoinStep(acc, b) == acc + [b];
    }
  }

  lemma MergeGaps(init: seq<Item>, t: string, u: string)
    ensures NodesOf(init + [Text(t + u)]) == NodesOf(init + [Text(t)] + [Text(u)])
    ensures Gaps(init + [Text(t + u)]) == Gaps(init + [Text(t)] + [Text(u)])
  {
    GapsSnoc(init, Text(t));
    GapsSnoc(init, Text(t + u));
    GapsSnoc(init + [Text(t)], Text(u));
    var g, g1 := Gaps(init), Gaps(init + [Text(t)]);
    var k := |g| - 1;
    assert g1 == g[..k] + [Some(Glue(g[k], t))];
    assert g1[..k] == g[..k] && g1[k] == Some(Glue(g[k], t));
    GlueAssoc(g[k], t, u);
  }

  lemma GlueAssoc(gap: Option<string>, t: string, u: string)
    ensures Glue(Some(Glue(gap, t)), u) == Glue(gap, t + u)
  {
    if gap.Some? {
      assert gap.value + (t + u) == gap.value + t + u;
    }
  }

  lemma JoinStepKeeps(acc: seq<Item>, b: Item)
    requires NoAdjacentText(acc)
    ensures NoAdjacentText(JoinStep(acc, b))
    ensures Expand(JoinStep(acc, b)) == Expand(acc) + Expand([b])
    ensures |JoinStep(acc, b)| <= |acc| + 1 && Size(JoinStep(acc, b)) <= Size(acc) + Size([b])
  {
    if b.Text? && |acc| > 0 && acc[|acc| - 1].Text? {
      var init, last := acc[..|acc| - 1], acc[|acc| - 1];
      assert acc == init + [last];
      MergeKeeps(init, last.s, b.s);
    } else {
      ExpandAppend(acc, [b]);
      SizeAppend(acc, [b]);
      var r := acc + [b];
      forall i | 0 <= i < |r| - 1 ensures !(r[i].Text? && r[i + 1].Text?) {
        if i < |acc| - 1 {
          assert r[i] == acc[i] && r[i + 1] == acc[i + 1];
        }
      }
    }
  }

  lemma MergeKeeps(init: seq<Item>, x: string, y: string)
    requires NoAdjacentText(init + [Text(x)])
    ensures NoAdjacentText(init + [Text(x + y)])
    ensures Expand(init + [Text(x + y)]) == Expand(init + [Text(x)]) + Expand([Text(y)])
    ensures Size(init + [Text(x + y)]) <= Size(init + [Text(x)]) + Size([Text(y)])
  {
    MergeExpand(init, x, y);
    SizeAppend(init, [Text(x)]);
    SizeAppend(init, [Text(x + y)]);
    var a, b := init + [Text(x)], init + [Text(x + y)];
    forall i | 0 <= i < |b| - 1 ensures !(b[i].Text? && b[i + 1].Text?) {
      assert b[i] == a[i] && b[i + 1].Text? == a[i + 1].Text?;
    }
  }

  lemma MergeExpand(init: seq<Item>, x: string, y: string)
    ensures Expand(init + [Text(x + y)]) == Expand(init + [Text(x)]) + Expand([Text(y)])
  {
    ExpandAppend(init, [Text(x)]);
    ExpandAppend(init, [Text(x + y)]);
    AtomsOfConcat(x, y);
    ExpandSingle(Text(x + y));
    ExpandSingle(Text(x));
    ExpandSingle(Text(y));
    var e, ax, ay := Expand(init), Atoms(Text(x)), Atoms(Text(y));
    assert e + (ax + ay) == (e + ax) + ay;
  }

  /** The node as `normalise` leaves it: its children joined, then normalised in turn. */
  function NormaliseItem(it: Item): Item
    decreases ItemSize(it), 0, 0
  {
    match it
    case Text(_) => it
    case Node(ch, n) => Node(NormaliseAll(JoinAdjacent(ch)), n)
  }

  /** The list as `normalise` leaves it: each of its nodes normalised, the list itself
      not joined. */
  function NormaliseAll(items: seq<Item>): (r: seq<Item>)
    ensures |r| == |items|
    decreases Size(items), 1, |items|
  {
    if items == [] then [] else [NormaliseItem(items[0])] + NormaliseAll(items[1..])
  }

  lemma {:induction false} NormaliseAllAt(items: seq<Item>, i: nat)
    requires i < |items|
    ensures NormaliseAll(items)[i] == NormaliseItem(items[i])
    decreases i
  {
    if i > 0 {
      NormaliseAllAt(items[1..], i - 1);
    }
  }

  /** `normalise` (lib/xmlish.rb:87-94): replaces the children of each node of the list by
      their joined form, then normalises those children. */
  method Normalise(items: seq<Item>) returns (r: seq<Item>)
    ensures r == NormaliseAll(items)
    decreases Size(items)
  {
    r := items;
    for i := 0 to |r|
      invariant |r| == |items|
      invariant forall j :: 0 <= j < i ==> r[j] == NormaliseItem(items[j])
      invariant forall j :: i <= j < |r| ==> r[j] == items[j]
    {
      if r[i].Node? {
        var joined := JoinAdjacent(r[i].children);
        r := r[i := Node(joined, r[i].name)];
        SizeElement(items, i);
        var kids := Normalise(joined);
        r := r[i := Node(kids, r[i].name)];
      }
      NormaliseAllAt(items, i);
    }
    forall j | 0 <= j < |items| ensures r[j] == NormaliseAll(items)[j] {
      NormaliseAllAt(items, j);
    }
  }

  /** What `Parser#parse` returns: the scanned forest, normalised. */
  function Parsed(s: string, tags: set<string>): Result<seq<Item>>
  {
    match Scan(s, tags)
    case Err(e) => Err(e)
    case Ok(items) => Ok(NormaliseAll(items))
  }

  /** `Parser#parse` (lib/xmlish.rb:48-50). */
  method Parse(s: string, tags: set<string>) returns (r: Result<seq<Item>>)
    ensures r == Parsed(s, tags)
  {
    var scanned := ParseString(s, tags);
    match scanned
    case Err(e) =>
      r := Err(e);
    case Ok(items) =>
      var normal := Normalise(items);
      r := Ok(normal);
  }
}
