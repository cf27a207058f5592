/** The two patterns the parser searches for, re-implemented as scanners over characters.
    Both searches are unanchored: like a regular-expression search they report the
    LEFTMOST match, which need not start at the beginning of the string. */
module Scanner {
  import opened Nodes

  /** A character of a tag name: an ASCII letter or digit. */
  predicate IsNameChar(c: char)
  {
    'A' <= c <= 'Z' || 'a' <= c <= 'z' || '0' <= c <= '9'
  }

  predicate IsName(n: string)
  {
    |n| > 0 && forall i :: 0 <= i < |n| ==> IsNameChar(n[i])
  }

  /** An opening tag `<n>` occupies s[i .. i + |n| + 2]. */
  predicate OpensAt(s: string, i: nat, n: string)
  {
    IsName(n) && i + |n| + 2 <= |s| && s[i] == '<' && s[i + 1 .. i + 1 + |n|] == n && s[i + 1 + |n|] == '>'
  }

  /** A closing tag `</n>` occupies s[i .. i + |n| + 3]. */
  predicate ClosesAt(s: string, i: nat, n: string)
  {
    i + |n| + 3 <= |s| && s[i] == '<' && s[i + 1] == '/' && s[i + 2 .. i + 2 + |n|] == n && s[i + 2 + |n|] == '>'
  }

  ghost predicate NoOpenTag(s: string)
  {
    forall j: nat, n :: !OpensAt(s, j, n)
  }

  ghost predicate NoCloseTag(s: string, n: string)
  {
    forall j: nat :: !ClosesAt(s, j, n)
  }

  /** Number of consecutive name characters of s from position i on. */
  function NameRun(s: string, i: nat): nat
    requires i <= |s|
    decreases |s| - i
  {
    if i < |s| && IsNameChar(s[i]) then 1 + NameRun(s, i + 1) else 0
  }

  lemma {:induction false} NameRunSpec(s: string, i: nat)
    requires i <= |s|
    ensures i + NameRun(s, i) <= |s|
    ensures forall j :: i <= j < i + NameRun(s, i) ==> IsNameChar(s[j])
    ensures i + NameRun(s, i) < |s| ==> !IsNameChar(s[i + NameRun(s, i)])
    decreases |s| - i
  {
    if i < |s| && IsNameChar(s[i]) {
      NameRunSpec(s, i + 1);
    }
  }

  /** The name of the opening tag that starts at position i, if one does. */
  function OpenTagAt(s: string, i: nat): Option<string>
    requires i < |s|
  {
    if s[i] != '<' then None
    else
      var k := NameRun(s, i + 1);
      if k > 0 && i + 1 + k < |s| && s[i + 1 + k] == '>' then Some(s[i + 1 .. i + 1 + k]) else None
  }

  /** OpenTagAt recognises exactly the opening tags: at most one name fits at a position. */
  lemma OpenTagAtSpec(s: string, i: nat)
    requires i < |s|
    ensures forall n :: OpensAt(s, i, n) <==> OpenTagAt(s, i) == Some(n)
  {
    if s[i] == '<' {
      NameRunSpec(s, i + 1);
    }
  }

  /** A match of the pattern `[^<]*<([A-Za-z0-9]+)>`: it covers s[start .. lt + |name| + 2],
      the opening tag itself starts at lt, and the captured group is name. */
  datatype OpenMatch = OpenMatch(start: nat, lt: nat, name: string)

  /** m is the leftmost match of the opening-tag pattern in s: the tag is the first opening
      tag of s, and the match starts right after the last `<` that precedes it (the
      `[^<]*` prefix cannot cross a `<`), or at 0 when there is none. */
  ghost predicate IsLeftmostOpen(s: string, m: OpenMatch)
  {
    && m.start <= m.lt
    && OpensAt(s, m.lt, m.name)
    && (forall j: nat, n :: j < m.lt ==> !OpensAt(s, j, n))
    && (forall j :: m.start <= j < m.lt ==> s[j] != '<')
    && (m.start == 0 || s[m.start - 1] == '<')
  }

  function OpenEnd(m: OpenMatch): nat
  {
    m.lt + |m.name| + 2
  }

  /** The search for the opening-tag pattern. */
  function FindOpen(s: string): (r: Option<OpenMatch>)
    ensures r.None? <==> NoOpenTag(s)
    ensures r.Some? ==> IsLeftmostOpen(s, r.value)
  {
    FindOpenFromSpec(s, 0, 0);
    FindOpenFrom(s, 0, 0)
  }

  /** The search from position i on; the current match attempt started at `start`. */
  function FindOpenFrom(s: string, i: nat, start: nat): Option<OpenMatch>
    requires i <= |s|
    decreases |s| - i
  {
    if i == |s| then
      None
    else if s[i] != '<' then
      FindOpenFrom(s, i + 1, start)
    else
      match OpenTagAt(s, i)
      case Some(n) => Some(OpenMatch(start, i, n))
      case None => FindOpenFrom(s, i + 1, i + 1)
  }

  lemma {:induction false} FindOpenFromSpec(s: string, i: nat, start: nat)
    requires start <= i <= |s|
    requires forall j: nat, n :: j < i ==> !OpensAt(s, j, n)
    requires forall j :: start <= j < i ==> s[j] != '<'
    requires start == 0 || s[start - 1] == '<'
    ensures FindOpenFrom(s, i, start).None? <==> NoOpenTag(s)
    ensures FindOpenFrom(s, i, start).Some? ==> IsLeftmostOpen(s, FindOpenFrom(s, i, start).value)
    decreases |s| - i
  {
    if i < |s| {
      OpenTagAtSpec(s, i);
      if s[i] != '<' {
        FindOpenFromSpec(s, i + 1, start);
      } else if OpenTagAt(s, i).None? {
        FindOpenFromSpec(s, i + 1, i + 1);
      }
    }
  }

  /** A match of the pattern `.*?</name>`: it covers s[start .. lt + |name| + 3] and the
      closing tag itself starts at lt. */
  datatype CloseMatch = CloseMatch(start: nat, lt: nat)

  /** m is the leftmost match of the closing-tag pattern for n in s: the closing tag is the
      first `</n>` of s (the `.*?` is non-greedy), and the match starts right after the last
      newline that precedes it (`.` does not match a newline), or at 0 when there is none. */
  ghost predicate IsLeftmostClose(s: string, n: string, m: CloseMatch)
  {
    && m.start <= m.lt
    && ClosesAt(s, m.lt, n)
    && (forall j: nat :: j < m.lt ==> !ClosesAt(s, j, n))
    && (forall j :: m.start <= j < m.lt ==> s[j] != '\n')
    && (m.start == 0 || s[m.start - 1] == '\n')
  }

  function CloseEnd(m: CloseMatch, n: string): nat
  {
    m.lt + |n| + 3
  }

  /** The search for the closing-tag pattern of n. */
  function FindClose(s: string, n: string): (r: Option<CloseMatch>)
    ensures r.None? <==> NoCloseTag(s, n)
    ensures r.Some? ==> IsLeftmostClose(s, n, r.value)
  {
    FindCloseFromSpec(s, n, 0, 0);
    FindCloseFrom(s, n, 0, 0)
  }

  function FindCloseFrom(s: string, n: string, i: nat, start: nat): Option<CloseMatch>
    requires i <= |s|
    decreases |s| - i
  {
    if i == |s| then
      None
    else if ClosesAt(s, i, n) then
      Some(CloseMatch(start, i))
    else if s[i] == '\n' then
      FindCloseFrom(s, n, i + 1, i + 1)
    else
      FindCloseFrom(s, n, i + 1, start)
  }

  lemma {:induction false} FindCloseFromSpec(s: string, n: string, i: nat, start: nat)
    requires start <= i <= |s|
    requires forall j: nat :: j < i ==> !ClosesAt(s, j, n)
    requires forall j :: start <= j < i ==> s[j] != '\n'
    requires start == 0 || s[start - 1] == '\n'
    ensures FindCloseFrom(s, n, i, start).None? <==> NoCloseTag(s, n)
    ensures FindCloseFrom(s, n, i, start).Some? ==> IsLeftmostClose(s, n, FindCloseFrom(s, n, i, start).value)
    decreases |s| - i
  {
    if i == |s| {
      assert forall j: nat :: j >= i ==> !ClosesAt(s, j, n);
    } else if !ClosesAt(s, i, n) {
      if s[i] == '\n' {
        FindCloseFromSpec(s, n, i + 1, i + 1);
      } else {
        FindCloseFromSpec(s, n, i + 1, start);
      }
    }
  }
}
