# xmlish in Dafny

xmlish renders small marked-up templates such as `Press <red>ENTER</red> to edit`. It has
two entry points. `Xmlish.parse` turns the template into a forest of text leaves and
named nodes, then folds the forest back into one string: each node's rendered content goes
through the callback registered for its tag name, and each text leaf goes through the
callback registered under the reserved key `"text"`. `Xmlish.walk` uses the same parse but
hands each callback a continuation instead of the rendered content. The callback decides
whether, when and how often the subtree is walked, and it produces output as a side
effect. In both entry points the keys of the callback hash are the only tag names the
parser recognises. Every other `<name>` is copied through as text.

The project models `lib/xmlish.rb`:

| file | module | source |
|---|---|---|
| `nodes.dfy` | `Nodes` | the values: `Node`, text leaves (Ruby strings), the parse error, and size, content and well-formedness predicates on forests |
| `scanner.dfy` | `Scanner` | the two regular expressions of `parse_string`, written as leftmost-match search functions proved against declarative predicates |
| `parser.dfy` | `Parser` | `parse_string`, both as a recursive specification (`Scan`) and as a method with the source's loops (`ParseString`); `join_adjacent_strings`; `normalise`; `Parser#parse` |
| `parser_facts.dfy` | `ParserFacts` | what the parser promises: well-formedness, idempotent normalisation, unlisted tags passing through, the error case and the quirks of the code as written |
| `reconstructor.dfy` | `Reconstructor` | `Reconstructor#reconstruct`, `callback_for_tag`, `identity_callback` |
| `walker.dfy` | `Walker` | `Walker#walk`, `callback_for_tag`, `identity_callback`, with callbacks as scripts |
| `xmlish.dfy` | `Xmlish` | `Xmlish.parse` (`Render`) and `Xmlish.walk` (`Traverse`) |
| `round_trip.dfy` | `RoundTrip` | writing a forest out as a template, and the forests whose template the parser reads back unchanged |
| `example_strings.dfy`, `examples.dfy` | `ExampleStrings`, `Examples` | a selection of the examples of `spec/xmlish_spec.rb` and `spec/example_spec.rb`, proved as lemmas |

Some things follow the code where a plain reading of the design would differ:

- **The opening-tag pattern.** `/[^<]*<([A-Za-z0-9]+)>/` matches leftmost. When a stray
  `<` or a non-tag stands before the first tag, the match starts after that `<`, not at the
  cursor. The code still slices `head.length` characters from the front of the string, so
  the text is cut at the wrong place: `"<<b>"` renders as `"<b>>"`. The model keeps this
  behaviour. The pass-through property is proved for templates where every `<` starts a tag
  name, which the model calls aligned.
- **The closing-tag pattern.** `/.*?<\/NAME>/` cannot cross a newline, so its match starts
  after the last newline before the closing tag. The node keeps only the text after that
  newline, and the cut, as long as that text and the closing tag, leaves the end of the
  element to be scanned again: with `red` a key and no transforms, `"<red>a\nb</red>"`
  renders as `"bd>"`. The model keeps this behaviour.
- **A tag inside a tag of the same name.** The element ends at the first closing tag of its
  name, so the inner opening tag is left without one and the parse fails.
- **The round trip.** Because of the two points above, a forest written out as a template is
  read back as itself only when no element holds a newline or an element of its own name
  (and every node is named by a key, every leaf is non-empty and free of `<`, and no two
  leaves are neighbours).
- **An unlisted tag at the very end** of the remaining text leaves an empty text leaf behind
  it. The inner loop runs once more on the empty string. Top-level leaves are not joined,
  so the `"text"` callback is also called with `""`.
- **The key `"text"`** is an ordinary tag name as well. `<text>x</text>` becomes a node
  holding a leaf, so the transform is applied twice.
- **A recognised tag with no closing tag** makes the Ruby code call `length` on `nil`. The
  model reports this as `Err(UnterminatedTag(name))`.

## Model

| member | source | states |
|---|---|---|
| `Scanner.NameRunSpec` | lib/xmlish.rb:60 | the name run starting at a position is the longest run of ASCII letters and digits there |
| `Scanner.OpenTagAtSpec` | lib/xmlish.rb:60 | `<name>` starts at a position exactly when the opening-tag reader returns that name |
| `Scanner.FindOpen` | lib/xmlish.rb:60 | no match exactly when the string holds no `<name>`; otherwise the match is the leftmost one the pattern finds, including its start after the last `<` before the tag |
| `Scanner.FindOpenFromSpec` | lib/xmlish.rb:60 | the left-to-right search, started from any position with nothing found before it, finds the leftmost `<name>` and its match start |
| `Scanner.FindClose` | lib/xmlish.rb:76 | no match exactly when `</name>` does not occur; otherwise the match is the nearest `</name>`, starting after the last newline before it |
| `Scanner.FindCloseFromSpec` | lib/xmlish.rb:76 | the left-to-right search for `</name>` is correct from any position with nothing found before it |
| `Parser.MatchBounds` | lib/xmlish.rb:65 | the matched head is never empty, and the rest is the string with as many characters cut off the front |
| `Parser.UnlistedUnfold` | lib/xmlish.rb:61-66 | an unlisted first tag: the matched head becomes a leaf and the retry goes on with the rest |
| `Parser.ListedUnfold` | lib/xmlish.rb:73-75 | a listed first tag: the text before it (if any) and then the element, read after the opening tag |
| `Parser.ListedHead` | lib/xmlish.rb:73 | cutting the name and `<>` off the end of the head leaves the text between the match start and the tag |
| `Parser.EnterRetry` | lib/xmlish.rb:57-59 | entering the inner retry loop on a non-empty remainder keeps the loop invariant "nodes so far followed by the parse of the rest is the whole result" |
| `Parser.UnlistedStep` | lib/xmlish.rb:61-66 | pushing the matched head of an unlisted tag as text and dropping it from the front keeps the invariant |
| `Parser.NoTagStep` | lib/xmlish.rb:69-72 | when no tag remains, the whole result is the nodes so far followed by the rest as one leaf |
| `Parser.ListedStep` | lib/xmlish.rb:73-75 | pushing the non-empty text before a listed tag and skipping the opening tag keeps the invariant |
| `Parser.UnterminatedStep` | lib/xmlish.rb:76-77 | with no closing tag the whole result is the unterminated-tag error |
| `Parser.ChildErrorStep` | lib/xmlish.rb:77-78 | an error in the recursive parse of the element content is the whole result |
| `Parser.ElementStep` | lib/xmlish.rb:76-80 | pushing the node built from the recursively parsed content and skipping the closing tag keeps the invariant |
| `Parser.SkipUnlisted` | lib/xmlish.rb:59-68 | the retry loop stops at the first listed `<name>`, or where none remains, and keeps the invariant |
| `Parser.ParseElement` | lib/xmlish.rb:76-80 | after a listed opening tag, either the error (no closing tag, or one in the content) is the whole result, or the node is pushed, the rest is shorter and the invariant holds |
| `Parser.FinalStep` | lib/xmlish.rb:56-57 | when the remainder is empty, the nodes collected are the whole result |
| `Parser.ParseString` | lib/xmlish.rb:55-83 | the loops of `parse_string` compute the recursive specification `Scan` for every input, error case included |
| `Parser.JoinAdjacent` | lib/xmlish.rb:98-106 | no two neighbouring text leaves remain; the characters and embedded nodes keep their order; the forest does not grow |
| `Parser.JoinFoldStep` | lib/xmlish.rb:99-104 | one step of the fold keeps those properties from a prefix to the prefix with one more item |
| `Parser.JoinKeepsGaps` | lib/xmlish.rb:98-106 | joining keeps the nodes in order and the text between each two of them, so an empty leaf between two nodes stays |
| `Parser.JoinStepGaps` | lib/xmlish.rb:99-104 | one step of the fold keeps the nodes and the text of every gap |
| `Parser.GapsSnoc` | lib/xmlish.rb:99-104 | appending a node opens a new gap; appending a leaf extends the last gap by its text |
| `ParserFacts.GapsDetermine` | lib/xmlish.rb:98-106 | two lists without neighbouring leaves that have the same nodes and gap texts are equal |
| `ParserFacts.JoinUnique` | lib/xmlish.rb:98-106 | the joined list is the only list without neighbouring leaves that keeps the nodes and gap texts of the input |
| `ParserFacts.JoinStepNames` | lib/xmlish.rb:99-104 | one step of the fold introduces no new tag names |
| `Parser.JoinStepKeeps` | lib/xmlish.rb:99-104 | one step of the fold keeps "no adjacent text" and appends the new item's characters |
| `Parser.MergeKeeps` | lib/xmlish.rb:100-101 | merging a leaf into the previous leaf keeps "no adjacent text" and the character order |
| `Parser.MergeExpand` | lib/xmlish.rb:101 | merging two leaves keeps their characters in order |
| `Parser.NormaliseAll` | lib/xmlish.rb:87-94 | normalising keeps the number of top-level items |
| `Parser.NormaliseAllAt` | lib/xmlish.rb:88-93 | each item is normalised on its own, in place: item i of the result is item i normalised |
| `Parser.Normalise` | lib/xmlish.rb:87-94 | the loop over the items computes `NormaliseAll` |
| `Parser.Parse` | lib/xmlish.rb:48-50 | `Parser#parse` is `parse_string` followed by `normalise` |
| `ParserFacts.JoinIdempotent` | lib/xmlish.rb:98-106 | a forest with no adjacent text leaves is unchanged by joining |
| `ParserFacts.JoinKeepsNames` | lib/xmlish.rb:98-106 | joining introduces no new tag names |
| `ParserFacts.JoinKeepsContent` | lib/xmlish.rb:98-106 | joining keeps the text content |
| `ParserFacts.NormaliseKeepsTopLevel` | lib/xmlish.rb:87-94 | top-level text leaves are left alone; a node keeps its name, and its children become exactly the normalised join of its old children |
| `ParserFacts.KeepsNoAdjacentText` | lib/xmlish.rb:87-94 | normalising keeps a top level that has no adjacent leaves free of them |
| `ParserFacts.NormaliseMakesNormal` | lib/xmlish.rb:87-94 | after normalising, no node at any depth has two adjacent text leaves |
| `ParserFacts.NormaliseItemNormal` | lib/xmlish.rb:89-92 | a normalised node's children have no adjacent text leaves at any depth |
| `ParserFacts.NormaliseIdempotent` | lib/xmlish.rb:87-94 | an already normal forest is unchanged by normalising |
| `ParserFacts.NormaliseItemIdempotent` | lib/xmlish.rb:89-92 | an already normal item is unchanged |
| `ParserFacts.NormaliseTwice` | lib/xmlish.rb:87-94 | normalising twice is the same as normalising once |
| `ParserFacts.NormaliseKeepsContent` | lib/xmlish.rb:87-94 | normalising keeps the text content |
| `ParserFacts.NormaliseKeepsNames` | lib/xmlish.rb:87-94 | normalising introduces no new tag names |
| `ParserFacts.NormaliseItemKeepsNames` | lib/xmlish.rb:89-92 | a normalised node keeps a listed name and listed names below it |
| `ParserFacts.ScanWellFormed` | lib/xmlish.rb:55-83 | every node the parser builds is named by a listed tag; an error names a listed tag |
| `ParserFacts.ScanTagsWellFormed` | lib/xmlish.rb:59-80 | the same for the retry loop |
| `ParserFacts.UnlistedWellFormed` | lib/xmlish.rb:61-66 | the same after an unlisted tag |
| `ParserFacts.ListedWellFormed` | lib/xmlish.rb:73-75 | the same after a listed tag |
| `ParserFacts.ScanElementWellFormed` | lib/xmlish.rb:76-80 | the same for an element and what follows it |
| `ParserFacts.ParsedWellFormed` | lib/xmlish.rb:48-50 | the parse only uses listed names, and a successful parse is normal |
| `ParserFacts.ScanPlainText` | lib/xmlish.rb:69-71 | a string without any `<name>` is one text leaf, or nothing when empty |
| `ParserFacts.PlainText` | lib/xmlish.rb:48-50 | the same for the normalised parse |
| `ParserFacts.FindOpenAfterText` | lib/xmlish.rb:60 | after text without `<`, the first `<name>` is matched from the cursor |
| `ParserFacts.OpensAtUnique` | lib/xmlish.rb:60 | at most one tag name opens at a position |
| `ParserFacts.FindCloseAfterText` | lib/xmlish.rb:76 | the first `</name>` after newline-free content is matched from the cursor |
| `ParserFacts.NoCloseTagByFirstChar` | lib/xmlish.rb:76 | a string without the first letter of the name holds no `</name>` |
| `ParserFacts.UnlistedTagCopied` | lib/xmlish.rb:61-66 | text followed by an unlisted tag is copied verbatim as one leaf, and the scan resumes after it |
| `ParserFacts.ListedTagHead` | lib/xmlish.rb:73-75 | text followed by a listed tag gives the text (if any) and then the element |
| `ParserFacts.ElementAfterClose` | lib/xmlish.rb:76-80 | the element's children are the parse of the text up to the nearest closing tag |
| `ParserFacts.ListedTagNode` | lib/xmlish.rb:73-80 | `text<n>inner</n>after` parses as the text leaf, the node of the parsed inner text, and the parse of what follows |
| `ParserFacts.MissingCloseFails` | lib/xmlish.rb:76-77 | a listed tag with no closing tag makes the whole parse fail with that tag's name |
| `ParserFacts.TrailingEmptyLeaf` | lib/xmlish.rb:59-71 | an unlisted tag ending the template leaves an empty text leaf after it |
| `ParserFacts.AlignedSuffix` | lib/xmlish.rb:65 | what remains after cutting an aligned string at a tag boundary is aligned |
| `ParserFacts.AlignedMatchAtFront` | lib/xmlish.rb:60 | in an aligned string the match starts at the cursor |
| `ParserFacts.PassThroughStep` | lib/xmlish.rb:61-66 | an unlisted tag matched at the cursor is copied through as text |
| `ParserFacts.ScanTagsPassThrough` | lib/xmlish.rb:59-71 | with no listed tag in an aligned string, the retry loop gives text leaves whose content is the string |
| `ParserFacts.UnlistedPassThrough` | lib/xmlish.rb:55-83 | unlisted tags pass through like normal text: the parse is text leaves spelling the template |
| `ParserFacts.MisalignedTagShiftsText` | lib/xmlish.rb:60-65 | with `b` unlisted, a stray `<` before the tag cuts the text in the wrong place: `"<<b>"` gives `"<b>"` and `">"` |
| `Reconstructor.CallbackFor` | lib/xmlish.rb:140-150 | no callback for a name that is not a key; the identity for a key with no callback; the registered one otherwise |
| `Reconstructor.ReconstructAppend` | lib/xmlish.rb:118-135 | siblings render left to right and their results are concatenated |
| `Reconstructor.ReconstructIdentity` | lib/xmlish.rb:118-150 | with every callback nil, rendering removes the tags and keeps the text |
| `Reconstructor.ReconstructItemIdentity` | lib/xmlish.rb:119-134 | the same for one item |
| `Reconstructor.ReconstructJoin` | lib/xmlish.rb:98-106 | without a `"text"` callback, joining adjacent leaves does not change the output |
| `Reconstructor.ReconstructJoinStep` | lib/xmlish.rb:99-104 | the same for one step of the fold |
| `Reconstructor.ReconstructNormalise` | lib/xmlish.rb:87-94 | without a `"text"` callback, normalising does not change the output |
| `Reconstructor.ReconstructNormaliseItem` | lib/xmlish.rb:89-92 | the same for one item |
| `Walker.CallbackFor` | lib/xmlish.rb:185-195 | no callback for a name that is not a key; the identity (run the continuation once) for a key with no callback; the registered one otherwise |
| `Walker.ThenAssoc` | lib/xmlish.rb:164-180 | running callback steps one after another is associative |
| `Walker.RunSingle` | lib/xmlish.rb:168 | a one-action callback is that action |
| `Walker.WalkAppend` | lib/xmlish.rb:163-181 | siblings are walked left to right: values and recorded lines concatenate |
| `Walker.RunActionsAppend` | lib/xmlish.rb:168 | a callback's actions run in order: values and recorded lines concatenate |
| `Walker.BracketedSubtree` | lib/xmlish.rb:166-168 | a callback that records a line, runs the continuation and records another brackets the subtree's output between the two lines |
| `Walker.RepeatedForce` | lib/xmlish.rb:168 | each run of the continuation walks the subtree again and repeats its output |
| `Walker.UnforcedIgnoresSubtree` | lib/xmlish.rb:168 | a callback that never runs its continuation does not depend on the children at all |
| `Walker.MirrorsCallback` | lib/xmlish.rb:185-195 | a lifted transform is registered for exactly the same names, and runs the continuation once and returns the transform of its value |
| `Walker.WalkMirrorsReconstruct` | lib/xmlish.rb:118-136 | walking with each transform run once records nothing and returns what the reconstructor renders |
| `Walker.WalkItemMirrors` | lib/xmlish.rb:164-179 | the same for one item, including the two identity callbacks |
| `Xmlish.RenderUsesKeys` | lib/xmlish.rb:6-8 | the callback keys are the only tag names: every node has a callback and an error names a key |
| `Xmlish.ReconstructTextOnly` | lib/xmlish.rb:127-133 | without a `"text"` callback, text leaves render as their content |
| `Xmlish.RenderPassThrough` | lib/xmlish.rb:6-8 | an aligned template with no tag named by a key and no `"text"` callback renders unchanged |
| `Xmlish.RenderPlainText` | lib/xmlish.rb:6-8 | a template without tags renders through the `"text"` callback, or unchanged; the empty template renders empty |
| `Xmlish.MisalignedRender` | lib/xmlish.rb:6-8 | when `b` is not a key and text leaves are not transformed, `"<<b>"` renders as `"<b>>"` |
| `Xmlish.TrailingLeafRendered` | lib/xmlish.rb:6-8 | the empty leaf after a trailing unlisted tag is also passed to the `"text"` callback |
| `Xmlish.TextsNormal` | lib/xmlish.rb:87-94 | a forest of text leaves is left unchanged by normalising |
| `Xmlish.RenderTwoLeaves` | lib/xmlish.rb:127-135 | two leaves render as the `"text"` callback applied to each, joined |
| `Xmlish.TextKeyIsATag` | lib/xmlish.rb:6-8 | `<text>x</text>` with a `"text"` callback renders as the callback applied twice |
| `Xmlish.TextElementParses` | lib/xmlish.rb:55-83 | with `"text"` the only key, `<text>x</text>` parses as a `text` node holding the leaf x |
| `Xmlish.TextElementNormal` | lib/xmlish.rb:87-94 | that node is already normal |
| `Xmlish.TextElementRenders` | lib/xmlish.rb:118-150 | the `"text"` transform renders the leaf, then the node's content |
| `Xmlish.TraverseMirrorsRender` | lib/xmlish.rb:13-15 | `walk` with each transform run once fails like `parse` or returns the same string with nothing recorded |
| `RoundTrip.TemplateTail` | lib/xmlish.rb:55-83 | the tail of a template forest is a template forest |
| `RoundTrip.ClosedAppend` | lib/xmlish.rb:76 | a string whose every `<` is later closed by `>` stays so when such strings are joined |
| `RoundTrip.TagsClosed` | lib/xmlish.rb:76 | opening and closing tags close their `<` |
| `RoundTrip.ClosesShift` | lib/xmlish.rb:76 | a closing tag in the second part of a joined string is a closing tag of that part |
| `RoundTrip.ClosesWithin` | lib/xmlish.rb:76 | a closing tag inside the first part of a joined string is a closing tag of that part |
| `RoundTrip.ClosesSpan` | lib/xmlish.rb:76 | no closing tag straddles the join when every `<` of the first part is closed within it |
| `RoundTrip.NoCloseAppend` | lib/xmlish.rb:76 | two strings without `</n>` joined, the first closing its `<`, have no `</n>` |
| `RoundTrip.OpenNoClose` | lib/xmlish.rb:76 | an opening tag holds no closing tag |
| `RoundTrip.TagsNoClose` | lib/xmlish.rb:76 | the tags of one name hold no closing tag of another name |
| `RoundTrip.UnparseClosed` | lib/xmlish.rb:76 | a template closes every `<` it opens |
| `RoundTrip.ItemClosed` | lib/xmlish.rb:76 | the same for one item |
| `RoundTrip.UnparseNoClose` | lib/xmlish.rb:76 | a template with no node named n holds no `</n>`, so an element's closing tag is the first one after it |
| `RoundTrip.ItemNoClose` | lib/xmlish.rb:76 | the same for one item |
| `RoundTrip.UnparseNoNewline` | lib/xmlish.rb:76 | the template of a node's children has no newline |
| `RoundTrip.ElementAndRest` | lib/xmlish.rb:73-80 | text, an element written out and a rest are read back as the leaf, the node and the rest |
| `RoundTrip.ScanUnparse` | lib/xmlish.rb:55-83 | `parse_string` reads the template of a template forest back as that forest |
| `RoundTrip.LastLeaf` | lib/xmlish.rb:69-71 | the same for a single leaf |
| `RoundTrip.NodeFirst` | lib/xmlish.rb:73-80 | the same for a forest starting with a node |
| `RoundTrip.LeafFirst` | lib/xmlish.rb:73-80 | the same for a forest starting with a leaf |
| `RoundTrip.NodeAndRest` | lib/xmlish.rb:73-80 | a forest starting with a node, after text without `<`, is read back after that text's leaf |
| `RoundTrip.NodeFacts` | lib/xmlish.rb:76-80 | the children of a template node meet the conditions of the closing-tag search |
| `RoundTrip.TemplateNormal` | lib/xmlish.rb:87-94 | a template forest is already normal |
| `RoundTrip.ParsedUnparse` | lib/xmlish.rb:48-50 | `Parser#parse` reads the template of a template forest back as that forest |
| `RoundTrip.RenderUnparse` | lib/xmlish.rb:6-8 | `Xmlish.parse` of the template of a template forest is the reconstruction of the forest |
| `RoundTrip.IdentityRoundTrip` | lib/xmlish.rb:6-8 | with every callback nil, `Xmlish.parse` of the template of a template forest is its text content |
| `RoundTrip.TraverseUnparse` | lib/xmlish.rb:13-15 | `Xmlish.walk` of the template of a template forest walks the forest |
| `RoundTrip.NewlineInElement` | lib/xmlish.rb:76-80 | `<n>x\ny</n>` is read as an n node holding only y, followed by the parse of the end of the template, one character longer than x |
| `RoundTrip.NewlineClose` | lib/xmlish.rb:76 | there the closing-tag match starts right after the newline |
| `RoundTrip.NewlineElement` | lib/xmlish.rb:76-80 | there the element holds only the text after the newline |
| `RoundTrip.NewlineBreaksRoundTrip` | lib/xmlish.rb:76-80 | the template of an element whose text has a newline is never read back as that element |
| `RoundTrip.SameNameNested` | lib/xmlish.rb:73-80 | the template of an n node inside an n node fails to parse, naming n |
| `RoundTrip.NestedTemplate` | lib/xmlish.rb:73-80 | how that template splits at the first closing tag |
| `Examples.ParsePlainText` | spec/xmlish_spec.rb:13-15 | "test" parses as one leaf |
| `Examples.ScanSingleTag` | spec/xmlish_spec.rb:17-19 | "Press <red>ENTER</red>" gives a leaf and a `red` node |
| `Examples.ParseSingleTag` | spec/xmlish_spec.rb:17-21 | for any listed name n, "Press <n>ENTER</n>" parses, after normalising, as the leaf "Press " and an n node holding "ENTER" |
| `Examples.ParseRedSingleTag` | spec/xmlish_spec.rb:17-19 | "Press <red>ENTER</red>" parses as the test expects |
| `Examples.ParseBoldSingleTag` | spec/xmlish_spec.rb:20-21 | "Press <bold>ENTER</bold>" parses as the test expects |
| `Examples.ScanRepeatedNested` | spec/example_spec.rb:6-7 | the nested template parses as two leaves and two nested nodes |
| `Examples.ScanRepeatedTag` | spec/xmlish_spec.rb:29-31 | a repeated tag gives two nodes of the same name |
| `Examples.ParseRepeatedTag` | spec/xmlish_spec.rb:29-32 | the same after normalising |
| `Examples.ScanPassThrough` | spec/xmlish_spec.rb:39-41 | unlisted `bold` tags are copied as text around the `red` nodes |
| `Examples.ParsePassThrough` | spec/xmlish_spec.rb:39-42 | after normalising, the leaves inside a node are joined: the expected forest of the test |
| `Examples.ReconstructNullNested` | spec/xmlish_spec.rb:62-66 | nil callbacks render nested tags as their text |
| `Examples.ReconstructModifyingRepeatedNested` | spec/xmlish_spec.rb:103-110 | nested transforms apply inside out: "Press $\*\*ENTER\*\*$ or $\*\*ESC\*\*$" |
| `Examples.RenderRepeatedNested` | spec/example_spec.rb:6-13 | the nested template renders as "Press $\*\*ENTER\*\*$ or \*\*$ESC$\*\*" |
| `Examples.ReconstructShouting` | spec/example_spec.rb:26-32 | the `"text"` callback applies to every leaf, inside nodes too |
| `Examples.RenderPlainTextCallbacks` | spec/example_spec.rb:26-33 | the template renders as "(PRESS )$(ENTER)$( OR )$(ESC)$" |
| `Examples.ReconstructLeaveIntact` | spec/example_spec.rb:35-40 | tags without a callback stay in the output as text |
| `Examples.RenderLeaveIntact` | spec/example_spec.rb:35-41 | the template renders as "Press $\<bold\>ENTER\</bold\>$ or \<bold\>$ESC$\</bold\>" |
| `Examples.ScanBadSyntax` | spec/example_spec.rb:43-47 | mismatched closing tags of unlisted names are kept as text |
| `Examples.ReconstructBadSyntax` | spec/example_spec.rb:43-48 | that forest renders with the stray closing tags unchanged |
| `Examples.RenderBadSyntax` | spec/example_spec.rb:43-49 | the template renders as "Press $ENTER\</bold\>$ or \<bold\>$ESC$\</penguins\>\</\>" |
| `Examples.WalkRepeatedTag` | spec/example_spec.rb:56-65 | the walk records the upcased leaves and the `red` brackets in order |
| `Examples.NewlineExampleScan` | lib/xmlish.rb:76-80 | with `red` listed, `"<red>a\nb</red>"` is read as a `red` node holding `b` followed by the leaf `d>` |
| `Examples.NewlineExample` | lib/xmlish.rb:76-80 | with `red` a key and no transforms, that template renders as `"bd>"`, not `"a\nb"` |
| `Examples.WalkBuildsOutput` | spec/example_spec.rb:53-68 | walking the template records "PRESS ", "{red-on}", "ENTER", "{red-off}", " OR ", "{red-on}", "ESC", "{red-off}" |

## Left out

- Regular expressions in general: only the two patterns of `parse_string` are modelled, as search functions over strings.
- `callbacks=nil` as the default of `Xmlish.parse` and `Xmlish.walk`: calling `keys` on `nil` raises. The model always takes a callback map.
- Ruby exceptions: a missing closing tag raises `NoMethodError` in the source. The model returns `Err(UnterminatedTag(name))` instead.
- Reconstructor callbacks are total functions from string to string. Side effects inside them and non-string return values are not modelled.
- Walker callbacks are scripts: lines recorded, continuation runs, and a result computed from the values of those runs. Arbitrary Ruby code is not modelled; the output array the callbacks append to becomes the trace.
- `Walker.WalkAll`: the value of a walk is the joined callback results as strings. Ruby's `join` of non-string results (such as the arrays `output <<` returns) is not modelled, and the examples state the trace, not the value.
- `Parser.Normalise`: the source assigns each Node's `nodes` field in place. The model builds a new forest with the same items in the same places, so aliasing between nodes is not modelled.
- `RoundTrip.ScanUnparse`: the round trip holds for template forests only. When an element holds a newline the parse differs (`RoundTrip.NewlineBreaksRoundTrip`); when it holds an element of its own name it fails (`RoundTrip.SameNameNested`); empty leaves, neighbouring leaves, leaves with `<` and unlisted names are not written back the same way by `Unparse`.
- `Examples.UpChar`: Ruby's `upcase` is modelled for ASCII letters only; `downcase` is not modelled.
- spec/example_spec.rb:15-24, "more complex repeated nested tags", is not modelled as a lemma.
- spec/xmlish_spec.rb:24-27, 34-37, 51-53, 56-60, 68-72, 74-78 and 82-101 are not stated as lemmas of their own. They are smaller cases of the single-tag, pass-through and repeated-nested lemmas above and of `Reconstructor.ReconstructIdentity`.
- RSpec itself, the gem packaging and the `private` visibility of the helper methods.
