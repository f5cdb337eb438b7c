# Product advisor: selection and request logic

A model of the behaviour behind the catalog page of a skincare product
advisor (`script.js`). The page shows the products of one category, lets the
user select products by clicking their cards, lists the selection in a
sidebar where items can be removed, keeps the selection in one browser-storage
slot, and sends two kinds of requests to a chat-completion proxy: a routine
request built from the selected products, and follow-up chat questions.

The model has one module per concern:

- `Seqs` (`seqs.dfy`): `Filter`, the order-preserving filter behind every
  `Array.prototype.filter` call of the script, with its properties.
- `Catalog` (`catalog.dfy`): the `Product` record, the category filter of the
  product grid and the resolution of selected ids into products.
- `Selection` (`selection.dfy`): removing and toggling an id, as functions
  with their laws, and the class `SelectionState`. Its field `selected` is the
  module-level id list. Its field `stored` is the content of the storage slot.
  `Toggle` and `Remove` change both fields in place, as the click handlers do.
- `Requests` (`requests.dfy`): the routine request and its empty-selection
  guard, and the follow-up chat request and its trim guard. This includes the
  set of characters that JavaScript's `trim` removes.
- `Replies` (`replies.dfy`): how each handler picks the text to show from the
  proxy's response: `reply`, else `choices[0].message.content`, else a fixed
  warning. An empty string counts as absent, as in a JavaScript condition.
- `Wrappers` (`wrappers.dfy`): `Option`.

Points of behaviour worth knowing, all as the code has them:

- A stored value that is not valid JSON makes `JSON.parse` throw at start-up
  (script.js:10). `|| []` only covers a missing or falsy value. The model's
  `Load` takes the already-decoded slot.
- The follow-up request sends the trimmed text (script.js:160, 183), not the
  raw input.
- Two toggles of the same id restore membership but not always order. An
  unselected id is appended and then filtered out, which restores the exact
  list. A selected id is filtered out and then appended at the end, so it
  moves (`ToggleTwiceFromPresent`, `ToggleTwiceReorders`).
- A JSON `null` response body throws: `data && data.reply` is false, and then
  `data.choices` throws. So the handler shows its failure text from the
  `catch` block, not its format warning (`Resolve`, `HandlerText`).

## Model

| member | source | states |
|---|---|---|
| Seqs.Filter | script.js:25 | the result holds exactly the input's elements that satisfy the callback, and is no longer than the input |
| Seqs.FilterCount | script.js:62 | every kept element keeps its number of occurrences; every other element has none |
| Seqs.FilterIsSubsequence | script.js:74 | the result is the input with elements deleted, in the input's order |
| Seqs.FilterConcat | script.js:62 | filtering a concatenation filters each part independently |
| Seqs.FilterKeepsAll | script.js:88 | a filter that keeps every element returns the input unchanged |
| Seqs.FilterCongruent | script.js:96 | the result depends only on the callback's answers on the input's elements |
| Seqs.FilterNoDuplicates | script.js:88 | filtering a duplicate-free list leaves it duplicate-free |
| Seqs.NoDuplicatesCount | script.js:61-64 | in a duplicate-free list each member occurs exactly once |
| Catalog.ByCategory | script.js:23-25 | the grid shows exactly the catalog products whose category equals the filter value, each as often as in the catalog, in catalog order |
| Catalog.SelectedProducts | script.js:94-97 | the selected products are exactly the catalog products whose id is selected, each as often as in the catalog, in catalog order |
| Catalog.SelectedDependsOnCatalogIdsOnly | script.js:96 | the order of the selection does not matter, and neither do ids that no product carries |
| Catalog.UnknownIdDropped | script.js:74 | selecting an id unknown to the catalog leaves the selected products unchanged |
| Catalog.SelectedEmptyIff | script.js:95-97 | the resolved list is empty exactly when no catalog product's id is selected |
| Catalog.SelectedOutsideFilterStillListed | script.js:72-74 | a selected product outside the current category is absent from the grid and still in the sidebar list |
| Catalog.SelectedInCatalogOrderExample | script.js:96 | selection `[2, 1]` over catalog `[p1, p2]` resolves to `[p1, p2]` |
| Selection.Without | script.js:88 | the id is gone and every other id keeps its count and relative order |
| Selection.Toggled | script.js:60-65 | the clicked id's membership flips; an unselected id is appended at the end; other ids keep their counts and order |
| Selection.WithoutAbsent | script.js:87-88 | removing an id that is not selected changes nothing |
| Selection.WithoutIdempotent | script.js:87-88 | removing an id twice equals removing it once |
| Selection.RemoveAgreesWithToggleOff | script.js:61-62 | on a selected id, sidebar removal and card toggle produce the same selection |
| Selection.WithoutKeepsNoDuplicates | script.js:88 | removal keeps a duplicate-free selection duplicate-free |
| Selection.ToggleKeepsNoDuplicates | script.js:61-64 | toggling keeps a duplicate-free selection duplicate-free |
| Selection.ToggleTwiceFromAbsent | script.js:60-65 | selecting then deselecting an unselected id restores the exact selection |
| Selection.ToggleTwiceMovesToEnd | script.js:60-65 | for any selection holding the id, deselecting then reselecting it gives the others in their order followed by the id |
| Selection.ToggleTwiceFromPresent | script.js:60-65 | deselecting then reselecting a selected id gives the others followed by the id: same members, same counts |
| Selection.ToggleTwiceReorders | script.js:62-64 | `[1, 2]` toggled twice on 1 becomes `[2, 1]` |
| Selection.ToggledMembership | script.js:61-64 | one toggle flips the clicked id's membership and no other id's |
| Selection.ToggleParity | script.js:60-65 | after any sequence of card clicks, an id is selected iff (selected before) xor (clicked an odd number of times) |
| Selection.ToggleAllKeepsNoDuplicates | script.js:60-65 | any sequence of clicks keeps a duplicate-free selection duplicate-free |
| Selection.ToggleSameIdParity | script.js:60-65 | from unselected, n clicks on one card leave it selected iff n is odd |
| Selection.SelectionState.Load | script.js:10 | the selection starts as the stored ids, or empty when the slot holds nothing; the slot is untouched |
| Selection.SelectionState.Toggle | script.js:60-69 | the selection becomes its toggle; the slot then holds exactly the new selection; no duplicates are introduced |
| Selection.SelectionState.Remove | script.js:87-92 | the selection loses the id and nothing else; no-op when absent; the slot then holds exactly the new selection |
| Selection.SelectionState.GenerateRoutine | script.js:109-129 | no request iff no catalog product is selected; otherwise the routine request for the selected products in catalog order |
| Selection.RemoveMatchesToggleOff | script.js:87-89 | removal and toggle-off, applied to equal states, leave equal selections and equal stored values |
| Requests.Join | script.js:127 | joining no parts gives the empty string and one part gives that part; a join starts with its first part and ends with its last |
| Requests.JoinAppend | script.js:127 | joining two non-empty lists is the join of the first, the separator, then the join of the second; with the one-part case this fixes every part in order, once each, with the separator between neighbours |
| Requests.Entry | script.js:126 | an entry is `- `, the name, ` by `, the brand, `: ` and the description, at these offsets and with nothing else |
| Requests.Entries | script.js:125-127 | one entry per selected product, in the order given |
| Requests.JoinContains | script.js:125-127 | every part of a join appears in the joined text |
| Requests.EntryMentions | script.js:126 | a product's entry contains its name, brand and description |
| Requests.RoutineListing | script.js:125-127 | the user message starts with the fixed introduction and ends with the fixed closing request |
| Requests.RoutineListingHasEntry | script.js:125-127 | the user message contains the `- name by brand: description` entry of every selected product; the entries stand in the order given, as `Entries` and `JoinAppend` state |
| Requests.RoutineListingMentions | script.js:123-128 | the user message contains each selected product's entry, name, brand and description |
| Requests.RoutineRequest | script.js:110-129 | no request iff the resolved selection is empty; otherwise model `gpt-4o`, the fixed system message, then the product listing as the user message |
| Requests.JsSpaceClass | script.js:160 | the characters `trim` removes include space, tab, line feed and carriage return, and never an ASCII letter or digit |
| Requests.IsJsSpace | script.js:160 | the characters `trim()` removes: ECMAScript WhiteSpace (tab, vertical tab, form feed, space, no-break space, byte order mark, the Unicode space separators) and LineTerminator (LF, CR, LS, PS) |
| Requests.TrimStart | script.js:160 | drops exactly the leading white space: the result is a suffix that does not start with white space |
| Requests.TrimEnd | script.js:160 | drops exactly the trailing white space: the result is a prefix that does not end with white space |
| Requests.TrimBothEmptyIff | script.js:160-161 | trimming both ends leaves nothing exactly when the input is all white space |
| Requests.TrimBothEnds | script.js:160 | what is left after trimming neither starts nor ends with white space |
| Requests.Trim | script.js:160 | the result is a slice of the input surrounded only by white space, with non-white ends; it is empty iff the input is all white space |
| Requests.TrimIdempotent | script.js:160 | trimming trimmed text changes nothing |
| Requests.ChatRequest | script.js:157-186 | no request iff the input is all white space; otherwise the fixed system message and the trimmed, non-empty text as the only user message |
| Replies.FirstContent | script.js:145 | a content is found exactly when `choices` has a first entry with a `message`, and it is that message's content |
| Replies.Resolve | script.js:143-149 | throws iff the body is `null`; otherwise shows the warning or a truthy `reply` or first-choice content, where truthy means present and non-empty (`Truthy`, and `EmptyReplyIsAbsent` below) |
| Replies.ReplyTakesPrecedence | script.js:143-144 | a non-empty `reply` is shown whatever `choices` holds |
| Replies.ChoiceContentIsFallback | script.js:145-146 | without a truthy `reply`, a truthy first-choice content is shown |
| Replies.WarningWhenNeither | script.js:147-148 | with neither field usable, the warning is shown |
| Replies.EmptyReplyIsAbsent | script.js:143 | `reply: ""` behaves exactly like a missing `reply` |
| Replies.HandlerText | script.js:131-153 | a failed request or a `null` body shows the failure text; a body shows its resolved text; never an empty bubble |
| Replies.RoutineReplyText | script.js:143-153 | the routine handler never shows an empty bubble; a failure shows its connection error |
| Replies.ChatReplyText | script.js:192-202 | the chat handler never shows an empty bubble; a failure shows its processing error |
| Replies.ChoicesShapeExample | script.js:145-146 | `{choices:[{message:{content:"Use X then Y."}}]}` shows `Use X then Y.` |
| Replies.EmptyObjectExample | script.js:147-148 | `{}` shows each handler's warning |

## Left out

- Rendering: the card and sidebar markup, the highlighted state of a card, the
  "No products found." notice, `toggleDescription`, and `displayMessage` with
  its line-break substitution and scrolling (script.js:28-57, 75-83, 99-106).
  The placeholder bubbles ("Generating…", "Thinking…") and the echo of the
  user's text are not modelled. Only the text of the reply bubble is.
- I/O: fetching `products.json` and posting to the proxy, the real
  `localStorage`, `JSON.parse`/`JSON.stringify`, `alert` and `console`. The
  storage slot is the field `stored` holding decoded ids. The proxy's
  response is the `Delivery` parameter. A failure of `fetch` or of
  `response.json()` is its `Failed` case.
- Selection.SelectionState.Load: a stored value that is not valid JSON throws
  at start-up (script.js:10). The model receives the decoded slot, so this
  path is not represented.
- Response fields of non-string types: a truthy `reply` or `content` that is
  not a string would make `displayMessage` throw. The model types both as
  optional strings.
- Asynchronous ordering: the interleaving of concurrent routine and chat
  replies.
- The catalog is passed as a parameter instead of the module-level
  `allProducts`, which is assigned once at load (script.js:11-17).
- The chat system instruction is the string on script.js:178. The stray quote
  on script.js:179 makes the file as written fail to parse; the model assumes
  it absent.
