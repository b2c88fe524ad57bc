# Skyscope front-end logic in Dafny

This project models the logic inside skyscope's two browser scripts. Skyscope is a browser UI
over a graph server.

- `supersedableDelayedAction` (src/main.js) runs one action per key, such as a search or a
  re-render. It debounces: a burst of calls arms one timeout, which carries the last payload.
  It runs the action one call at a time. A payload whose timeout expires while a call runs
  waits in a single pending slot, where the latest payload wins, and is run as soon as the
  running call is fulfilled. A payload whose timeout is still armed when the call is fulfilled
  runs when its timeout expires.
- The search results panel (`renderResults`, src/main.js) computes several things:
  - the type label of each row, where `CONFIGURED_TARGET` becomes `ConfiguredTarget`;
  - the regex built from an SQLite LIKE pattern (`%`, `_`), with one capture group per piece
    and one per span around and between the pieces;
  - the context/highlight class of each group's span;
  - how the first span is cut from the left and prefixed with an ellipsis;
  - the set of visible nodes, which a click on a row toggles, and the class of each row;
  - the largest node total seen so far.
- The bulk-delete page (frontend/src/index.js) has one button and a list of checkboxes:
  - a click with nothing ticked ticks everything;
  - otherwise a click sends one DELETE per ticked checkbox, in document order;
  - once a checkbox changes or the button is clicked, the button reads "Select All" when
    nothing is ticked and "Delete" otherwise; loading the page does not relabel it, so until
    then it keeps the value the page gave it;
  - the page reloads when every request of that click has succeeded.

The modules are:

- `DelayedAction` (delayed_action.dfy). One record per action, with pure step functions for
  each event: a call, the timeout expiring, and the promise settling. The map of records,
  `actionStates`, is a class whose methods update it in place and are proved against those
  step functions. Runs of events (`Run`) carry the lemmas that span several events.
- `TypeLabel` (type_label.dfy). The label, proved equal to an independent
  character-by-character definition.
- `LikeRegex` (like_regex.dfy). Splitting on `%`, `escapeRegExp`, the `_` to `.` rewrite and
  the fold into a regex string. A small reader (`Lex`) interprets the regex strings built here
  as tokens: a backslash before a syntax character, the unescaped `.` and `*`, and plain
  parentheses. It is used to state what each piece's regex matches and how many capture groups
  the regex has.
- `ResultSpans` (result_spans.dfy). The classes of the spans and the arithmetic of the first
  span.
- `VisibleNodes` (visible_nodes.dfy). The toggle as a map operation, with a class holding
  `visibleNodes` and `maxTotal`.
- `BulkDelete` (bulk_delete.dfy). The page as a class over an array of checked flags. Each
  click in delete mode creates its own batch of requests with its own countdown.
- `Options` (options.dfy). An option type.
- `IntMath` (int_math.dfy). The integer maximum and minimum.

A failed action does not release its key. One might expect a failure to clear the in-progress
flag and run the pending payload, as a fulfilment does, but the code has only a fulfilment
handler (src/main.js:67-74). A rejected promise therefore
leaves `actionInProgress` set for good: later expiries only overwrite the pending slot, and
the action is never called again. `Settled` and `RejectionBlocksForever` state this
behaviour.

The model keeps one extra slot per record, `unsettled`: the promise returned by the running
call that has not settled yet. The source keeps no such field; the slot stands for the
outside world's promise. With it, "calls never overlap" can be stated as an accounting
identity.

## Model

| member | source | states |
|---|---|---|
| DelayedAction.Initial | src/main.js:52-54 | the record created on an action's first call: no timeout armed, no call running, nothing pending; it is consistent |
| DelayedAction.Scheduled | src/main.js:56-60 | a call leaves exactly one armed timeout, holding this call's payload; nothing else in the record changes |
| DelayedAction.Started | src/main.js:65-67 | `loop` sets the in-progress flag and calls the action with the payload; the armed timeout and the pending slot are left as they were |
| DelayedAction.Fired | src/main.js:60-77 | the expiry disarms the timeout; with a call in progress it calls nothing and overwrites the pending slot with its payload (last write wins); otherwise it calls the action with exactly its own payload, never while a call is outstanding, and leaves nothing pending; with no timeout armed nothing happens; reachable-state consistency is kept |
| DelayedAction.Settled | src/main.js:67-74 | a fulfilment clears the flag and at once calls the action with the pending payload, emptying the slot, with no timeout involved; with nothing pending it calls nothing; a rejection calls nothing and leaves the flag set; the armed timeout is untouched |
| DelayedAction.InvocationsAreSerial | src/main.js:62-74 | along any run of events the records stay consistent, and each call of the action is matched by a settlement or is the single outstanding one, so calls never overlap |
| DelayedAction.CallsCoalesce | src/main.js:56-60 | a burst of calls leaves one armed timeout carrying the last payload, calls nothing and changes nothing else |
| DelayedAction.DebouncedFiring | src/main.js:56-77 | a burst of calls followed by the expiry calls the action once, with the last payload, when idle; when a call is running it only stores that payload as pending |
| DelayedAction.BurstsWhileBusy | src/main.js:56-63 | while a call is in progress, any number of bursts of calls, each followed by its expiry, call nothing, leave the outstanding call alone and leave exactly the last payload of the last burst pending, whether or not a timeout was armed at the start |
| DelayedAction.LatestPayloadRunsNext | src/main.js:60-74 | while a call is outstanding, any number of bursts each followed by an expiry lead on fulfilment to exactly one further call, made at once, with the last payload of the last burst, and leave no timeout and nothing pending |
| DelayedAction.RejectionBlocksForever | src/main.js:66-74 | after a rejection, no sequence of later events calls the action again, and the flag stays set |
| DelayedAction.TwoCallsOneInvocation | src/main.js:51-78 | two calls within one delay window call the action once, with the second payload |
| DelayedAction.QueuedCallRunsAfterCompletion | src/main.js:60-74 | a call that fires during a running call runs right after its fulfilment; with nothing pending, the next fulfilment runs nothing |
| DelayedAction.Registry.constructor | src/main.js:50 | `actionStates` starts empty |
| DelayedAction.Registry.Schedule | src/main.js:51-60 | creates the record on an action's first call, then updates it in place as `Scheduled` does; other actions' records are unchanged |
| DelayedAction.Registry.Fire | src/main.js:60-77 | the expiry for one action updates its record as `Fired` does and returns the payload the action is called with; an unknown action is left alone |
| DelayedAction.Registry.Settle | src/main.js:67-74 | the settlement of one action's call updates its record as `Settled` does and returns the pending payload that is run next |
| TypeLabel.ToUpper | src/main.js:163 | ASCII upper-casing never produces `_` from another character |
| TypeLabel.ToLower | src/main.js:164 | ASCII lower-casing never produces `_` from another character |
| TypeLabel.LowerAll | src/main.js:164 | lower-cases each character, keeping the length |
| TypeLabel.RunLength | src/main.js:161 | the length of the maximal `_`-free prefix |
| TypeLabel.Words | src/main.js:161 | the matches of `[^_]+` are non-empty and hold no `_` |
| TypeLabel.Capitalize | src/main.js:163-164 | a word keeps its length, its first character is upper-cased and every other character lower-cased, and it stays free of `_` |
| TypeLabel.CapitalizeAll | src/main.js:162-165 | the capitalised words joined with nothing between them: as long as the words together, and free of `_` when they are |
| TypeLabel.WordsCoverInput | src/main.js:161 | the words, concatenated, are exactly the non-`_` characters of the node type, in order |
| TypeLabel.Label | src/main.js:161-165 | the label holds no `_` and has one character per non-`_` character of the node type |
| TypeLabel.CharacterwiseShape | src/main.js:161-165 | the character-by-character label holds no `_` and has the length of the non-`_` input |
| TypeLabel.LabelIsCharacterwise | src/main.js:161-165 | the label equals the reference definition: `_` dropped, a character upper-cased when it starts a run and lower-cased otherwise |
| LikeRegex.EscapeRegExp | src/main.js:182 | the escaped string is longer than its input by exactly the number of special characters |
| LikeRegex.SpecialsAreSyntaxCharacters | src/main.js:182 | the characters escaped are exactly the syntax characters of ECMAScript regular expressions (section 22.2.1 of ECMA-262), which `Lex` reads as operators |
| LikeRegex.PieceRegex | src/main.js:184 | a piece's regex is one character longer than the piece for each special character in it |
| LikeRegex.Fold | src/main.js:183-186 | the reducer only appends to the regex built so far, at least six characters per piece |
| LikeRegex.PatternRegex | src/main.js:183-186 | every pattern's regex begins with the group `(.*)` |
| LikeRegex.Split | src/main.js:183 | splitting on `%` gives one more piece than there are `%`, and no piece holds a `%` |
| LikeRegex.JoinSplit | src/main.js:183 | joining the pieces with `%` gives the pattern back |
| LikeRegex.SplitJoin | src/main.js:183 | splitting a join of `%`-free pieces gives the pieces back |
| LikeRegex.ReplaceUnderscores | src/main.js:184 | every `_` becomes `.` and every other character is kept |
| LikeRegex.LikeTokens | src/main.js:184 | the LIKE meaning of a piece, character by character: `_` is any character, everything else is itself |
| LikeRegex.EscapedIsLiteral | src/main.js:182 | `escapeRegExp` puts a backslash before exactly the regex specials (dot, star, plus, question mark, caret, dollar, braces, parentheses, vertical bar, brackets, backslash), and the result reads as the original characters, each literal |
| LikeRegex.PieceRegexMeaning | src/main.js:182-184 | a piece's regex reads as its LIKE meaning: every character literal, except that `_` becomes the operator `.` |
| LikeRegex.PieceRegexIsNotWildcard | src/main.js:182-184 | no piece's regex is the wildcard `.*` |
| LikeRegex.FoldShape | src/main.js:183-186 | the reducer appends `(pieceRegex)(.*)` once per piece, in order |
| LikeRegex.RegexShape | src/main.js:183-186 | the regex is `(.*)`, then `(piece)(.*)` for each piece |
| LikeRegex.GroupBodiesAt | src/main.js:183-186 | for k pieces there are 2k piece-and-wildcard bodies after the first `(.*)`: piece j at 2j, a wildcard at 2j+1 |
| LikeRegex.GroupBodyKinds | src/main.js:183-186 | group i's body is the wildcard when i is even and the regex of piece i/2 when i is odd |
| LikeRegex.PieceBodiesArePlain | src/main.js:182-186 | no group body opens a group of its own or ends in a dangling backslash |
| LikeRegex.CaptureGroups | src/main.js:183-186 | the regex has 2k+1 capture groups for k pieces, 2m+3 for m `%` signs |
| ResultSpans.ClassOf | src/main.js:190 | a span is "context" exactly at an even group index and "highlight" exactly at an odd one |
| ResultSpans.ClassFollowsGroupBody | src/main.js:188-190 | group i is "context" exactly when its body is a wildcard, and "highlight" exactly when it is the regex of a piece |
| ResultSpans.HighlightsArePieces | src/main.js:183-190 | a match returns 2m+3 groups for m `%` signs, the regex's capture-group count; a span is highlighted exactly when its group was built from a piece of the pattern |
| ResultSpans.StartIndex | src/main.js:192-195 | the cut is at most the group's length and keeps at least its last min(len, 16) characters; it is at most twice the match's excess over 180, zero when the match is at most 180 characters; it equals one of its two limits; it is non-zero exactly when the group is longer than 16 and the match longer than 180 |
| ResultSpans.FirstGroupText | src/main.js:192-197 | the first span is never longer than its group and ends with the group's last min(len, 16) characters; it is the whole group when the match is at most 180 characters; otherwise it is the group, or an ellipsis followed by a suffix of it, with at most twice the excess hidden; exactly when the group is longer than 16 and the match longer than 180 it is an ellipsis followed by the group without its first min(len - 16, 2 × excess) characters, and otherwise it is the group itself |
| ResultSpans.GroupSpans | src/main.js:188-200 | one span per capture group, in order, classed by the parity of its index; every group after the first is shown whole |
| VisibleNodes.Toggled | src/main.js:203-207 | a present hash is removed and an absent one is added with its node; no other entry changes |
| VisibleNodes.ToggleTwice | src/main.js:203-207 | two clicks on one row restore the set of visible hashes, and restore the map itself when the node was hidden |
| VisibleNodes.RowClasses | src/main.js:172 | a row's classes are `resultRow`, its type label, and "visible" exactly when its hash is visible, "hidden" otherwise |
| VisibleNodes.ToggleFlipsOneRow | src/main.js:203-207 | a click flips the visibility class of the clicked row and leaves every other row's classes unchanged |
| VisibleNodes.SearchPanel.constructor | src/main.js:142 | `maxTotal` starts at 0 and no node is visible at the start (`visibleNodes` is created empty at src/main.js:86) |
| VisibleNodes.SearchPanel.ToggleRow | src/main.js:202-207 | the click handler updates `visibleNodes` in place as `Toggled` does |
| VisibleNodes.SearchPanel.RecordTotal | src/main.js:212 | `maxTotal` never decreases, is at least the new total, and is the old value or the new total |
| VisibleNodes.SearchPanel.RowClass | src/main.js:172 | "visible" exactly when the hash is in `visibleNodes`, "hidden" otherwise |
| VisibleNodes.MaxTotalAfter | src/main.js:212 | after any number of renders, `maxTotal` is at least its start and every total, and it equals one of them |
| BulkDelete.CheckedCount | frontend/src/index.js:6 | the checked count is at most the number of checkboxes, and zero exactly when none is ticked |
| BulkDelete.CheckedIndices | frontend/src/index.js:24 | the positions of exactly the ticked checkboxes, in increasing order, as many as the checked count |
| BulkDelete.ButtonLabel | frontend/src/index.js:8-14 | "Select All" exactly when no checkbox is ticked, "Delete" exactly when one is |
| BulkDelete.IdsAt | frontend/src/index.js:26-27 | the request URLs are the parent ids of the deleted checkboxes, in the same order |
| BulkDelete.NewBatch | frontend/src/index.js:25 | a click's countdown starts at the length of its delete list, and every one of its requests is outstanding |
| BulkDelete.Reloads | frontend/src/index.js:25-34 | responses to one batch reload the page at most once, and only with its last outstanding response |
| BulkDelete.Answered | frontend/src/index.js:27-34 | a failed response throws before the countdown moves; a successful one decrements it; the page reloads exactly when a success brings it to zero |
| BulkDelete.ReloadsCounted | frontend/src/index.js:25-34 | a sequence of responses to a batch reloads the page once if it completes a countdown of all-successful responses, and never otherwise |
| BulkDelete.ReloadOnceAfterAllSucceed | frontend/src/index.js:25-34 | whatever the order of responses, a click's requests reload the page exactly once when every one has succeeded, never after a failure, and never before the last response |
| BulkDelete.DeletePage.constructor | frontend/src/index.js:2-16 | the checkboxes are the `delete` elements in document order, each unchecked, with their parents' ids; the button keeps the page's own value, since loading does not relabel it |
| BulkDelete.DeletePage.GetCheckedCount | frontend/src/index.js:6 | counts the ticked checkboxes |
| BulkDelete.DeletePage.Update | frontend/src/index.js:8-14 | sets the button's label from the current checkboxes |
| BulkDelete.DeletePage.Change | frontend/src/index.js:17 | ticking or clearing one checkbox changes only that one and relabels the button |
| BulkDelete.DeletePage.Click | frontend/src/index.js:19-37 | with nothing ticked, ticks every checkbox; the label is then "Delete", or "Select All" when there are no checkboxes; otherwise it changes no checkbox and sends one request per ticked checkbox, in document order, as a new batch |
| BulkDelete.DeletePage.CheckAll | frontend/src/index.js:21-22 | ticks every checkbox and relabels the button |
| BulkDelete.DeletePage.DeleteChecked | frontend/src/index.js:24-27 | the delete list is the ticked checkboxes in document order, and a new batch of requests to their parents' ids is added |
| BulkDelete.DeletePage.Respond | frontend/src/index.js:27-34 | one response updates its own click's batch as `Answered` does and reloads when that says so; other batches are unchanged |

## Left out

- Real time, `setTimeout`/`clearTimeout` and the event loop. A timeout is a slot holding the
  payload its callback captures, and its expiry is an explicit event. The delay value plays
  no part.
- The actions themselves (`findNodes`, `renderGraph`, `post`) and the `fetch` DELETE
  requests. These are network calls. Only their outcomes appear, as fulfilment or
  rejection, and as success or failure of a response.
- Null and undefined payloads. The source tests the pending slot with `!= null`; the model
  uses an option, so every payload, the empty string included, counts as present.
- The key of `actionStates` is the action function coerced to a string. The model uses an
  opaque key.
- The regex engine (`node.nodeData.match(regex)`), its `i` flag, and a failed match. The
  regex is modelled as the string built, and its meaning is read with `Lex`. The groups a
  match returns are an input to `GroupSpans`. The model does not capture that `.` does not
  match line terminators while LIKE's `%` and `_` do.
- `Lex` is not a general reader of regular expressions: class escapes such as `\d`,
  back-references, `(?...)` groups and the literal `]`, `{`, `}` allowed by Annex B of
  ECMA-262 are not read as the engine reads them. None of them occurs in a regex the model
  builds, since `escapeRegExp` only escapes syntax characters and every `?` of a piece is
  escaped.
- Unicode case mapping: `ToUpper` and `ToLower` map ASCII letters only. Lengths count Dafny
  characters, not UTF-16 code units.
- `type.replace(" (unshareable)", "")` (src/main.js:181), which only affects the displayed
  text of the type span.
- DOM construction, styles, titles, the hint element, event-listener wiring,
  `toLocaleString` formatting, `updateNodeCount`, `updateGraph` and the stray global
  `findNodesInProgress`.
- The order of `Object.keys(visibleNodes)`, and `in` lookups that reach the prototype
  chain. `visibleNodes` is a map keyed by hash.
- `location.reload()` is the flag `reloaded`; the page is not re-created.
- The checkboxes are a fixed array: the rows that a successful DELETE removes on the server
  stay on the page until the reload.
