# pgweb: the editor's document engine, the query wire, the session table

This project models the parts of pgweb whose correctness is not visible by reading one function, and
proves what each of them is for.

**The editor engine** (Ace 1.4.6 as shipped in `static/js/ace.js`; all its modules stand on line 1).

* `Texts` – a text is a non-empty sequence of lines. Texts under joining (`Cat`: the last line of one
  runs into the first of the other) form a monoid, and the position reached behind a text (`Ext`) is a
  homomorphism from it. Every row/column argument of the project is reduced to this.
* `Deltas` – an edit is an insertion or removal with both end points and its lines; it is valid where
  its position exists and the lines it removes are there.
* `DeltaAlgebra`, `SwapGroups`, `SwapExamples` – exchanging two successive edits (`swap`), a whole group of edits with
  another (`swapGroups`), on values and on the objects the editor shifts in place.
* `Xform` – transforming concurrent edits so that either order of applying them agrees.
* `FlatText`, `Documents` – the document as an array of lines, the flat string it stands for, the index
  arithmetic between the two, and the `Document` methods that splice the array.
* `Anchors` – where an anchor goes when an edit happens.
* `History`, `EditSessions` – undo and redo as a state machine, and the objects that implement it.
* `RowCaches` – the sampled prefix sums that map document rows to screen rows.
* `Wrapping` – the soft-wrap loop over display cells.
* `RangeLists` – the ordered list of ranges behind multiple selections.

**The query wire.** `Base64` is the browser's own encoder and decoder, `Standards` the bit-level text of
section 4 of RFC 4648 and section 3 of RFC 3629 beside it, `QueryWire` the URL form of the browser and
what the server does to undo it. `Subqueries` is the choice of the query under the cursor.

**The session table.** `Sessions` is a step relation: every critical section, every `Close` and every
step of the cleanup worker is one step, in any interleaving. `SessionManagers` has the objects, each
method proved to be the step it stands for.

Code that changes state is a class or a loop here too, and its `ensures` equate the new state with a
function of the old one; the theorems are about those functions. An edit splices the line array in
place, but since the model keeps that array as a sequence in a field, splicing assigns the field.

## What the proofs found

* **A failed `swapGroups` can corrupt history.** When a pair cannot be exchanged, the pairs already
  exchanged are exchanged back. Exchanging is its own inverse except for an insertion followed by a
  removal that starts exactly at its end (`SwapTwice`). The rollback of one edit restores everything if
  and only if no exchanged pair was of that kind (`CarryPastRestoresIff`), and a failed `swapGroups`
  restores both groups if none was (`SwapAllFailureRestores`). `FailedSwapCanCorrupt` gives, for any two
  different characters, a group after which the edits that are left can no longer be replayed.
  For whole groups the converse is false: `FailedSwapCanBeLucky` is restored by coincidence.
* **Concurrent edits diverge in one case only.** For edits that do not overlap in what they remove, the
  transformed edits converge if and only if no insertion falls strictly inside a removal, or the text in
  front of it happens to commute with what is inserted (`XformConverges`; `InsideDiverges` is a pair that
  does diverge).
* **Wrapping can cut a wide character in half.** The test whether the fallback cut lands on the second
  cell of a full-width character looks at the cell before the continuation indent is taken off.
  `NextCutCutsWideIff` says exactly for which rounds this goes wrong, `WideCharactersWholeIff` for which
  lines, and `IndentedRowCutsWideCharacter` shows a line; without an indent it never happens.
  With a limit of 1 the loop would not advance on one (`LimitOneIsStuckIff`); the editor's limits exclude it.
* **Adding a range can leave one in the way.** `RangeList.add` keeps an empty range at the end of the new
  one when another range ends there too; `AddedExactly` says for every list which ranges go.
* **Astral characters leave the browser as surrogates.** The encoder works on 16-bit units, so its
  output is UTF-8 in the sense of RFC 3629 if and only if the query has no surrogates
  (`Utf8IsRfc3629`, `EncodeIsStandard`). The browser's own decoder reads them back all the same.
* **Encoding normalizes newlines once.** CR CR LF goes out as CRLF (`NormalizedHasCrlfIff`), so a second
  encoding of the decoded text would change it again.
* **Two overlapping connects of one session lose a client** (`OverlappingConnectsLoseClient`): both look
  up the old client before either adds the new one. `StepLosesIff` says exactly which step can lose one.
* **The cleanup worker closes replacements.** It removes by id what it judged stale by client. When an
  id's turn comes the worker removes the client it judged if and only if no step since the snapshot has
  added, disconnected or removed that session (`CleanupRemovesJudgedIff`); otherwise it closes whatever
  client has taken the place (`CleanupClosesReplacement`).
* **Plain SQL can be taken for an encoded query.** The server decodes whatever has the form of Base64
  (`DecodedIff`), a plain `ROLLBACK` among them (`RollbackIsDecoded`).
* **A document with CR newlines is one row to `getSubquery`** (`ClassicIsOneRow`), although the cursor
  counts the document's rows; for LF and CRLF the rows agree
  (`RowsAgree`, `RowsAgreeIff`).
* **`positionToIndex` undoes `indexToPosition`** for every integer, negative and past the end included,
  exactly when the start row is in the document (`IndexRoundTripIff`).

## Model

| member | source | states |
|---|---|---|
| Texts.ExtCat | static/js/ace.js:1 | the position behind two joined texts is the sum of their extents: the arithmetic by which every delta computes its end |
| Texts.SplitTwice | static/js/ace.js:1 | cutting a document at two ordered valid positions and joining the pieces gives the document back, and each piece's extent is the distance of its ends |
| Deltas.InvertUndoes | static/js/ace.js:1 | a valid delta with its action flipped is valid afterwards and restores the document |
| Deltas.SeparateEditsCommute | static/js/ace.js:1 | two edits of which one lies behind the other give the same document in both orders, the later one relocated by what the earlier one adds or takes |
| Deltas.InversesUndo | static/js/ace.js:1 | reverting the deltas of a run, last first, is valid and restores the document |
| DeltaAlgebra.ShiftRelocates | static/js/ace.js:1 | shiftPos/shift (`g`, `m`) move a delta's end points by exactly the text another delta inserted or removed before it, and the opposite sign moves them back |
| DeltaAlgebra.SwapExactly | static/js/ace.js:1 | swap (`p`) succeeds exactly where the second delta starts at or behind what the first has left, or where its own text ends at or before the first; it then moves the second delta, or else the first, whatever the actions and line counts |
| DeltaAlgebra.SwapCommutes | static/js/ace.js:1 | whenever swap (`p`) of two successive deltas succeeds, in all four combinations of actions and across lines, the rewritten pair is valid in the other order and yields the same document |
| DeltaAlgebra.SwapAllSameEffect | static/js/ace.js:1 | when swapGroups (`d`) exchanges every pair, the rewritten second group followed by the rewritten first has the effect of the originals in order on every document on which those run, for groups of any length |
| DeltaAlgebra.CarryPastSameEffect | static/js/ace.js:1 | the inner loop of swapGroups: one delta carried past a whole group without changing the effect |
| DeltaAlgebra.CarryPastInParts | static/js/ace.js:1 | the inner loop succeeds exactly where every exchange on the way does, and moves past a group part by part |
| DeltaAlgebra.SwapAllInParts | static/js/ace.js:1 | swapGroups succeeds exactly where the last edits of the first group swap and then the others do, and gives what those swaps give |
| DeltaAlgebra.SwapTwice | static/js/ace.js:1 | swapping a swapped pair gives the original pair back if and only if it is not an insertion with a removal that starts right at its end |
| DeltaAlgebra.CarryPastRestoresIff | static/js/ace.js:1 | when one edit cannot pass a group, the rollback of swapGroups restores it and the group if and only if no pair exchanged on the way was an insertion with a removal starting at its end |
| DeltaAlgebra.SwapAllFailureRestores | static/js/ace.js:1 | a swapGroups that fails leaves both groups as they were if no pair exchanged on the way was of that kind, for groups of any length |
| DeltaAlgebra.OneSidedGroupsNeverMeet | static/js/ace.js:1 | no such pair arises when the first group only removes or the second only inserts |
| SwapExamples.FailedSwapCanCorrupt | static/js/ace.js:1 | with such a pair the rollback can leave two groups that no longer run on the document on which the originals ran |
| SwapExamples.FailedSwapCanBeLucky | static/js/ace.js:1 | with such a pair two groups, edits of every one-line document, can still be restored by coincidence: for groups the condition is sufficient and not necessary |
| SwapGroups.LiveDelta.ShiftBy | static/js/ace.js:1 | shift on a live object: both end points are moved in place by shiftPos, nothing else of the delta changes |
| SwapGroups.SwapInPlace | static/js/ace.js:1 | the in-place swap of two delta objects: it succeeds exactly where SwapExactly says, the objects then hold the two values of swap, and on failure neither has changed |
| SwapGroups.XformInPlace | static/js/ace.js:1 | the in-place xform of two delta objects that do not remove overlapping text leaves in them the two transformed values |
| SwapGroups.MoveBehind | static/js/ace.js:1 | the inner loop of swapGroups with its own rollback, on arrays of shared objects, agrees with carrying one value past a list |
| SwapGroups.SwapGroups | static/js/ace.js:1 | swapGroups on arrays of delta objects: whether it succeeds and what every object holds afterwards, rollback included, is what SwapAll says |
| Xform.SeparateEditsConverge | static/js/ace.js:1 | xform (`v`) of two concurrent edits, no insertion strictly inside a removal and no removals overlapping: d1 then transformed d2 equals d2 then transformed d1 |
| Xform.SamePlaceTextsInOrder | static/js/ace.js:1 | of two concurrent insertions at one place the second argument's text comes first, in both orders |
| Xform.InsideConverges | static/js/ace.js:1 | for an insertion strictly inside a concurrent removal the two orders agree if and only if the removed text before it commutes with the inserted text |
| Xform.XformConverges | static/js/ace.js:1 | the exact condition for convergence of any two concurrent edits whose removals do not overlap |
| Xform.InsideDiverges | static/js/ace.js:1 | a character typed inside a removed pair of characters makes the two orders differ unless it equals the first of them |
| FlatText.ApplyRefinesFlat | static/js/ace.js:1 | applyDelta on lines is inserting or deleting the joined text at the index of the delta's start, for any newline |
| FlatText.IndexOrder | static/js/ace.js:1 | positions are ordered as their indices are, and indices differ by the length of the text between |
| FlatText.PositionToIndexIsFlat | static/js/ace.js:1 | positionToIndex of a valid position counts the units that stand in front of it in the document's value |
| FlatText.IndexRoundTripIff | static/js/ace.js:1 | positionToIndex undoes indexToPosition on every integer index exactly when the start row is in the document |
| FlatText.PositionRoundTrip | static/js/ace.js:1 | indexToPosition undoes positionToIndex on every valid position from the start row on |
| Documents.SplitJoin | static/js/ace.js:1 | a document's value splits into the same lines again, whichever of the three newlines joined them |
| Documents.JoinSplit | static/js/ace.js:1 | text without carriage returns is the newline-joined form of the lines it splits into |
| Documents.SplitLineAndRest | static/js/ace.js:1 | splitting takes off the first line at any of the three newlines and splits what follows, newlines of different kinds included |
| Documents.FirstNewLineEndsFirstLine | static/js/ace.js:1 | $detectNewLine finds the newline that ends the first line, and LF in text of one line |
| Documents.ValueComesBackIff | static/js/ace.js:1 | a text set as the value comes back in auto mode if and only if its newlines are all of one kind; otherwise with all of them like the first, in the same lines |
| Documents.ClippedIsNearest | static/js/ace.js:1 | clippedPos clips to the nearest row and then to the nearest column, and to the end of the document from below the last row |
| Documents.Document.SpliceLines | static/js/ace.js:1 | ace/apply_delta: every splice of the line array, one-line and many-line, leaves the text with the delta's lines inserted or cut out |
| Documents.Document.ApplyDelta | static/js/ace.js:1 | applyDelta: trivial deltas change nothing, large insertions go in pieces; in all cases the document is as after one splice and the signalled events replay to it |
| Documents.Document.SplitAndApplyLargeDelta | static/js/ace.js:1 | $splitAndapplyLargeDelta with any chunk of at least two lines, longer than the insertion or not, terminates, issues insertions of at most that many lines, and leaves the document of one unsplit insertion |
| Documents.Document.RevertDelta | static/js/ace.js:1 | revertDelta applies the inverse delta |
| Documents.Document.LinesForRange | static/js/ace.js:1 | getLinesForRange returns exactly the text between two positions |
| Documents.Document.GetValue | static/js/ace.js:1 | getValue joins the lines with CRLF in windows mode, LF in unix mode, and the detected newline, LF if there is none, in auto mode |
| Documents.Document.IndexOfPosition | static/js/ace.js:1 | the summing loop of positionToIndex computes PositionToIndex for the newline in use, for every row |
| Documents.Document.PositionOfIndex | static/js/ace.js:1 | the subtracting loop of indexToPosition computes IndexToPosition, indices past the end included |
| Documents.Document.InsertMergedLines | static/js/ace.js:1 | insertMergedLines inserts at the clipped position and returns the end of the inserted text |
| Documents.Document.Insert | static/js/ace.js:1 | insert splits at all three newlines, inserts at the clipped position, and adopts the first newline of the text only while the document has one line |
| Documents.Document.Remove | static/js/ace.js:1 | remove cuts out the text between the two clipped positions and records that text in its delta |
| Documents.Document.SetValue | static/js/ace.js:1 | setValue leaves the lines of the text, whatever was there, detects its first newline, and signals events that lead from the old lines to the new |
| Documents.Document.InsertFullLines | static/js/ace.js:1 | insertFullLines puts the lines before the clamped row, despite the arithmetic at the last row, and its events replay |
| Documents.Document.RemoveFullLines | static/js/ace.js:1 | removeFullLines returns the rows and leaves the others, or one empty line if all went, and its events replay |
| Documents.RemovedLinesGoBack | static/js/ace.js:1 | inserting removed full lines where they were restores the document if and only if they were not all of it |
| Anchors.AnchorLaw | static/js/ace.js:1 | under any valid delta an anchor's flat index stays, shifts or collapses as the flat rule says, ties going by $insertRight, and the new position is valid in the new document |
| Anchors.TransformedCases | static/js/ace.js:1 | the point transformation has three outcomes, told apart by the order of positions alone |
| Anchors.Anchor.OnChange | static/js/ace.js:1 | onChange with its early returns moves the anchor exactly as the unguarded transformation would: no needed move is skipped |
| History.SessionKeepsInv | static/js/ace.js:1 | in every run of edits, undos, redos and new groups from any document, replaying the undo stack gives the current document and group ids strictly increase along the history |
| History.EditKeepsInv | static/js/ace.js:1 | add, merging or not, keeps the replay invariant and drops what could be redone from the history |
| History.EventsFormOneGroup | static/js/ace.js:1 | the events of an edit, the pieces of a split insertion included, form one group: merged into the open one where that is allowed, else a new one under the next revision |
| History.OneUndoTakesBackGroup | static/js/ace.js:1 | from every reachable state, an edit of any number of events followed by one undo gives the document before the edit, or, where it merged into an open group, the document in which that group began |
| History.UndoKeepsInv | static/js/ace.js:1 | undo can always run in a reachable state, and keeps the invariant |
| History.RedoKeepsInv | static/js/ace.js:1 | redo without rebasing can run exactly when the redo stack is empty or $redoStackBaseRev equals $rev, and then keeps the invariant |
| History.UndoMany | static/js/ace.js:1 | k undos leave the undo stack without its top k groups and the whole history unchanged |
| History.UndoRedoRoundTrip | static/js/ace.js:1 | k undos and k redos restore the document, the undo stack and the revision, and the redo stack unless an edit had made it unusable |
| EditSessions.UndoManager.Add | static/js/ace.js:1 | add pushes onto the array that lastDeltas shares with the top of the stack, or starts a group with the next revision, as EventsFormOneGroup needs it; nothing while fromUndo is set |
| EditSessions.UndoManager.StartNewGroup | static/js/ace.js:1 | startNewGroup closes the open group and changes nothing else: the NewGroup step |
| EditSessions.UndoManager.Undo | static/js/ace.js:1 | undo through the session is the Undo step: document, stacks and revisions |
| EditSessions.UndoManager.Redo | static/js/ace.js:1 | redo through the session is the Redo step |
| EditSessions.EditSession.Edit | static/js/ace.js:1 | a user edit, with all the events of a split insertion, is a run of Edit steps that replays to the new document |
| EditSessions.EditSession.UndoChanges | static/js/ace.js:1 | undoChanges reverts a group's deltas last first, and the events it causes lead to the result |
| EditSessions.EditSession.RedoChanges | static/js/ace.js:1 | redoChanges applies a group's deltas in order, and the events it causes lead to the result |
| RowCaches.GetRowCacheIndex | static/js/ace.js:1 | the binary search of $getRowCacheIndex returns the last sample not after the value, or -1 |
| RowCaches.ScreenRows.ResetRowCache | static/js/ace.js:1 | truncation keeps exactly the samples at or before the row, and every cache state holds increasing exact samples of the height sums |
| RowCaches.ScreenRows.OnChange | static/js/ace.js:1 | after an edit that changes row heights from some row on, the truncated cache is exact for the new heights |
| RowCaches.ScreenRows.DocumentToScreenRow | static/js/ace.js:1 | from any reachable cache, the screen row of a document row is the sum of all heights before it, out-of-range rows clipped |
| RowCaches.ScreenRows.ScreenToDocumentRow | static/js/ace.js:1 | from any reachable cache, the row found for a screen row is the one an uncached scan finds |
| RowCaches.RowsRoundTrip | static/js/ace.js:1 | a document row's own screen rows lead back to it, with the offset inside it |
| Wrapping.CellsCoverLine | static/js/ace.js:1 | $getDisplayTokens gives a line cells of which exactly one starts each unit, tabs and full-width characters included |
| Wrapping.CellKinds | static/js/ace.js:1 | a tab's cells reach to the next tab stop, blanks and the punctuation from ( to / and : to ? have cells of their own kind, wide characters take two cells |
| Wrapping.IndentIs | static/js/ace.js:1 | the continuation indent: a column for each leading blank, tabSize for each leading tab, tabSize more in code, at most half the limit, none at small limits or without soft indent |
| Wrapping.NextCutAdvances | static/js/ace.js:1 | for a limit of at least 2 every round of $computeWrapSplits moves the cut forward: the loop terminates |
| Wrapping.WrapFits | static/js/ace.js:1 | every row but the last fits the limit less its indent, except for one trailing blank cell, in code and in text mode |
| Wrapping.NextCutBreaks | static/js/ace.js:1 | a cut falls behind a blank, before punctuation in code mode, or at the limit, and then in text mode no blank was in reach |
| Wrapping.NextCutIsGreedy | static/js/ace.js:1 | each cut is the last break in reach, three quarters of the limit back: in text behind the last blank, in code before the last word with its punctuation; where there is none the limit cuts, and where blanks go on past the row, at its end |
| Wrapping.LastBreakIsUnique | static/js/ace.js:1 | there is at most one such break |
| Wrapping.NextCutCutsWideIff | static/js/ace.js:1 | a round ends inside a wide character if and only if its row is indented, has no break in reach, and the cell looked at misjudges the one the row ends before |
| Wrapping.WideCharactersWholeIff | static/js/ace.js:1 | a whole line is wrapped without cutting a wide character if and only if no round of the loop meets that condition, and always without an indent |
| Wrapping.IndentedRowCutsWideCharacter | static/js/ace.js:1 | with an indent the fallback does cut such a character |
| Wrapping.LimitOneIsStuckIff | static/js/ace.js:1 | at a limit of 1 the loop stays where it is exactly before a wide character |
| Wrapping.SplitColumnsOrdered | static/js/ace.js:1 | the split columns, one or many, are nondecreasing and inside the line |
| Wrapping.GetDisplayTokens | static/js/ace.js:1 | the loop over a line's units computes DisplayCells |
| Wrapping.ComputeWrapSplits | static/js/ace.js:1 | $computeWrapSplits returns the columns of the greedy cuts of NextCutIsGreedy and the continuation indent of IndentIs |
| RangeLists.PointIndexPlaces | static/js/ace.js:1 | pointIndex finds the first range at the point, or the signed place where one belongs: everything before ends at or before the point, everything from there on starts at or after it |
| RangeLists.RangeList.FindPoint | static/js/ace.js:1 | the scanning loop of pointIndex computes PointIndex |
| RangeLists.RangeList.Add | static/js/ace.js:1 | add, of empty ranges too, keeps the list ordered, puts the new range in place of exactly the ranges that go out, and no range kept collides with it |
| RangeLists.AddedExactly | static/js/ace.js:1 | which ranges go out: for an empty new range the first one that touches it; for any other all that overlap it and all empty ones that touch it, but for an empty one at its end that stands behind a range ending there |
| RangeLists.RangeList.Merge | static/js/ace.js:1 | merge sorts, keeps the covered points and the points inside a range, so that ranges that only touch stay two; it returns old ranges whose starts with those of the new list are the old starts, and leaves neighbours apart or touching with both non-empty |
| Base64.KeyRoundTrip | static/js/base64.js:9 | finding a character of the table gives its index back |
| Standards.KeyCharIsTable | static/js/base64.js:9 | the characters are those of table 1 of RFC 4648, index by index |
| Standards.KeyIndexIsTable | static/js/base64.js:9 | the decoder finds each of them at its place in that table |
| Base64.Utf8RoundTrip | static/js/base64.js:83-106 | decoding the encoded units gives every sequence of 16-bit units back, unpaired surrogates included |
| Base64.Base64RoundTrip | static/js/base64.js:36-60 | the decoder's groups give back the encoder's bytes, and the filter drops none of its characters |
| Base64.DecodeEncode | static/js/base64.js:11-60 | decode(encode(s)) is s with each CRLF replaced by LF |
| Base64.NormalizeAround | static/js/base64.js:63 | a CRLF anywhere becomes LF and what stands before and behind it is normalized by itself |
| Base64.NormalizeKeeps | static/js/base64.js:63 | text without CRLF is left alone |
| Base64.NormalizedHasCrlfIff | static/js/base64.js:63 | the result holds a CRLF of its own if and only if the text holds CR CR LF |
| Base64.Utf8EncodeLoop | static/js/base64.js:62-81 | the loop computes Utf8Encode |
| Base64.Utf8DecodeLoop | static/js/base64.js:83-106 | the loop computes Utf8Decode, truncated input included |
| Base64.EncodeLoop | static/js/base64.js:11-34 | the loop, which reads past the end of its input, computes Encode |
| Base64.DecodeLoop | static/js/base64.js:36-60 | the loop computes Decode, characters outside the table dropped and a short last group filled up |
| Standards.EncodeIsRfc4648 | static/js/base64.js:16-32 | the encoder's shifts, masks and characters are the regrouping of the bit string by sixes and table 1 of section 4 of RFC 4648, with padding |
| Standards.StandardDecoderReadsEncode | static/js/base64.js:11-34 | a strict decoder of section 4 of RFC 4648 reads exactly the encoder's bytes |
| Standards.DecodesIff | pkg/api/api.go:559 | that decoder accepts exactly whole groups of four with table characters up to one or two padding characters |
| Standards.Utf8IsRfc3629 | static/js/base64.js:62-81 | the units are encoded as section 3 of RFC 3629 prescribes if and only if there are no surrogates among them |
| Standards.EncodeIsStandard | static/js/base64.js:11-81 | encode is standard Base64 of its bytes for every string, and those are standard UTF-8 if and only if the string has no surrogates |
| QueryWire.CleanQueryLoop | pkg/api/helpers.go:57-69 | the loop computes CleanQuery |
| QueryWire.CleanQueryKeeps | pkg/api/helpers.go:57-69 | what is left are the kept lines, blank lines between others included, but for blank lines at either end |
| QueryWire.KeptLineByLine | pkg/api/helpers.go:60-66 | each line is judged by itself: one that starts with two dashes once trimmed goes, any other stays, trimmed and in its place |
| QueryWire.TrimSpaceDropsSpace | pkg/api/helpers.go:61 | trimming takes off white space at both ends, all of it and nothing else |
| QueryWire.CleanQueryIsTrimmed | pkg/api/helpers.go:68 | a cleaned query is trimmed as a whole |
| QueryWire.CleanQueryIsClean | pkg/api/helpers.go:56-69 | a cleaned query has only trimmed lines that are no comments, and cleaning it again changes nothing |
| QueryWire.Desanitize64 | pkg/api/helpers.go:71-79 | in whatever order the map is ranged over, the result is the simultaneous substitution |
| QueryWire.SubstitutionsUndone | static/js/app.js:119-121 | the server's substitution recovers the Base64 text from the URL form, which uses only URL-safe characters |
| QueryWire.EncodedSymbols | static/js/app.js:120 | the URL form symbol by symbol: - for +, _ for /, a dot for =, every other symbol itself |
| QueryWire.EncodedIsNoComment | static/js/app.js:119-121 | an encoded query never starts with two dashes, since the first byte of UTF-8 text is at most 239, and is not empty unless the query is |
| QueryWire.HandleQuery | pkg/api/api.go:556-562 | what is run: the decoded bytes if the substituted text is Base64, the text as it came otherwise, for every order of the substitutions |
| QueryWire.RunQuery | pkg/api/api.go:312-321 | an empty cleaned query is refused, any other handled |
| QueryWire.ExplainQuery | pkg/api/api.go:324-333 | the text behind EXPLAIN is never decoded |
| QueryWire.QueryArrives | pkg/api/api.go:312-321 | every non-empty query of the browser passes cleaning untouched and is decoded to exactly the bytes the browser encoded |
| QueryWire.DecodedIff | pkg/api/api.go:559-562 | a query is decoded if and only if it has the form of Base64 in either alphabet, line breaks aside: whole groups of four, table characters up to the padding |
| QueryWire.RollbackIsDecoded | pkg/api/api.go:559-562 | plain ROLLBACK passes cleaning and is decoded |
| QueryWire.BlankIsNeverDecoded | pkg/api/api.go:559-562 | a query with a space in it is run as it stands |
| Subqueries.GetSubquery | static/js/app.js:839-874 | the scan returns the maximal run of non-blank lines that holds the cursor or ends right before it; elsewhere the last run if the text does not end blank, else nothing; with its text and the count of chunks |
| Subqueries.AnswerIsUnique | static/js/app.js:839-874 | that description leaves no choice of answer |
| Subqueries.BlanksCount | static/js/app.js:842-862 | the chunk count counts blank lines, each of several in a row |
| Subqueries.RowsAgree | static/js/app.js:839-841 | splitting the editor's value at LF gives as many lines as the document has, blank where it is, for LF and CRLF documents |
| Subqueries.ClassicIsOneRow | static/js/app.js:839-841 | a CR document is a single line to the scan |
| Subqueries.RowsAgreeIff | static/js/app.js:839-841 | the scan sees as many rows as the document has if and only if the newline is not a lone CR or there is only one row |
| Subqueries.JoinSplitLf | static/js/app.js:839-869 | joining the lines gives the text back, so that a run's text is part of it |
| Sessions.NoClientIsEverLost | pkg/api/session_manager.go:63-136 | over every interleaving of the worker with requests that do not overlap within a session, every client ever added is in the table or closed, at every step |
| Sessions.EveryClientAccountedFor | pkg/api/api.go:46-64 | every client a request brings in during a run is at its end still that request's, in the table or closed |
| Sessions.FinishedRequest | pkg/api/api.go:52-63 | a finished request has its client in the table under its session, or closed for want of a session id |
| Sessions.StepLosesIff | pkg/api/api.go:46-64 | the one step that can lose a client is an Add over an open client that no other id leads to |
| Sessions.OverlappingConnectsLoseClient | pkg/api/api.go:46-64 | two overlapping connects of one session do lose one |
| Sessions.AccountsAlwaysAgree | pkg/api/session_manager.go:63-90 | in every interleaving the gauge is the size of the table, and that the ids added less the ids removed |
| Sessions.OtherSessionsStay | pkg/api/session_manager.go:92-112 | an id leaves the table only by a Disconnect or through a snapshot of the worker that holds it |
| Sessions.DrainRemovesSnapshot | pkg/api/session_manager.go:104-111 | a cleanup left alone removes exactly its snapshot, closes exactly those clients, and its count is what the table lost |
| Sessions.DrainIsARun | pkg/api/session_manager.go:104-109 | the worker's loop is a run of removal steps |
| Sessions.CleanupReturns | pkg/api/session_manager.go:92-112 | in every interleaving Cleanup counts the ids of its snapshot still in the table when their turn came, and all that left the table meanwhile is that count and the successful Disconnects |
| Sessions.StillLeadsIff | pkg/api/session_manager.go:63-83 | over any run a session still leads to its client if and only if no step added, disconnected or removed it: clients do not come back |
| Sessions.ClientsComeOnce | pkg/api/api.go:46-64 | every run keeps clients new when they come in, and distinct |
| Sessions.CleanupRemovesJudgedIff | pkg/api/session_manager.go:104-109 | the client that the worker removes on an id of its snapshot is the one it judged if and only if no step since the snapshot touched that session; a client found there is closed whichever it is |
| Sessions.CleanupClosesReplacement | pkg/api/session_manager.go:104-109 | the witness: from any state a client can replace a stale one between snapshot and removal, and is closed with it |
| SessionManagers.Client.Close | pkg/client/client.go:572-590 | Close is idempotent: tunnel and database handle are closed at most once, whatever the number of calls |
| SessionManagers.SessionManager.Query | pkg/client/client.go:481-489 | from a query on, its session goes stale exactly when the timeout has passed since; no session of another client is affected |
| SessionManagers.SessionManager.Len | pkg/api/session_manager.go:85-90 | the size of the table is the gauge, and the ids added less those removed |
| SessionManagers.SessionManager.Add | pkg/api/session_manager.go:63-69 | Add is the Add step |
| SessionManagers.SessionManager.Remove | pkg/api/session_manager.go:71-83 | Remove is the removal step, closes the client it takes out, and says whether there was one |
| SessionManagers.SessionManager.StaleSessions | pkg/api/session_manager.go:122-136 | the ids of exactly the idle sessions, each once, in any order |
| SessionManagers.SessionManager.Cleanup | pkg/api/session_manager.go:92-112 | run alone with a timeout it leaves exactly the sessions that are not idle, the others closed, and returns how many went; without a timeout nothing happens |
| SessionManagers.SessionManager.SetClient | pkg/api/api.go:46-64 | an uninterrupted setClient is its three steps in a row |
| SessionManagers.SessionManager.LookUpCurrent | pkg/api/api.go:47 | the look-up step |
| SessionManagers.SessionManager.CloseFound | pkg/api/api.go:48-50 | the closing step closes what was looked up, even if the table has moved on |
| SessionManagers.SessionManager.Install | pkg/api/api.go:57-63 | the last step adds the new client, or without an id ends in an error and a closed client |

## Left out

- DeltaAlgebra.SwapAllFailureRestores: sufficient for groups, not necessary; FailedSwapCanBeLucky is the
  example. For one edit the condition is exact.
- Xform.XformConverges: does not cover two removals that overlap, where the source splits or shrinks
  deltas; concurrent edits with overlapping removals are not modelled.
- SwapGroups.XformInPlace: like XformConverges it does not cover overlapping removals.
- EditSessions.UndoManager.Redo: does not model the rebasing of a redo stack after a diverging edit.
- History.SessionKeepsInv: a redo while `$redoStackBaseRev` differs from `$rev` is not a step: rebasing the
  redo stack over a diverging edit (`b`, `w`) is a heuristic and not modelled.
- EditSessions.UndoManager.Add: does not model `$lastDelta`, the guard against adding the same delta
  object twice in a row; nor fold deltas, selections and the dirty counter that are kept beside the groups.
- EditSessions.EditSession.Edit: the events of a split insertion reach the undo manager after the
  document is complete, not between the pieces. The undo manager reads no document, so its state is the same.
- Documents.Document.LinesForRange: the range must lie in the document and run forwards; the source's answer
  to other ranges is left out.
- Documents.Document.Remove: the two clipped positions must be in order; out-of-order ranges, from which
  the source builds a malformed delta, are left out.
- Documents.Document.RemoveFullLines: the first clamped row must not lie behind the last.
- RowCaches.ScreenRows.DocumentToScreenRow: row heights are given positive numbers; folds, line widgets
  and the columns inside a wrapped row are left out.
- RowCaches.ScreenRows.ScreenToDocumentRow: the column of the result is left out likewise.
- Wrapping.ComputeWrapSplits: does not model the branches for fold placeholder cells.
- Wrapping.GetDisplayTokens: which characters are full-width is a parameter; the table of `isFullWidth` is
  not part of this model. Fold placeholders are left out.
- RangeLists.RangeList.Merge: the engine's sort is modelled as a stable insertion sort. `$onChange`,
  `contains`, `substractPoint` and the clipping helpers are left out.
- QueryWire.CleanQueryLoop: query text on the server is a sequence of characters, not of bytes, and the
  table of white space is that of `strings.TrimSpace`; invalid UTF-8 is left out.
- Sessions.NoClientIsEverLost: each critical section and each Close is one step; data races on a client's
  fields between them are left out, as are the single-connection mode without sessions and the session lock.
- SessionManagers.SessionManager.SetClient: does not model the single-connection mode, in which the one
  client is overwritten without a table.
- SessionManagers.SessionManager.LookUpCurrent: likewise for the look-up in single-connection mode.
- SessionManagers.SessionManager.Install: likewise for the last step in single-connection mode.
- SessionManagers.SessionManager.Cleanup: the time is a parameter, read once; logging and the ticking
  goroutine are left out.
- SessionManagers.Client.Close: calls to the tunnel and the handle are counted; their errors are left out.
- The `ignore` reordering of the undo manager (`i`), markers and bookmarks of revisions.
- The rest of the editor: rendering, input, multiple cursors, search, tokenizers, bidirectional text.
- The database, SQL, SSH tunnels, HTTP routing, bookmarks, options, exports: input and output, or thin
  wrappers around libraries that are not shown.
- The decoder of Go's `encoding/base64` is modelled by section 4 of RFC 4648, with the line breaks it skips.
