# Shared notes: a verified model

This project models the note-sharing application's hard parts and proves what they promise: the
single-editor lock and the version history of the API, the block ⇄ Markdown format shared by the web
editor and the Keep importer, the inline highlighter, the editor's block edits and autosave, the import
loop, and the cached board with its optimistic updates.

`dafny verify dfyconfig.toml` verifies everything.

## How it is laid out

| files | what they model |
|---|---|
| `Sequences`, `Wrappers` | regrouping of sequences; `Option` |
| `Text`, `Markdown`, `RoundTrip`, `CanonicalBodies` | `web/src/lib/markdown.ts`: printing and parsing block lists, normal forms, fixed points |
| `KeepBody`, `KeepNotes` | `api/app/services/keep_import.py`: the second, differently written printer, and when it agrees with the editor's |
| `Spelling` | the stored format spelled out: what each block is written as, what is read as a box, what becomes of the lines between |
| `Inline`, `Highlight`, `Styles` | `web/src/lib/inline.ts`, `highlight.ts`: segments of a line, HTML, its text content and the spans around each character |
| `Notes` | one note under every request: `locks.py`, `versions.py`, `agent.py`, `routers/notes.py` as one step function |
| `Replies` | every request by its effect and its answer, in terms of the fields of the row and of the request |
| `Leases`, `SingleWriter` | the lock over whole runs, told by an event log that the rows must agree with |
| `Histories`, `Sessions`, `Permissions` | the version list over whole runs; sessions and borrowed locks; who may change what |
| `Stores`, `StoreRuns`, `NoteService` | all notes together, board listings, privacy; the requests as methods that update two tables in place |
| `BlockEdits`, `EditShapes`, `CaretPlace`, `TypedChecks`, `BlockList` | `BlockList.tsx`: edits as functions, what they keep and what they make of lines and labels, and as methods on the component's list |
| `Autosave` | `useAutosave.ts`: timers, the in-flight save and the dirty flag |
| `ImportKeep` | the confirm loop of `routers/import_keep.py` |
| `Boards`, `BoardCache` | `BoardPage.tsx` and `boardCache.ts`: sorting, optimistic updates, the cached lists |

Loops and state changes of the source are methods proved equal to a function (`Serialize` to `Serialized`,
`Service.PatchNote` to a `StepAll` of the store, `EditingSurface.TextBack` to `MergeTextBack`); the promises
are proved about those functions. What such a function does is also said without its helpers, field by field or line by
line: in `Replies` for the requests, `Spelling` for both printers and the parser, `Styles` for the highlighter,
`EditShapes` for the block edits.

A run is a list of requests with their callers and times, starting from the empty store. `Timely` says what
the environment is relied on for: note ids are used once, the clock does not go back, a new version is dated
after the earlier versions of its note, and an imported note is dated in the past. `TimelyStore` says the same
of one clock for all notes, and `StoreRuns.ProjectIsTimely` derives the former from the latter.

## Where the code and its documentation differ

- The Keep printer is documented as the front end's printer line for line (`keep_import.py:84-87`). It is not:
  it puts a separator before every paragraph, collapses blank lines afterwards, and cuts paragraphs at lines blank
  for Python, where U+FEFF is not white space as it is in JavaScript. `KeepMatchesEditor` says exactly when the two agree, `KeepBodyIsAFixedPoint`
  exactly when an imported body reopens unchanged, and `KeepCanDiffer` is a note for which they do not agree.
- `markdown.ts:8-10` promises that what the user types is kept verbatim. It is, exactly for lists in normal form
  (`TypedListsSurviveExactly`); white space on blank lines between two boxes, for one, is not kept
  (`SpacesBetweenBoxesAreLost`). `FixedPointsAreCanonical` says the same of stored bodies.
- The optimistic board drops a card on any archive flag in a patch, so it equals a refetch exactly when the flag
  differs from the view's (`OptimisticEqualsRefetch`). The callers only ever toggle it.

## Model

| member | source | states |
|---|---|---|
| `Text.JoinSplit` | web/src/lib/markdown.ts:39-53 | splitting a text at line feeds and joining it again is the identity |
| `Text.SplitJoin` | web/src/lib/markdown.ts:53-84 | a non-empty list of unbroken lines survives a join and a split |
| `Text.TrimFront` | web/src/lib/markdown.ts:51-51 | the shift loop removes exactly the leading blank lines |
| `Text.TrimBack` | web/src/lib/markdown.ts:52-52 | the pop loop removes exactly the trailing blank lines |
| `Text.DropFrontSpec` | web/src/lib/markdown.ts:51-51 | what remains starts with a line that has text, ends as before, and is empty only if all was blank |
| `Markdown.BoxLineReadsBack` | web/src/lib/markdown.ts:25-36 | the printed form of a box with a one-line label is read back as that box |
| `Markdown.Serialize` | web/src/lib/markdown.ts:28-54 | the printing loop, with its `prev` state and edge trimming, yields the body the round-trip theorems are about |
| `Markdown.FlushRun` | web/src/lib/markdown.ts:61-82 | closing a run of lines appends its one text block or nothing, depending on the boxes around it |
| `Markdown.Parse` | web/src/lib/markdown.ts:57-95 | the parsing loop yields the block list the round-trip theorems are about |
| `RoundTrip.ParsedIsNormal` | web/src/lib/markdown.ts:57-95 | whatever the body, parsing gives a structural normal form: no adjacent paragraphs, no box-shaped text line, clean edges, blank-only text only between boxes and made of empty lines |
| `RoundTrip.SerializedParsesBack` | web/src/lib/markdown.ts:28-95 | printing a normal form and parsing it gives the same blocks |
| `RoundTrip.TypedListsSurviveExactly` | web/src/lib/markdown.ts:8-20 | the blocks typed come back as typed from saving and reopening if and only if they are in normal form |
| `RoundTrip.ReopenSaveIsIdempotent` | web/src/lib/markdown.ts:8-20 | reopening and saving never changes the blocks, and a second save never changes the body |
| `RoundTrip.EmittedEdges` | web/src/lib/markdown.ts:49-53 | a normal form is printed with nothing to trim at either edge |
| `Spelling.BoxForms` | web/src/lib/markdown.ts:25-25 | a dash, a white space, a mark in brackets and the rest of the line are a box if and only if the mark is a space, `x` or `X` and the label is one line; it is ticked unless the mark is a space, and at most one white space is dropped before the label |
| `Spelling.OnlyBoxForms` | web/src/lib/markdown.ts:25-25 | no other line is a box |
| `Spelling.EditorSpells` | web/src/lib/markdown.ts:28-54 | blocks with words are stored as their Markdown, with a line break between two boxes and an empty line around every paragraph |
| `Spelling.BoxesCutTheBody` | web/src/lib/markdown.ts:84-94 | a box line becomes its box where it stands, the lines before it are closed as text before a box, and the last lines as text at the end of the body |
| `Spelling.BlanksBetweenBoxes` | web/src/lib/markdown.ts:66-73 | lines without words are kept only between two boxes, as as many empty lines |
| `Spelling.WordsBetweenBoxes` | web/src/lib/markdown.ts:74-81 | lines with words become one text block of consecutive lines: beside a box exactly one blank line is dropped, at an edge of the body all of them |
| `CanonicalBodies.PrintedIsCanonical` | web/src/lib/markdown.ts:28-54 | a normal form is printed as a canonical body |
| `CanonicalBodies.FixedPointsAreCanonical` | web/src/lib/markdown.ts:28-95 | a body survives reopening and saving if and only if it is canonical, a condition on its lines alone |
| `CanonicalBodies.StoredBodiesAreFixedPoints` | web/src/lib/markdown.ts:8-20 | whatever list the editor stores, adjacent paragraphs included, is stored as a fixed point, given one-line labels, no box-shaped paragraph line and blank-only text made of empty lines |
| `CanonicalBodies.SpacesBetweenBoxesAreLost` | web/src/lib/markdown.ts:66-73 | for any two boxes and any white space between them the stored body is not a fixed point: the last proviso is needed |
| `KeepBody.TextBlocks` | api/app/services/keep_import.py:107-122 | the loop splits free text into paragraphs at lines blank for Python |
| `KeepBody.ReplaceTriplesShrinks` | api/app/services/keep_import.py:102-103 | one pass of the replacement shortens the text if three line feeds stand in a row, and leaves it alone otherwise |
| `KeepBody.Collapse` | api/app/services/keep_import.py:102-103 | the collapsing loop ends, with no three line feeds in a row left |
| `Spelling.CollapsingSqueezes` | api/app/services/keep_import.py:102-103 | however often the loop runs, of every run of line feeds at most two stay, and everything else does |
| `Spelling.StrippingCuts` | api/app/services/keep_import.py:104-104 | stripping cuts only line feeds, and all of them at both ends |
| `KeepBody.SerializeBlocks` | api/app/services/keep_import.py:84-104 | the importer's printing loop, collapse and strip yield the body the agreement theorems are about |
| `Spelling.ImporterSpellsAll` | api/app/services/keep_import.py:84-104 | any blocks are imported as their Markdown with the separators of the stored format, squeezed and stripped |
| `Spelling.ImporterSpells` | api/app/services/keep_import.py:84-104 | paragraphs without empty lines and one-line items are imported exactly so |
| `KeepBody.BuildBody` | api/app/services/keep_import.py:125-142 | paragraphs first, then one box per well-formed list item, printed by the importer |
| `Spelling.LineEndsAreUnified` | api/app/services/keep_import.py:129-131 | the two replacements turn every CR LF, CR and LF into one line feed, in one pass |
| `Spelling.BlankLinesCut` | api/app/services/keep_import.py:107-122 | a line blank for Python cuts the text, and a stretch of other lines is one paragraph |
| `Spelling.ItemsBecomeBoxes` | api/app/services/keep_import.py:134-141 | every item becomes one box in its place, ticked as the item is, empty without a text; what is not an object becomes none |
| `Spelling.ImportedBody` | api/app/services/keep_import.py:125-142 | with one-line items the body is the paragraphs of the text with its line ends unified, then the items, in the stored format |
| `KeepBody.KeepSerializedRows` | api/app/services/keep_import.py:101-104 | on blocks without empty lines neither collapsing nor stripping changes anything |
| `KeepBody.PrintersAgreeExactly` | api/app/services/keep_import.py:84-104 | on paragraphs without empty lines and labels without line feeds the two printers give the same body if and only if every paragraph has words for the editor and both ends of the body do |
| `KeepNotes.KeepMatchesEditor` | api/app/services/keep_import.py:125-142 | for every note, the imported body is the one the editor would have stored if and only if every paragraph and both ends have words for the editor and no item text has line feeds to collapse or strip |
| `KeepNotes.KeepMatchesEditorOnText` | api/app/services/keep_import.py:107-142 | when no line is made of U+FEFF and white space only, item texts alone decide |
| `KeepNotes.KeepCanDiffer` | api/app/services/keep_import.py:107-142 | a note that is one U+FEFF is imported as such while the editor would store nothing |
| `KeepNotes.KeepBodyIsAFixedPoint` | api/app/services/keep_import.py:107-110 | every imported body reopens unchanged if and only if its lines are canonical; with one-line items and no box-shaped text line, if and only if its first and last lines are not blank for the editor |
| `Inline.EmitPlainOrItalic` | web/src/lib/inline.ts:35-48 | the inner loop, shrinking its text, pushes the italic segments of a chunk in leftmost order |
| `Inline.ParseInline` | web/src/lib/inline.ts:32-60 | the outer loop, shrinking its text, yields the segments the next rows are about |
| `Inline.FindBold` | web/src/lib/inline.ts:27-53 | the match used is the leftmost one |
| `Inline.Lossless` | web/src/lib/inline.ts:32-60 | the raw slices of the segments concatenate to the line |
| `Inline.SegmentsProper` | web/src/lib/inline.ts:25-60 | no plain segment contains a match, marked text is non-empty, star-free and rebuilt by its markers, no two plain segments are neighbours |
| `Inline.BoldIsFound` | web/src/lib/inline.ts:25-27 | a bold segment comes out if and only if the bold pattern matches somewhere in the line |
| `Inline.PatternsAreSpelled` | web/src/lib/inline.ts:25-28 | a match is two stars or one, text without stars, and as many stars again |
| `Inline.FirstBoldCuts` | web/src/lib/inline.ts:50-59 | the leftmost bold text cuts a line in three; the parts before and after it are split by themselves |
| `Inline.FirstItalicCuts` | web/src/lib/inline.ts:35-48 | where nothing is bold the leftmost italic text does |
| `Inline.PlainStaysWhole` | web/src/lib/inline.ts:47-47 | a line without a match is one plain segment, or none when empty |
| `Inline.HeadingRebuilds` | web/src/lib/inline.ts:63-71 | a heading is found if and only if the line is one to three hashes, a space and one line of text; marker plus text is the line |
| `Highlight.EscapeStep` | web/src/lib/highlight.ts:10-12 | three sequential replacements equal one simultaneous pass, character by character |
| `Highlight.DecodeChar` | web/src/lib/highlight.ts:10-12 | decoding gives back each escaped character, whatever follows it |
| `Highlight.ReadsEscaped` | web/src/lib/highlight.ts:10-12 | escaped text contributes exactly itself to the text content, in any context |
| `Highlight.ReadsSegment` | web/src/lib/highlight.ts:14-30 | the HTML of a segment contributes exactly the segment's raw slice to the text content; the spans around it are in `PaintsSegment` |
| `Highlight.ReadsLine` | web/src/lib/highlight.ts:35-41 | the HTML of a line, heading or not, contributes exactly the line |
| `Highlight.HighlightIsLossless` | web/src/lib/highlight.ts:3-8 | for every text, the text content of its highlighted HTML is the text |
| `Styles.ReadingIsTextContent` | web/src/lib/highlight.ts:3-8 | reading the HTML with a stack of open spans yields the characters of its text content |
| `Styles.PaintsSegment` | web/src/lib/highlight.ts:14-30 | bold text stands in a `kp-md__b` span, italic text in a `kp-md__i` span, their stars in a `kp-md__mark` span within, plain text in none |
| `Styles.HighlightPaints` | web/src/lib/highlight.ts:32-46 | for every text, each character of the highlighted HTML stands in exactly the spans that its line and segment ask for |
| `Styles.SpansHoldTheirSlices` | web/src/lib/highlight.ts:14-46 | for every text, the characters inside the spans of a class are, in order, the raw slices of the bold or italic segments, the markers, or the heading lines of that level |
| `Replies.ViewsAreFaithful` | api/app/routers/notes.py:61-83 | what is shown of a note is every field of it but the time the lock was taken |
| `Replies.PayloadsAreFaithful` | api/app/services/agent.py:60-81 | the agent is shown the same except for the lock, and of that a holder if and only if the lock is live |
| `Replies.PatchAnswers` | api/app/routers/notes.py:166-195 | a patch is accepted if and only if the caller owns the note, or it is public and no sharing or board field would change, and, for content of a public note, holds a live lock; each refusal has its exact condition, and changes nothing |
| `Replies.PatchTakesEffect` | api/app/routers/notes.py:196-207 | an accepted patch sets the fields it names, leaves the others, the lock and the history, and dates the note only for content |
| `Replies.LockAnswers` | api/app/routers/notes.py:210-227 | a lock is granted if and only if the note is readable and nobody else holds it; the expiry is then 60 s ahead, `locked_at` kept on renewal; a conflict names the live holder and the expiry |
| `Replies.UnlockAnswers` | api/app/routers/notes.py:230-245 | closing clears the lock if and only if it is the caller's, and of a held or private note appends one version unless the newest shows it already |
| `Replies.FindsTheVersion` | api/app/routers/notes.py:287-289 | the version restored has the id asked for, and none is found only if the note has none with that id |
| `Replies.RestoreAnswers` | api/app/routers/notes.py:274-316 | a restore is accepted if and only if the note is readable, has the version, and is not locked by another; it brings back the content of the version with that id, its visibility for the owner only |
| `Replies.AgentUpdateAnswers` | api/app/services/agent.py:138-179 | an agent edit is accepted if and only if the note is readable and not locked by another; it sets the fields it names, gives a borrowed lock back, and is versioned |
| `Replies.FlagsAnswers` | api/app/services/agent.py:182-201 | the agent's pin and archive are the owner's, set as named, and touch nothing else |
| `Replies.DeleteAnswers` | api/app/routers/notes.py:319-336 | deletion is answered done, forbidden or not found, each under its exact condition |
| `Replies.CreateAnswers` | api/app/routers/notes.py:141-155 | a created note has the fields asked for, is unlocked and unorganized, and has one version, its root |
| `Replies.ReadAnswers` | api/app/routers/notes.py:158-163 | reading changes nothing and shows the note, or its versions each once, to those who may read it |
| `Replies.LatestIsNewest` | api/app/services/versions.py:20-25 | the newest version is the one of the latest date, the first appended of several |
| `Leases.GrantKeeps` | api/app/services/locks.py:37-67 | a won conditional update is a legal next event of the lock protocol and leaves the row agreeing with it |
| `Leases.WriteKeeps` | api/app/routers/notes.py:184-203 | an accepted content patch is a legal write event: under the writer's live lease, or on a private note by its owner |
| `Leases.BorrowKeeps` | api/app/services/agent.py:161-177 | borrow, write and give back are three legal events and leave an unlocked row |
| `Leases.StepKeeps` | api/app/routers/notes.py:166-336 | every request keeps the invariant that ties lock fields, lock events and content writes together |
| `Leases.RunKeeps` | api/app/services/locks.py:1-14 | the invariant holds in every state every run reaches |
| `SingleWriter.ContentChangesAreRecorded` | api/app/routers/notes.py:166-336 | no request changes title, body, color or visibility without a write event naming its caller and time |
| `SingleWriter.PublicWritesAreLeased` | api/app/routers/notes.py:184-195 | in every run a write to a public note is made by the user of an earlier, unexpired grant since which the lock was neither granted nor released |
| `SingleWriter.GrantsEndOrStand` | api/app/services/locks.py:70-83 | a grant stands as the current lease of its user until it is released or outlived |
| `SingleWriter.LeasesNeverOverlap` | api/app/services/locks.py:45-67 | in every run, of two grants to different users the first was released or had expired before the second |
| `SingleWriter.WritersDoNotInterleave` | api/app/services/locks.py:1-14 | after a public write and until its lock session ends, every write is by the same user |
| `SingleWriter.RowShowsTheLease` | api/app/services/locks.py:57-61 | the three lock fields are always those of the current lease, `locked_at` being the time its session began |
| `SingleWriter.HeldStep` | api/app/services/locks.py:37-67 | within the time to live no request of anyone else takes, ends or restamps a held lock |
| `SingleWriter.HeartbeatsKeepTheLock` | api/app/services/locks.py:23-67 | a holder who never lets more than 60 s pass between renewals keeps the lock: nobody else is granted it and `locked_at` stays |
| `SingleWriter.RunContinues` | api/app/services/locks.py:1-14 | going on from a reachable state is one run with what came before, records included |
| `SingleWriter.HeartbeatsHoldInRuns` | api/app/services/locks.py:23-67 | in every run, from any point at which the record shows a lease, a holder who keeps it alive loses it to nobody and `locked_at` stays |
| `SingleWriter.TwoLostHeartbeatsAreHarmless` | api/app/services/locks.py:5-6 | with a renewal slot every 20 s, losing any two in a row costs the holder nothing |
| `SingleWriter.TakeoverExactlyAfterExpiry` | api/app/services/locks.py:27-29 | someone else's lock request succeeds if and only if more than the time to live has passed since the last renewal |
| `Histories.LatestIsLast` | api/app/services/versions.py:20-25 | with increasing dates the newest version is the last appended |
| `Histories.RecordGood` | api/app/services/versions.py:55-68 | recording a session keeps the history good, adds at most one version and leaves the newest one showing the note |
| `Histories.StepKeepsHistory` | api/app/services/versions.py:1-13 | every request keeps the root, the increasing dates and the absence of equal neighbours, appends at most one version by its caller, and unlocks only a versioned public note |
| `Histories.RunsKeepHistory` | api/app/services/versions.py:1-13 | in every run the first version is the creation root and no two consecutive versions have the same snapshot |
| `Histories.HistoryOnlyGrows` | api/app/routers/notes.py:278-309 | between any two moments of a run at which the note exists, the earlier history is a prefix of the later: nothing is overwritten |
| `Histories.StaysGone` | api/app/routers/notes.py:319-336 | a note that exists at two moments of a run existed throughout: deletion is final |
| `Histories.UnlockedMeansVersioned` | api/app/routers/notes.py:230-245 | in every run of an always public note, when it is unlocked its newest version equals its title, body, color and visibility |
| `Histories.NewestFirstReverses` | api/app/routers/notes.py:248-271 | the history page is the reverse of the order of appending |
| `Sessions.OnlyTheHolderAddsVersions` | api/app/services/versions.py:7-9 | while a session is kept alive, unless the note is deleted, the holder keeps it, no version is lost, and versions are appended only by the holder's own restores and agent edits, at most one each |
| `Sessions.OneSessionOneVersion` | api/app/routers/notes.py:230-245 | closing a session appends exactly one version, by its holder and showing the note as left, or none if the newest already shows it; without restores or agent edits of the holder the session adds no other |
| `Sessions.BorrowedEditIsASession` | api/app/services/agent.py:161-177 | an edit under a borrowed lock reaches the state, history and event record of lock, patch and unlock by the same caller at the same instant, whether or not the lock can be had |
| `Sessions.RestoreIsASession` | api/app/routers/notes.py:274-316 | a restore on a public note whose lock the caller does not hold is such a session |
| `Sessions.AgentUpdateIsASession` | api/app/services/agent.py:138-179 | so is an agent edit with at least one change |
| `Permissions.OthersCannotShareOrOrganize` | api/app/routers/notes.py:174-183 | no request of anyone but the owner changes visibility, pin, archive, owner or creation date |
| `Permissions.OnlyOwnerOrAdminDeletes` | api/app/routers/notes.py:319-336 | a note disappears if and only if its owner or an admin asks for its deletion |
| `Permissions.PrivateNotesAreOutOfReach` | api/app/routers/notes.py:115-120 | to anyone else, every request on a private note answers as on an unknown id and leaves it as it is |
| `Permissions.ModifiedMeansWritten` | api/app/routers/notes.py:198-201 | the modification date moves, to the time of the request, exactly with the content writes on record; pin and archive never move it |
| `Permissions.PatchIsReadBack` | api/app/routers/notes.py:166-207 | after an accepted patch a read answers what the writer was answered, the note with the patch applied |
| `Permissions.RestoreBringsBack` | api/app/routers/notes.py:274-316 | after an accepted restore some version with the id asked for has the content the note shows, visibility included for the owner; the result is versioned and the earlier history kept |
| `Permissions.AgentEditIsVersioned` | api/app/services/agent.py:138-179 | an accepted agent edit changes the named fields only, never the sharing, and is versioned at once |
| `Stores.RunsProject` | api/app/routers/notes.py:112-121 | a run of the whole store is, note by note, the run of the requests that name the note |
| `Stores.StaysVisible` | api/app/routers/notes.py:177-183 | no request hides a note from its own caller |
| `Stores.ListingsAreOrdered` | api/app/routers/notes.py:124-138 | a board listing shows exactly the notes that belong on the board, each once, no pinned note after another, newest first |
| `Stores.RequestsCommuteWithErasure` | api/app/routers/notes.py:112-121 | every request of a member commutes with erasing the private notes of others and their versions, with the same answer |
| `Stores.ListingsIgnoreHidden` | api/app/routers/notes.py:124-138 | a list is a board listing of the store if and only if it is one of the erased store |
| `Stores.PrivateActivityIsInvisible` | api/app/routers/notes.py:112-121 | over every run, whatever others do, a member's answers and the store as the member sees it are those of replaying, on a store without the private notes of others, the requests on notes in sight and the notes that came into sight |
| `Stores.UnseenDifferencesStayUnseen` | api/app/routers/notes.py:115-117 | two runs that differ only out of a member's sight give the member the same answers and the same store in sight |
| `Stores.PrivateRequestsLeaveNoGlimpse` | api/app/routers/notes.py:115-117 | requests of others on notes hidden before and after leave nothing to see |
| `Stores.RunsContinue` | api/app/routers/notes.py:112-121 | running requests one after another from a reachable store is a run of the store |
| `StoreRuns.StoreRunsAreSound` | api/app/services/locks.py:1-14 | in every timely run of the store every note's log follows the lock protocol, every row shows its lease and every history is good |
| `NoteService.Service.Acquire` | api/app/services/locks.py:37-67 | the conditional update, and nothing else of either table, happens if and only if the lock is free, expired or the caller's |
| `NoteService.Service.Release` | api/app/services/locks.py:70-83 | clears the three lock fields if and only if the caller holds the lock, never someone else's |
| `NoteService.Service.LatestVersion` | api/app/services/versions.py:20-25 | the scan returns the newest version by date |
| `NoteService.Service.RecordSessionVersion` | api/app/services/versions.py:55-68 | appends a snapshot unless the newest version equals the note, in both tables' terms |
| `NoteService.Service.GetReadableNote` | api/app/routers/notes.py:112-121 | finds a note if and only if it is the caller's or public |
| `NoteService.Service.ListNotes` | api/app/routers/notes.py:124-138 | yields exactly the notes of the board, each once, pinned first, then newest first |
| `NoteService.Service.ListNoteVersions` | api/app/routers/notes.py:249-271 | answers as the store's step, and with increasing dates with the history reversed |
| `NoteService.Service.CreateNote` | api/app/routers/notes.py:142-155 | writes the row and its root version, as the store's step |
| `NoteService.Service.PatchNote` | api/app/routers/notes.py:167-207 | answers and updates the tables as the step that `PatchAnswers`, `PatchTakesEffect` and the run theorems are about, refusals included |
| `NoteService.Service.LockNote` | api/app/routers/notes.py:211-227 | the same for acquiring and renewing |
| `NoteService.Service.UnlockNote` | api/app/routers/notes.py:231-245 | the same for closing a session |
| `NoteService.Service.Edit` | api/app/services/agent.py:161-178 | acquire, write, record and release in place amount to the borrowed edit, lock given back on every path |
| `NoteService.Service.RestoreVersion` | api/app/routers/notes.py:275-316 | the same for a restore, as in `RestoreAnswers`; a version of another note is not found |
| `NoteService.Service.UpdateNote` | api/app/services/agent.py:138-179 | the same for the agent's edit |
| `NoteService.Service.SetFlags` | api/app/services/agent.py:182-201 | the same for the agent's pin and archive, owner-only and lock-free |
| `NoteService.Service.DeleteNote` | api/app/routers/notes.py:320-336 | removes row and history together, by owner or admin only, a private note of others answering not found |
| `BlockEdits.SpliceIds` | web/src/components/editor/BlockList.tsx:102-106 | replacing blocks by pieces that carry replaced or fresh ids keeps ids distinct |
| `BlockEdits.CutKeeps` | web/src/components/editor/BlockList.tsx:172-183 | cutting a paragraph around a new box keeps its text, ids and focus |
| `BlockEdits.EnterKeeps` | web/src/components/editor/BlockList.tsx:410-419 | so do the three outcomes of Enter in a box label |
| `BlockEdits.EnterOnSelectionKeeps` | web/src/components/editor/BlockList.tsx:186-202 | Enter on a selection keeps all but the selected characters, and ids and focus |
| `BlockEdits.AbsorbKeeps` | web/src/components/editor/BlockList.tsx:276-282 | so does a label that absorbs the first line of the paragraph below |
| `BlockEdits.MergeTextBackKeeps` | web/src/components/editor/BlockList.tsx:258-283 | so does every branch of Backspace at the start of a paragraph |
| `BlockEdits.MergeTextForwardKeeps` | web/src/components/editor/BlockList.tsx:286-299 | so does Delete at its end |
| `BlockEdits.MergeLabelBackKeeps` | web/src/components/editor/BlockList.tsx:302-325 | so does every branch of Backspace at the start of a label |
| `BlockEdits.MergeLabelForwardKeeps` | web/src/components/editor/BlockList.tsx:328-343 | so does Delete at its end |
| `BlockEdits.EditsLoseNothing` | web/src/components/editor/BlockList.tsx:133-343 | any sequence of insertions, splits, exits and merges keeps the non-space characters in order, distinct ids, a non-empty list, and a pending focus inside an existing block |
| `EditShapes.TextBackShape` | web/src/components/editor/BlockList.tsx:258-283 | Backspace at the start of a paragraph: an empty one is removed, the lines of two paragraphs follow one another in one block with the caret after the upper ones, and a box above absorbs the first line |
| `EditShapes.AbsorbShape` | web/src/components/editor/BlockList.tsx:276-282 | the box takes the first line of the paragraph below into its label, blank lines after it go, and the rest stays a paragraph |
| `EditShapes.TextForwardShape` | web/src/components/editor/BlockList.tsx:286-299 | Delete at the end of a paragraph: the lines of the paragraph below follow, or the label below joins its last line |
| `EditShapes.LabelBackShape` | web/src/components/editor/BlockList.tsx:302-325 | Backspace at the start of a label: an empty box is removed, a box at the top becomes a paragraph, otherwise the label joins the label above, whose tick stays, or follows the lines of the paragraph above |
| `EditShapes.LabelForwardShape` | web/src/components/editor/BlockList.tsx:328-343 | Delete at the end of a label: it absorbs the first line of the paragraph, or the label, below and keeps its tick |
| `EditShapes.EnterShape` | web/src/components/editor/BlockList.tsx:410-419 | Enter in a label: an empty box becomes a paragraph, at the end a new box follows, otherwise label and selection are cut at the caret, the upper half keeping the tick and the lower half a new unticked box |
| `EditShapes.InsertShape` | web/src/components/editor/BlockList.tsx:159-184 | the insert button: a new unticked box at the bottom, below the box asked for, or where the caret cuts the paragraph, with the line breaks at the cut dropped and no empty half |
| `EditShapes.TypingShape` | web/src/components/editor/BlockList.tsx:114-131 | typing replaces the text, or puts the pieces where it stood: a leading text keeps the id, the others are new, and the focus is at the end of the last box |
| `CaretPlace.SpliceLands` | web/src/components/editor/BlockList.tsx:81-106 | a focus on one of the pieces put in stands after the text of everything above it and of the part before its caret |
| `CaretPlace.CaretStaysInPlace` | web/src/components/editor/BlockList.tsx:133-343 | whatever the edit, the caret ends up after the same non-space characters as before it; for the insert button, after those of the place asked for |
| `CaretPlace.FocusIsLostOnlyAtTheTop` | web/src/components/editor/BlockList.tsx:204-208 | an edit leaves no focus if and only if it removes an empty box at the very top |
| `BlockList.EditingSurface.SpliceBlocks` | web/src/components/editor/BlockList.tsx:102-106 | in-place splice, with a fresh empty paragraph when nothing would be left |
| `BlockList.EditingSurface.ChangeParagraph` | web/src/components/editor/BlockList.tsx:114-131 | converts typed boxes in place, leading text keeping the id, focus on the last box; ids stay distinct |
| `BlockList.EditingSurface.InsertBox` | web/src/components/editor/BlockList.tsx:159-184 | inserts at the remembered caret or at the bottom; the component's list keeps its non-space characters, distinct ids and a focus in range |
| `BlockList.EditingSurface.EnterPressed` | web/src/components/editor/BlockList.tsx:410-419 | Enter in a label; the component's list keeps the same, but for selected characters |
| `BlockList.EditingSurface.TextBack` | web/src/components/editor/BlockList.tsx:258-283 | Backspace in a paragraph, in place, with the component's list keeping the same |
| `BlockList.EditingSurface.TextForward` | web/src/components/editor/BlockList.tsx:286-299 | Delete in a paragraph, in place, with the component's list keeping the same |
| `BlockList.EditingSurface.LabelBack` | web/src/components/editor/BlockList.tsx:302-325 | Backspace in a label, in place, with the component's list keeping the same |
| `BlockList.EditingSurface.LabelForward` | web/src/components/editor/BlockList.tsx:328-343 | Delete in a label, in place, with the component's list keeping the same |
| `TypedChecks.ExplodeChecks` | web/src/components/editor/BlockList.tsx:33-55 | the loop converts every typed box line and trims the text around it, or reports that there is none |
| `TypedChecks.BoxesAreTyped` | web/src/components/editor/BlockList.tsx:23-24 | whatever the stored format reads as a box, typing reads as the same box |
| `TypedChecks.TypedForms` | web/src/components/editor/BlockList.tsx:23-24 | brackets with nothing, a space, `x` or `X` between them, with or without a dash before, make a box of a one-line label, ticked for `x` and `X` |
| `TypedChecks.OnlyTypedForms` | web/src/components/editor/BlockList.tsx:23-24 | no other line is converted |
| `TypedChecks.TypedLinesCut` | web/src/components/editor/BlockList.tsx:33-55 | a typed line becomes its box where it stands; the lines between two become one text without the blank lines at its edges, or nothing |
| `TypedChecks.PiecesNormal` | web/src/components/editor/BlockList.tsx:33-55 | the pieces are in normal form and none converts again |
| `TypedChecks.TypedChecksSurvive` | web/src/components/editor/BlockList.tsx:28-55 | converted pieces survive saving and reopening unchanged, and leave nothing more to convert |
| `TypedChecks.ChangeTextKeepsIds` | web/src/components/editor/BlockList.tsx:114-131 | a paragraph edit keeps ids distinct and focuses an existing block if and only if it made a box |
| `Autosave.Hook.StartSave` | web/src/hooks/useAutosave.ts:25-35 | starts a save from the latest draft unless one is running or nothing is dirty, so no second save starts beside the first |
| `Autosave.Hook.SaveSettled` | web/src/hooks/useAutosave.ts:39-47 | whichever save settles, re-arms when edits came in or the write failed, else shows the draft as saved, keeping the invariant |
| `Autosave.Hook.QueueEdit` | web/src/hooks/useAutosave.ts:51-56 | marks the edit, drops the stored timer and arms a new one, keeping the invariant |
| `Autosave.Hook.TimerFired` | web/src/hooks/useAutosave.ts:25-56 | a timer that fires, the stored one or a forgotten one, acts as the machine's step and keeps the invariant |
| `Autosave.StepKeeps` | web/src/hooks/useAutosave.ts:25-56 | every event keeps: the list of saves in flight has one element while `savingRef` is set and none otherwise, the label tells the flags, what is dirty and idle has a live timer |
| `Autosave.EditsRestartTheTimer` | web/src/hooks/useAutosave.ts:51-56 | an edit drops the timer waited for and arms one new timer; no save starts |
| `Autosave.RunsSaveTheLatest` | web/src/hooks/useAutosave.ts:25-35 | a timer or a flush starts a save of the latest draft if and only if something is unsaved and no save is under way |
| `Autosave.SavesSettle` | web/src/hooks/useAutosave.ts:39-47 | a save that went well is stored; it is taken up again if it failed or the draft moved on, and only then |
| `Autosave.NoEditIsStranded` | web/src/hooks/useAutosave.ts:3-10 | over any interleaving, at most one save is in flight, an unsaved edit not being saved has a live timer, and `saved` is shown only when the latest draft is stored |
| `Autosave.QuietLeadsToSaved` | web/src/hooks/useAutosave.ts:3-10 | from every such state the next due events, if the saves succeed, store the latest draft |
| `ImportKeep.ImportKeepNotes` | api/app/routers/import_keep.py:152-205 | the loop with its batch set and per-note query computes the import that the next rows and its summary are about; the batch set adds nothing to the query |
| `ImportKeep.EverySelectedFileIsAccountedFor` | api/app/routers/import_keep.py:160-205 | selected positions of the archive are imported, skipped, failed or trashed, once each |
| `ImportKeep.SummaryTellsWhatHappened` | api/app/routers/import_keep.py:160-205 | `imported` is the number of notes created, and `failed` lists exactly the selected unreadable files, in order |
| `ImportKeep.SelectedFilesBecomeNotes` | api/app/routers/import_keep.py:168-202 | every created note has the title, body, color and dates of a selected readable file, is private and unorganized; every such file is afterwards the content of a note of the owner |
| `ImportKeep.ImportCreatesNewContent` | api/app/routers/import_keep.py:165-202 | what is created is private, rooted, the owner's, pairwise distinct in title and body and new to the owner; all else is untouched |
| `ImportKeep.CreationIsAStep` | api/app/routers/import_keep.py:190-201 | each creation is the store's import step, so the run theorems cover imported notes |
| `ImportKeep.ImportIsIdempotent` | api/app/routers/import_keep.py:165-188 | the same import again changes nothing, skips what the first imported or skipped, and fails on the same files |
| `Boards.SortSpec` | web/src/pages/BoardPage.tsx:57-72 | sorting by modification keeps the notes and puts pinned first, newest first |
| `Boards.SortedIsUnique` | web/src/pages/BoardPage.tsx:55-56 | with distinct dates there is one such order, the server's |
| `Boards.SortsByModification` | web/src/pages/BoardPage.tsx:55-72 | the sorted list has the same notes, pinned before others, and among equals the later modified first |
| `Boards.ReplacedEqualsRefetch` | web/src/lib/boardCache.ts:59-63 | replacing a note that stays on the board in the cached list gives, sorted, the server's list |
| `Boards.WithoutEqualsRefetch` | web/src/lib/boardCache.ts:78-91 | so does dropping a note that leaves the board |
| `Boards.OptimisticEqualsRefetch` | web/src/pages/BoardPage.tsx:158-167 | after the owner pins or archives, the optimistic list is the server's for all three boards if and only if an archive flag in the patch differs from the view's |
| `Boards.SavedEditEqualsRefetch` | web/src/lib/boardCache.ts:59-76 | the editor's saved view put in the cached list is the server's list when the note stays on the board |
| `Boards.DeletedEqualsRefetch` | web/src/pages/BoardPage.tsx:179-185 | optimistic deletion is the server's list once the deletion went through |
| `BoardCache.UpsertReplaces` | web/src/lib/boardCache.ts:67-73 | where ids are distinct, replacing the first match is replacing by id |
| `BoardCache.Cache.Organize` | web/src/pages/BoardPage.tsx:162-167 | rewrites the shown list so that, sorted, it is the server's again exactly when an archive flag toggles; leaves the others, and notifies once |
| `BoardCache.Cache.UpsertCachedNote` | web/src/lib/boardCache.ts:64-76 | replaces the note wherever cached, inserts it nowhere, and notifies if and only if some list held it |
| `BoardCache.Cache.RemoveCachedNote` | web/src/lib/boardCache.ts:79-91 | drops the note from every list and notifies if and only if some list held it |

## Left out

- Interleaving inside one request: each HTTP request or agent call is one atomic step. `patch_note` checks the lease on the loaded row and commits later without repeating the condition, so the lock theorems are about atomic requests.
- WritersDoNotInterleave: counts lock sessions by the grants that restamp `locked_at`, not by the client's editor windows; a user who reopens the editor within a live lease continues the session.
- UnlockedMeansVersioned: stated for notes that were public at every moment; private notes are edited without a lock, and a flip of visibility legitimately leaves drift until the next close.
- StoredBodiesAreFixedPoints: its provisos are not an invariant of the editor; merges can create a box-shaped paragraph line, which reopens as a box.
- HighlightIsLossless: strings are sequences of Unicode scalar values, where the browser uses UTF-16 code units; and the decoder does not normalise carriage returns and NUL as the HTML parser does (section 13.2.3.5 of the HTML Standard). The theorems of `Styles` read the HTML the same way.
- EditsLoseNothing: Enter with an empty selection; `EnterOnSelectionKeeps` is about a selection, whose characters go.
- NoEditIsStranded: time itself is not modelled, a live timer may fire at any moment; `ok` is taken to mean that the draft was stored.
- KeepBodyIsAFixedPoint: with item texts of several lines or box-shaped lines of text the condition is the canonical form of the body's lines, not one on the note's fields.
- RequestsCommuteWithErasure: for callers who are not admins, as are the theorems on what a member sees over whole runs; an admin can delete the private notes of others by design. Ids of created notes are new.
- IsListing: the server's order is a relation, ties between equal dates being in any order; the equality theorems therefore assume distinct dates.
- Display names, accounts and the foreign keys to them, JSON and HTTP encodings, validation by the request schemas.
- The agent's search and the board's search box; sorting by title or creation date; the other board filters.
- Component unmount in the autosave hook, and waiting for an in-flight save on close.
- The editor's asynchronous lock polling (`useNoteLock`): its races are outside an atomic-step model.
- Clearing ticked boxes, arrow-key navigation, caret and selection code of the DOM.
- Reading the ZIP archive, decoding its JSON, Keep colors and timestamps; a file arrives as a note or a failure.
- Regular-expression engines: the three patterns used are direct predicates on the line.
- Subscribers of the board cache: notifications are counted, not delivered.
- Sign-in, tokens, allowlist, migrations, configuration, translations, theme, service worker.
