# SciHive front end: a verified model of the paper store and its decision rules

SciHive is a web client for reading scientific papers together. A reader opens a PDF,
highlights passages and comments on them, and keeps papers in lists (groups). This project
models the parts of the client that decide things, and proves what they promise:

- **The paper store** (`src/stores/paper.ts`). It is one state record with named actions:
  - sorting highlights (general notes first, then anchored highlights by page and height);
  - toggling the visible and hidden lists;
  - adding, removing, updating and replying to highlights once the backend call settles;
  - pushing a paper into a group and filtering it out;
  - the jump-request slots, the pending-highlight slot, and the reset done by `fetchPaper`
    and `clearPaper`.

  The store is `PaperStore.PaperStore`, a class whose `state` field every action reassigns.
  Each action is stated against a pure function of the old state (`Reset`, `Toggle`,
  `Added`, `ReplaceById`, `RemoveById`, `WithoutGroup`, `PaperJumpFor`). The properties are
  lemmas about those functions.
- **The highlight data model** (`src/models.ts`): positions, visibilities, new, full and
  pending highlights, `isValidHighlight`, and the paper-jump union (module `Models`). A
  highlight is a two-constructor datatype: `Anchored` carries a position and `General` is a
  note about the whole paper.
- **Search-match conversion and drawing** (`src/components/Pdf/lib/pdfSearchUtils.js`).
  - `ConvertMatches` is the nested cursor loop that turns flat character indices into
    (item, offset) pairs.
  - `RenderMatches` is the loop that plans which text segments are put back into each text
    div. The plan is a list of steps; `Apply` runs such a list over the div texts.
- **Decision rules inside components.** Each one is a pure function or a small class whose
  fields are the component's state slots:
  - the tip form's submit-time visibility (`TipForm`);
  - the paper list's query defaults and filter editing (`PapersList`);
  - the legacy highlight list and url slot of the commenter page (`PdfCommenter`);
  - comment-hash parsing and the focused-comment slot (`CommentsList`);
  - the sidebar item's preview, icons and display rules (`SidebarItem`);
  - the paper menu links (`PaperMenuBar`);
  - arXiv link recognition and the upload status (`FileUpload`);
  - the bookmark popover's group filter and add/remove requests (`Bookmarks`);
  - the pointer-proximity test (`MouseMonitor`);
  - the collaborative paper's load-status machine (`CollabPaper`).

Every backend call is an argument of the action that issues it: a `Result` carrying the
server record, or a boolean for a call without a body. An action that issues calls returns
them as `Request` values, so "nothing was sent" is part of its contract. Modules
`Wrappers` (Option, Result) and `Text` (ASCII case mapping, `slice`, `parseInt`) are shared.
Modules `StoreScenarios` and the short methods at the end of each component module run
whole user flows through the classes.

Where the contracts follow the code rather than the project's prose, the code is modelled
as written:
- zustand's `set` merges, so the reset keeps the six keys that `initialState` does not
  name (`ResetSpec`).
- `removeHighlight` filters only the visible list.
- The missing-paper-id guard of `updateHighlight` rejects but does not return, so the PATCH
  is still sent and a success is still applied.
- Showing the hidden highlights again appends them without re-sorting.
- In the sidebar item, the visibility icon and the edit/delete buttons sit inside the
  has-comment-text branch.
- `convertMatches` needs a non-empty item list only when there are matches.

## Model

| member | source | states |
|---|---|---|
| Text.UpperChar | src/components/sidebarHighlightItem/index.tsx:22 | lower-case ASCII letters map to their upper-case letter, every other character is unchanged |
| Text.Lower | src/components/PapersList.tsx:147 | lower-casing keeps the length and maps each character by the ASCII lower-case rule |
| Text.SliceFrom | src/components/CommentsList.jsx:33 | `slice(start)` is the suffix from `start`, or empty past the end |
| Text.TrimStartSpec | src/stores/paper.ts:282 | what `parseInt` skips is a run of ECMAScript white space at the front, and what is left does not start with white space |
| Text.HexDigitPrefix | src/stores/paper.ts:282 | the longest run of hexadecimal digits at the front |
| Text.NumeralDigits | src/stores/paper.ts:282 | hexadecimal digits are read after a `0x` or `0X` prefix, decimal digits otherwise |
| Text.ReadNumber | src/stores/paper.ts:282 | after the white space: NaN exactly when no digit follows the optional sign and the prefix |
| Text.ParseInt | src/stores/paper.ts:282 | `parseInt` skips leading white space, reads an optional sign, then hexadecimal digits after `0x` or decimal digits; NaN exactly when there are none |
| Text.ParseIntValue | src/stores/paper.ts:282 | a number read is the numeral's value in the base its prefix chooses, negated after a minus sign |
| Text.ParseIntReadsTrimmed | src/stores/paper.ts:282 | two strings that agree after their leading white space parse alike |
| Text.TrimStartOfNonSpace | src/stores/paper.ts:282 | text that does not start with white space is not trimmed |
| Text.ParseIntDecimal | src/stores/paper.ts:282 | text that starts with a digit and no `0x` prefix reads as the value of its leading digits |
| Text.TrimStartSkips | src/stores/paper.ts:282 | white space in front of a string is skipped entirely |
| Text.ParseIntIgnoresLeadingWhiteSpace | src/stores/paper.ts:282 | leading white space never changes what `parseInt` reads |
| Text.ParseIntSkipsSpace | src/stores/paper.ts:282 | `parseInt(" 3")` is 3 |
| Text.ParseIntReadsHex | src/stores/paper.ts:282 | `parseInt("0x1f")` is 31 |
| Text.ParseIntHexPrefixAlone | src/stores/paper.ts:282 | `parseInt("0x")` is NaN |
| Text.ParseIntStopsAtLetter | src/stores/paper.ts:282 | `parseInt("-12a")` is -12 |
| Text.ParseIntOfNatToString | src/stores/paper.ts:282 | the numeral of an index, followed by text that starts with neither a digit nor (after `0`) an `x`, reads back as that index |
| Models.ParseVisibilityType | src/models.ts:43-49 | a wire name is read as a scope exactly when it is one of the four names |
| Models.VisibilityNamesRoundTrip | src/models.ts:43-44 | reading a scope's name gives back that scope; the four names are distinct |
| Models.Persist | src/models.ts:51-81 | a stored highlight carries the new-highlight fields unchanged plus the server's id, creation date, replies, user and edit flag |
| Models.IsValidHighlight | src/models.ts:87-89 | true exactly for a full highlight (one with an `id`), false for a pending one |
| Models.TempHighlightFields | src/models.ts:83 | a pending highlight always has a position and never an id; its other fields are content, comment and visibility only |
| Models.PaperJump.JumpType | src/models.ts:145-162 | the type tag is "section" exactly for a section jump and "highlight" exactly for a highlight jump |
| HighlightLists.ReplaceById | src/stores/paper.ts:125-132 | length is kept, each entry with the record's id becomes the record, every other entry is unchanged |
| HighlightLists.ReplaceKeepsIds | src/stores/paper.ts:128 | replacing keeps the id sequence, hence order and length |
| HighlightLists.ReplaceAbsentIsIdentity | src/stores/paper.ts:128 | replacing a record whose id is absent changes nothing |
| HighlightLists.RemoveById | src/stores/paper.ts:201 | an entry survives exactly when its id differs; the result is a sub-multiset |
| HighlightLists.RemoveLength | src/stores/paper.ts:201 | removal shortens the list by exactly the number of entries with that id |
| HighlightLists.RemoveIdempotent | src/stores/paper.ts:201 | removing twice is removing once; removing an absent id is the identity |
| HighlightLists.RemoveAppend | src/components/PdfCommenter.jsx:174 | removal distributes over concatenation, so the kept entries stay in order |
| HighlightLists.FindById | src/components/CommentsList.jsx:50-52 | nothing exactly when no entry has the id; otherwise the first entry with it |
| HighlightSort.SortHighlights | src/stores/paper.ts:84-96 | the loop returns a permutation with general notes first in input order, then the anchored highlights sorted by (page, y1), stably per key |
| HighlightSort.SortedHighlightsSpec | src/stores/paper.ts:84-96 | the reference order is a permutation, general notes first and unmoved among themselves, anchored ones sorted and stable |
| HighlightSort.SortedHighlightsUnique | src/stores/paper.ts:84-96 | any list with those properties is the reference order, so the promise fixes the result |
| HighlightSort.SortByPosition | src/stores/paper.ts:95 | the stable sort by position is a permutation of its input |
| HighlightSort.SortByPositionSorted | src/stores/paper.ts:95 | the stable sort's output is ascending by (page, y1) |
| HighlightSort.SortByPositionStable | src/stores/paper.ts:95 | within each key, the stable sort keeps the input order |
| HighlightSort.StableSortUnique | src/stores/paper.ts:95 | two sorted lists with the same entries per key in the same order are equal |
| HighlightSort.InsertKeepsSorted | src/stores/paper.ts:95 | inserting by key into a sorted list keeps it sorted |
| HighlightSort.InsertStable | src/stores/paper.ts:95 | insertion puts the new entry after every entry with an equal key |
| HighlightSort.PartitionMultiset | src/stores/paper.ts:85-93 | general notes and anchored highlights together are the input, as a multiset |
| PaperStore.ResetSpec | src/stores/paper.ts:51-69 | the reset restores every initial field, keeps the six fields the initial state does not name, and is idempotent |
| PaperStore.FetchedPaper | src/stores/paper.ts:245-260 | a fetched paper stores its fields on the reset state; the comment scope is the selected group if any, else public |
| PaperStore.ToggleSpec | src/stores/paper.ts:162-171 | toggling conserves all highlights, leaves one list empty, touches nothing else, and twice from an empty hidden list restores the state |
| PaperStore.ToggleMakesDisjoint | src/stores/paper.ts:162-171 | after a toggle no id is both visible and hidden |
| PaperStore.AddedSpec | src/stores/paper.ts:178-183 | a saved highlight joins the visible list, which is re-sorted: general notes first, in their old order with a new general note last; then the anchored ones by position, equal positions in arrival order |
| PaperStore.AddedOtherFields | src/stores/paper.ts:178-183 | the tab becomes Comments, the pending slot clears only when asked, and nothing else changes, the hidden list included |
| PaperStore.AddKeepsDisjoint | src/stores/paper.ts:172-191 | adding a highlight not hidden keeps the two lists disjoint |
| PaperStore.RemoveKeepsDisjoint | src/stores/paper.ts:201 | removing from the visible list keeps the lists disjoint |
| PaperStore.ReplaceKeepsDisjoint | src/stores/paper.ts:125-132 | replacing by id keeps the lists disjoint |
| PaperStore.RemovedWhileHiddenReturns | src/stores/paper.ts:192-204 | a highlight deleted while the list is hidden is still in the hidden list and comes back on the next toggle |
| PaperStore.WithoutGroup | src/stores/paper.ts:153 | exactly the ids other than the group survive |
| PaperStore.WithoutGroupCounts | src/stores/paper.ts:153 | no copy of the group survives, and every other id survives as often as it occurred |
| PaperStore.WithoutGroupAppend | src/stores/paper.ts:153 | the filter keeps the order: filtering a concatenation is the concatenation of the filtered parts |
| PaperStore.WithoutGroupAfterAdd | src/stores/paper.ts:150-154 | removing a group undoes adding it, and removing twice is removing once |
| PaperStore.PaperJumpFor | src/stores/paper.ts:278-300 | a section jump needs an index in range and takes that section's position; a highlight jump needs a known anchored highlight and takes its stored position; otherwise none |
| PaperStore.SectionJumpByIndex | src/stores/paper.ts:280-289 | the decimal index of every section selects that section |
| PaperStore.PaperStore.constructor | src/stores/paper.ts:138-139 | the store starts in the initial state |
| PaperStore.PaperStore.ClearPaper | src/stores/paper.ts:159 | the state becomes the reset of the old state |
| PaperStore.PaperStore.FetchPaper | src/stores/paper.ts:236-266 | the store resets first; one GET is sent; on success the paper is stored and comments and references are requested |
| PaperStore.PaperStore.ReceiveComments | src/stores/paper.ts:99-106 | fetched comments become the sorted visible list, the hidden list is kept and loading ends; a failure changes nothing |
| PaperStore.PaperStore.ReceiveReferences | src/stores/paper.ts:116-123 | fetched references replace the old ones; a failure changes nothing |
| PaperStore.PaperStore.ToggleHighlightsVisibility | src/stores/paper.ts:162-171 | the state becomes its toggle, with the lists disjoint |
| PaperStore.PaperStore.AddHighlight | src/stores/paper.ts:172-191 | one POST is sent; success gives the added state, failure keeps the state; disjointness is kept |
| PaperStore.PaperStore.RemoveHighlight | src/stores/paper.ts:192-204 | without a paper id nothing is sent or changed; otherwise one DELETE, and on success only the visible list loses that id |
| PaperStore.PaperStore.ReplaceHighlight | src/stores/paper.ts:125-132 | only the visible list changes, by replacement, keeping its ids |
| PaperStore.PaperStore.UpdateHighlight | src/stores/paper.ts:205-221 | the PATCH is sent even without a paper id, which only makes the result a failure; a success replaces by id |
| PaperStore.PaperStore.ReplyToHighlight | src/stores/paper.ts:222-235 | one reply POST; a success replaces the record by id, a failure changes nothing |
| PaperStore.PaperStore.UpdatePaperGroups | src/stores/paper.ts:140-158 | a throwing helper leaves the ids; adding appends even a duplicate; removing drops every copy |
| PaperStore.PaperStore.UpdateReadingProgress | src/stores/paper.ts:160 | only the reading progress changes |
| PaperStore.PaperStore.SetSidebarJumpTo | src/stores/paper.ts:277 | only the sidebar jump slot changes |
| PaperStore.PaperStore.SetPaperJumpTo | src/stores/paper.ts:278-302 | a resolvable request fills the paper jump slot; an unresolvable one changes nothing |
| PaperStore.PaperStore.ClearSidebarJumpTo | src/stores/paper.ts:303 | only the sidebar jump slot empties |
| PaperStore.PaperStore.ClearPaperJumpTo | src/stores/paper.ts:304 | only the paper jump slot empties |
| PaperStore.PaperStore.SetCommentVisibilitySettings | src/stores/paper.ts:305-306 | only the comment scope changes |
| PaperStore.PaperStore.SetSidebarTab | src/stores/paper.ts:307 | only the tab changes |
| PaperStore.PaperStore.SetSections | src/stores/paper.ts:308 | only the sections change |
| PaperStore.PaperStore.SetTempHighlight | src/stores/paper.ts:309 | only the pending slot changes, to the given highlight |
| PaperStore.PaperStore.ClearTempHighlight | src/stores/paper.ts:310 | only the pending slot empties |
| PaperStore.PaperStore.SetDocumentReady | src/stores/paper.ts:311 | only the document-ready flag is set |
| StoreScenarios.SortedTwoAnchored | src/stores/paper.ts:84-96 | two anchored highlights come out in key order, the first first on a tie |
| StoreScenarios.SortedAnchoredAndNote | src/stores/paper.ts:84-96 | a general note is moved before an anchored highlight |
| StoreScenarios.CreateThenSort | src/stores/paper.ts:172-191 | a new highlight higher on the page is placed first, and the tab switches to Comments |
| StoreScenarios.GeneralNoteFirst | src/stores/paper.ts:172-191 | a general note added after an anchored highlight is listed first |
| StoreScenarios.ToggleRoundTrip | src/stores/paper.ts:162-171 | hide then show gives back the list in order |
| StoreScenarios.FailedFetch | src/stores/paper.ts:245-246 | a failed fetch sends one GET, rejects, and leaves no highlights |
| StoreScenarios.RemoveWhileHidden | src/stores/paper.ts:192-204 | a highlight deleted while hidden returns when shown |
| StoreScenarios.JumpThenClearTwice | src/stores/paper.ts:290-304 | a highlight jump stores its position; clearing twice leaves the slot empty |
| SearchUtils.Advance | src/components/Pdf/lib/pdfSearchUtils.js:59-62 | the cursor stops at the last item whose start the target has reached, by the given boundary rule, keeping the prefix sum |
| SearchUtils.ConvertOne | src/components/Pdf/lib/pdfSearchUtils.js:56-88 | one match becomes a begin and an end position whose prefix sums plus offsets equal the match index and the match end |
| SearchUtils.ConvertMatches | src/components/Pdf/lib/pdfSearchUtils.js:42-91 | no matches argument gives []; otherwise exactly one range per match, in order, each satisfying the position rule |
| SearchUtils.CursorAtIsLastReached | src/components/Pdf/lib/pdfSearchUtils.js:59 | the cursor never stops before an item it has reached |
| SearchUtils.CursorAtUnique | src/components/Pdf/lib/pdfSearchUtils.js:79 | the cursor position is determined by its inputs |
| SearchUtils.BoundaryAsymmetry | src/components/Pdf/lib/pdfSearchUtils.js:59 | a start on an item boundary moves to the next item at offset 0; an end on a boundary stays at the end of the earlier item |
| SearchUtils.ConvertedMonotone | src/components/Pdf/lib/pdfSearchUtils.js:49-51 | item indices never go backward across matches and stay below the number of items |
| SearchUtils.ConvertedUnique | src/components/Pdf/lib/pdfSearchUtils.js:54-89 | the converted ranges are determined by the items, the query length and the matches |
| SearchUtils.PrefixMonotone | src/components/Pdf/lib/pdfSearchUtils.js:59-61 | the prefix sum of item lengths grows with the index |
| SearchUtils.RenderMatches | src/components/Pdf/lib/pdfSearchUtils.js:93-160 | the drawing loop emits exactly the reference plan of steps |
| SearchUtils.RenderTooltips | src/components/Pdf/lib/pdfSearchUtils.js:139-156 | the plan holds one tooltip step per match, in match order; no matches give no steps |
| SearchUtils.PlanTooltips | src/components/Pdf/lib/pdfSearchUtils.js:139-156 | from any previous end, the tooltip steps are those of the matches |
| SearchUtils.Substring | src/components/Pdf/lib/pdfSearchUtils.js:108 | `substring` never yields more than the string |
| SearchUtils.RenderKeepsTextWithinOneDiv | src/components/Pdf/lib/pdfSearchUtils.js:133-160 | when no match crosses a div, drawing leaves every div with its original text |
| SearchUtils.PlansAgreeWithinOneDiv | src/components/Pdf/lib/pdfSearchUtils.js:133-160 | when no match crosses a div, the code's plan and the corrected plan agree |
| SearchUtils.CrossingMatchLosesText | src/components/Pdf/lib/pdfSearchUtils.js:154 | a match that crosses two divs loses text as written and keeps it with the correction |
| SearchUtils.RenderAcrossDivsKeepsText | src/components/Pdf/lib/pdfSearchUtils.js:133-160 | the corrected plan keeps every div's text for all drawable matches |
| TipForm.SubmitVisibility | src/components/Pdf/components/Tip.js:62-74 | public with the anonymous box is anonymous; group takes the selected group's id; every other scope is sent as is without an id; group without a selected group fails |
| TipForm.AnonymousIgnoredUnlessPublic | src/components/Pdf/components/Tip.js:66-71 | the anonymous box has no effect unless the scope is public |
| TipForm.AsVisibility | src/components/Pdf/components/Tip.js:65-72 | a request scope is a visibility exactly when it names one of the four scopes |
| TipForm.MenuValuesSubmitWellFormed | src/components/Pdf/components/Tip.js:172-177 | every scope the menu offers submits a well-formed visibility |
| TipForm.Tip.constructor | src/components/Pdf/components/Tip.js:43-51 | the form starts compact and empty, not anonymous, in group scope when a group is selected and public otherwise |
| TipForm.Tip.Expand | src/components/Pdf/components/Tip.js:103-106 | the form expands and the update callback fires only when the compact flag changed |
| TipForm.Tip.ChangeText | src/components/Pdf/components/Tip.js:146 | only the text changes; no update fires |
| TipForm.Tip.ChangeVisibility | src/components/Pdf/components/Tip.js:76-78 | only the scope changes |
| TipForm.Tip.ChangeAnonymous | src/components/Pdf/components/Tip.js:80-82 | only the anonymous flag changes |
| TipForm.Tip.ReceiveSelectedGroup | src/components/Pdf/components/Tip.js:85 | only the selected group changes |
| TipForm.Tip.Submit | src/components/Pdf/components/Tip.js:62-74 | the comment is exactly the current text and the scope is the submit-time visibility |
| TipForm.SubmitFromCompactBar | src/components/Pdf/components/Tip.js:110 | a submit from the compact bar sends an empty comment in the default scope |
| TipForm.ExpandTwice | src/components/Pdf/components/Tip.js:54-60 | the first expand fires the update, the second does not |
| PapersList.Get | src/components/PapersList.tsx:112 | a query key is read exactly when present |
| PapersList.FindGroup | src/components/PapersList.tsx:72 | nothing exactly when no group has the id; otherwise the first one with it |
| PapersList.GetGroupName | src/components/PapersList.tsx:70-75 | no id gives nothing; otherwise the name of the first group with that id, or nothing |
| PapersList.InviteGroupName | src/components/PapersList.tsx:98 | the invite group is named only when the searched groups do not have the id |
| PapersList.FindGroupAppend | src/components/PapersList.tsx:72 | searching a concatenation finds in the first part before the second |
| PapersList.AgeQuery | src/components/PapersList.tsx:100-103 | an explicit age wins; otherwise all in the library, with a search or with route parameters; otherwise week |
| PapersList.SortQuery | src/components/PapersList.tsx:105-107 | an explicit sort wins; otherwise score with a search, else date added in a library or list, else tweets |
| PapersList.SearchDefaults | src/components/PapersList.tsx:100-107 | a search with no age or sort defaults to all and score |
| PapersList.SortMenu | src/components/PapersList.tsx:238-264 | score is offered exactly with a search, date added exactly in a library or list |
| PapersList.DefaultsAreOffered | src/components/PapersList.tsx:216-264 | every default age and sort is among the menu's choices |
| PapersList.LoadPapersRequest | src/components/PapersList.tsx:109-124 | the url is the library exactly in library mode; the route's group overrides the query's; the other parameters come from the query and the route |
| PapersList.Filtered | src/components/PapersList.tsx:130-135 | the key is kept exactly for a non-empty value, with that value; every other key is unchanged |
| PapersList.FilteredOverrides | src/components/PapersList.tsx:130-135 | the last filter on a key wins, and clearing it gives back the query without that key |
| PapersList.HandleFilters | src/components/PapersList.tsx:130-140 | the built query is the filtered query |
| PapersList.HandleFiltersEvent | src/components/PapersList.tsx:141-149 | no name does nothing; the ignored value removes the filter; any other value is lower-cased |
| PapersList.PapersListPage.constructor | src/components/PapersList.tsx:90-93 | the page starts on its first load, with more papers and not loading |
| PapersList.PapersListPage.RouteChanged | src/components/PapersList.tsx:151-160 | the first run only clears the first-load flag; later runs restart the scroll |
| PapersList.PapersListPage.LoadPapers | src/components/PapersList.tsx:109-128 | the request is the one for the route and query, and no second page is asked for meanwhile |
| PapersList.PapersListPage.SetHasMorePapers | src/components/PapersList.tsx:127 | only the more-papers flag changes |
| PapersList.PapersListPage.LoadFinished | src/components/PapersList.tsx:127 | only the loading flag clears |
| PapersList.LoadThenNavigate | src/components/PapersList.tsx:151-160 | a route change during a load re-enables loading under the new key |
| PdfCommenter.ViewerFor | src/components/PdfCommenter.jsx:188-206 | the loader shows exactly while fetching, the missing message exactly after a failure, the viewer otherwise, with the url |
| PdfCommenter.CollapsedLayoutAsWritten | src/components/PdfCommenter.jsx:211-218 | the collapse click as written sets the width to full or the default |
| PdfCommenter.CollapsedLayout | src/components/PdfCommenter.jsx:214-217 | the corrected collapse sets the width and keeps the height |
| PdfCommenter.CollapseDropsHeight | src/components/PdfCommenter.jsx:214-217 | as written, a collapse click loses the height; the corrected one keeps it |
| PdfCommenter.CollapseRoundTrip | src/components/PdfCommenter.jsx:211-218 | under the corrected collapse, collapsing and expanding restores the default layout |
| PdfCommenter.PaperPage.constructor | src/components/PdfCommenter.jsx:87-101 | the page starts fetching, with no highlights, the sidebar shown, and the default layout |
| PdfCommenter.PaperPage.PaperFetched | src/components/PdfCommenter.jsx:103-114 | success stores the url, the title and the bookmark flag; failure marks the url failed |
| PdfCommenter.PaperPage.CommentsFetched | src/components/PdfCommenter.jsx:118-128 | fetched comments replace the list; a failure keeps it |
| PdfCommenter.PaperPage.AddHighlight | src/components/PdfCommenter.jsx:156-158 | the new highlight is put first and the rest keep their order |
| PdfCommenter.PaperPage.UpdateHighlight | src/components/PdfCommenter.jsx:160-166 | entries with the id are replaced; the ids, and so length and order, are kept |
| PdfCommenter.PaperPage.RemoveHighlight | src/components/PdfCommenter.jsx:168-177 | only after the delete succeeds are the entries with that id dropped |
| PdfCommenter.PaperPage.ToggleSidebar | src/components/PdfCommenter.jsx:211-218 | the collapsed flag flips and the layout follows the corrected collapse |
| PdfCommenter.LoadPaper | src/components/PdfCommenter.jsx:103-114 | the loader shows first; then the viewer on success or the missing message on failure |
| PdfCommenter.CollapseTwice | src/components/PdfCommenter.jsx:229-230 | under the corrected collapse, no sidebar while collapsed; after expanding again the sidebar and the default layout return |
| CommentsList.ParseIdFromHash | src/components/CommentsList.jsx:33 | the id is the hash without its first nine characters, whatever they are |
| CommentsList.ParseCommentHash | src/components/CommentsList.jsx:33 | a comment hash reads back as its id |
| CommentsList.ParseIgnoresPrefix | src/components/CommentsList.jsx:33 | any nine-character prefix is dropped like `#comment-` |
| CommentsList.CommentList.constructor | src/components/CommentsList.jsx:35 | nothing is focused and no timer is pending |
| CommentsList.CommentList.Render | src/components/CommentsList.jsx:64 | rendering registers a ref key for every highlight and changes nothing else |
| CommentsList.CommentList.ReceiveHighlights | src/components/CommentsList.jsx:38 | only the highlight list changes |
| CommentsList.CommentList.ScrollToComment | src/components/CommentsList.jsx:54-62 | an unknown id changes nothing; a known one is focused and a clear timer starts |
| CommentsList.CommentList.TimerFired | src/components/CommentsList.jsx:60 | the timer clears the focus |
| CommentsList.FocusThenClear | src/components/CommentsList.jsx:54-62 | a known hash focuses its comment until the timer fires |
| CommentsList.UnknownHash | src/components/CommentsList.jsx:55-57 | an unknown hash focuses nothing |
| SidebarItem.Capitalize | src/components/sidebarHighlightItem/index.tsx:22 | only the first character is upper-cased; the rest and the empty string are kept |
| SidebarItem.CapitalizedScopeNames | src/components/sidebarHighlightItem/index.tsx:208 | the four scope labels are Public, Private, Anonymous and Group |
| SidebarItem.Preview | src/components/sidebarHighlightItem/index.tsx:146-147 | text up to 50 characters is kept; longer text is cut to 50 and gets `...` |
| SidebarItem.PreviewBounds | src/components/sidebarHighlightItem/index.tsx:146-147 | the preview has at most 53 characters, starts with the text, and ends in `...` only if cut or already so |
| SidebarItem.IconsShared | src/components/sidebarHighlightItem/index.tsx:15-20 | two scopes share an icon exactly when equal or both public and anonymous |
| SidebarItem.View | src/components/sidebarHighlightItem/index.tsx:116-212 | the quote shows exactly for highlighted text without comment; icon and label exactly for an editable comment; edit and delete exactly when also hovered |
| SidebarItem.ViewExclusions | src/components/sidebarHighlightItem/index.tsx:127 | quote and comment actions never show together; edit and delete imply the icon |
| SidebarItem.HighlightHash | src/components/sidebarHighlightItem/index.tsx:53 | the hash is `highlight-` followed by the id |
| SidebarItem.HighlightHashInjective | src/components/sidebarHighlightItem/index.tsx:53 | different highlights get different hashes |
| SidebarItem.HighlightCard.constructor | src/components/sidebarHighlightItem/index.tsx:43-45 | the card starts not hovered, not editing and without a reply form |
| SidebarItem.HighlightCard.MouseEnter | src/components/sidebarHighlightItem/index.tsx:102 | only the hover flag is set |
| SidebarItem.HighlightCard.MouseLeave | src/components/sidebarHighlightItem/index.tsx:103 | only the hover flag clears |
| SidebarItem.HighlightCard.ToggleEdit | src/components/sidebarHighlightItem/index.tsx:195 | only the edit flag flips |
| SidebarItem.HighlightCard.ToggleReply | src/components/sidebarHighlightItem/index.tsx:191 | only the reply flag flips |
| SidebarItem.HighlightCard.Click | src/components/sidebarHighlightItem/index.tsx:51-54 | a click requests the jump and pushes the highlight's hash |
| SidebarItem.HighlightCard.CommentUpdated | src/components/sidebarHighlightItem/index.tsx:56-68 | a saved edit closes the editor and passes the record on; a failure keeps the editor |
| SidebarItem.HighlightCard.ReplySubmitted | src/components/sidebarHighlightItem/index.tsx:70-80 | a saved reply closes the form and passes the record on; a failure keeps the form |
| SidebarItem.HoverEditableComment | src/components/sidebarHighlightItem/index.tsx:193-200 | edit and delete appear only while the pointer is over an editable comment |
| PaperMenuBar.PdfHref | src/components/TopBar/PaperMenuBar.tsx:83 | the stored url when editable, else the arXiv download when there is an arXiv id, else empty |
| PaperMenuBar.GithubEntry | src/components/TopBar/PaperMenuBar.tsx:72-76 | one Github entry exactly when the code metadata has its url |
| PaperMenuBar.PapersWithCodeEntry | src/components/TopBar/PaperMenuBar.tsx:77-81 | one PapersWithCode entry exactly when the code metadata has its url |
| PaperMenuBar.ArxivEntry | src/components/TopBar/PaperMenuBar.tsx:91-101 | one arXiv entry exactly for a non-editable paper with an arXiv id |
| PaperMenuBar.DesktopMenu | src/components/TopBar/PaperMenuBar.tsx:41 | no menu without a paper id; otherwise code links, PDF, and abstract, in that order |
| PaperMenuBar.DesktopMenuContents | src/components/TopBar/PaperMenuBar.tsx:72-101 | the PDF link is always there, each other entry exactly when its link exists, never a divider |
| PaperMenuBar.MobileMenu | src/components/TopBar/PaperMenuBar.tsx:114-155 | the push-and-unshift construction gives github, paperswithcode, PDF, LaTeX, divider |
| PaperMenuBar.MobileMenuShape | src/components/TopBar/PaperMenuBar.tsx:114-155 | two to five entries, the divider only and always last, Github first when present, the PDF after the code links |
| PaperMenuBar.MenusAgree | src/components/TopBar/PaperMenuBar.tsx:72-155 | both menus show the same code links and PDF href; the mobile one has exactly one more entry |
| FileUpload.MatchAtExact | src/components/uploader/FileUpload.tsx:67 | the matcher finds an id exactly when the id pattern, version and `.pdf` match the whole suffix |
| FileUpload.MatchAtSound | src/components/uploader/FileUpload.tsx:67 | whatever the matcher finds is a new-style or old-style id followed by a valid tail |
| FileUpload.ArxivPaperId | src/components/uploader/FileUpload.tsx:67-68 | the id read from a link is new-style or old-style |
| FileUpload.ArxivPaperIdLeftmost | src/components/uploader/FileUpload.tsx:67-68 | no id exactly when no start matches to the end; otherwise the id of the leftmost such start |
| FileUpload.VersionedNewStyleMatch | src/components/uploader/FileUpload.tsx:67-69 | `1905.09533v2` reads as `1905.09533` |
| FileUpload.ShortNumberNoMatch | src/components/uploader/FileUpload.tsx:67 | an archive name followed by a four-digit year is no old-style id |
| FileUpload.AbstractPathWithVersion | src/components/uploader/FileUpload.tsx:67-69 | `abs/1905.09533v2` reads as `1905.09533` |
| FileUpload.SubmitLinkAction | src/components/uploader/FileUpload.tsx:65-79 | a non-url is rejected; an arXiv link with an id opens the paper; otherwise a non-PDF is refused and a PDF link is posted |
| FileUpload.ProgressStatus | src/components/uploader/FileUpload.tsx:41-43 | processing exactly once everything is sent, uploading before, with the percentage |
| FileUpload.Uploader.constructor | src/components/uploader/FileUpload.tsx:22-25 | the status starts idle at 0% |
| FileUpload.Uploader.Drop | src/components/uploader/FileUpload.tsx:28-35 | an empty drop changes nothing; otherwise the first file is posted, uploading at 0% |
| FileUpload.Uploader.UploadProgress | src/components/uploader/FileUpload.tsx:41-44 | the status follows the progress rule |
| FileUpload.Uploader.SubmitLink | src/components/uploader/FileUpload.tsx:65-79 | only a posted link changes the status, to processing at 0% |
| FileUpload.Uploader.UploadSettled | src/components/uploader/FileUpload.tsx:80-87 | success opens the paper page with its info panel; failure returns to idle at 0% |
| FileUpload.FailedFileUpload | src/components/uploader/FileUpload.tsx:46-51 | a file upload goes uploading, processing, then idle after a failure |
| FileUpload.RejectedLink | src/components/uploader/FileUpload.tsx:73-76 | a link that is neither arXiv nor PDF leaves the status idle |
| Bookmarks.PrefixTestIgnoresCase | src/components/Groups/Bookmark.tsx:156 | the filter test is a case-insensitive prefix test |
| Bookmarks.FilteredGroups | src/components/Groups/Bookmark.tsx:156 | filtering never adds groups |
| Bookmarks.FilterMembers | src/components/Groups/Bookmark.tsx:156 | a group is kept exactly when its name starts with the input, ignoring case |
| Bookmarks.FilterAppend | src/components/Groups/Bookmark.tsx:156 | filtering distributes over concatenation, so the kept groups stay in order |
| Bookmarks.EmptyInputKeepsAll | src/components/Groups/Bookmark.tsx:156 | an empty input keeps every group |
| Bookmarks.TypingNarrows | src/components/Groups/Bookmark.tsx:156 | typing more filters the already filtered list to the same result |
| Bookmarks.ClickRequest | src/components/Groups/Bookmark.tsx:103 | a click asks to add exactly when the group is not selected |
| Bookmarks.AppliedToGroupIds | src/components/Groups/Bookmark.tsx:103 | a request appends the group or removes every copy, as the store does |
| Bookmarks.ClickFlipsSelection | src/components/Groups/Bookmark.tsx:172 | after the click's request the group's selection is flipped |
| Bookmarks.Rows | src/components/Groups/Bookmark.tsx:171-179 | one row per group, marked selected exactly when its id is selected |
| Bookmarks.ListContent | src/components/Groups/Bookmark.tsx:156-189 | the rows are those of the filtered groups; the list shows exactly when one matches; the create button exactly for a non-empty input |
| Bookmarks.StarFollowsMembership | src/components/Groups/Bookmark.tsx:222 | adding fills the star; removing the paper's only group empties it |
| Bookmarks.BookmarkButton.constructor | src/components/Groups/Bookmark.tsx:142 | the popover starts closed with no edit and an empty input |
| Bookmarks.BookmarkButton.StarClick | src/components/Groups/Bookmark.tsx:214-220 | a visitor gets the login prompt and the popover stays as it was; a user opens it |
| Bookmarks.BookmarkButton.Close | src/components/Groups/Bookmark.tsx:237-251 | the open flag clears and the unmounted groups list loses the typed name; the group in edit is kept |
| Bookmarks.BookmarkButton.Type | src/components/Groups/Bookmark.tsx:160 | only the input changes |
| Bookmarks.BookmarkButton.EditGroup | src/components/Groups/Bookmark.tsx:246-249 | the edited group is set, and the groups list it replaces loses the typed name; the open flag is kept |
| Bookmarks.BookmarkButton.FinishEdit | src/components/Groups/Bookmark.tsx:246-249 | the edited group clears and the groups list comes back with an empty input; the open flag is kept |
| Bookmarks.BookmarkButton.SubmitGroup | src/components/Groups/Bookmark.tsx:147-148 | an empty input creates nothing; otherwise the input is the new group's name |
| Bookmarks.BookmarkButton.GroupCreated | src/components/Groups/Bookmark.tsx:149-153 | a created group clears the input and adds the paper to it; a failure keeps the input |
| Bookmarks.VisitorClicksStar | src/components/Groups/Bookmark.tsx:214-220 | a visitor is prompted and the popover stays closed |
| Bookmarks.CreateGroupFlow | src/components/Groups/Bookmark.tsx:147-153 | creating a group selects it for the paper and clears the input |
| Bookmarks.TypedNameLostOnEdit | src/components/Groups/Bookmark.tsx:246-249 | a name typed before editing a group is gone when the groups list returns |
| Bookmarks.TypedNameLostOnClose | src/components/Groups/Bookmark.tsx:237-251 | a name typed before closing the pop-over is gone when it opens again |
| MouseMonitor.NearIsWithinReach | src/components/Pdf/components/MouseMonitor.js:35-38 | the bounds test equals the distance-to-centre test on both axes |
| MouseMonitor.EdgesAreAway | src/components/Pdf/components/MouseMonitor.js:35-36 | a point on a padded edge counts as away |
| MouseMonitor.PaddingMonotone | src/components/Pdf/components/MouseMonitor.js:35-36 | more padding keeps every near point near |
| MouseMonitor.Monitor.constructor | src/components/Pdf/components/MouseMonitor.js:13 | the monitor starts with its padding and no container |
| MouseMonitor.Monitor.SetContainer | src/components/Pdf/components/MouseMonitor.js:51-53 | the ref callback stores the node |
| MouseMonitor.Monitor.MouseMove | src/components/Pdf/components/MouseMonitor.js:23-43 | no container means no report; otherwise away exactly when not near |
| MouseMonitor.MountAndMove | src/components/Pdf/components/MouseMonitor.js:24-42 | before mount nothing is reported; the centre is near and a point far off is away |
| CollabPaper.Message | src/collab/Paper.tsx:109-111 | a message exactly for the two failures, with their texts |
| CollabPaper.OpensInvite | src/collab/Paper.tsx:78 | the invite opens exactly when asked for and the url was found |
| CollabPaper.DisplayExclusive | src/collab/Paper.tsx:108-112 | every status but Ready shows exactly one of the loader and a message |
| CollabPaper.InviteNeedsUrl | src/collab/Paper.tsx:87-91 | the invite never opens while fetching or when the url was not found |
| CollabPaper.PaperLoader.constructor | src/collab/Paper.tsx:36-37 | the loader starts fetching with no document |
| CollabPaper.PaperLoader.StartLoad | src/collab/Paper.tsx:46-49 | each load starts fetching with no document and a cleared paper; the group is the `list` parameter |
| CollabPaper.PaperLoader.UrlFetched | src/collab/Paper.tsx:51-59 | a failure gives UrlNotFound and no download; a url starts the download |
| CollabPaper.PaperLoader.DocumentSettled | src/collab/Paper.tsx:61-71 | a document gives Ready with the document and the sections extracted; a rejection gives PdfError |
| CollabPaper.SuccessfulLoad | src/collab/Paper.tsx:46-71 | the loader shows during fetch and download, the invite opens from the download on, the viewer shows at the end |
| CollabPaper.UrlNotFoundLoad | src/collab/Paper.tsx:51-58 | a missing url shows its message, downloads nothing and opens no invite |

## Left out

- HTTP transport (axios get, post, patch and delete): each call is an outcome argument of the action, and the request is returned as a value.
- Concurrency: `fetchComments` and `fetchReferences` completing in either order, and completions after navigation, are separate events applied in whichever order the caller chooses (src/stores/paper.ts:261-262).
- `fetchAcronyms` (src/stores/paper.ts:107-114): its only call is commented out.
- `setPaperData` and `editPaper` (src/stores/paper.ts:161, 267-276): they are outside the modelled actions.
- zustand, immer, lodash, query-string, the Tracker and the Color library are left out. lodash `sortBy` is specified as a stable sort on (page, y1).
- `isGeneralHighlight` is not part of this model; it is taken to be the `General` constructor test.
- `getSectionPosition` is not part of this model; it is a function argument of `SetPaperJumpTo`.
- `addRemovePaperToGroupHelper` is not part of this model; it is a helper that may throw (`helperThrows`).
- Scaled-to-viewport coordinate conversion: only the position types are modelled.
- The DOM: node creation, ReactDOM.render, `scrollTop`/`offsetTop` and element refs. The comment refs dictionary is kept as its set of keys.
- Timers and listeners. The 1000 ms focus clear is the `TimerFired` event; the hash-change, resize and mouse-move listeners are the events that call the methods.
- Floating-point layout: sizes, the window size and `isVertical` are left out. Only the collapse fractions of the commenter page are modelled, as reals.
- PdfCommenter's groups fetch and its toasts (src/components/PdfCommenter.jsx:129-153): they only feed rendering.
- Sidebar item: the author line and the age text.
- PaperMenuBar: the share-copy text, its timer and the menu anchor.
- Bookmark: the input is assumed to hold no regular-expression metacharacters, and case folding is ASCII only.
- Bookmark: the group colour (`pickRandomColor`) and the group editor component are left out.
- `FileUpload.IsArxivLink`: `new URL` parsing is not modelled. The parsed host is an input; a link that does not parse has no host.
- FileUpload: the toasts, the multipart body, and the dropzone's size and type limits.
- FileUpload: navigation (`history.push`) is returned as a path.
- `FileUpload.ProgressStatus`: the percentage is a real. A zero total, which gives `Infinity` or `NaN` in the client, has no percentage.
- Route parameters: undefined values and repeated query keys (arrays) are left out; a query is a map from key to string.
- MouseMonitor: listener registration. `getBoundingClientRect` is the container's `Rect`.
- Collaborative paper: the pdf.js `getDocument` call and what `extractSections` computes are only outcomes. The page title and the share button are left out.
- Strings are sequences of Unicode characters, while JavaScript's `length`, `slice` and `substring` count UTF-16 code units. For text with characters outside the Basic Multilingual Plane the model's offsets therefore differ from the client's. This affects the search offsets (`SearchUtils.Prefix`, `SearchUtils.Substring`), the 50-unit cut of `SidebarItem.Preview` (which in the client can split a surrogate pair) and the nine-unit `slice` of `CommentsList.ParseIdFromHash`. For text inside the Basic Multilingual Plane the two counts agree.
- `Text.ParseInt`: only the radix-less form is modelled, and the result is an exact integer rather than a double, so it does not round past 2^53.
- The UI-only files (App, collab/index, pages, CodeMeta, PopoverMenu, Replies, NewReply, ReferencesProvider, presets, Spacer, TipContainer, GeneralNote) carry no decision beyond forwarding to the modelled actions.

## Findings

| source | as written | input that shows it | evidently intended | confidence | as-written member | corrected member |
|---|---|---|---|---|---|---|
| src/components/Pdf/lib/pdfSearchUtils.js:154 | a match crossing two divs is drawn in the begin div with the end div's offset, and the end div is appended to without being emptied | items `["ab", "cd"]`, query `"bc"` (range from item 0 offset 1 to item 1 offset 1): the divs end as `["a", "cdd"]` | finish the begin div from the begin offset, then restart the end div up to the end offset | not executed | SearchUtils.CrossingMatchLosesText | SearchUtils.RenderAcrossDivsKeepsText |
| src/components/PdfCommenter.jsx:214-217 | the collapse click spreads the setter `setPdfSectionPrct` instead of the current layout, so the height fraction is lost | any layout with a height, e.g. the initial `{width: 0.75, height: 0.75}` | spread the current layout `pdfSectionPrct` | not executed | PdfCommenter.CollapseDropsHeight | PdfCommenter.CollapsedLayout |
