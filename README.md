# Prompt-Cube: the prompt library's selection pipeline and page state

Prompt-Cube is a browsable catalog of AI prompts. This project models its core logic in Dafny:

- the selection engine (`usePrompts`), which turns the prompt store and the current filter state into the list the grid shows;
- the viewer's saved-id set (`useSavedPrompts`);
- the home page's filter state: the setters, the one-at-a-time special filter, the page title, and the mobile "reset" button;
- the placeholder highlighter of the prompt detail view (`HighlightedContent`);
- the theme hook (`useTheme`): the stored preference, dark mode, and write-back.

Modules:

- `Types`: the categories and the `Prompt` record (`types.ts`, `data/categories.ts`).
- `Seqs`: order-preserving filtering, and a stable descending sort written as an insertion sort. The sort is proved to be a permutation, non-increasing and stable. It is also proved to be the only arrangement with those properties, so any stable sort (such as JavaScript's `Array.prototype.sort`) gives the same list.
- `Selection`: the engine, one function per filter step, and `Select` for the whole chain.
- `SelectionProps`: the engine's characterisation and the properties built on it.
- `SelectionExamples`: concrete stores and queries with their proved results.
- `SavedPrompts`: the class `SavedSet` and the pure `Toggled` it is specified by.
- `HomePage`: the class `FilterState`, `PageTitle` and the special-filter toggle.
- `Highlight`: JavaScript's `String.prototype.split` with the capturing pattern `/(\[.*?\])/g`, following the split algorithm of the ECMAScript language specification, plus the rendering test.
- `Themes`: theme validation, `IsDark`, and a `Browser` object holding local storage and the root element's `dark` class.

## Model

| member | source | states |
|---|---|---|
| Types.RoleCategoriesEnumerate | data/categories.ts:3 | the role list has 8 entries, lists every role exactly once, and role labels are pairwise distinct |
| Types.PurposeCategoriesEnumerate | data/categories.ts:4 | the purpose list has 7 entries, lists every purpose exactly once, and purpose labels are pairwise distinct |
| Types.LabelsDisjoint | types.ts:1-2 | no role label is also a purpose label, so the page title tells a role from a purpose |
| Seqs.FilterCount | hooks/usePrompts.ts:22 | `filter` keeps each value exactly as often as it occurs in the input when the predicate holds, and drops it otherwise |
| Seqs.FilterMember | hooks/usePrompts.ts:22 | a value is in a filtered list iff it is in the input and satisfies the predicate |
| Seqs.FilterCons | hooks/usePrompts.ts:22 | filtering a list with a head added keeps the head iff the predicate holds, then filters the rest |
| Seqs.FilterKeepsAll | hooks/usePrompts.ts:22 | a predicate true on every element keeps the whole list |
| Seqs.FilterEquiv | hooks/usePrompts.ts:22 | filters whose predicates agree on the elements give the same list |
| Seqs.FilterFilter | hooks/usePrompts.ts:21-27 | two filters in a row equal one filter by the conjunction |
| Seqs.FilterStronger | hooks/usePrompts.ts:21-27 | a stronger predicate keeps a sub-multiset of what a weaker one keeps |
| Seqs.Insert | hooks/usePrompts.ts:56-62 | inserting one element adds exactly that element |
| Seqs.HeadIsMax | hooks/usePrompts.ts:56-62 | in a non-increasing list the head's key bounds every element's key |
| Seqs.InsertSorted | hooks/usePrompts.ts:56-62 | inserting into a non-increasing list keeps it non-increasing |
| Seqs.SortDesc | hooks/usePrompts.ts:56-62 | the sorted list is a permutation of the input, of the same length, and non-increasing in the key |
| Seqs.InsertStable | hooks/usePrompts.ts:56-62 | insertion keeps the relative order of elements with equal keys |
| Seqs.SortDescStable | hooks/usePrompts.ts:56-62 | for every key value, the elements carrying it appear in input order |
| Seqs.StableSortUnique | hooks/usePrompts.ts:56-62 | every non-increasing list that keeps each equal-key class in input order equals `SortDesc` |
| Seqs.HeadClassNonEmpty | hooks/usePrompts.ts:56-62 | a non-empty list's head is in its own key class |
| Seqs.SameClassesSame | hooks/usePrompts.ts:56-62 | two non-increasing lists with the same equal-key classes are equal |
| Selection.Includes | hooks/usePrompts.ts:48-51 | `includes` holds iff the needle occurs at some index of the haystack |
| Selection.ByRole | hooks/usePrompts.ts:21-23 | `'All'` returns the list unchanged; otherwise each prompt's count is kept iff its role is the active role, and it is 0 otherwise |
| Selection.ByPurpose | hooks/usePrompts.ts:25-27 | `'All'` returns the list unchanged; otherwise each prompt's count is kept iff its purpose is the active purpose |
| Selection.BySpecial | hooks/usePrompts.ts:30-42 | `null` returns the list unchanged; `saved`, `editorsPick` and `weeklyHot` keep exactly the prompts whose id is saved, that are editor's picks, or that are weekly hot |
| Selection.BySearch | hooks/usePrompts.ts:45-53 | the empty term returns the list unchanged; any other term, spaces included, keeps exactly the prompts where the lower-cased term occurs in the lower-cased title, description, content or some tag |
| Selection.Select | hooks/usePrompts.ts:16-63 | the result is no longer than the store, holds each prompt exactly as often as the store when it passes all four filters (and never otherwise), and is non-increasing in the sort key |
| SelectionProps.ByRoleIsFilter | hooks/usePrompts.ts:21-23 | the role step is `filter` by the role condition, in store order |
| SelectionProps.ByPurposeIsFilter | hooks/usePrompts.ts:25-27 | the purpose step is `filter` by the purpose condition |
| SelectionProps.BySpecialIsFilter | hooks/usePrompts.ts:30-42 | the special step is `filter` by the special condition |
| SelectionProps.BySearchIsFilter | hooks/usePrompts.ts:45-53 | the search step is `filter` by the substring condition |
| SelectionProps.CategoryStep | hooks/usePrompts.ts:21-27 | the two category steps together are one filter by both conditions |
| SelectionProps.SpecialStep | hooks/usePrompts.ts:21-42 | the first three steps are one filter by their three conditions |
| SelectionProps.SearchStep | hooks/usePrompts.ts:21-53 | the four filter steps are one filter by the full matching condition |
| SelectionProps.SelectIsSortedMatches | hooks/usePrompts.ts:18-62 | the displayed list is the stable sort of the matching prompts taken in store order |
| SelectionProps.SelectMembers | hooks/usePrompts.ts:18-56 | a prompt is displayed iff it is in the store and passes every active filter |
| SelectionProps.SelectStable | hooks/usePrompts.ts:56-62 | prompts with equal sort keys are displayed in store order |
| SelectionProps.SelectCharacterized | hooks/usePrompts.ts:16-63 | a list is the displayed list iff it is non-increasing in the key and each equal-key class is that class of the matching prompts in store order |
| SelectionProps.NarrowingShrinks | hooks/usePrompts.ts:21-53 | choosing a category or special filter where there was none, or a non-empty search term where there was none, never adds a prompt to the display |
| SelectionProps.NarrowsImplies | hooks/usePrompts.ts:21-53 | a prompt matching the narrower query matches the wider one |
| SelectionProps.SavedSetOnlyFilters | hooks/usePrompts.ts:33 | the saved set affects the display only through the `saved` filter |
| SelectionProps.SearchCaseInsensitive | hooks/usePrompts.ts:46 | two search terms that lower-case alike give the same display |
| SelectionExamples.MissingCharNotIncluded | hooks/usePrompts.ts:48 | a needle containing a character the haystack lacks is not included |
| SelectionExamples.ReviewerLowered | hooks/usePrompts.ts:48-51 | the sample prompt's lower-cased fields |
| SelectionExamples.SearchFindsAnyCase | hooks/usePrompts.ts:46-48 | "review" and "REVIEW" both find the title "Code Review Helper" |
| SelectionExamples.SearchFindsPhrase | hooks/usePrompts.ts:46-48 | a multi-word term is found as a substring |
| SelectionExamples.SearchRejectsLongerTerm | hooks/usePrompts.ts:46-52 | "reviewz" does not find that prompt |
| SelectionExamples.SortBothOrders | hooks/usePrompts.ts:56-62 | both sort keys put the newer, more-saved sample first |
| SelectionExamples.ScenarioNoFilter | hooks/usePrompts.ts:16-63 | with no filter, the display is the store sorted |
| SelectionExamples.ScenarioRole | hooks/usePrompts.ts:21-23 | a role filter keeps only the prompts of that role |
| SelectionExamples.ScenarioSaved | hooks/usePrompts.ts:32-34 | the saved filter keeps only the saved prompt |
| SelectionExamples.NoSpaceInSamples | hooks/usePrompts.ts:47-52 | neither sample contains a space |
| SelectionExamples.ScenarioSpaceTerm | hooks/usePrompts.ts:45 | the search term " " is applied, not trimmed away, and here excludes everything |
| SelectionExamples.SortIgnoresDisplayedCount | components/PromptCard.tsx:59 | saving a prompt raises its displayed count but leaves the popularity order unchanged |
| SavedPrompts.SetOf | hooks/useSavedPrompts.ts:3-4 | the initial set holds exactly the listed ids, duplicates collapsed |
| SavedPrompts.Toggled | hooks/useSavedPrompts.ts:7-14 | the toggled set flips the id's membership and keeps every other id's |
| SavedPrompts.ToggleAbsent | hooks/useSavedPrompts.ts:11-13 | toggling an absent id adds exactly it, growing the set by one |
| SavedPrompts.TogglePresent | hooks/useSavedPrompts.ts:9-10 | toggling a present id removes exactly it, shrinking the set by one |
| SavedPrompts.ToggleTwice | hooks/useSavedPrompts.ts:7-14 | toggling the same id twice restores the set |
| SavedPrompts.ToggleCommutes | hooks/useSavedPrompts.ts:7-14 | toggles of two ids may be done in either order |
| SavedPrompts.SavedSet.constructor | hooks/useSavedPrompts.ts:3-4 | the new object's set holds exactly the initial ids |
| SavedPrompts.SavedSet.Toggle | hooks/useSavedPrompts.ts:6-15 | the new set is the old one with `promptId` flipped and every other id unchanged; every integer is accepted |
| HomePage.ToggleActiveClears | pages/HomePage.tsx:45 | toggling the active special filter clears it |
| HomePage.ToggleOtherReplaces | pages/HomePage.tsx:45 | toggling from none or from another filter makes the toggled one the only active filter |
| HomePage.ToggleSpecialTwice | pages/HomePage.tsx:45 | two identical toggles return to the start iff the start was none or that same filter, and otherwise end at none |
| HomePage.SpecialDecidesTitle | pages/HomePage.tsx:61-63 | an active special filter decides the title whatever the categories are |
| HomePage.RoleBeforePurpose | pages/HomePage.tsx:64 | without a special filter, an active role's label is the title, whatever the purpose |
| HomePage.PurposeLast | pages/HomePage.tsx:65 | with no special filter and no role, an active purpose's label is the title |
| HomePage.TitleShowsDecidingFilter | pages/HomePage.tsx:60-67 | the default title appears iff no filter is active, and each special title appears iff its filter is active |
| HomePage.TitleNamesCategory | pages/HomePage.tsx:60-67 | a role's label is the title iff that role is chosen and no special filter is on; a purpose's label is the title iff only that purpose is chosen |
| HomePage.FixedTitlesDistinct | pages/HomePage.tsx:61-66 | the four fixed titles are pairwise distinct |
| HomePage.RoleLabelNotFixedTitle | pages/HomePage.tsx:61-66 | no role label equals a fixed title |
| HomePage.PurposeLabelNotFixedTitle | pages/HomePage.tsx:61-66 | no purpose label equals a fixed title |
| HomePage.FilterState.constructor | pages/HomePage.tsx:28-32 | the page starts with role `'All'`, purpose `'All'`, empty search, sort by saves, and no special filter |
| HomePage.FilterState.SetRole | pages/HomePage.tsx:28 | sets the role and nothing else |
| HomePage.FilterState.SetPurpose | pages/HomePage.tsx:29 | sets the purpose and nothing else |
| HomePage.FilterState.SetSearchTerm | pages/HomePage.tsx:30 | sets the search term and nothing else |
| HomePage.FilterState.SetSortBy | pages/HomePage.tsx:31 | sets the sort key and nothing else |
| HomePage.FilterState.ToggleSpecial | pages/HomePage.tsx:44-46 | the new special filter is the toggle of the old; afterwards at most the toggled filter is active; the other fields are unchanged |
| HomePage.FilterState.ResetFilters | components/MobileFilterModal.tsx:36-42 | from any state, role and purpose become `'All'` and the special filter becomes none; search and sort are kept; the title becomes the default |
| Themes.StoredNameRestored | hooks/useTheme.ts:7-9 | a stored `light`, `dark` or `system` becomes the initial theme |
| Themes.OtherValuesFallBack | hooks/useTheme.ts:6-12 | no storage, no stored value, or any other string gives `system` |
| Themes.InitialThemeExactly | hooks/useTheme.ts:5-13 | the initial theme is `t` iff `t`'s name was stored, or `t` is `system` and no valid name was stored |
| Themes.DarkIsDark | hooks/useTheme.ts:17-18 | the dark theme is dark whatever the OS preference |
| Themes.LightIsLight | hooks/useTheme.ts:17-19 | the light theme is never dark |
| Themes.SystemFollowsPreference | hooks/useTheme.ts:19 | the system theme is dark iff the OS prefers dark |
| Themes.ApplyTheme | hooks/useTheme.ts:15-23 | the `dark` class equals `IsDark`; storage is the old storage with key `theme` set to the theme's name; reading it back on the next start gives the same theme |
| Themes.ThemeState.constructor | hooks/useTheme.ts:5-23 | at mount, the theme is the stored preference (or the fallback), and the effect runs once |
| Themes.ThemeState.SetTheme | hooks/useTheme.ts:5-23 | a different theme is drawn, written back, and read back the same on the next start; choosing the current theme changes neither the `dark` class nor storage, because the state does not change and the effect, keyed on the theme, does not run |
| Highlight.CloseAt | components/PromptDetailModal.tsx:13 | the lazy `.*?\]` ends at the first `]` not preceded by a line terminator; if there is none, every later `]` comes after a line terminator |
| Highlight.MatchEnd | components/PromptDetailModal.tsx:13 | a match at `q` covers a non-empty `[...]` run with no `]` and no line terminator inside |
| Highlight.SplitFrom | components/PromptDetailModal.tsx:13 | the split always has an odd number of parts |
| Highlight.Split | components/PromptDetailModal.tsx:13 | the split of the content has an odd number of parts |
| Highlight.ConcatPrefix | components/PromptDetailModal.tsx:13 | concatenation splits off the first two parts |
| Highlight.SplitFromConcat | components/PromptDetailModal.tsx:13 | the parts after a position concatenate to the text after it |
| Highlight.SplitRoundTrip | components/PromptDetailModal.tsx:13 | concatenating the parts in order gives back the content exactly |
| Highlight.CloseReaches | components/PromptDetailModal.tsx:13 | the lazy scan reaches the first `]` when no line terminator comes before it |
| Highlight.MatchInSlice | components/PromptDetailModal.tsx:13 | a match inside a piece of the content is also a match of the content |
| Highlight.TextPartNoMatch | components/PromptDetailModal.tsx:13 | the text between matches contains no match |
| Highlight.AlternatesCons | components/PromptDetailModal.tsx:13 | text, placeholder and an alternating rest still alternate |
| Highlight.SplitFromAlternates | components/PromptDetailModal.tsx:13 | from any position after the last match, the parts alternate between match-free text and placeholders |
| Highlight.SplitAlternates | components/PromptDetailModal.tsx:13 | parts at odd positions are the captured placeholders (each starts with `[`, ends at the first following `]`, and crosses no line break); parts at even positions contain no match |
| Highlight.SplitFromSkip | components/PromptDetailModal.tsx:13 | positions where the pattern fails do not change the split |
| Highlight.LeftmostLast | components/PromptDetailModal.tsx:13 | with no match ahead, the rest of the content is the last part |
| Highlight.LeftmostCons | components/PromptDetailModal.tsx:13 | the text up to the first match, the match, then the cut of the remainder, is a leftmost cut |
| Highlight.SplitFromLeftmost | components/PromptDetailModal.tsx:13 | the split from a position cuts the rest of the content at its successive leftmost matches |
| Highlight.LeftmostText | components/PromptDetailModal.tsx:13 | the first part of a leftmost cut is the content up to the first match in the content |
| Highlight.LeftmostParts | components/PromptDetailModal.tsx:13 | a leftmost cut with several parts starts with text, then the match at its end |
| Highlight.SplitFromAtMatch | components/PromptDetailModal.tsx:13 | a match at the current position emits the pending text and the match, then resumes after the match |
| Highlight.LeftmostIsSplitFrom | components/PromptDetailModal.tsx:13 | any leftmost cut of the content equals the split |
| Highlight.SplitIsLeftmost | components/PromptDetailModal.tsx:13 | a list of parts is the split iff it cuts the content at its successive leftmost matches, with each text part running up to the next match of the whole content (no match of the content starts inside a text part) |
| Highlight.MatchExistsIffPlaceholder | components/PromptDetailModal.tsx:13 | the pattern matches somewhere iff the content has a `[...]` run on one line |
| Highlight.SplitFromNoMatch | components/PromptDetailModal.tsx:13 | with no match ahead, the rest is a single part |
| Highlight.SplitFromMatchSplits | components/PromptDetailModal.tsx:13 | with a match ahead, there are at least three parts |
| Highlight.SinglePartIffNoPlaceholder | components/PromptDetailModal.tsx:13 | the split is the single part `content` iff the content has no `[...]` run on one line |
| Highlight.RenderPreservesContent | components/PromptDetailModal.tsx:16-23 | one span per part, in source order, and the span texts concatenate to the content |
| Highlight.PlaceholdersHighlighted | components/PromptDetailModal.tsx:17-20 | every captured placeholder is drawn highlighted |
| Highlight.HighlightedTextSpansLines | components/PromptDetailModal.tsx:17-23 | a text part is drawn highlighted only when a line terminator lies between its brackets |
| Highlight.PlaceholderExample | components/PromptDetailModal.tsx:13-23 | "Hi [name]!" renders as "Hi ", highlighted "[name]", then "!" |
| Highlight.LineBreakExample | components/PromptDetailModal.tsx:13-23 | "[a\nb]" is left whole by the split but is still drawn highlighted |

## Left out

- JSX, markup and styling: cards, grids, modals, dropdowns, the header and the sort buttons. The click-outside listener of the dropdown is left out too. None of these choose what is shown.
- Clipboard writes, the two-second "copied" timer, Escape-key listeners and `document.body.style.overflow`: browser side effects.
- Browser APIs are inputs. `hasStorage` stands for `window.localStorage` being available, `prefersDark` for the `matchMedia` query, and the `Browser` object for local storage and the root's class list. The model does not cover storage writes that throw.
- `Selection.LowerChar`: lower-cases ASCII letters only, not the full Unicode `toLowerCase` (the catalog text is mostly CJK, which has no case).
- `Types.Prompt`: `createdAt` is an integer timestamp. Parsing ISO 8601 strings with `Date` is not modelled, nor the NaN an invalid date would give.
- `Seqs.SortDesc`: an insertion sort stands in for `Array.prototype.sort`. `Seqs.StableSortUnique` shows that every stable descending sort gives this same list, so the choice of algorithm does not matter.
- React memoisation (`useMemo`, `useCallback`) and the render lifecycle are not modelled. One lifecycle rule does change a result: a state setter called with the current value makes no update, so an effect keyed on that value does not run. The model keeps this rule for the theme, in `Themes.ThemeState.SetTheme`. For the filter setters the rule changes nothing observable, since setting a field to its current value leaves the state as it was.
- The static prompt data in `data/prompts.ts` is not part of this model. The store is any sequence of prompts.
- Inputs are never mutated, and `toggleSave` leaves the previous set untouched. Both hold by value semantics: sequences and sets are values in Dafny, so no separate statement is made.
- Selection, page state and highlighting are separate modules. The page's `Displayed` passes the current state to `Select`; nothing else wires them together.
