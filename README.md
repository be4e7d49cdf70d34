# react-select-zero: the selection reducer

react-select-zero is a React select widget with single and multiple
selection, a filter input and free-text "create" entries. All of its state
lives in one `SelectState` record, changed only by a pure `reducer` that
handles thirteen kinds of action: mouse clicks and the Enter key commit an
item, the trigger and Escape open and close the dropdown, the arrow, Home and
End keys move the highlight, and typing filters the options.

This project models that record and that reducer in Dafny:

- `seqs.dfy` (module `Seqs`): the JavaScript array operations the reducer uses, with their exact semantics. These are `indexOf`, reads past the end that give `undefined`, `splice(start, 1)` with a negative start, and `filter`.
- `ids.dfy` (module `Ids`): `elId` and `optionId`, and the way the reducer reads the index back out of an id. It does this with `/\d*$/` and `parseInt`.
- `reducer.dfy` (module `Reducer`): `SelectState`, the `ActionHandler` union, `initialState`, and one function per branch of `reducer`. `Step` dispatches to them.
- `properties.dfy` (module `Properties`): what each branch does, stated as a relation between the old and the new state.
- `invariants.dfy` (module `Invariants`): what holds of every state reachable by a sequence of actions. Ids always parse, and in multi mode the total never exceeds `max` when the defaults INIT is given are within `max`.
- `view.dfy` (module `View`): the pure parts of rendering. These are whether the filter input and the "Create" entry are shown, and the `aria-selected` and `disabled` attributes of an option.
- `scenarios.dfy` (module `Scenarios`): the component's test cases, replayed on the reducer. It also holds concrete inputs that show where the reducer's behaviour differs from what its comments describe.

The model follows the code as written, including the places where its
comments or its tests describe something else. Those places are listed
under "Behaviour as written" below, each with the lemma that exhibits it.

## Model

| member | source | states |
|---|---|---|
| Seqs.IndexOf | src/index.tsx:121 | `indexOf` gives -1 exactly when the item is absent, and otherwise its first position |
| Seqs.At | src/index.tsx:277 | reading `s[k]` gives a value exactly when `k` is a position of `s`, and then it is `s[k]` |
| Seqs.IndexOfOpt | src/index.tsx:278 | `indexOf` of `undefined` is -1; otherwise -1 exactly when the value is absent, and the first position holding it when present |
| Seqs.SpliceStart | src/index.tsx:159 | a start of 0 up to the length is used as is; a negative start counts back from the end |
| Seqs.Splice1 | src/index.tsx:123 | `splice(start, 1)` at a position inside the list shifts every later element down by one; at the end it changes nothing |
| Seqs.Filter | src/index.tsx:141 | `filter` keeps exactly the elements that pass the test and never lengthens the list; `Seqs.FilterSubseq` adds that it keeps their order and `Seqs.FilterCount` that it keeps every copy |
| Seqs.FilterSubseq | src/index.tsx:265-266 | `filter` keeps the elements it keeps in their original order |
| Seqs.FilterCount | src/index.tsx:265-266 | `filter` keeps every copy of an element that passes and none of one that fails |
| Seqs.RejectedAndKeptCard | src/index.tsx:265-266 | the distinct items a filter rejects, plus the items it keeps counted with repeats, are at most the list's length |
| Seqs.RemoveFirst | src/index.tsx:121-123 | `splice(indexOf(x), 1)` cuts out the first occurrence of `x` and keeps the rest in order: one element fewer, the multiset loses one `x`, and nothing new appears |
| Seqs.RemoveFirstDistinct | src/index.tsx:133-135 | in a list without repeats, `splice(indexOf(x), 1)` removes exactly `x` and leaves no repeats |
| Seqs.SpliceLast | src/index.tsx:158-159 | `splice(-1, 1)` drops the last element, and changes nothing in an empty list |
| Seqs.FilterMembersOfSubseq | src/index.tsx:141 | re-sorting a selection that is already in option order, against options without repeats, gives the selection back |
| Ids.Decimal | src/index.tsx:33-35 | the decimal rendering of a number is non-empty, all digits, and has no leading zero except for 0 itself |
| Ids.DecimalValue | src/index.tsx:151 | `parseInt` of the decimal rendering of `n` gives `n` |
| Ids.IntToString | src/index.tsx:34 | a template literal renders a non-negative number as digits without a leading zero, and a negative one as a minus sign followed by such digits |
| Ids.ElId | src/index.tsx:29-31 | an element id is `rsz-`, the component name, a dash and the part name, in that order |
| Ids.OptionId | src/index.tsx:33-35 | reading the index back out of `optionId(name, n)` with `/\d*$/` and `parseInt` gives `n` for `n >= 0` and `-n` for negative `n` |
| Ids.IntegerAfterSeparator | src/index.tsx:146-151 | the rendering of an integer written after a dash reads back as its magnitude, because the minus sign is not a digit |
| Ids.TrailingDigits | src/index.tsx:146 | `match(/\d*$/)[0]` is all digits, ends with the string's last character when non-empty, and is preceded by a non-digit when shorter than the string |
| Ids.TrailingDigitsIsSuffix | src/index.tsx:146 | `match(/\d*$/)[0]` is a suffix of the string |
| Ids.DigitsValue | src/index.tsx:151 | `parseInt` of a digit string is 0 exactly when every digit is `0` |
| Ids.ParseIndex | src/index.tsx:146-151 | the index is a number exactly when the id ends in a digit; otherwise it is NaN |
| Ids.TrailingDigitsAfter | src/index.tsx:146 | digits written after a non-digit are exactly the trailing digit run |
| Reducer.Toggle | src/index.tsx:132-138 | a present item loses its first occurrence, the rest keeping its order, so the multiset loses exactly that item; an absent item is appended only when adding is allowed; nothing else enters the list |
| Reducer.SortByOptions | src/index.tsx:141 | the result lists, in option order, exactly the options that are in the list |
| Reducer.ToggleMultiClick | src/index.tsx:114-143 | only `selected` or `created` changes: a non-option touches only `created`, and an option touches only `selected`, which stays in option order |
| Reducer.ToggleMultiKeyboard | src/index.tsx:145-180 | only one of `selected` and `created` changes, and a changed `selected` is in option order |
| Reducer.CommitSingleClick | src/index.tsx:182-188 | closes, clears the search and shows every option; an option replaces `selected` and keeps `created`, and a new item replaces `created` and keeps `selected` |
| Reducer.CommitSingleKeyboard | src/index.tsx:190-201 | with a readable index: closes and shows every option; an index in range replaces `selected` with that option, and any other index replaces `created` with the search text |
| Reducer.Reset | src/index.tsx:207-214 | the reset highlights `optionId(name, 0)`, which reads back as index 0, sets `isOpen` as asked, clears the search, shows every option and keeps both lists |
| Reducer.CloseDropdown | src/index.tsx:203-215 | the result is closed and keeps both lists; an already closed dropdown is returned unchanged |
| Reducer.OpenDropdown | src/index.tsx:217-229 | the result is open and keeps both lists; an already open dropdown is returned unchanged |
| Reducer.ToggleDropdown | src/index.tsx:231-241 | flips `isOpen` and keeps both lists |
| Reducer.MoveToEdge | src/index.tsx:243-260 | only the highlight changes, and it always parses; with `allowCreate`, Home and End both highlight `options.length` |
| Reducer.Initialize | src/index.tsx:262-268 | shows every option; `selected` is in option order and `created` holds no option |
| Reducer.NextIndex | src/index.tsx:276-292 | the index MOVE_* computes is -1 or a position in the options, plus the create entry with `allowCreate`; when not -1 it holds a visible entry |
| Reducer.VisibleOrEdge | src/index.tsx:284-291 | the neighbour-or-edge lookup gives -1 or a position in the list whose entry is visible |
| Reducer.MoveStep | src/index.tsx:270-301 | only the highlight changes, and a readable highlight stays readable |
| Reducer.SearchKey | src/index.tsx:313 | `visibleOptions[0] \|\| state.search` is the first visible option unless there is none or it is the empty string, and the old search text otherwise |
| Reducer.ApplySearch | src/index.tsx:303-317 | stores the search text; the visible options are exactly the matching options, in order; the chosen lists and `isOpen` are kept; the highlight parses |
| Reducer.Step | src/index.tsx:111-321 | no action turns a readable highlight into one without a trailing digit |
| Properties.InitSplitsDefaults | src/index.tsx:262-268 | each default goes to exactly one list: an option to `selected` (in option order, as often as it occurs among the options), anything else to `created` (in defaults order, as often as it occurs among the defaults); nothing else is added |
| Properties.InitKeepsCount | src/index.tsx:265-266 | with no repeats in options or defaults, `selected` and `created` together hold as many items as the defaults |
| Properties.InitBoundsCount | src/index.tsx:265-266 | with no repeats in the options, `selected` and `created` together hold at most as many items as the defaults, repeated defaults included |
| Properties.InitWithoutDefaults | src/index.tsx:264 | a missing `defaults` gives two empty lists |
| Properties.MultiClickOption | src/index.tsx:131-142 | a clicked option ends up selected exactly when it was not selected and the total was below `max`; every other option keeps its membership; `created` is untouched |
| Properties.MultiClickCreated | src/index.tsx:118-129 | a clicked non-option leaves `selected` alone; if already created, its first occurrence is cut out with the rest kept in order, so the multiset loses one copy; otherwise it is appended only below `max` |
| Properties.SortByOptionsLength | src/index.tsx:141 | re-sorting against options without repeats never lengthens the selection |
| Properties.ToggleSelectedKeepsMax | src/index.tsx:132-141 | toggling then re-sorting keeps the total within `max`, and at the ceiling does not grow `selected` |
| Properties.MultiClickKeepsMax | src/index.tsx:114-143 | a click keeps `selected + created <= max`, and at the ceiling never raises the total |
| Properties.MultiClickAtMaxIsNoOp | src/index.tsx:114-143 | at the ceiling, clicking an item not yet chosen leaves the whole state unchanged |
| Properties.MultiKeyboardOption | src/index.tsx:167-179 | Enter on an option index does exactly what a click on that option does |
| Properties.MultiKeyboardCreate | src/index.tsx:153-165 | Enter on the create entry, as written: search text not yet created means the last created item is dropped and the text is not added; text already created means a second copy is appended below `max` |
| Properties.MultiKeyboardKeepsMax | src/index.tsx:145-180 | Enter keeps `selected + created <= max`, and at the ceiling never raises the total |
| Properties.SingleKeyboardOption | src/index.tsx:195-200 | Enter on an option index commits it as a click would, but keeps the search text |
| Properties.SingleKeyboardCreate | src/index.tsx:197-198 | Enter past the last option makes the search text the created item, as a click on it would, even when that text is an option |
| Properties.DropdownReset | src/index.tsx:203-229 | opening a closed dropdown or closing an open one flips `isOpen`, highlights `optionId(name, 0)` (index 0), clears the search, shows every option and keeps both lists |
| Properties.ToggleIsOpenOrClose | src/index.tsx:231-241 | TOGGLE equals OPEN on a closed dropdown and CLOSE on an open one; two toggles restore `isOpen` |
| Properties.NextIndexOfVisible | src/index.tsx:277-292 | the index MOVE_* computes is the position in `options` of the visible neighbour of the current option |
| Properties.MoveWraps | src/index.tsx:270-300 | from a visible option, Down highlights the next visible option and Up the previous one, wrapping at both ends, with or without `allowCreate` |
| Properties.MoveStaysOnVisibleOptions | src/index.tsx:270-300 | while something is visible, Up and Down always land on a visible option and never on the create entry; from an option that is not visible they go to the first (Down) or the last (Up) visible option |
| Properties.MoveOnEmptyView | src/index.tsx:285-293 | with nothing visible, Up and Down write the id of index -1, which is read back as index 1 |
| Properties.MoveToEdgeTargets | src/index.tsx:243-259 | without `allowCreate`, Home and End highlight `optionId(name, options.indexOf(edge))`, where `edge` is the first or last visible option, which reads back as that index; on an empty view they look up `undefined` and write the id of index -1, which reads back as 1; with `allowCreate`, both highlight `options.length` |
| Properties.FilterFirst | src/index.tsx:304-313 | the first element of a filtered list is at the first position that passes the filter |
| Properties.SearchHighlightsFirstMatch | src/index.tsx:303-317 | after SEARCH, if the first match is not the empty string, the highlight is `optionId(name, options.indexOf(first match))`, the first matching position in the options |
| Properties.SearchWithoutMatchUsesOldSearch | src/index.tsx:303-317 | when nothing matches, SEARCH highlights the position of the old search text in the options (followed by the new text with `allowCreate`); when the old text is not an option (nor, with `allowCreate`, the new text) that is index -1, not the create entry at `options.length` |
| Properties.EnterAfterUnmatchedSearch | src/index.tsx:190-200 | after such a SEARCH, with at least two options, Enter in single mode selects the second option and leaves `created` alone, with or without `allowCreate` |
| Invariants.InitialIdParses | src/index.tsx:102-109 | the initial id `'0'` is read as index 0 |
| Invariants.RunKeepsWellFormedId | src/index.tsx:111-321 | any sequence of actions keeps a highlight that ends in a digit |
| Invariants.ReachableIdsParse | src/index.tsx:146-151 | from `initialState`, whatever the actions, `parseInt` never meets an id without a trailing digit |
| Invariants.InitEstablishesMultiInvariant | src/index.tsx:262-268 | INIT with at most `max` defaults, repeats allowed, yields an ordered `selected`, a `created` holding no option, a total within `max`, and only options visible |
| Invariants.MultiClickKeepsInvariant | src/index.tsx:114-143 | a multi-mode click keeps that invariant |
| Invariants.MultiKeyboardKeepsInvariant | src/index.tsx:145-180 | Enter in multi mode keeps that invariant |
| Invariants.NavigationKeepsChoices | src/index.tsx:202-317 | opening, closing, moving and searching keep both lists and show only options |
| Invariants.MultiStepKeepsInvariant | src/index.tsx:111-321 | every action a multi-mode component dispatches keeps the invariant |
| Invariants.MultiRunKeepsInvariant | src/index.tsx:111-321 | any sequence of such actions keeps the invariant |
| Invariants.MultiLifecycle | src/index.tsx:360-365 | after INIT with at most `max` defaults (repeats allowed) and then any multi-mode actions, the total is within `max`, `selected` is in option order, `created` holds no option and the highlight parses |
| View.ShouldDisplaySearch | src/index.tsx:466 | the filter input is shown only without `noSearch` and from five options on, and then always |
| View.ShouldDisplayCreate | src/index.tsx:467-470 | the "Create" entry is shown exactly when creation is allowed, the text is non-empty and no visible option equals it |
| View.IsMaxxed | src/index.tsx:552 | the selection is full exactly when its total is within `max` and not below it |
| View.AriaSelected | src/index.tsx:553-560 | `aria-selected` is left out exactly when the selection is full, and otherwise says whether the option is chosen |
| View.Disabled | src/index.tsx:562 | an option is disabled exactly when the selection is full and the option is not chosen |
| View.SearchShownFromFiveOptions | src/index.tsx:466 | the filter input is shown from five options on, and never with `noSearch` |
| View.CreateEntryAfterSearch | src/index.tsx:467-470 | after SEARCH with `allowCreate`, the "Create" entry is shown exactly when the text is non-empty and is not itself a matching option |
| View.DisabledMeansIgnored | src/index.tsx:551-562 | a disabled option is one whose click leaves the state unchanged; a click on an enabled option that is not chosen selects it |
| View.AriaRule | src/index.tsx:551-562 | below the ceiling, `aria-selected` tells whether the option is chosen and nothing is disabled; at the ceiling, `aria-selected` is omitted and exactly the unchosen options are disabled |
| Scenarios.MountedIdIsNotOptionId | src/__tests__/index.test.tsx:13-38 | after mounting, the id is still `'0'`, not `optionId(name, 0)` as the tests expect, yet it reads back as index 0 |
| Scenarios.ArrowKeys | src/__tests__/index.test.tsx:13-25 | on three options, Down goes from 0 to 1, then Up twice wraps round to 2 |
| Scenarios.HomeEnd | src/__tests__/index.test.tsx:27-38 | End highlights option 2 and Home then highlights option 0 |
| Scenarios.KeyboardOnly | src/__tests__/index.test.tsx:40-55 | open, type "turt", press Enter: "turtle" is selected |
| Scenarios.SingleClick | src/__tests__/index.test.tsx:185-193 | clicking "two" in single mode selects exactly it and closes the dropdown |
| Scenarios.MultiKeepsOptionOrder | src/__tests__/index.test.tsx:210-223 | with "three" chosen, clicking "two" gives `["two", "three"]` |
| Scenarios.MultiKeepsSearch | src/__tests__/index.test.tsx:225-235 | a multi-mode click keeps the search text |
| Scenarios.MultiRespectsMax | src/__tests__/index.test.tsx:237-253 | with `max` 2 reached, clicking a third option changes nothing |
| Scenarios.MultiCreate | src/__tests__/index.test.tsx:274-293 | clicking "Create" for "new" appends it after the selected options |
| Scenarios.EnterAfterUnmatchedSearchSelectsOption | src/index.tsx:303-317 | typing a text nothing matches and pressing Enter, with `allowCreate`, selects option "two" and creates nothing |
| Scenarios.SingleModeCanHoldTwo | src/index.tsx:182-188 | in single mode, creating "new" and then clicking "two" leaves two items chosen |
| Scenarios.InitCanExceedMax | src/index.tsx:262-268 | INIT with defaults `["one", "two"]` and `max` 1 gives a total of 2, above `max` |
| Scenarios.MultiEnterOnCreateDropsLast | src/index.tsx:153-165 | Enter on the create entry for a text not yet created empties `["old"]` instead of adding the text |

## Behaviour as written

The model keeps these behaviours of the code. Each line names the comment,
test or code that shows what was evidently intended instead.

- ADD_MULTI_KEYBOARD on the create entry (src/index.tsx:158) tests `index === -1` where the comment describes the opposite case. Text not yet created therefore triggers `splice(-1, 1)`, which drops the last created item. Text already created is pushed a second time. See `Properties.MultiKeyboardCreate` and `Scenarios.MultiEnterOnCreateDropsLast`.
- SEARCH (src/index.tsx:313) falls back to `state.search`, the text from before this keystroke, when nothing matches. It looks up that old text in the options, followed by the new text with `allowCreate` (src/index.tsx:308-309, which the comment at :281 says is there so the keyboard can reach the created item). When the old text is not an option (the empty text, for instance) and, with `allowCreate`, not the new text either, the highlight is the id of index -1, not the create entry. Index -1 is read back as 1, so Enter in single mode then selects the second option when there are at least two, with or without `allowCreate`. See `Properties.SearchWithoutMatchUsesOldSearch`, `Properties.EnterAfterUnmatchedSearch` and `Scenarios.EnterAfterUnmatchedSearchSelectsOption`.
- Single-mode commits (src/index.tsx:182-201) overwrite only the list the item belongs to. A created item and a selected option can therefore coexist. No comment or test says a single-mode selection holds one item; that it should is what the code evidently intends, since every single-mode commit writes a one-item list (:185, :187, :198, :200). See `Scenarios.SingleModeCanHoldTwo`.
- With `allowCreate`, MOVE_TO_START and MOVE_TO_END both highlight `options.length` (src/index.tsx:249-252). See `Properties.MoveToEdgeTargets`.
- Without `allowCreate`, MOVE_TO_START and MOVE_TO_END on an empty view (a SEARCH nothing matches) look up `undefined`, get -1 and write `rsz-<name>-option--1` (src/index.tsx:247-248, :252), which the next keyboard action reads as index 1. MOVE_NEXT and MOVE_PREV do the same (src/index.tsx:285-293). See `Properties.MoveToEdgeTargets` and `Properties.MoveOnEmptyView`.
- MOVE_NEXT and MOVE_PREV append the search text to the option list (src/index.tsx:280-282), but they step through `visibleOptions`, which never contains it. They never reach the create entry. See `Properties.MoveStaysOnVisibleOptions`.
- INIT (src/index.tsx:262-268) keeps the initial id `'0'`. The tests expect `rsz-<name>-option-0` right after mounting (src/__tests__/index.test.tsx:19, 33); the reducer alone does not produce it. `'0'` still reads as index 0, so the arrow keys and Home/End scenarios start from option 0. See `Scenarios.MountedIdIsNotOptionId`.
- INIT (src/index.tsx:262-268) never compares the defaults with `max`, although every commit adds an item only while `total < action.max` (src/index.tsx:124, 136, 160, 173), which shows `max` is meant as a ceiling. More defaults than `max` therefore give a total above it. The multi-mode invariant is proved only from defaults within `max`. See `Scenarios.InitCanExceedMax` and `Invariants.MultiLifecycle`.
- At the ceiling the markup sets `ariaSelected` to `undefined` for every option, chosen or not (src/index.tsx:552-556). The test at src/__tests__/index.test.tsx:117-136 expects the chosen options to keep `aria-selected="true"` and only the others to lose it. See the second ensures of `View.AriaRule`.
- The tests pass the initial selection through a `value` prop. The component reads only `defaultValue`. The scenarios start from the state that the selection the tests pass would give.

## Left out

- The React component itself (src/index.tsx:323-601): hooks, effects, focus handling, event listeners, the `onChange` callback and the markup. Only the pure display rules (`View`) are kept.
- The DOM `wrapper` of the MOVE_* actions and its `scrollIntoView` call (src/index.tsx:253-258, 294-299): a side effect that does not touch the state.
- `new RegExp(search, 'i').test`: the SEARCH action carries an arbitrary `matches` predicate, not tied to the search text. The model does not capture case-insensitive regular-expression matching, or the exception an invalid pattern throws.
- Reducer.ToggleMultiKeyboard: when the id has no trailing digit, `parseInt` yields NaN. The source then carries on with `options[NaN]`, which is `undefined`. The model returns the state unchanged instead. `Invariants.ReachableIdsParse` proves that this case never arises from `initialState`.
- Reducer.CommitSingleKeyboard: same NaN case and same treatment as `ToggleMultiKeyboard`. The source would select `undefined`.
- Reducer.MoveStep: same NaN case and same treatment. The source would move to the first or last visible option.
- Reducer.Max: `max` is a whole number or `Infinity`. Fractional, negative and NaN values of the numeric prop are not modelled.
- The `APPEND` enum member and the `default` branch of `reducer`: no `ActionHandler` variant has that type, so the branch cannot be reached with a typed action.
- Properties.MultiClickOption: requires `selected` to have no repeats, which every reachable multi-mode state satisfies (`Invariants.MultiLifecycle`). Without that condition, `splice` removes only the first copy.
- Properties.SearchHighlightsFirstMatch: requires the first match not to be the empty string. For an empty first match, `visibleOptions[0] || state.search` falls back to the old search text.
- Stories, lint, style and test configuration files: they have no behaviour to model.
