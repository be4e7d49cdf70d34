/** The state machine behind the select widget: `SelectState`, the actions
    of the `ActionHandler` union and the pure `reducer` that maps a state and
    an action to the next state (src/index.tsx). */
module Reducer {
  import opened Seqs
  import opened Ids

  /** `SelectState`. `activeDescendant` is the id of the highlighted option;
      `visibleOptions` is the part of the option list the search lets through. */
  datatype State = State(
    activeDescendant: string,
    created: seq<string>,
    isOpen: bool,
    search: string,
    selected: seq<string>,
    visibleOptions: seq<string>)

  /** The `max` prop: a whole number of items, or the default `Infinity`. */
  datatype Max = Finite(n: nat) | Infinity

  /** `total < max`: one more item may still be added. */
  predicate Below(total: nat, max: Max)
  {
    max.Infinity? || total < max.n
  }

  /** `total <= max`: the ceiling holds. */
  predicate AtMost(total: nat, max: Max)
  {
    max.Infinity? || total <= max.n
  }

  function Total(s: State): nat
  {
    |s.selected| + |s.created|
  }

  /** The `ActionHandler` union. `options`, `name`, `max` and `allowCreate`
      are the component's props, sent along with every action. The DOM
      `wrapper` of the MOVE_* actions is left out; the `RegExp` the SEARCH
      action builds from its text is represented by its `test` function,
      `matches`. */
  datatype Action =
    | AddMultiClick(name: string, max: Max, options: seq<string>, option: string)
    | AddMultiKeyboard(max: Max, options: seq<string>)
    | AddSingleClick(name: string, option: string, options: seq<string>)
    | AddSingleKeyboard(options: seq<string>)
    | DropdownClose(name: string, options: seq<string>)
    | DropdownOpen(name: string, options: seq<string>)
    | DropdownToggle(name: string, options: seq<string>)
    | Init(defaults: Option<seq<string>>, options: seq<string>)
    | MoveNext(allowCreate: bool, name: string, options: seq<string>)
    | MovePrev(allowCreate: bool, name: string, options: seq<string>)
    | MoveToEnd(allowCreate: bool, name: string, options: seq<string>)
    | MoveToStart(allowCreate: bool, name: string, options: seq<string>)
    | Search(allowCreate: bool, name: string, options: seq<string>, search: string, matches: string -> bool)

  /** `initialState`. */
  const Initial := State("0", [], false, "", [], [])

  /** The copy-splice-or-push step the ADD_MULTI_* actions apply to one list:
      remove the first occurrence of `item` when there is one, otherwise
      append it if `canAdd`. */
  function Toggle(list: seq<string>, item: string, canAdd: bool): (r: seq<string>)
    ensures item in list ==> |r| == |list| - 1
    ensures item in list ==> r == list[..IndexOf(list, item)] + list[IndexOf(list, item) + 1..]
    ensures item in list ==> multiset(r) == multiset(list) - multiset{item}
    ensures forall x :: x in r ==> x in list || x == item
    ensures item !in list ==> r == if canAdd then list + [item] else list
  {
    var index := IndexOf(list, item);
    if index != -1 then
      RemoveFirst(list, item);
      Splice1(list, index)
    else if canAdd then list + [item]
    else list
  }

  /** `options.filter(order => selected.indexOf(order) !== -1)`: the options
      that occur in `selected`, in option order. */
  function SortByOptions(options: seq<string>, selected: seq<string>): (r: seq<string>)
    ensures Subseq(r, options)
    ensures forall x :: x in r <==> x in options && x in selected
  {
    FilterSubseq(options, o => o in selected);
    Filter(options, o => o in selected)
  }

  /** ADD_MULTI_CLICK: toggle a clicked item. An item missing from `options`
      is toggled in `created`, an option in `selected`, which is then put back
      into option order. Nothing else changes. */
  function ToggleMultiClick(s: State, max: Max, options: seq<string>, option: string): (r: State)
    ensures r.activeDescendant == s.activeDescendant && r.isOpen == s.isOpen
    ensures r.search == s.search && r.visibleOptions == s.visibleOptions
    ensures option !in options ==> r.selected == s.selected
    ensures option in options ==> r.created == s.created && Subseq(r.selected, options)
  {
    var isNew := IndexOf(options, option) == -1;
    var total := |s.selected| + |s.created|;
    if isNew then
      s.(created := Toggle(s.created, option, Below(total, max)))
    else
      s.(selected := SortByOptions(options, Toggle(s.selected, option, Below(total, max))))
  }

  /** ADD_MULTI_KEYBOARD: toggle the highlighted item. An index past the last
      option stands for the "create" entry, whose test is inverted in the
      source: when the search text is NOT in `created` the last created item
      is spliced off (`splice(-1, 1)`), and when it IS there it is pushed
      again if below `max`. An id without trailing digits leaves the state
      alone. */
  function ToggleMultiKeyboard(s: State, max: Max, options: seq<string>): (r: State)
    ensures r.activeDescendant == s.activeDescendant && r.isOpen == s.isOpen
    ensures r.search == s.search && r.visibleOptions == s.visibleOptions
    ensures r.created == s.created || r.selected == s.selected
    ensures r.selected != s.selected ==> Subseq(r.selected, options)
  {
    match ParseIndex(s.activeDescendant)
    case None => s
    case Some(number) =>
      var total := |s.selected| + |s.created|;
      if number > |options| - 1 then
        var option := s.search;
        var index := IndexOf(s.created, option);
        var created :=
          if index == -1 then Splice1(s.created, index)
          else if Below(total, max) then s.created + [option]
          else s.created;
        s.(created := created)
      else
        var option := options[number];
        s.(selected := SortByOptions(options, Toggle(s.selected, option, Below(total, max))))
  }

  /** ADD_SINGLE_CLICK: commit the clicked item and close the dropdown. Only
      the list the item belongs to is overwritten. */
  function CommitSingleClick(s: State, option: string, options: seq<string>): (r: State)
    ensures !r.isOpen && r.search == "" && r.visibleOptions == options
    ensures r.activeDescendant == s.activeDescendant
    ensures option !in options ==> r.created == [option] && r.selected == s.selected
    ensures option in options ==> r.selected == [option] && r.created == s.created
  {
    var newState := s.(isOpen := false, search := "", visibleOptions := options);
    if IndexOf(options, option) == -1 then newState.(created := [option])
    else newState.(selected := [option])
  }

  /** ADD_SINGLE_KEYBOARD: commit the highlighted item and close the
      dropdown, keeping the search text. An index past the last option
      commits the search text as a created item. */
  function CommitSingleKeyboard(s: State, options: seq<string>): (r: State)
    ensures r.activeDescendant == s.activeDescendant && r.search == s.search
    ensures ParseIndex(s.activeDescendant).Some? ==> !r.isOpen && r.visibleOptions == options
    ensures ParseIndex(s.activeDescendant).Some? ==>
      if ParseIndex(s.activeDescendant).value < |options|
      then r.selected == [options[ParseIndex(s.activeDescendant).value]] && r.created == s.created
      else r.created == [s.search] && r.selected == s.selected
  {
    match ParseIndex(s.activeDescendant)
    case None => s
    case Some(number) =>
      var newState := s.(isOpen := false, visibleOptions := options);
      if number > |options| - 1 then newState.(created := [s.search])
      else newState.(selected := [options[number]])
  }

  /** The reset shared by DROPDOWN_CLOSE, DROPDOWN_OPEN and DROPDOWN_TOGGLE. */
  function Reset(s: State, isOpen: bool, name: string, options: seq<string>): (r: State)
    ensures r.activeDescendant == OptionId(name, 0) && ParseIndex(r.activeDescendant) == Some(0)
    ensures r.isOpen == isOpen && r.search == "" && r.visibleOptions == options
    ensures r.selected == s.selected && r.created == s.created
  {
    s.(activeDescendant := OptionId(name, 0), isOpen := isOpen, search := "", visibleOptions := options)
  }

  /** DROPDOWN_CLOSE: close and reset, unless already closed. */
  function CloseDropdown(s: State, name: string, options: seq<string>): (r: State)
    ensures !r.isOpen
    ensures r.selected == s.selected && r.created == s.created
    ensures !s.isOpen ==> r == s
  {
    if s.isOpen == false then s
    else Reset(s, false, name, options)
  }

  /** DROPDOWN_OPEN: open and reset, unless already open. */
  function OpenDropdown(s: State, name: string, options: seq<string>): (r: State)
    ensures r.isOpen
    ensures r.selected == s.selected && r.created == s.created
    ensures s.isOpen ==> r == s
  {
    if s.isOpen == true then s
    else Reset(s, true, name, options)
  }

  /** DROPDOWN_TOGGLE: flip `isOpen` and reset, without a guard. */
  function ToggleDropdown(s: State, name: string, options: seq<string>): (r: State)
    ensures r.isOpen == !s.isOpen
    ensures r.selected == s.selected && r.created == s.created
  {
    Reset(s, !s.isOpen, name, options)
  }

  /** MOVE_TO_START / MOVE_TO_END: highlight the first or last visible
      option. With `allowCreate` both target index `options.length`. */
  function MoveToEdge(s: State, toStart: bool, allowCreate: bool, name: string, options: seq<string>): (r: State)
    ensures r == s.(activeDescendant := r.activeDescendant)
    ensures allowCreate ==> r.activeDescendant == OptionId(name, |options|)
    ensures ParseIndex(r.activeDescendant).Some?
  {
    var index :=
      if toStart then IndexOfOpt(options, At(s.visibleOptions, 0))
      else IndexOfOpt(options, At(s.visibleOptions, |s.visibleOptions| - 1));
    var activeDescendant :=
      if allowCreate == true then OptionId(name, |options|)
      else OptionId(name, index);
    s.(activeDescendant := activeDescendant)
  }

  /** INIT: split the defaults into the options they name (in option order)
      and created items (in defaults order). */
  function Initialize(s: State, defaults: Option<seq<string>>, options: seq<string>): (r: State)
    ensures r.activeDescendant == s.activeDescendant && r.isOpen == s.isOpen && r.search == s.search
    ensures r.visibleOptions == options
    ensures Subseq(r.selected, options)
    ensures forall x :: x in r.created ==> x !in options
  {
    var defaults := if defaults.Some? then defaults.value else [];
    var selected := Filter(options, option => option in defaults);
    var created := Filter(defaults, option => option !in options);
    FilterSubseq(options, option => option in defaults);
    s.(created := created, selected := selected, visibleOptions := options)
  }

  /** The index MOVE_NEXT / MOVE_PREV highlight next, from the option the
      current id points at (`index`). Positions are looked up in the options,
      followed by the search text when `allowCreate`. */
  function NextIndex(s: State, prev: bool, allowCreate: bool, options: seq<string>, index: nat): (r: int)
    ensures -1 <= r < |options| + (if allowCreate then 1 else 0)
    ensures r >= 0 ==> (if allowCreate then options + [s.search] else options)[r] in s.visibleOptions
  {
    var selected := At(options, index);
    var visibleIndex := IndexOfOpt(s.visibleOptions, selected);
    var options' := if allowCreate == true then options + [s.search] else options;
    if prev then VisibleOrEdge(options', s.visibleOptions, visibleIndex - 1, |s.visibleOptions| - 1)
    else VisibleOrEdge(options', s.visibleOptions, visibleIndex + 1, 0)
  }

  /** `next = neighbour !== -1 ? neighbour : edge`, both looked up in
      `options`: the neighbour is the visible entry at `k` (`undefined` out of
      range), the edge the one at `edge` (the last or the first). */
  function VisibleOrEdge(options: seq<string>, visible: seq<string>, k: int, edge: int): (r: int)
    ensures -1 <= r < |options|
    ensures r >= 0 ==> options[r] in visible
  {
    var neighbour := IndexOfOpt(options, At(visible, k));
    var wrapped := IndexOfOpt(options, At(visible, edge));
    if neighbour != -1 then neighbour else wrapped
  }

  /** MOVE_NEXT / MOVE_PREV: highlight the next or previous visible option. */
  function MoveStep(s: State, prev: bool, allowCreate: bool, name: string, options: seq<string>): (r: State)
    ensures r == s.(activeDescendant := r.activeDescendant)
    ensures ParseIndex(s.activeDescendant).Some? ==> ParseIndex(r.activeDescendant).Some?
  {
    match ParseIndex(s.activeDescendant)
    case None => s
    case Some(index) =>
      var next := NextIndex(s, prev, allowCreate, options, index);
      s.(activeDescendant := OptionId(name, next))
  }

  /** `visibleOptions[0] || state.search`: the first visible option, or the
      old search text when there is none or it is the empty string. */
  function SearchKey(s: State, visibleOptions: seq<string>): (r: string)
    ensures |visibleOptions| > 0 && visibleOptions[0] != "" ==> r == visibleOptions[0]
    ensures (|visibleOptions| == 0 || visibleOptions[0] == "") ==> r == s.search
  {
    if |visibleOptions| > 0 && visibleOptions[0] != "" then visibleOptions[0] else s.search
  }

  /** SEARCH: keep the options the search matches, in order, and highlight
      the first of them. */
  function ApplySearch(s: State, allowCreate: bool, name: string, options: seq<string>,
                       search: string, matches: string -> bool): (r: State)
    ensures r.search == search
    ensures r.selected == s.selected && r.created == s.created && r.isOpen == s.isOpen
    ensures Subseq(r.visibleOptions, options)
    ensures forall x :: x in r.visibleOptions <==> x in options && matches(x)
    ensures ParseIndex(r.activeDescendant).Some?
  {
    var visibleOptions := Filter(options, matches);
    var options' := if allowCreate == true then options + [search] else options;
    var index := IndexOf(options', SearchKey(s, visibleOptions));
    FilterSubseq(options, matches);
    s.(activeDescendant := OptionId(name, index),
       search := search,
       visibleOptions := visibleOptions)
  }

  /** `reducer(state, action)`. */
  function Step(s: State, a: Action): (r: State)
    ensures ParseIndex(s.activeDescendant).Some? ==> ParseIndex(r.activeDescendant).Some?
  {
    match a
    case AddMultiClick(_, max, options, option) => ToggleMultiClick(s, max, options, option)
    case AddMultiKeyboard(max, options) => ToggleMultiKeyboard(s, max, options)
    case AddSingleClick(_, option, options) => CommitSingleClick(s, option, options)
    case AddSingleKeyboard(options) => CommitSingleKeyboard(s, options)
    case DropdownClose(name, options) => CloseDropdown(s, name, options)
    case DropdownOpen(name, options) => OpenDropdown(s, name, options)
    case DropdownToggle(name, options) => ToggleDropdown(s, name, options)
    case MoveToEnd(allowCreate, name, options) => MoveToEdge(s, false, allowCreate, name, options)
    case MoveToStart(allowCreate, name, options) => MoveToEdge(s, true, allowCreate, name, options)
    case Init(defaults, options) => Initialize(s, defaults, options)
    case MoveNext(allowCreate, name, options) => MoveStep(s, false, allowCreate, name, options)
    case MovePrev(allowCreate, name, options) => MoveStep(s, true, allowCreate, name, options)
    case Search(allowCreate, name, options, search, matches) =>
      ApplySearch(s, allowCreate, name, options, search, matches)
  }
}
