/** Facts about every sequence of actions: what holds of each state the
    reducer can reach. */
module Invariants {
  import opened Seqs
  import opened Ids
  import opened Reducer
  import opened Properties

  /** The states reached by dispatching `actions` in order. */
  function Run(s: State, actions: seq<Action>): State
    decreases |actions|
  {
    if |actions| == 0 then s else Run(Step(s, actions[0]), actions[1..])
  }

  /** `activeDescendant` ends in a digit, so `parseInt` never yields NaN. */
  predicate WellFormedId(s: State)
  {
    ParseIndex(s.activeDescendant).Some?
  }

  /** The initial id `'0'` reads as index 0. */
  lemma InitialIdParses()
    ensures ParseIndex(Initial.activeDescendant) == Some(0)
  {
    var z := Initial.activeDescendant;
    assert z == ['0'] && |z| == 1 && IsDigit(z[0]);
    assert z[..0] == [];
    assert TrailingDigits(z[..0]) == [];
    assert TrailingDigits(z) == z;
    assert z[..|z| - 1] == [];
    assert DigitsValue(z) == 0;
  }

  /** Every action keeps an id with a trailing digit run (the contract of
      `Step`), so every sequence of actions does. */
  lemma {:induction false} RunKeepsWellFormedId(s: State, actions: seq<Action>)
    requires WellFormedId(s)
    ensures WellFormedId(Run(s, actions))
    decreases |actions|
  {
    if |actions| > 0 {
      RunKeepsWellFormedId(Step(s, actions[0]), actions[1..]);
    }
  }

  /** From the initial state, whatever the actions, the reducer always finds
      an index in `activeDescendant`: the NaN case of `parseInt` never
      arises. */
  lemma ReachableIdsParse(actions: seq<Action>)
    ensures WellFormedId(Run(Initial, actions))
  {
    InitialIdParses();
    RunKeepsWellFormedId(Initial, actions);
  }

  /** What multi mode keeps true: `selected` is a part of the options in
      option order, `created` holds no option, the total respects `max` and
      only options are visible. */
  predicate MultiInvariant(s: State, options: seq<string>, max: Max)
  {
    && Subseq(s.selected, options)
    && (forall x :: x in s.created ==> x !in options)
    && AtMost(Total(s), max)
    && (forall x :: x in s.visibleOptions ==> x in options)
  }

  /** The actions a multi-mode component with these props dispatches after
      its INIT: clicks and Enter commit with ADD_MULTI_*, the trigger,
      overlay and keys open and close the dropdown, the arrow, Home and End
      keys move, and typing searches. */
  predicate MultiModeAction(a: Action, name: string, options: seq<string>, max: Max, allowCreate: bool)
  {
    match a
    case AddMultiClick(n, m, o, _) => n == name && m == max && o == options
    case AddMultiKeyboard(m, o) => m == max && o == options
    case DropdownClose(n, o) => n == name && o == options
    case DropdownOpen(n, o) => n == name && o == options
    case DropdownToggle(n, o) => n == name && o == options
    case MoveNext(c, n, o) => c == allowCreate && n == name && o == options
    case MovePrev(c, n, o) => c == allowCreate && n == name && o == options
    case MoveToEnd(c, n, o) => c == allowCreate && n == name && o == options
    case MoveToStart(c, n, o) => c == allowCreate && n == name && o == options
    case Search(c, n, o, _, _) => c == allowCreate && n == name && o == options
    case _ => false
  }

  /** INIT with defaults within `max` establishes the multi-mode invariant.
      INIT does not check that bound itself: `Scenarios.InitCanExceedMax`. */
  lemma InitEstablishesMultiInvariant(s: State, defaults: seq<string>, options: seq<string>, max: Max)
    requires Distinct(options) && AtMost(|defaults|, max)
    ensures MultiInvariant(Initialize(s, Some(defaults), options), options, max)
  {
    InitBoundsCount(s, defaults, options);
  }

  /** A multi-mode click keeps the invariant. */
  lemma MultiClickKeepsInvariant(s: State, options: seq<string>, max: Max, option: string)
    requires Distinct(options) && MultiInvariant(s, options, max)
    ensures MultiInvariant(ToggleMultiClick(s, max, options, option), options, max)
  {
    MultiClickKeepsMax(s, max, options, option);
  }

  /** Enter in multi mode keeps the invariant. */
  lemma MultiKeyboardKeepsInvariant(s: State, options: seq<string>, max: Max)
    requires Distinct(options) && MultiInvariant(s, options, max)
    ensures MultiInvariant(ToggleMultiKeyboard(s, max, options), options, max)
  {
    MultiKeyboardKeepsMax(s, max, options);
    var index := ParseIndex(s.activeDescendant);
    if index.Some? && index.value >= |options| {
      MultiKeyboardCreate(s, max, options, index.value);
      if s.search !in s.created && |s.created| > 0 {
        assert forall x :: x in s.created[..|s.created| - 1] ==> x in s.created;
      }
    }
  }

  /** Each multi-mode action keeps the invariant. */
  lemma MultiStepKeepsInvariant(s: State, a: Action, name: string, options: seq<string>, max: Max, allowCreate: bool)
    requires Distinct(options)
    requires MultiInvariant(s, options, max)
    requires MultiModeAction(a, name, options, max, allowCreate)
    ensures MultiInvariant(Step(s, a), options, max)
  {
    match a
    case AddMultiClick(_, _, _, option) =>
      MultiClickKeepsInvariant(s, options, max, option);
    case AddMultiKeyboard(_, _) =>
      MultiKeyboardKeepsInvariant(s, options, max);
    case _ =>
      NavigationKeepsChoices(s, a, name, options, max, allowCreate);
  }

  /** Opening, closing, moving and searching change neither chosen list and
      show only options. */
  lemma NavigationKeepsChoices(s: State, a: Action, name: string, options: seq<string>, max: Max, allowCreate: bool)
    requires forall x :: x in s.visibleOptions ==> x in options
    requires MultiModeAction(a, name, options, max, allowCreate)
    requires !a.AddMultiClick? && !a.AddMultiKeyboard?
    ensures var r := Step(s, a);
      && r.selected == s.selected && r.created == s.created
      && (forall x :: x in r.visibleOptions ==> x in options)
  {
  }

  /** However many multi-mode actions follow, the invariant holds: in
      particular `selected + created` never exceeds `max` and `selected`
      stays in option order. */
  lemma {:induction false} MultiRunKeepsInvariant(s: State, actions: seq<Action>, name: string,
                                                  options: seq<string>, max: Max, allowCreate: bool)
    requires Distinct(options)
    requires MultiInvariant(s, options, max)
    requires forall i :: 0 <= i < |actions| ==> MultiModeAction(actions[i], name, options, max, allowCreate)
    ensures MultiInvariant(Run(s, actions), options, max)
    decreases |actions|
  {
    if |actions| > 0 {
      MultiStepKeepsInvariant(s, actions[0], name, options, max, allowCreate);
      MultiRunKeepsInvariant(Step(s, actions[0]), actions[1..], name, options, max, allowCreate);
    }
  }

  /** Running `a` first and then `actions`. */
  lemma RunCons(s: State, a: Action, actions: seq<Action>)
    ensures Run(s, [a] + actions) == Run(Step(s, a), actions)
  {
    var all := [a] + actions;
    assert all[0] == a;
    assert all[1..] == actions;
  }

  /** INIT dispatched to any state. */
  lemma StepInit(s: State, defaults: Option<seq<string>>, options: seq<string>)
    ensures Step(s, Init(defaults, options)) == Initialize(s, defaults, options)
  {
  }

  /** The whole life of a multi-mode component: INIT with defaults within
      `max` (a bound INIT does not enforce), then any multi-mode actions. */
  lemma MultiLifecycle(defaults: seq<string>, actions: seq<Action>, name: string,
                       options: seq<string>, max: Max, allowCreate: bool)
    requires Distinct(options) && AtMost(|defaults|, max)
    requires forall i :: 0 <= i < |actions| ==> MultiModeAction(actions[i], name, options, max, allowCreate)
    ensures var r := Run(Initial, [Init(Some(defaults), options)] + actions);
      && AtMost(Total(r), max)
      && Subseq(r.selected, options)
      && (forall x :: x in r.created ==> x !in options)
      && WellFormedId(r)
  {
    var all := [Init(Some(defaults), options)] + actions;
    var s1 := Initialize(Initial, Some(defaults), options);
    RunCons(Initial, Init(Some(defaults), options), actions);
    StepInit(Initial, Some(defaults), options);
    InitEstablishesMultiInvariant(Initial, defaults, options, max);
    MultiRunKeepsInvariant(s1, actions, name, options, max, allowCreate);
    ReachableIdsParse(all);
  }
}
