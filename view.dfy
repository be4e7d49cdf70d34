/** The parts of the rendering that are pure functions of the props and the
    state: whether the filter input and the "Create" entry are shown, and the
    `aria-selected` / `disabled` attributes of each option button. */
module View {
  import opened Seqs
  import opened Reducer
  import opened Properties

  /** `shouldDisplaySearch`. */
  function ShouldDisplaySearch(noSearch: bool, options: seq<string>): (r: bool)
    ensures r ==> !noSearch && |options| >= 5
    ensures !noSearch && |options| >= 5 ==> r
  {
    noSearch != true && |options| > 4
  }

  /** `shouldDisplayCreate`: creation is allowed, something is typed and no
      visible option is exactly the typed text. */
  function ShouldDisplayCreate(allowCreate: bool, s: State): (r: bool)
    ensures r <==> allowCreate && s.search != "" && s.search !in s.visibleOptions
  {
    allowCreate != false && |s.search| > 0 && IndexOf(s.visibleOptions, s.search) == -1
  }

  /** `selection.length === max`: the selection is full. */
  function IsMaxxed(s: State, max: Max): (r: bool)
    ensures r <==> AtMost(Total(s), max) && !Below(Total(s), max)
  {
    max.Finite? && |s.selected + s.created| == max.n
  }

  /** `aria-selected` of an option button: whether it is chosen, or undefined
      (None) while the selection is full. */
  function AriaSelected(s: State, max: Max, option: string): (r: Option<bool>)
    ensures r.None? <==> IsMaxxed(s, max)
    ensures r.Some? ==> (r.value <==> option in s.selected || option in s.created)
  {
    var isSelected := IndexOf(s.selected + s.created, option) != -1;
    if IsMaxxed(s, max) then None else Some(isSelected)
  }

  /** `disabled` of an option button: the selection is full and the option is
      not part of it. */
  function Disabled(s: State, max: Max, option: string): (r: bool)
    ensures r <==> IsMaxxed(s, max) && option !in s.selected && option !in s.created
  {
    var isSelected := IndexOf(s.selected + s.created, option) != -1;
    IsMaxxed(s, max) && !isSelected
  }

  /** The filter input is shown from five options on, and never with
      `noSearch`. */
  lemma SearchShownFromFiveOptions(options: seq<string>)
    ensures ShouldDisplaySearch(false, options) <==> |options| >= 5
    ensures !ShouldDisplaySearch(true, options)
  {
  }

  /** After SEARCH with `allowCreate`, the "Create" entry is offered exactly
      when the typed text is not empty and is not itself a matching option. */
  lemma CreateEntryAfterSearch(s: State, name: string, options: seq<string>,
                               search: string, matches: string -> bool)
    ensures var r := ApplySearch(s, true, name, options, search, matches);
      ShouldDisplayCreate(true, r) <==> search != "" && !(search in options && matches(search))
  {
  }

  /** A disabled option is one whose click the reducer ignores: in multi mode
      with `selected` in option order, clicking it leaves the state as it
      is. An option that is not disabled and not chosen is added by a
      click. */
  lemma DisabledMeansIgnored(s: State, max: Max, options: seq<string>, option: string)
    requires Distinct(options) && Subseq(s.selected, options)
    requires forall x :: x in s.created ==> x !in options
    requires option in options
    ensures Disabled(s, max, option) ==> ToggleMultiClick(s, max, options, option) == s
    ensures !Disabled(s, max, option) && option !in s.selected && AtMost(Total(s), max) ==>
      option in ToggleMultiClick(s, max, options, option).selected
  {
    SubseqDistinct(s.selected, options);
    if Disabled(s, max, option) {
      MultiClickAtMaxIsNoOp(s, max, options, option);
    }
    MultiClickOption(s, max, options, option);
    assert |s.selected + s.created| == Total(s);
  }

  /** While the selection is not full, `aria-selected` says whether the option
      is chosen and nothing is disabled; when it is full, `aria-selected` is
      left out and exactly the options not chosen are disabled. */
  lemma AriaRule(s: State, max: Max, option: string)
    ensures !IsMaxxed(s, max) ==>
      AriaSelected(s, max, option) == Some(option in s.selected || option in s.created)
      && !Disabled(s, max, option)
    ensures IsMaxxed(s, max) ==>
      AriaSelected(s, max, option).None?
      && (Disabled(s, max, option) <==> option !in s.selected && option !in s.created)
  {
  }
}
