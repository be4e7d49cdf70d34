/** What each branch of the reducer does, stated as relations between the old
    and the new state. */
module Properties {
  import opened Seqs
  import opened Ids
  import opened Reducer

  // ---------------------------------------------------------------- INIT

  /** INIT puts the defaults that are options into `selected`, in option
      order, and the others into `created`, in defaults order; every default
      lands in exactly one of them, as often as it occurs in the defaults (for
      `created`) or in the options (for `selected`), and nothing else is
      added. */
  lemma InitSplitsDefaults(s: State, defaults: seq<string>, options: seq<string>)
    ensures var r := Initialize(s, Some(defaults), options);
      && Subseq(r.selected, options)
      && Subseq(r.created, defaults)
      && (forall x :: x in r.selected <==> x in options && x in defaults)
      && (forall x :: x in r.created <==> x in defaults && x !in options)
      && (forall x :: x in defaults ==> (x in r.selected) != (x in r.created))
      && (forall x :: multiset(r.created)[x] == if x in options then 0 else multiset(defaults)[x])
      && (forall x :: multiset(r.selected)[x] == if x in defaults then multiset(options)[x] else 0)
  {
    FilterSubseq(defaults, option => option !in options);
    var r := Initialize(s, Some(defaults), options);
    forall x
      ensures multiset(r.created)[x] == if x in options then 0 else multiset(defaults)[x]
      ensures multiset(r.selected)[x] == if x in defaults then multiset(options)[x] else 0
    {
      FilterCount(defaults, option => option !in options, x);
      FilterCount(options, option => option in defaults, x);
    }
  }

  /** Without repetitions in the options and the defaults, the two lists
      INIT builds hold as many items as the defaults. */
  lemma InitKeepsCount(s: State, defaults: seq<string>, options: seq<string>)
    requires Distinct(options) && Distinct(defaults)
    ensures var r := Initialize(s, Some(defaults), options);
      |r.selected| + |r.created| == |defaults|
  {
    var selected := Filter(options, option => option in defaults);
    var created := Filter(defaults, option => option !in options);
    FilterDistinct(options, option => option in defaults);
    FilterDistinct(defaults, option => option !in options);
    DistinctElemsCard(selected);
    DistinctElemsCard(created);
    DistinctElemsCard(defaults);
    PartitionElems(defaults, options);
    SplitCard(Elems(defaults), Elems(selected), Elems(created));
  }

  /** When the options have no repetitions, the two lists INIT builds hold
      at most as many items as the defaults, repeated defaults included: a
      repeated default that is an option is selected once, one that is not
      is created as often as it occurs. */
  lemma InitBoundsCount(s: State, defaults: seq<string>, options: seq<string>)
    requires Distinct(options)
    ensures var r := Initialize(s, Some(defaults), options);
      |r.selected| + |r.created| <= |defaults|
  {
    var selected := Filter(options, option => option in defaults);
    FilterDistinct(options, option => option in defaults);
    DistinctElemsCard(selected);
    var created := Filter(defaults, option => option !in options);
    var r := Initialize(s, Some(defaults), options);
    assert r.selected == selected && r.created == created;
    RejectedAndKeptCard(defaults, option => option !in options, Elems(selected));
  }

  /** The elements of the defaults are those of the two lists INIT builds,
      which share none. */
  lemma PartitionElems(defaults: seq<string>, options: seq<string>)
    ensures var selected := Filter(options, option => option in defaults);
      var created := Filter(defaults, option => option !in options);
      && Elems(defaults) == Elems(selected) + Elems(created)
      && Elems(selected) * Elems(created) == {}
  {
  }

  /** A set split into two disjoint parts has as many elements as both. */
  lemma SplitCard(all: set<string>, a: set<string>, b: set<string>)
    requires all == a + b && a * b == {}
    ensures |all| == |a| + |b|
  {
  }

  /** A missing `defaults` field is read as the empty list. */
  lemma InitWithoutDefaults(s: State, options: seq<string>)
    ensures Initialize(s, None, options).selected == []
    ensures Initialize(s, None, options).created == []
  {
    FilterNone(options, option => option in []);
  }

  // ---------------------------------------------------------- ADD_MULTI_*

  /** Clicking an option in multi mode toggles it in `selected`: it is
      removed when present and added only below `max`; every other option
      keeps its membership and `created` is untouched. */
  lemma MultiClickOption(s: State, max: Max, options: seq<string>, option: string)
    requires option in options && Distinct(s.selected)
    ensures var r := ToggleMultiClick(s, max, options, option);
      && r.created == s.created
      && Subseq(r.selected, options)
      && (option in r.selected <==> option !in s.selected && Below(Total(s), max))
      && (forall x :: x != option ==> (x in r.selected <==> x in options && x in s.selected))
  {
    if option in s.selected {
      RemoveFirstDistinct(s.selected, option);
    }
  }

  /** Clicking an item that is not an option in multi mode toggles it in
      `created`: its first occurrence is removed when present, otherwise it is
      appended below `max`; `selected` is untouched. */
  lemma MultiClickCreated(s: State, max: Max, options: seq<string>, option: string)
    requires option !in options
    ensures var r := ToggleMultiClick(s, max, options, option);
      && r.selected == s.selected
      && (option in s.created ==>
            r.created == s.created[..IndexOf(s.created, option)] + s.created[IndexOf(s.created, option) + 1..])
      && (option in s.created ==>
            multiset(r.created) == multiset(s.created) - multiset{option})
      && (option !in s.created ==>
            r.created == if Below(Total(s), max) then s.created + [option] else s.created)
  {
    if option in s.created {
      RemoveFirst(s.created, option);
    }
  }

  /** `options.filter(x => list.includes(x))` is no longer than `list` when
      the options have no repetitions. */
  lemma SortByOptionsLength(options: seq<string>, list: seq<string>)
    requires Distinct(options)
    ensures |SortByOptions(options, list)| <= |list|
  {
    FilterDistinct(options, o => o in list);
    DistinctSubsetLength(SortByOptions(options, list), list);
  }

  /** Toggling into the option list never makes the total exceed `max`, and at
      the ceiling it does not grow. */
  lemma ToggleSelectedKeepsMax(s: State, max: Max, options: seq<string>, option: string)
    requires Distinct(options)
    ensures var selected := SortByOptions(options, Toggle(s.selected, option, Below(Total(s), max)));
      && (AtMost(Total(s), max) ==> AtMost(|selected| + |s.created|, max))
      && (!Below(Total(s), max) ==> |selected| <= |s.selected|)
  {
    SortByOptionsLength(options, Toggle(s.selected, option, Below(Total(s), max)));
  }

  /** ADD_MULTI_CLICK keeps `selected + created <= max`, and once the
      ceiling is reached it never grows the total. */
  lemma MultiClickKeepsMax(s: State, max: Max, options: seq<string>, option: string)
    requires Distinct(options)
    ensures var r := ToggleMultiClick(s, max, options, option);
      && (AtMost(Total(s), max) ==> AtMost(Total(r), max))
      && (!Below(Total(s), max) ==> Total(r) <= Total(s))
  {
    ToggleSelectedKeepsMax(s, max, options, option);
  }

  /** At the ceiling, clicking an option that is not yet chosen changes
      nothing at all, provided `selected` is already in option order. */
  lemma MultiClickAtMaxIsNoOp(s: State, max: Max, options: seq<string>, option: string)
    requires Distinct(options) && Subseq(s.selected, options)
    requires !Below(Total(s), max)
    requires option !in s.selected && option !in s.created
    ensures ToggleMultiClick(s, max, options, option) == s
  {
    if option in options {
      FilterMembersOfSubseq(s.selected, options);
    }
  }

  /** Enter on an option in multi mode does what a click on that option
      does. */
  lemma MultiKeyboardOption(s: State, max: Max, options: seq<string>, n: nat)
    requires ParseIndex(s.activeDescendant) == Some(n) && n < |options|
    ensures ToggleMultiKeyboard(s, max, options) == ToggleMultiClick(s, max, options, options[n])
  {
    assert options[n] in options;
  }

  /** Enter on the create entry in multi mode, as written: when the search
      text is not yet created, the last created item is dropped and the text
      is NOT added; when it is already created, a second copy is appended
      below `max`. `selected` is untouched. */
  lemma MultiKeyboardCreate(s: State, max: Max, options: seq<string>, n: nat)
    requires ParseIndex(s.activeDescendant) == Some(n) && n >= |options|
    ensures var r := ToggleMultiKeyboard(s, max, options);
      && r.selected == s.selected
      && (s.search !in s.created ==>
            r.created == (if |s.created| == 0 then [] else s.created[..|s.created| - 1])
            && s.search !in r.created)
      && (s.search in s.created ==>
            r.created == if Below(Total(s), max) then s.created + [s.search] else s.created)
  {
    SpliceLast(s.created);
    if s.search !in s.created && |s.created| > 0 {
      assert forall x :: x in s.created[..|s.created| - 1] ==> x in s.created;
    }
  }

  /** ADD_MULTI_KEYBOARD keeps `selected + created <= max`, and once the
      ceiling is reached it never grows the total. */
  lemma MultiKeyboardKeepsMax(s: State, max: Max, options: seq<string>)
    requires Distinct(options)
    ensures var r := ToggleMultiKeyboard(s, max, options);
      && (AtMost(Total(s), max) ==> AtMost(Total(r), max))
      && (!Below(Total(s), max) ==> Total(r) <= Total(s))
  {
    match ParseIndex(s.activeDescendant)
    case None =>
    case Some(n) =>
      if n < |options| {
        MultiKeyboardOption(s, max, options, n);
        MultiClickKeepsMax(s, max, options, options[n]);
      } else {
        MultiKeyboardCreate(s, max, options, n);
      }
  }

  // --------------------------------------------------------- ADD_SINGLE_*

  /** Enter on an option in single mode commits it like a click, except
      that the search text is kept. */
  lemma SingleKeyboardOption(s: State, options: seq<string>, n: nat)
    requires ParseIndex(s.activeDescendant) == Some(n) && n < |options|
    ensures CommitSingleKeyboard(s, options)
         == CommitSingleClick(s, options[n], options).(search := s.search)
  {
    assert options[n] in options;
  }

  /** Enter on the create entry in single mode commits the search text as a
      created item like a click on a new item, keeping the search text; it
      does so even when that text is one of the options. */
  lemma SingleKeyboardCreate(s: State, options: seq<string>, n: nat)
    requires ParseIndex(s.activeDescendant) == Some(n) && n >= |options|
    ensures CommitSingleKeyboard(s, options).created == [s.search]
    ensures s.search !in options ==>
      CommitSingleKeyboard(s, options) == CommitSingleClick(s, s.search, options).(search := s.search)
  {
  }

  // ------------------------------------------------------------ DROPDOWN_*

  /** Opening a closed dropdown or closing an open one highlights option 0,
      clears the search, shows every option and keeps the selection. */
  lemma DropdownReset(s: State, name: string, options: seq<string>)
    ensures var r := if s.isOpen then CloseDropdown(s, name, options) else OpenDropdown(s, name, options);
      && r.isOpen == !s.isOpen
      && r.activeDescendant == OptionId(name, 0) && ParseIndex(r.activeDescendant) == Some(0)
      && r.search == "" && r.visibleOptions == options
      && r.selected == s.selected && r.created == s.created
  {
  }

  /** DROPDOWN_TOGGLE is DROPDOWN_OPEN on a closed dropdown and
      DROPDOWN_CLOSE on an open one; two toggles restore `isOpen`. */
  lemma ToggleIsOpenOrClose(s: State, name: string, options: seq<string>)
    ensures ToggleDropdown(s, name, options)
         == if s.isOpen then CloseDropdown(s, name, options) else OpenDropdown(s, name, options)
    ensures ToggleDropdown(ToggleDropdown(s, name, options), name, options).isOpen == s.isOpen
  {
  }

  // ---------------------------------------------------------------- MOVE_*

  /** Looking an option up in the option list extended with the search text
      finds the same position. */
  lemma IndexOfAppended(options: seq<string>, extra: string, x: string)
    requires x in options
    ensures IndexOf(options + [extra], x) == IndexOf(options, x)
  {
    var k := IndexOf(options, x);
    assert (options + [extra])[k] == x;
    var k' := IndexOf(options + [extra], x);
    assert k' <= k;
    assert options[k'] == x;
  }

  /** The position MOVE_* computes for a visible option is that option's
      first position in `options`, with or without `allowCreate`. */
  lemma LookupVisible(s: State, allowCreate: bool, options: seq<string>, k: int)
    requires forall x :: x in s.visibleOptions ==> x in options
    requires 0 <= k < |s.visibleOptions|
    ensures var options' := if allowCreate == true then options + [s.search] else options;
      IndexOfOpt(options', At(s.visibleOptions, k)) == IndexOf(options, s.visibleOptions[k])
  {
    if allowCreate {
      IndexOfAppended(options, s.search, s.visibleOptions[k]);
    }
  }

  /** MOVE_NEXT and MOVE_PREV write the id of the index NextIndex computes. */
  lemma MoveStepWrites(s: State, prev: bool, allowCreate: bool, name: string, options: seq<string>, i: nat)
    requires ParseIndex(s.activeDescendant) == Some(i)
    ensures MoveStep(s, prev, allowCreate, name, options)
         == s.(activeDescendant := OptionId(name, NextIndex(s, prev, allowCreate, options, i)))
  {
  }

  /** The neighbour, in the visible list, of the visible option at position
      `v`: the next one or the first (`prev` false), the previous one or the
      last (`prev` true). */
  function Neighbour(v: int, w: nat, prev: bool): (r: nat)
    requires w > 0
    ensures r < w
  {
    var k := if prev then v - 1 else v + 1;
    if 0 <= k < w then k else if prev then w - 1 else 0
  }

  /** From an index whose option is visible at position `v`, NextIndex
      is the first position in `options` of the neighbour of `v`. */
  lemma NextIndexOfVisible(s: State, prev: bool, allowCreate: bool, options: seq<string>, i: nat)
    requires forall x :: x in s.visibleOptions ==> x in options
    requires |s.visibleOptions| > 0
    ensures var v := IndexOfOpt(s.visibleOptions, At(options, i));
      NextIndex(s, prev, allowCreate, options, i)
        == IndexOf(options, s.visibleOptions[Neighbour(v, |s.visibleOptions|, prev)])
  {
    if prev {
      PrevIndexOfVisible(s, allowCreate, options, i);
    } else {
      NextIndexForward(s, allowCreate, options, i);
    }
  }

  lemma PrevIndexOfVisible(s: State, allowCreate: bool, options: seq<string>, i: nat)
    requires forall x :: x in s.visibleOptions ==> x in options
    requires |s.visibleOptions| > 0
    ensures var v := IndexOfOpt(s.visibleOptions, At(options, i));
      NextIndex(s, true, allowCreate, options, i)
        == IndexOf(options, s.visibleOptions[Neighbour(v, |s.visibleOptions|, true)])
  {
    var v := IndexOfOpt(s.visibleOptions, At(options, i));
    VisibleOrEdgeOfVisible(s, allowCreate, options, v - 1, |s.visibleOptions| - 1);
  }

  lemma NextIndexForward(s: State, allowCreate: bool, options: seq<string>, i: nat)
    requires forall x :: x in s.visibleOptions ==> x in options
    requires |s.visibleOptions| > 0
    ensures var v := IndexOfOpt(s.visibleOptions, At(options, i));
      NextIndex(s, false, allowCreate, options, i)
        == IndexOf(options, s.visibleOptions[Neighbour(v, |s.visibleOptions|, false)])
  {
    var v := IndexOfOpt(s.visibleOptions, At(options, i));
    VisibleOrEdgeOfVisible(s, allowCreate, options, v + 1, 0);
  }

  /** One MOVE_* lookup: the visible option at position `k` when there is one,
      otherwise the one at `edge`, located in `options`. */
  lemma VisibleOrEdgeOfVisible(s: State, allowCreate: bool, options: seq<string>, k: int, edge: nat)
    requires forall x :: x in s.visibleOptions ==> x in options
    requires edge < |s.visibleOptions|
    ensures var options' := if allowCreate == true then options + [s.search] else options;
      VisibleOrEdge(options', s.visibleOptions, k, edge)
        == IndexOf(options, s.visibleOptions[if 0 <= k < |s.visibleOptions| then k else edge])
  {
    if 0 <= k < |s.visibleOptions| {
      LookupVisible(s, allowCreate, options, k);
      assert s.visibleOptions[k] in options;
    } else {
      LookupVisible(s, allowCreate, options, edge);
    }
  }

  /** MOVE_NEXT from a visible option highlights the option after it in the
      visible list, and MOVE_PREV the one before it, wrapping around at both
      ends; with or without `allowCreate`, the create entry is skipped. */
  lemma MoveWraps(s: State, prev: bool, allowCreate: bool, name: string, options: seq<string>, i: nat)
    requires ParseIndex(s.activeDescendant) == Some(i)
    requires forall x :: x in s.visibleOptions ==> x in options
    requires i < |options| && options[i] in s.visibleOptions
    ensures var v := IndexOf(s.visibleOptions, options[i]);
      MoveStep(s, prev, allowCreate, name, options)
        == s.(activeDescendant := OptionId(name,
                IndexOf(options, s.visibleOptions[Neighbour(v, |s.visibleOptions|, prev)])))
  {
    assert IndexOfOpt(s.visibleOptions, At(options, i)) == IndexOf(s.visibleOptions, options[i]);
    NextIndexOfVisible(s, prev, allowCreate, options, i);
    MoveStepWrites(s, prev, allowCreate, name, options, i);
  }

  /** While some option is visible, MOVE_NEXT and MOVE_PREV always land on a
      visible option, never on the create entry at `options.length`; from an
      index that is not a visible option they go to the first (next) or the
      last (previous) visible option. */
  lemma MoveStaysOnVisibleOptions(s: State, prev: bool, allowCreate: bool, name: string,
                                  options: seq<string>, i: nat)
    requires ParseIndex(s.activeDescendant) == Some(i)
    requires forall x :: x in s.visibleOptions ==> x in options
    requires |s.visibleOptions| > 0
    ensures var r := MoveStep(s, prev, allowCreate, name, options);
      exists k :: (0 <= k < |options| && options[k] in s.visibleOptions
        && r.activeDescendant == OptionId(name, k))
    ensures i >= |options| || options[i] !in s.visibleOptions ==>
      MoveStep(s, prev, allowCreate, name, options).activeDescendant
        == OptionId(name, IndexOf(options, s.visibleOptions[if prev then |s.visibleOptions| - 1 else 0]))
  {
    var w := |s.visibleOptions|;
    var v := IndexOfOpt(s.visibleOptions, At(options, i));
    NextIndexOfVisible(s, prev, allowCreate, options, i);
    MoveStepWrites(s, prev, allowCreate, name, options, i);
    var k := IndexOf(options, s.visibleOptions[Neighbour(v, w, prev)]);
    assert options[k] in s.visibleOptions;
    if i >= |options| || options[i] !in s.visibleOptions {
      assert v == -1;
    }
  }

  /** With nothing visible, MOVE_NEXT and MOVE_PREV write the id of index -1,
      which the next keyboard action reads back as index 1. */
  lemma MoveOnEmptyView(s: State, prev: bool, allowCreate: bool, name: string, options: seq<string>)
    requires ParseIndex(s.activeDescendant).Some?
    requires |s.visibleOptions| == 0
    ensures MoveStep(s, prev, allowCreate, name, options).activeDescendant == OptionId(name, -1)
    ensures ParseIndex(MoveStep(s, prev, allowCreate, name, options).activeDescendant) == Some(1)
  {
    var i := ParseIndex(s.activeDescendant).value;
    MoveStepWrites(s, prev, allowCreate, name, options, i);
    assert NextIndex(s, prev, allowCreate, options, i) == -1;
  }

  /** Without `allowCreate`, MOVE_TO_START and MOVE_TO_END highlight the first
      and the last visible option, and on an empty view they look up
      `undefined`, write the id of index -1 and so leave the highlight on
      index 1; with `allowCreate`, both highlight `options.length`. */
  lemma MoveToEdgeTargets(s: State, toStart: bool, allowCreate: bool, name: string, options: seq<string>)
    requires forall x :: x in s.visibleOptions ==> x in options
    ensures var r := MoveToEdge(s, toStart, allowCreate, name, options);
      && (allowCreate ==> ParseIndex(r.activeDescendant) == Some(|options|))
      && (!allowCreate && |s.visibleOptions| == 0 ==>
            r.activeDescendant == OptionId(name, -1) && ParseIndex(r.activeDescendant) == Some(1))
      && (!allowCreate && |s.visibleOptions| > 0 ==>
            var edge := s.visibleOptions[if toStart then 0 else |s.visibleOptions| - 1];
            && r.activeDescendant == OptionId(name, IndexOf(options, edge))
            && 0 <= IndexOf(options, edge) && options[IndexOf(options, edge)] == edge
            && ParseIndex(r.activeDescendant) == Some(IndexOf(options, edge)))
  {
    if !allowCreate && |s.visibleOptions| > 0 {
      EdgeLookup(s, toStart, options);
    }
  }

  /** The position MOVE_TO_START / MOVE_TO_END look up without `allowCreate`
      is the first position of the edge option in `options`. */
  lemma EdgeLookup(s: State, toStart: bool, options: seq<string>)
    requires forall x :: x in s.visibleOptions ==> x in options
    requires |s.visibleOptions| > 0
    ensures var j := if toStart then 0 else |s.visibleOptions| - 1;
      && IndexOfOpt(options, At(s.visibleOptions, j)) == IndexOf(options, s.visibleOptions[j])
      && 0 <= IndexOf(options, s.visibleOptions[j])
  {
    var j := if toStart then 0 else |s.visibleOptions| - 1;
    assert s.visibleOptions[j] in options;
  }

  // ---------------------------------------------------------------- SEARCH

  /** The first element of a filtered list is the first element of the list
      that passes the filter. */
  lemma {:induction false} FilterFirst(s: seq<string>, f: string -> bool)
    requires |Filter(s, f)| > 0
    ensures var k := IndexOf(s, Filter(s, f)[0]);
      0 <= k && f(s[k]) && forall j :: 0 <= j < k ==> !f(s[j])
  {
    var x := Filter(s, f)[0];
    if !f(s[0]) {
      assert Filter(s, f) == Filter(s[1..], f);
      FilterFirst(s[1..], f);
    }
  }

  /** After SEARCH, when the first match is not the empty string, the
      highlighted index is the first option the search matches. */
  lemma SearchHighlightsFirstMatch(s: State, allowCreate: bool, name: string, options: seq<string>,
                                   search: string, matches: string -> bool)
    requires |Filter(options, matches)| > 0 && Filter(options, matches)[0] != ""
    ensures var r := ApplySearch(s, allowCreate, name, options, search, matches);
      && r.activeDescendant == OptionId(name, IndexOf(options, Filter(options, matches)[0]))
      && exists k :: (0 <= k < |options| && matches(options[k])
        && (forall j :: 0 <= j < k ==> !matches(options[j]))
        && ParseIndex(r.activeDescendant) == Some(k))
  {
    var first := Filter(options, matches)[0];
    FilterFirst(options, matches);
    var k := IndexOf(options, first);
    if allowCreate {
      IndexOfAppended(options, search, first);
    }
  }

  /** When nothing matches, SEARCH looks up the OLD search text rather than
      the new one, in the options followed, with `allowCreate`, by the new
      text. So when the old text is not an option (and, with `allowCreate`,
      is not the new text either), the highlight is the id of index -1, not
      the create entry at `options.length`. */
  lemma SearchWithoutMatchUsesOldSearch(s: State, allowCreate: bool, name: string, options: seq<string>,
                                        search: string, matches: string -> bool)
    requires forall x :: x in options ==> !matches(x)
    ensures var r := ApplySearch(s, allowCreate, name, options, search, matches);
      && r.visibleOptions == []
      && r.activeDescendant
         == OptionId(name, IndexOf(if allowCreate then options + [search] else options, s.search))
      && (s.search !in options && (allowCreate ==> s.search != search) ==>
            r.activeDescendant == OptionId(name, -1) && r.activeDescendant != OptionId(name, |options|))
  {
    FilterNone(options, matches);
    if s.search !in options && (allowCreate ==> s.search != search) {
      assert s.search !in (if allowCreate then options + [search] else options);
      if |options| == 1 {
        assert |Decimal(1)| == 1;
        assert |OptionId(name, -1)| == |OptionId(name, 1)| + 1;
      }
    }
  }

  /** The consequence of the old-text lookup: after a SEARCH nothing
      matches, with an old text that is not an option (and, with
      `allowCreate`, is not the new text), Enter in single mode reads the
      highlight as index 1 and selects the second option. */
  lemma EnterAfterUnmatchedSearch(s: State, allowCreate: bool, name: string, options: seq<string>,
                                  search: string, matches: string -> bool)
    requires forall x :: x in options ==> !matches(x)
    requires s.search !in options && (allowCreate ==> s.search != search)
    requires |options| >= 2
    ensures var r := CommitSingleKeyboard(ApplySearch(s, allowCreate, name, options, search, matches), options);
      r.selected == [options[1]] && r.created == s.created
  {
    SearchWithoutMatchUsesOldSearch(s, allowCreate, name, options, search, matches);
  }
}
