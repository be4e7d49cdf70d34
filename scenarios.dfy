/** The behaviour the component's test suite checks, replayed on the
    reducer, and the inputs that show where the reducer departs from what
    its own comments and tests, or the evident intent of its code, say. */
module Scenarios {
  import opened Seqs
  import opened Ids
  import opened Reducer
  import opened Properties
  import opened Invariants

  const Numbers: seq<string> := ["one", "two", "three"]

  /** The state after INIT with no defaults: every option visible, the
      initial id `'0'`. */
  function Mounted(options: seq<string>): State
  {
    Initialize(Initial, None, options)
  }

  lemma MountedNumbers()
    ensures Mounted(Numbers) == State("0", [], false, "", [], Numbers)
  {
    InitWithoutDefaults(Initial, Numbers);
  }

  /** After mounting, the id is still the initial `'0'`, not the id of
      option 0 that src/__tests__/index.test.tsx:19 and :33 expect; arrow
      keys and Enter nevertheless act on option 0, because `'0'` reads as
      index 0. */
  lemma MountedIdIsNotOptionId(name: string, options: seq<string>)
    ensures Mounted(options).activeDescendant == "0"
    ensures Mounted(options).activeDescendant != OptionId(name, 0)
    ensures ParseIndex(Mounted(options).activeDescendant) == Some(0)
  {
    InitialIdParses();
    assert |OptionId(name, 0)| >= 5;
  }

  /** INIT never looks at `max` (src/index.tsx:262-268), although every
      commit adds only while `total < action.max` (:124, :136, :160, :173):
      two defaults with `max` 1 give a total of 2. */
  lemma InitCanExceedMax()
    ensures var r := Initialize(Initial, Some(["one", "two"]), Numbers);
      Total(r) == 2 && !AtMost(Total(r), Finite(1))
  {
    InitSplitsDefaults(Initial, ["one", "two"], Numbers);
    var r := Initialize(Initial, Some(["one", "two"]), Numbers);
    assert multiset(r.selected)["one"] == 1 && multiset(r.selected)["two"] == 1;
  }

  /** On the three numbers, all visible, an arrow key moves from option `k`
      to its neighbour. */
  lemma ArrowOnNumbers(s: State, prev: bool, allowCreate: bool, name: string, k: nat)
    requires s.visibleOptions == Numbers && k < 3
    requires ParseIndex(s.activeDescendant) == Some(k)
    ensures MoveStep(s, prev, allowCreate, name, Numbers)
         == s.(activeDescendant := OptionId(name, Neighbour(k, 3, prev)))
  {
    var j := Neighbour(k, 3, prev);
    NumbersIndex(k);
    NumbersIndex(j);
    MoveWraps(s, prev, allowCreate, name, Numbers, k);
  }

  lemma NumbersIndex(k: nat)
    requires k < 3
    ensures IndexOf(Numbers, Numbers[k]) == k
  {
  }

  /** Arrow keys: Down from option 0 reaches option 1; Up twice from there
      wraps round to option 2. */
  lemma ArrowKeys(allowCreate: bool)
    ensures var name := "my-component";
      var down := MoveStep(Mounted(Numbers), false, allowCreate, name, Numbers);
      var up := MoveStep(down, true, allowCreate, name, Numbers);
      && down.activeDescendant == OptionId(name, 1)
      && up.activeDescendant == OptionId(name, 0)
      && MoveStep(up, true, allowCreate, name, Numbers).activeDescendant == OptionId(name, 2)
  {
    var name := "my-component";
    MountedNumbers();
    InitialIdParses();
    var s0 := Mounted(Numbers);
    ArrowOnNumbers(s0, false, allowCreate, name, 0);
    var s1 := MoveStep(s0, false, allowCreate, name, Numbers);
    ArrowOnNumbers(s1, true, allowCreate, name, 1);
    var s2 := MoveStep(s1, true, allowCreate, name, Numbers);
    ArrowOnNumbers(s2, true, allowCreate, name, 0);
  }

  /** End then Home: the last visible option, then the first. */
  lemma HomeEnd()
    ensures var name := "my-component";
      var end := MoveToEdge(Mounted(Numbers), false, false, name, Numbers);
      && end.activeDescendant == OptionId(name, 2)
      && MoveToEdge(end, true, false, name, Numbers).activeDescendant == OptionId(name, 0)
  {
  }

  /** Clicking "two" in single mode selects exactly it. */
  lemma SingleClick()
    ensures var r := CommitSingleClick(Mounted(Numbers), "two", Numbers);
      r.selected == ["two"] && r.created == [] && !r.isOpen
  {
  }

  /** Multi mode keeps option order: with "three" chosen, clicking "two"
      gives ["two", "three"]. */
  lemma MultiKeepsOptionOrder()
    ensures ToggleMultiClick(Mounted(Numbers).(selected := ["three"]), Infinity, Numbers, "two").selected
         == ["two", "three"]
  {
    MountedNumbers();
    var s := State("0", [], false, "", ["three"], Numbers);
    assert "two" in Numbers && "two" !in s.selected;
    ClickOnOption(s, Infinity, Numbers, "two");
    SortThreeTwo();
  }

  /** A multi-mode click on an option toggles it and re-sorts the
      selection. */
  lemma ClickOnOption(s: State, max: Max, options: seq<string>, option: string)
    requires option in options
    ensures ToggleMultiClick(s, max, options, option).selected
         == SortByOptions(options, Toggle(s.selected, option, Below(Total(s), max)))
  {
  }

  lemma SortThreeTwo()
    ensures SortByOptions(Numbers, ["three", "two"]) == ["two", "three"]
  {
    assert Subseq(["two", "three"], Numbers);
    FilterMembersOfSubseq(["two", "three"], Numbers);
    FilterCongruent(Numbers, o => o in ["three", "two"], o => o in ["two", "three"]);
  }

  /** With `max` 2 reached, a click on a third option changes nothing. */
  lemma MultiRespectsMax()
    ensures var s := Mounted(Numbers).(selected := ["one", "three"]);
      ToggleMultiClick(s, Finite(2), Numbers, "two") == s
  {
    var s := Mounted(Numbers).(selected := ["one", "three"]);
    assert Subseq(["one", "three"], Numbers);
    MultiClickAtMaxIsNoOp(s, Finite(2), Numbers, "two");
  }

  /** A multi-mode click keeps the search text. */
  lemma MultiKeepsSearch()
    ensures ToggleMultiClick(Mounted(Numbers).(search := "tw"), Infinity, Numbers, "two").search == "tw"
  {
  }

  /** Clicking "Create" for "new" in multi mode appends it to `created`. */
  lemma MultiCreate()
    ensures var s := Mounted(Numbers).(selected := ["one", "three"], search := "new");
      var r := ToggleMultiClick(s, Infinity, Numbers, "new");
      r.selected == ["one", "three"] && r.created == ["new"]
  {
  }

  /** Typing "turt" and pressing Enter in single mode selects "turtle". */
  lemma KeyboardOnly(matches: string -> bool)
    requires matches("turtle") && !matches("dolphin")
    ensures var options := ["dolphin", "turtle", "starfish", "eel"];
      var shown := ToggleDropdown(Mounted(options), "animals", options);
      var searched := ApplySearch(shown, false, "animals", options, "turt", matches);
      CommitSingleKeyboard(searched, options).selected == ["turtle"]
  {
    var options := ["dolphin", "turtle", "starfish", "eel"];
    var shown := ToggleDropdown(Mounted(options), "animals", options);
    var searched := ApplySearch(shown, false, "animals", options, "turt", matches);
    assert Filter(options, matches)[0] == "turtle";
    assert IndexOf(options, "turtle") == 1;
    SearchHighlightsFirstMatch(shown, false, "animals", options, "turt", matches);
    assert ParseIndex(searched.activeDescendant) == Some(1);
  }

  /** With `allowCreate`, SEARCH appends the typed text to the list it looks
      the highlight up in (src/index.tsx:308-309), and the MOVE_* comment at
      src/index.tsx:281 says this is so that the keyboard can highlight the
      newly-created item; Enter on that entry creates the text
      (src/index.tsx:197-198). When no option matches, the reducer looks up
      the old, empty search text instead, writes the id of index -1, reads it
      back as 1 and selects "two". */
  lemma EnterAfterUnmatchedSearchSelectsOption(name: string, matches: string -> bool)
    requires forall x :: x in Numbers ==> !matches(x)
    ensures var searched := ApplySearch(Mounted(Numbers), true, name, Numbers, "new", matches);
      var r := CommitSingleKeyboard(searched, Numbers);
      r.selected == ["two"] && r.created == []
  {
    MountedNumbers();
    EnterAfterUnmatchedSearch(Mounted(Numbers), true, name, Numbers, "new", matches);
  }

  /** What the code evidently intends: each single-mode commit writes a
      one-item list (src/index.tsx:185, :187, :198, :200), which only makes
      sense if a single-mode selection holds one item; no comment or test
      says so. It overwrites only one of the two lists, though, so after
      creating "new" and then clicking "two" both are kept. */
  lemma SingleModeCanHoldTwo()
    ensures var created := CommitSingleClick(Mounted(Numbers), "new", Numbers);
      var r := CommitSingleClick(created, "two", Numbers);
      r.selected == ["two"] && r.created == ["new"] && Total(r) == 2
  {
  }

  /** Enter on the create entry in multi mode, with the typed text not yet
      created, drops the last created item instead of adding the text: the
      test `index === -1` at src/index.tsx:158 is the inverse of its own
      comment `// if existing, remove` at :159. */
  lemma MultiEnterOnCreateDropsLast()
    ensures var s := Mounted(Numbers).(created := ["old"], search := "new",
                                       activeDescendant := OptionId("c", 3));
      ToggleMultiKeyboard(s, Infinity, Numbers).created == []
  {
    MountedNumbers();
    var s := State(OptionId("c", 3), ["old"], false, "new", [], Numbers);
    assert "new" !in s.created;
    MultiKeyboardCreate(s, Infinity, Numbers, 3);
    assert s.created[..0] == [];
  }
}
