/** The client's back/forward navigation: a current path, the list of
    visited paths and an index into that list. */
module Navigation {

  /** The navigation state: `index` is -1 while nothing has been visited. */
  datatype NavState = NavState(currentPath: string, history: seq<string>, index: int)
  {
    /** Either nothing is recorded and the index is -1, or the index points
        at a recorded entry. */
    predicate Valid() {
      (history == [] && index == -1) || 0 <= index < |history|
    }
  }

  /** The state when the page loads: at the root, nothing recorded. */
  function Initial(): (r: NavState)
    ensures r.Valid() && r.history == [] && r.currentPath == ""
    ensures BackDisabled(r) && ForwardDisabled(r)
  {
    NavState("", [], -1)
  }

  /** Whether reading `history[i]` yields `path`; outside the list the read
      yields no string at all, so it never equals a path. */
  predicate EntryIs(history: seq<string>, i: int, path: string) {
    0 <= i < |history| && history[i] == path
  }

  /** Navigating into a directory: unless the entry at the index already is
      `path`, append it and point the index at it. The current path is left
      as it was and forward entries are never dropped. */
  function AfterNavigate(s: NavState, path: string): (r: NavState)
    ensures s.Valid() ==> r.Valid()
    ensures EntryIs(r.history, r.index, path)
    ensures s.history <= r.history && |r.history| <= |s.history| + 1
    ensures r.currentPath == s.currentPath
  {
    if !EntryIs(s.history, s.index, path) then
      var h := s.history + [path];
      s.(history := h, index := |h| - 1)
    else
      s
  }

  /** Going back: step the index down and take the entry there as current
      path, unless already at the first entry. */
  function AfterBack(s: NavState): (r: NavState)
    requires s.Valid()
    ensures r.Valid() && r.history == s.history
    ensures r == s <==> s.index <= 0
    ensures r != s ==> r.index == s.index - 1 && EntryIs(r.history, r.index, r.currentPath)
  {
    if s.index > 0 then
      s.(index := s.index - 1, currentPath := s.history[s.index - 1])
    else
      s
  }

  /** Going forward: step the index up and take the entry there as current
      path, unless already at the last entry. */
  function AfterForward(s: NavState): (r: NavState)
    requires s.Valid()
    ensures r.Valid() && r.history == s.history
    ensures r == s <==> s.index >= |s.history| - 1
    ensures r != s ==> r.index == s.index + 1 && EntryIs(r.history, r.index, r.currentPath)
  {
    if s.index < |s.history| - 1 then
      s.(index := s.index + 1, currentPath := s.history[s.index + 1])
    else
      s
  }

  /** Going to the root: always record the root as a new last entry. */
  function AfterRoot(s: NavState): (r: NavState)
    ensures r.Valid() && s.history < r.history
    ensures r.index == |r.history| - 1 && EntryIs(r.history, r.index, "")
    ensures r.currentPath == ""
  {
    var h := s.history + [""];
    NavState("", h, |h| - 1)
  }

  /** The flag `updateNavigationButtons` computes for the back button. */
  function BackDisabled(s: NavState): (r: bool)
    ensures s.Valid() ==> (r <==> AfterBack(s) == s)
  {
    s.index <= 0
  }

  /** The flag `updateNavigationButtons` computes for the forward button. */
  function ForwardDisabled(s: NavState): (r: bool)
    ensures s.Valid() ==> (r <==> AfterForward(s) == s)
  {
    s.index >= |s.history| - 1
  }

  /** A user action on the navigation controls. */
  datatype Action = Navigate(path: string) | Back | Forward | Root

  function Step(s: NavState, a: Action): (r: NavState)
    requires s.Valid()
    ensures r.Valid()
    ensures s.history <= r.history
  {
    match a
    case Navigate(p) => AfterNavigate(s, p)
    case Back => AfterBack(s)
    case Forward => AfterForward(s)
    case Root => AfterRoot(s)
  }

  /** The state after performing `actions` in order from `s`; every state on
      the way satisfies the invariant. */
  function Run(s: NavState, actions: seq<Action>): (r: NavState)
    requires s.Valid()
    ensures r.Valid()
    decreases |actions|
  {
    if actions == [] then s
    else Run(Step(s, actions[0]), actions[1..])
  }

  /** Every state reachable from page load satisfies the invariant. */
  lemma ReachableValid(actions: seq<Action>)
    ensures Run(Initial(), actions).Valid()
  {
  }

  /** The history only grows at its end: whatever was recorded before a run
      of actions is still recorded, at the same positions, afterwards. */
  lemma {:induction false} HistoryAppendOnly(s: NavState, actions: seq<Action>)
    requires s.Valid()
    ensures s.history <= Run(s, actions).history
    decreases |actions|
  {
    if actions != [] {
      HistoryAppendOnly(Step(s, actions[0]), actions[1..]);
    }
  }

  /** Every recorded entry is the root or a path some action navigated to. */
  lemma {:induction false} HistoryFromActions(s: NavState, actions: seq<Action>, x: string)
    requires s.Valid()
    requires x in Run(s, actions).history
    ensures x in s.history || x == "" || Navigate(x) in actions
    decreases |actions|
  {
    if actions != [] {
      var t := Step(s, actions[0]);
      HistoryFromActions(t, actions[1..], x);
      assert actions == [actions[0]] + actions[1..];
    }
  }

  /** The current path is always the root or a recorded entry. */
  lemma {:induction false} CurrentPathRecorded(s: NavState, actions: seq<Action>)
    requires s.Valid()
    requires s.currentPath == "" || s.currentPath in s.history
    ensures Run(s, actions).currentPath == "" || Run(s, actions).currentPath in Run(s, actions).history
    decreases |actions|
  {
    if actions != [] {
      var t := Step(s, actions[0]);
      assert t.currentPath == "" || t.currentPath in t.history;
      CurrentPathRecorded(t, actions[1..]);
    }
  }

  /** Navigating: a no-op exactly when the entry at the index already is
      `path`; otherwise `path` is appended and becomes the pointed entry. The
      current path never changes. */
  lemma NavigateEffect(s: NavState, path: string)
    requires s.Valid()
    ensures AfterNavigate(s, path).currentPath == s.currentPath
    ensures (0 <= s.index < |s.history| && s.history[s.index] == path) ==> AfterNavigate(s, path) == s
    ensures !(0 <= s.index < |s.history| && s.history[s.index] == path) ==>
              AfterNavigate(s, path).history == s.history + [path] &&
              AfterNavigate(s, path).index == |s.history|
  {
  }

  /** Navigating twice to the same path records it once. */
  lemma NavigateIdempotent(s: NavState, path: string)
    ensures AfterNavigate(AfterNavigate(s, path), path) == AfterNavigate(s, path)
  {
  }

  /** The first navigation records its path even when it is the root,
      because the index does not point at any entry yet. */
  lemma FirstNavigateRecords(path: string)
    ensures AfterNavigate(Initial(), path).history == [path]
    ensures AfterNavigate(Initial(), path).index == 0
  {
  }

  /** Going back and then forward returns to the index left, with its entry as
      the current path; neither move touches the history. */
  lemma BackForwardRoundTrip(s: NavState)
    requires s.Valid()
    requires AfterBack(s) != s
    ensures AfterBack(s).history == s.history
    ensures AfterBack(s).index == s.index - 1
    ensures AfterBack(s).currentPath == s.history[s.index - 1]
    ensures AfterForward(AfterBack(s)) == s.(currentPath := s.history[s.index])
  {
  }

  /** Going forward and then back returns to the index left. */
  lemma ForwardBackRoundTrip(s: NavState)
    requires s.Valid()
    requires AfterForward(s) != s
    ensures AfterForward(s).history == s.history
    ensures AfterForward(s).index == s.index + 1
    ensures AfterForward(s).currentPath == s.history[s.index + 1]
    ensures AfterBack(AfterForward(s)) == s.(currentPath := s.history[s.index])
  {
  }

  /** Going to the root grows the history by one root entry, even when the
      current path is already the root. */
  lemma RootAlwaysGrows(s: NavState)
    ensures |AfterRoot(s).history| == |s.history| + 1
    ensures AfterRoot(s).history[..|s.history|] == s.history
    ensures AfterRoot(s).history[|s.history|] == ""
    ensures AfterRoot(s).index == |s.history|
    ensures AfterRoot(s).currentPath == ""
    ensures AfterRoot(s).Valid()
  {
  }

  /** The flag computed for a button is false exactly when its move changes
      the state. */
  lemma ButtonsMatchMoves(s: NavState)
    requires s.Valid()
    ensures !BackDisabled(s) <==> AfterBack(s) != s
    ensures !ForwardDisabled(s) <==> AfterForward(s) != s
  {
  }

  /** Because navigation never truncates, going back after navigating away
      from an earlier entry reaches the entry that was last before, not the
      one navigated from. */
  lemma BackAfterNavigateFromMiddle(s: NavState, path: string)
    requires s.Valid() && s.history != []
    requires !EntryIs(s.history, s.index, path)
    ensures AfterBack(AfterNavigate(s, path)).currentPath == s.history[|s.history| - 1]
  {
  }

  /** From history ["", "a", "a/b"] at index 2, back shows "a" at index 1,
      forward returns to "a/b" at index 2, and back at index 0 does nothing. */
  lemma BackForwardScenario()
    ensures AfterBack(NavState("a/b", ["", "a", "a/b"], 2)) == NavState("a", ["", "a", "a/b"], 1)
    ensures AfterForward(NavState("a", ["", "a", "a/b"], 1)) == NavState("a/b", ["", "a", "a/b"], 2)
    ensures AfterBack(NavState("", ["", "a", "a/b"], 0)) == NavState("", ["", "a", "a/b"], 0)
  {
  }

  /** The module-level navigation variables of the client script. */
  class Navigator {
    var currentPath: string
    var history: seq<string>
    var historyIndex: int

    function State(): NavState
      reads this
    {
      NavState(currentPath, history, historyIndex)
    }

    predicate Valid()
      reads this
    {
      State().Valid()
    }

    constructor ()
      ensures State() == Initial() && Valid()
    {
      currentPath := "";
      history := [];
      historyIndex := -1;
    }

    method NavigateTo(path: string)
      requires Valid()
      modifies this
      ensures Valid()
      ensures State() == AfterNavigate(old(State()), path)
    {
      if !EntryIs(history, historyIndex, path) {
        history := history + [path];
        historyIndex := |history| - 1;
      }
    }

    method GoBack()
      requires Valid()
      modifies this
      ensures Valid()
      ensures State() == AfterBack(old(State()))
    {
      if historyIndex > 0 {
        historyIndex := historyIndex - 1;
        currentPath := history[historyIndex];
      }
    }

    method GoForward()
      requires Valid()
      modifies this
      ensures Valid()
      ensures State() == AfterForward(old(State()))
    {
      if historyIndex < |history| - 1 {
        historyIndex := historyIndex + 1;
        currentPath := history[historyIndex];
      }
    }

    method GoToRoot()
      requires Valid()
      modifies this
      ensures Valid()
      ensures State() == AfterRoot(old(State()))
    {
      currentPath := "";
      history := history + [""];
      historyIndex := |history| - 1;
    }

    /** The disabled flags computed for the back and forward buttons: each
        is set exactly when its move would leave the state as it is. */
    method UpdateNavigationButtons() returns (backDisabled: bool, forwardDisabled: bool)
      requires Valid()
      ensures backDisabled == BackDisabled(State()) && forwardDisabled == ForwardDisabled(State())
      ensures backDisabled <==> AfterBack(State()) == State()
      ensures forwardDisabled <==> AfterForward(State()) == State()
    {
      backDisabled := historyIndex <= 0;
      forwardDisabled := historyIndex >= |history| - 1;
    }
  }
}
