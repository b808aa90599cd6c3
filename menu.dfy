// The key-press handling of emenu.c's event loop: a query buffer edited one
// key at a time, the match list recomputed after every edit, Tab completion
// from the first match, and Enter/Escape ending the session.
//
// Keycodes are already translated into Events: Escape is keycode 9, Enter 36,
// Tab 23; any other key is Backspace when XLookupString reports XK_BackSpace
// and otherwise inserts the first character it produced.

module Menu {
  import opened CStrings
  import opened Finder
  import opened LengthOrder

  datatype Event = Insert(c: char) | Backspace | Tab | Enter | Escape

  /** The session runs until Enter confirms or Escape cancels it. */
  datatype Status = Running | Confirmed | Cancelled

  /**
   * What a session shows and has done: the query, the matches drawn under it
   * (results[0..resultCount)), whether it is still running, and every program
   * it has asked to launch.
   */
  datatype MenuState = MenuState(query: Name, matches: seq<Name>, status: Status, launches: seq<Name>)

  /** The bounds the buffers impose: the query and every match fit MaxInput with a terminator. */
  predicate WellFormed(st: MenuState)
  {
    |st.query| < MaxInput && NulFree(st.query)
    && |st.matches| <= MaxResults
    && forall m :: m in st.matches ==> |m| < MaxInput
  }

  /** The state main sets up before its event loop: empty buffers, no results. */
  function Initial(): (r: MenuState)
    ensures WellFormed(r) && NothingLaunchedWhileRunning(r)
  {
    MenuState([], [], Running, [])
  }

  /**
   * One key press. Escape ends the session; Enter launches the first match if
   * there is one, clears the query and the count and ends the session; Tab
   * copies the first match into the query without searching again; Backspace
   * and Insert edit the query and always search again.
   */
  function Next(st: MenuState, e: Event, listings: seq<Listing>): (r: MenuState)
    ensures WellFormed(st) ==> WellFormed(r)
    ensures st.launches <= r.launches && |r.launches| <= |st.launches| + 1
  {
    match e
    case Escape => st.(status := Cancelled)
    case Enter =>
      MenuState([], [], Confirmed, st.launches + if st.matches != [] then [st.matches[0]] else [])
    case Tab =>
      if st.matches != [] then st.(query := CString(Truncate(st.matches[0], MaxInput - 1))) else st
    case Backspace =>
      var q := if st.query != [] then st.query[..|st.query| - 1] else st.query;
      st.(query := q, matches := Find(q, listings))
    case Insert(c) =>
      var q := if |st.query| < MaxInput - 1 && c != Nul then st.query + [c] else st.query;
      st.(query := q, matches := Find(q, listings))
  }

  /**
   * main's event loop over a sequence of key presses: each is handled while
   * the session runs; once Enter or Escape has ended it the rest are never read.
   */
  function Run(st: MenuState, events: seq<Event>, listings: seq<Listing>): (r: MenuState)
    ensures st.launches <= r.launches
    ensures st.status != Running ==> r == st
    decreases |events|
  {
    if events == [] || st.status != Running then st
    else Run(Next(st, events[0], listings), events[1..], listings)
  }

  /** A running session has launched nothing yet. */
  ghost predicate NothingLaunchedWhileRunning(st: MenuState)
  {
    st.status == Running ==> st.launches == []
  }

  /**
   * A session launches at most one program, whatever keys are pressed, and
   * keeps its buffers within bounds throughout.
   */
  lemma {:induction false} RunLaunchesAtMostOnce(st: MenuState, events: seq<Event>, listings: seq<Listing>)
    requires NothingLaunchedWhileRunning(st) && |st.launches| <= 1 && WellFormed(st)
    ensures var r := Run(st, events, listings);
      NothingLaunchedWhileRunning(r) && |r.launches| <= 1 && WellFormed(r)
    decreases |events|
  {
    if events != [] && st.status == Running {
      var next := Next(st, events[0], listings);
      assert next.status == Running ==> next.launches == st.launches;
      RunLaunchesAtMostOnce(next, events[1..], listings);
    }
  }

  /** From main's initial state: at most one launch, and only by a session that was confirmed. */
  lemma SessionLaunchesAtMostOnce(events: seq<Event>, listings: seq<Listing>)
    ensures var r := Run(Initial(), events, listings);
      |r.launches| <= 1 && (r.launches != [] ==> r.status == Confirmed) && WellFormed(r)
  {
    RunLaunchesAtMostOnce(Initial(), events, listings);
    ConfirmedIfLaunched(Initial(), events, listings);
  }

  lemma {:induction false} ConfirmedIfLaunched(st: MenuState, events: seq<Event>, listings: seq<Listing>)
    requires st.launches != [] ==> st.status == Confirmed
    ensures var r := Run(st, events, listings); r.launches != [] ==> r.status == Confirmed
    decreases |events|
  {
    if events != [] && st.status == Running {
      ConfirmedIfLaunched(Next(st, events[0], listings), events[1..], listings);
    }
  }

  /** Backspace drops exactly the last character of a non-empty query and leaves an empty one empty. */
  lemma BackspaceRemovesLast(st: MenuState, listings: seq<Listing>)
    ensures var r := Next(st, Backspace, listings);
      if st.query == [] then r.query == [] else r.query + [st.query[|st.query| - 1]] == st.query
  {
    if st.query != [] {
      var q := st.query[..|st.query| - 1];
      assert Next(st, Backspace, listings).query == q;
      assert q + [st.query[|st.query| - 1]] == st.query;
    }
  }

  /** Insert appends the character only below capacity; at capacity the query stays as it was. */
  lemma InsertAppends(st: MenuState, c: char, listings: seq<Listing>)
    requires c != Nul
    ensures var r := Next(st, Insert(c), listings);
      if |st.query| < MaxInput - 1 then r.query == st.query + [c]
      else r.query == st.query
  {
  }

  /**
   * Below capacity, Insert then Backspace gives back the typed query whatever
   * the matches were (after a Tab they need not be the finder's answer).
   */
  lemma InsertThenBackspaceQuery(st: MenuState, c: char, listings: seq<Listing>)
    requires |st.query| < MaxInput - 1 && c != Nul
    ensures Next(Next(st, Insert(c), listings), Backspace, listings).query == st.query
  {
    assert (st.query + [c])[..|st.query|] == st.query;
  }

  /**
   * After Insert or Backspace the matches are the finder's answer for the new
   * query, so every match starts with it; the status and the launches do not move.
   */
  lemma EditRecomputes(st: MenuState, e: Event, listings: seq<Listing>)
    requires e.Insert? || e.Backspace?
    ensures var r := Next(st, e, listings);
      r.matches == Find(r.query, listings)
      && (forall m :: m in r.matches ==> r.query <= m)
      && r.status == st.status && r.launches == st.launches
  {
  }

  /**
   * Insert then Backspace restores the session exactly, provided the query
   * was below capacity and its matches were the finder's answer for it.
   */
  lemma InsertThenBackspace(st: MenuState, c: char, listings: seq<Listing>)
    requires |st.query| < MaxInput - 1 && c != Nul
    requires st.matches == Find(st.query, listings)
    ensures Next(Next(st, Insert(c), listings), Backspace, listings) == st
  {
    assert (st.query + [c])[..|st.query|] == st.query;
  }

  /**
   * Tab with a match puts that match in the query and keeps the match list;
   * Tab without one changes nothing.
   */
  lemma TabCompletes(st: MenuState, listings: seq<Listing>)
    requires WellFormed(st)
    requires st.matches != [] ==> NulFree(st.matches[0])
    ensures Next(st, Tab, listings)
         == if st.matches != [] then st.(query := st.matches[0]) else st
  {
    if st.matches != [] {
      var first := st.matches[0];
      assert first in st.matches;
      assert Truncate(first, MaxInput - 1) == first;
      CStringOfNulFree(first);
    }
  }

  /** Completing from matches that answer the query extends the query: nothing typed is lost. */
  lemma TabExtendsQuery(st: MenuState, listings: seq<Listing>)
    requires st.matches == Find(st.query, listings) && st.matches != []
    requires NulFree(st.matches[0])
    ensures st.query <= Next(st, Tab, listings).query
  {
    var first := st.matches[0];
    assert first in st.matches;
    CStringOfNulFree(first);
  }

  /**
   * Enter asks to launch the first match, and only that, when there is one,
   * nothing otherwise; it empties the query and the matches and confirms.
   */
  lemma EnterLaunchesFirst(st: MenuState, listings: seq<Listing>)
    ensures var r := Next(st, Enter, listings);
      r.status == Confirmed && r.query == [] && r.matches == []
      && |r.launches| == |st.launches| + (if st.matches != [] then 1 else 0)
      && (st.matches != [] ==> r.launches[|st.launches|] == st.matches[0])
  {
  }

  /** Escape cancels with no launch and touches neither the query nor the matches. */
  lemma EscapeCancels(st: MenuState, listings: seq<Listing>)
    ensures var r := Next(st, Escape, listings);
      r.status == Cancelled && r.launches == st.launches
      && r.query == st.query && r.matches == st.matches
  {
  }

  /** Only Enter asks for a launch. */
  lemma OnlyEnterLaunches(st: MenuState, e: Event, listings: seq<Listing>)
    requires !e.Enter?
    ensures Next(st, e, listings).launches == st.launches
  {
  }

  /** With /bin holding "ls" and "cat", both "l" and "ls" find exactly ["ls"]. */
  lemma FindInBin(query: Name)
    requires query == "l" || query == "ls"
    ensures Find(query, [Some(["ls", "cat"])]) == ["ls"]
  {
    var entries: seq<Name> := ["ls", "cat"];
    var listings: seq<Listing> := [Some(entries)];
    assert "cat"[0] != query[0];
    assert !Accepts(query, "cat") && Accepts(query, "ls");
    assert entries[..1] == ["ls"] && entries[..1][..0] == [];
    assert Accepted(query, ["ls"]) == ["ls"];
    assert Accepted(query, entries) == ["ls"];
    assert listings[..0] == [];
    assert Candidates(query, listings) == Candidates(query, []) + DirCandidates(query, Some(entries));
    assert Collected(query, listings) == ["ls"];
    assert LengthSort(["ls"]) == ["ls"] by {
      assert ["ls"][1..] == [];
    }
  }

  // A session over a search path whose only directory holds "ls" and "cat":
  // type "l", type "s", press Enter.

  /** Typing "l" shows ["ls"]. */
  lemma ScenarioTypeL()
    ensures Next(Initial(), Insert('l'), [Some(["ls", "cat"])])
         == MenuState("l", ["ls"], Running, [])
  {
    var st := Initial();
    assert |st.query| == 0 && 'l' != Nul;
    assert st.query + ['l'] == "l";
    assert Next(st, Insert('l'), [Some(["ls", "cat"])])
        == st.(query := "l", matches := Find("l", [Some(["ls", "cat"])]));
    FindInBin("l");
  }

  /** Typing "s" next still shows ["ls"]. */
  lemma ScenarioTypeS()
    ensures Next(MenuState("l", ["ls"], Running, []), Insert('s'), [Some(["ls", "cat"])])
         == MenuState("ls", ["ls"], Running, [])
  {
    var st := MenuState("l", ["ls"], Running, []);
    assert |st.query| == 1 && 's' != Nul;
    assert st.query + ['s'] == "ls";
    assert Next(st, Insert('s'), [Some(["ls", "cat"])])
        == st.(query := "ls", matches := Find("ls", [Some(["ls", "cat"])]));
    FindInBin("ls");
  }

  /** Enter then launches "ls" and confirms with the query and matches cleared. */
  lemma ScenarioEnter()
    ensures Next(MenuState("ls", ["ls"], Running, []), Enter, [Some(["ls", "cat"])])
         == MenuState([], [], Confirmed, ["ls"])
  {
  }

  /** Tab on "l" with matches ["ls", "lsof"] completes the query to "ls". */
  lemma ScenarioTab()
    ensures Next(MenuState("l", ["ls", "lsof"], Running, []), Tab, []).query == "ls"
  {
    CStringOfNulFree("ls");
  }

  /**
   * The state of main's event loop: the input and results buffers, the
   * number of valid results and, as ghost state, the launch requests made.
   */
  class Launcher {
    /** char input[MAXINPUT]: the query, up to its first NUL. */
    const input: array<char>
    /** char results[MAX_RESULTS][MAXINPUT], each row by the string it holds. */
    const results: array<Name>
    var resultCount: nat
    var status: Status
    /** launchApplication calls, in order; the process itself is not modelled. */
    ghost var launches: seq<Name>

    ghost predicate Valid()
      reads this, input, results
    {
      input.Length == MaxInput && results.Length == MaxResults
      && CStrLen(input[..]) < MaxInput
      && resultCount <= MaxResults
      && WellFormed(State())
    }

    ghost function Query(): (q: Name)
      reads this, input
      ensures NulFree(q)
    {
      CString(input[..])
    }

    ghost function State(): MenuState
      reads this, input, results
      requires resultCount <= results.Length
    {
      MenuState(Query(), results[..resultCount], status, launches)
    }

    constructor ()
      ensures Valid() && State() == Initial()
      ensures fresh(input) && fresh(results)
    {
      input := new char[MaxInput](_ => Nul);
      results := new Name[MaxResults](_ => []);
      resultCount := 0;
      status := Running;
      launches := [];
    }

    /**
     * completeInputWithFirstResult: with at least one result, strncpy the
     * first into the input buffer (at most MAXINPUT-1 characters, NUL padded)
     * and terminate it; with none, leave the buffer alone.
     */
    method CompleteInputWithFirstResult()
      requires Valid()
      modifies input
      ensures Valid()
      ensures State() == old(State()).(query := if resultCount > 0
                                                then CString(Truncate(results[0], MaxInput - 1))
                                                else old(Query()))
    {
      if resultCount > 0 {
        var first := results[0];
        forall k | 0 <= k < MaxInput - 1 {
          input[k] := if k < |first| then first[k] else Nul;
        }
        input[MaxInput - 1] := Nul;
        ghost var t := Truncate(first, MaxInput - 1);
        ghost var n := CStrLen(t);
        assert input[..][..n] == t[..n];
        CStrLenAt(input[..], n);
      }
    }

    /** One KeyPress of the event loop; the session must still be running. */
    method Step(e: Event, listings: seq<Listing>)
      requires Valid() && status == Running
      modifies this, input, results
      ensures Valid()
      ensures State() == Next(old(State()), e, listings)
    {
      ghost var st := State();
      match e {
        case Escape =>
          status := Cancelled;
        case Enter =>
          if resultCount > 0 {
            launches := launches + [results[0]];
          }
          ghost var logged := launches;
          ClearInput();
          resultCount := 0;
          status := Confirmed;
          assert State() == MenuState([], [], Confirmed, logged);
        case Tab =>
          CompleteInputWithFirstResult();
        case Backspace =>
          EraseLast();
          Search(listings);
          assert State() == st.(query := Query(), matches := Find(Query(), listings));
        case Insert(c) =>
          Append(c);
          Search(listings);
          assert State() == st.(query := Query(), matches := Find(Query(), listings));
      }
    }

    /** memset(input, 0, MAXINPUT): the buffer holds the empty string. */
    method ClearInput()
      requires input.Length == MaxInput
      modifies input
      ensures Terminated() && Query() == []
    {
      forall k | 0 <= k < MaxInput {
        input[k] := Nul;
      }
      CStrLenAt(input[..], 0);
    }

    /** The buffer invariant alone: a NUL within the MAXINPUT characters. */
    ghost predicate Terminated()
      reads this, input
    {
      input.Length == MaxInput && CStrLen(input[..]) < MaxInput
    }

    /** Backspace on the buffer: overwrite the last character with NUL if there is one. */
    method EraseLast()
      requires Terminated()
      modifies input
      ensures Terminated()
      ensures Query() == if old(Query()) == [] then [] else old(Query())[..|old(Query())| - 1]
    {
      var len := CStrLen(input[..]);
      if len > 0 {
        input[len - 1] := Nul;
        assert input[..][..len - 1] == old(input[..])[..len - 1];
        CStrLenAt(input[..], len - 1);
      }
    }

    /**
     * Any other key: below MAXINPUT-1 characters, strncat(input, buffer, 1)
     * appends c and a terminator; a NUL appends nothing.
     */
    method Append(c: char)
      requires Terminated()
      modifies input
      ensures Terminated()
      ensures Query() == if |old(Query())| < MaxInput - 1 && c != Nul then old(Query()) + [c] else old(Query())
    {
      var len := CStrLen(input[..]);
      if len < MaxInput - 1 {
        if c != Nul {
          input[len] := c;
          input[len + 1] := Nul;
          assert input[..][..len + 1] == old(input[..])[..len] + [c];
          CStrLenAt(input[..], len + 1);
        }
      }
    }

    /** findMatchingApplications(input, results, &resultCount) after an edit. */
    method Search(listings: seq<Listing>)
      requires Terminated() && results.Length == MaxResults
      modifies this`resultCount, results
      ensures Valid()
      ensures resultCount <= MaxResults
      ensures results[..resultCount] == Find(Query(), listings)
    {
      var query := input[..CStrLen(input[..])];
      resultCount := FindMatchingApplications(query, listings, results);
    }
  }
}
