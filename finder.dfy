// The candidate finder of emenu.c (findMatchingApplications): scan the
// search path in order, keep the entries that start with the query, stop at
// MAX_RESULTS, then order the kept names by length.
//
// The file system is not modelled: each directory of the search path
// ("/usr/local/bin", then "/bin") arrives as a Listing, None when opendir
// fails, otherwise its entries in whatever order readdir returns them.

module Finder {
  import opened CStrings
  import opened LengthOrder

  /** MAXINPUT: capacity of every text buffer, terminator included. */
  const MaxInput: nat := 256
  /** MAX_RESULTS: the most names the finder keeps. */
  const MaxResults: nat := 10

  datatype Option<T> = None | Some(value: T)

  /** One directory of the search path: None if it could not be opened. */
  type Listing = Option<seq<Name>>

  /** The entry test: the query is a prefix of the name and the name fits a buffer. */
  predicate Accepts(query: Name, name: Name): (r: bool)
    ensures r ==> |query| <= |name| < MaxInput
  {
    query <= name && |name| < MaxInput
  }

  /** The entries that pass the test, in readdir order. */
  function Accepted(query: Name, entries: seq<Name>): (r: seq<Name>)
    ensures |r| <= |entries|
  {
    if entries == [] then []
    else
      var last := entries[|entries| - 1];
      Accepted(query, entries[..|entries| - 1]) + (if Accepts(query, last) then [last] else [])
  }

  /** Every entry kept from a directory passes the entry test. */
  lemma {:induction false} AcceptedSound(query: Name, entries: seq<Name>)
    ensures forall x :: x in Accepted(query, entries) ==> Accepts(query, x)
  {
    if entries != [] {
      AcceptedSound(query, entries[..|entries| - 1]);
    }
  }

  /** What one directory contributes: nothing when it could not be opened. */
  function DirCandidates(query: Name, dir: Listing): seq<Name>
  {
    match dir
    case None => []
    case Some(entries) => Accepted(query, entries)
  }

  /** Every passing entry of the search path, directory by directory, in scan order. */
  function Candidates(query: Name, listings: seq<Listing>): seq<Name>
  {
    if listings == [] then []
    else
      Candidates(query, listings[..|listings| - 1])
        + DirCandidates(query, listings[|listings| - 1])
  }

  /** Every candidate passes the entry test: the query is its prefix and it fits a buffer. */
  lemma {:induction false} CandidatesAccepted(query: Name, listings: seq<Listing>)
    ensures forall x :: x in Candidates(query, listings) ==> Accepts(query, x)
  {
    if listings != [] {
      CandidatesAccepted(query, listings[..|listings| - 1]);
      match listings[|listings| - 1]
      case None =>
      case Some(entries) => AcceptedSound(query, entries);
    }
  }

  /** The entries of the directories that could be opened, concatenated in scan order. */
  function Opened(listings: seq<Listing>): seq<Name>
  {
    if listings == [] then []
    else
      var last := listings[|listings| - 1];
      Opened(listings[..|listings| - 1]) + (match last case None => [] case Some(entries) => entries)
  }

  /** The results array before sorting: the first MaxResults candidates. */
  function Collected(query: Name, listings: seq<Listing>): seq<Name>
  {
    Truncate(Candidates(query, listings), MaxResults)
  }

  /** What findMatchingApplications leaves in results[0..count). */
  function Find(query: Name, listings: seq<Listing>): (r: seq<Name>)
    ensures |r| <= MaxResults
    ensures forall x :: x in r ==> query <= x && |x| < MaxInput
  {
    var kept := Collected(query, listings);
    var r := LengthSort(kept);
    CandidatesAccepted(query, listings);
    assert forall x :: x in kept ==> x in Candidates(query, listings) by {
      forall x | x in kept ensures x in Candidates(query, listings) {
        var k :| 0 <= k < |kept| && kept[k] == x;
        assert Candidates(query, listings)[k] == x;
      }
    }
    assert forall x :: x in r ==> x in kept by {
      forall x | x in r ensures x in kept {
        assert x in multiset(r);
      }
    }
    r
  }

  lemma {:induction false} AcceptedAppend(query: Name, a: seq<Name>, b: seq<Name>)
    ensures Accepted(query, a + b) == Accepted(query, a) + Accepted(query, b)
    decreases |b|
  {
    if b == [] {
      assert a + b == a;
    } else {
      assert (a + b)[..|a + b| - 1] == a + b[..|b| - 1];
      AcceptedAppend(query, a, b[..|b| - 1]);
    }
  }

  /**
   * The candidates are exactly the passing names of the concatenated openable
   * listings: a directory that cannot be opened contributes nothing, and no
   * name is reordered across or within directories.
   */
  lemma {:induction false} CandidatesAreAcceptedOpened(query: Name, listings: seq<Listing>)
    ensures Candidates(query, listings) == Accepted(query, Opened(listings))
  {
    if listings != [] {
      var init, last := listings[..|listings| - 1], listings[|listings| - 1];
      CandidatesAreAcceptedOpened(query, init);
      match last
      case None =>
        assert Opened(listings) == Opened(init) + [];
        assert Opened(init) + [] == Opened(init);
      case Some(entries) =>
        AcceptedAppend(query, Opened(init), entries);
    }
  }

  lemma {:induction false} OpenedAppend(a: seq<Listing>, b: seq<Listing>)
    ensures Opened(a + b) == Opened(a) + Opened(b)
    decreases |b|
  {
    if b == [] {
      assert a + b == a;
    } else {
      assert (a + b)[..|a + b| - 1] == a + b[..|b| - 1];
      OpenedAppend(a, b[..|b| - 1]);
    }
  }

  /** A directory that cannot be opened changes nothing wherever it sits in the search path. */
  lemma UnopenableIgnored(query: Name, before: seq<Listing>, after: seq<Listing>)
    ensures Find(query, before + [None] + after) == Find(query, before + after)
  {
    var listings := before + [None] + after;
    OpenedAppend(before + [None], after);
    OpenedAppend(before, [None]);
    assert Opened([None]) == Opened([]) + [];
    assert Opened(before + [None]) == Opened(before);
    OpenedAppend(before, after);
    assert Opened(listings) == Opened(before + after);
    CandidatesAreAcceptedOpened(query, listings);
    CandidatesAreAcceptedOpened(query, before + after);
    assert Candidates(query, listings) == Candidates(query, before + after);
  }

  /**
   * The names found are a stable sort by length of the first MaxResults
   * candidates: the same names, shortest first, equal lengths in scan order.
   */
  lemma FindOrder(query: Name, listings: seq<Listing>)
    ensures IsLengthSorted(Find(query, listings))
    ensures SameClasses(Find(query, listings), Collected(query, listings))
    ensures multiset(Find(query, listings)) == multiset(Collected(query, listings))
  {
    LengthSortStable(Collected(query, listings));
  }

  /** A name is found exactly when it is among the first MaxResults candidates. */
  lemma FindMembers(query: Name, listings: seq<Listing>, x: Name)
    ensures x in Find(query, listings) <==> x in Collected(query, listings)
  {
    var r, c := Find(query, listings), Collected(query, listings);
    assert multiset(r) == multiset(c);
    assert x in r <==> x in multiset(r);
    assert x in c <==> x in multiset(c);
  }

  /** When at most MaxResults names pass, the cap loses none of them. */
  lemma FindComplete(query: Name, listings: seq<Listing>)
    requires |Candidates(query, listings)| <= MaxResults
    ensures multiset(Find(query, listings)) == multiset(Candidates(query, listings))
  {
  }

  lemma {:induction false} AcceptedAll(entries: seq<Name>)
    requires forall k :: 0 <= k < |entries| ==> |entries[k]| < MaxInput
    ensures Accepted([], entries) == entries
  {
    if entries != [] {
      var init := entries[..|entries| - 1];
      AcceptedAll(init);
      assert entries == init + [entries[|entries| - 1]];
    }
  }

  /**
   * The empty query is a prefix of every name: when every name fits a buffer,
   * the finder returns min(MaxResults, number of names on the search path).
   */
  lemma EmptyQueryCount(listings: seq<Listing>)
    requires forall x :: x in Opened(listings) ==> |x| < MaxInput
    ensures |Find([], listings)| == if |Opened(listings)| <= MaxResults then |Opened(listings)| else MaxResults
  {
    CandidatesAreAcceptedOpened([], listings);
    AcceptedAll(Opened(listings));
  }

  /** Once n elements are kept, nothing appended later can change the first n. */
  lemma TruncateSaturated<T>(s: seq<T>, t: seq<T>, n: nat)
    requires |Truncate(s, n)| == n
    ensures Truncate(s + t, n) == Truncate(s, n)
  {
    assert (s + t)[..n] == s[..n];
  }

  lemma AcceptedStep(query: Name, entries: seq<Name>, k: nat)
    requires k < |entries|
    ensures Accepted(query, entries[..k + 1])
         == Accepted(query, entries[..k]) + (if Accepts(query, entries[k]) then [entries[k]] else [])
  {
    assert entries[..k + 1][..k] == entries[..k];
  }

  /** Below the cap, one more element is kept. */
  lemma TruncateSnoc<T>(s: seq<T>, x: T, n: nat)
    requires |Truncate(s, n)| < n
    ensures Truncate(s + [x], n) == Truncate(s, n) + [x]
  {
  }

  /**
   * Leaving a directory early, once MaxResults names are kept, keeps what
   * reading it to the end would have kept.
   */
  lemma ScanRest(kept: seq<Name>, query: Name, entries: seq<Name>, k: nat)
    requires k <= |entries|
    requires k < |entries| ==> |Truncate(kept + Accepted(query, entries[..k]), MaxResults)| == MaxResults
    ensures Truncate(kept + Accepted(query, entries[..k]), MaxResults)
         == Truncate(kept + Accepted(query, entries), MaxResults)
  {
    assert entries == entries[..k] + entries[k..];
    AcceptedAppend(query, entries[..k], entries[k..]);
    if k < |entries| {
      assert kept + Accepted(query, entries)
          == (kept + Accepted(query, entries[..k])) + Accepted(query, entries[k..]);
      TruncateSaturated(kept + Accepted(query, entries[..k]), Accepted(query, entries[k..]), MaxResults);
    } else {
      assert entries[..k] == entries;
    }
  }

  /**
   * The readdir loop of findMatchingApplications over one opened directory:
   * append each passing entry at results[count], leaving the loop as soon as
   * MaxResults names are kept. `kept` is everything the earlier directories
   * contributed, before the cap.
   */
  method ScanDirectory(query: Name, entries: seq<Name>, results: array<Name>, count0: nat,
                       ghost kept: seq<Name>)
    returns (count: nat)
    requires results.Length == MaxResults && count0 <= MaxResults
    requires results[..count0] == Truncate(kept, MaxResults)
    modifies results
    ensures count0 <= count <= MaxResults
    ensures results[..count] == Truncate(kept + Accepted(query, entries), MaxResults)
    ensures forall m :: count <= m < results.Length ==> results[m] == old(results[m])
  {
    count := count0;
    ghost var sofar := kept;
    assert entries[..0] == [] && kept + [] == kept;
    var k := 0;
    while k < |entries|
      invariant 0 <= k <= |entries|
      invariant sofar == kept + Accepted(query, entries[..k])
      invariant count0 <= count <= MaxResults
      invariant results[..count] == Truncate(sofar, MaxResults)
      invariant forall m :: count <= m < results.Length ==> results[m] == old(results[m])
    {
      if count >= MaxResults {
        break;
      }
      var name := entries[k];
      AcceptedStep(query, entries, k);
      if query <= name {
        if |name| < MaxInput {
          ghost var prefix := results[..count];
          TruncateSnoc(sofar, name, MaxResults);
          results[count] := name;
          assert results[..count + 1] == prefix + [name];
          count := count + 1;
        }
      }
      sofar := sofar + (if Accepts(query, name) then [name] else []);
      k := k + 1;
    }
    ScanRest(kept, query, entries, k);
  }

  /** Scanning one more directory appends what it contributes. */
  lemma CandidatesStep(query: Name, listings: seq<Listing>, i: nat)
    requires i < |listings|
    ensures Candidates(query, listings[..i + 1])
         == Candidates(query, listings[..i]) + DirCandidates(query, listings[i])
  {
    assert listings[..i + 1][..i] == listings[..i];
  }

  /**
   * The scan of findMatchingApplications: fill results[0..count) from the
   * listings in scan order, skipping directories that cannot be opened.
   * Rows from count on keep their old contents.
   */
  method CollectMatches(query: Name, listings: seq<Listing>, results: array<Name>)
    returns (count: nat)
    requires results.Length == MaxResults
    modifies results
    ensures count <= MaxResults
    ensures results[..count] == Collected(query, listings)
    ensures forall m :: count <= m < results.Length ==> results[m] == old(results[m])
  {
    count := 0;
    ghost var found: seq<Name> := [];
    var i := 0;
    while i < |listings|
      invariant 0 <= i <= |listings|
      invariant found == Candidates(query, listings[..i])
      invariant count <= MaxResults
      invariant results[..count] == Truncate(found, MaxResults)
      invariant forall m :: count <= m < results.Length ==> results[m] == old(results[m])
    {
      CandidatesStep(query, listings, i);
      match listings[i] {
        case None =>
          // opendir failed: skip this directory
        case Some(entries) =>
          count := ScanDirectory(query, entries, results, count, found);
      }
      found := found + DirCandidates(query, listings[i]);
      i := i + 1;
    }
    assert listings[..i] == listings;
  }

  /**
   * findMatchingApplications: collect the matches, then bubble sort them by
   * length in place. Rows from count on keep their old contents.
   */
  method FindMatchingApplications(query: Name, listings: seq<Listing>, results: array<Name>)
    returns (count: nat)
    requires results.Length == MaxResults
    modifies results
    ensures count == |Find(query, listings)|
    ensures results[..count] == Find(query, listings)
    ensures forall m :: count <= m < results.Length ==> results[m] == old(results[m])
  {
    count := CollectMatches(query, listings, results);
    BubbleSortByLength(results, count);
    assert results[..count] == LengthSort(Collected(query, listings));
  }
}
