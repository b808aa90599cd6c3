# emenu: candidate finder and key-press state machine

emenu is a small X11 application launcher. It shows a floating input box.
As the user types, it lists up to `MAX_RESULTS` (10) entries of `/usr/local/bin`
and `/bin` whose names start with the typed text, shortest first. Enter launches
the first one. This project models the two parts of `emenu.c` that hold logic:

- **The candidate finder** (`findMatchingApplications`). It scans the search
  path in order and skips directories that cannot be opened. It keeps every
  entry that starts with the query and is shorter than `MAXINPUT` (256). It
  stops at 10 names, then bubble-sorts them by length.
- **The key-press handling** of `main`'s event loop. It edits a 256-character
  query buffer and recomputes the results after every edit. Tab completes the
  query from the first result. Enter and Escape end the session.

Files and modules:

- `cstrings.dfy`, module `CStrings`: C string conventions. `CStrLen` is
  strlen over a buffer. `CString` is the text a buffer holds up to its first
  NUL. `Truncate` is the first n characters, as strncpy copies them.
- `lengthorder.dfy`, module `LengthOrder`: the ordering by name length.
  - `LengthSort` is a reference stable insertion sort.
  - `SameClasses` says two lists hold the same names of each length, in the
    same order. This is stability.
  - `SortedUnique` shows that a length-sorted list is fully determined by
    those classes.
  - `BubbleSortByLength` is the source's in-place bubble sort over the
    results array.
- `finder.dfy`, module `Finder`: the finder.
  - `Find` is its specification: filter, then keep the first 10, then stable
    sort.
  - `FindMatchingApplications`, `CollectMatches` and `ScanDirectory` are the
    imperative loops over the results array.
- `menu.dfy`, module `Menu`: the session.
  - `Next` is the specification of one key press over the observable state.
  - `Run` is the event loop over a sequence of key presses.
  - Class `Launcher` holds the real buffers. `input` is an `array<char>` of 256
    with a NUL terminator. `results` is an `array` of 10 rows. It also keeps
    `resultCount`, a status and a ghost log of launch requests. Its `Step`
    is proved equal to `Next`.

The file system is an input. Each directory of the search path arrives as an
`Option<seq<Name>>`: `None` if `opendir` fails, otherwise its entries in readdir
order. No order within a directory is assumed. The model's results depend on
that order only through the cap of 10 and the stable tie-break. `Step` takes
the listings for each event, because the source rereads the directories on
every search.

Every `char` of a `Name` stands for one C `char`, that is one byte. Lengths,
the `MAXINPUT` cap, the length sort and Backspace all count bytes, as
`strlen` does. A name in a multi-byte encoding is its sequence of bytes.

Behaviour of emenu.c worth noting:

- Tab does not search again. `completeInputWithFirstResult` only overwrites
  the buffer (emenu.c:104-109, 172-173), so the old results stay on display
  after a completion. `TabCompletes` states that the results are unchanged.
- Insert then Backspace below capacity always gives back the query
  (`InsertThenBackspaceQuery`). It restores the results only if they were the
  finder's answer for the query beforehand. After a Tab they may not be. This
  is the precondition of `InsertThenBackspace`.
- Enter zeroes the query buffer and `resultCount` but not the result rows
  (emenu.c:169-170). The visible match list (`results[0..resultCount)`)
  becomes empty. The stale rows are never read again, because the loop ends.

## Model

| member | source | states |
|---|---|---|
| `CStrings.CStrLen` | emenu.c:180-183 | strlen: the length is at most the buffer size, everything before it is non-NUL, and a NUL sits at it when it is inside the buffer |
| `CStrings.CString` | emenu.c:180-184 | the text a buffer holds is a NUL-free prefix of it that ends at the buffer's end or at a NUL |
| `CStrings.Truncate` | emenu.c:106-107 | strncpy with a bound of n keeps a prefix of exactly min(length, n) characters |
| `CStrings.CStrLenAt` | emenu.c:180-184 | the terminator is unique: a NUL-free prefix ending at a NUL or at the buffer end is exactly strlen |
| `CStrings.CStringOfNulFree` | emenu.c:106-107 | a NUL-free name copied into a buffer reads back as itself |
| `LengthOrder.InsertByLengthSorted` | emenu.c:92-101 | inserting into a length-sorted list keeps it length-sorted |
| `LengthOrder.InsertByLengthPermutation` | emenu.c:92-101 | insertion adds exactly the one name: the result is a permutation of the list plus that name |
| `LengthOrder.LengthSort` | emenu.c:92-101 | the reference sort is sorted by non-decreasing length, and is a permutation of its input |
| `LengthOrder.InsertByLengthClasses` | emenu.c:92-101 | an inserted name goes before all earlier names of its own length, and no other length class changes |
| `LengthOrder.LengthSortStable` | emenu.c:92-101 | the reference sort is stable: every length class keeps its names and their order |
| `LengthOrder.SameClassesPermutation` | emenu.c:92-101 | equal length classes imply equal multisets (a permutation) |
| `LengthOrder.SortedUnique` | emenu.c:92-101 | two length-sorted lists with the same length classes are equal |
| `LengthOrder.StableSortIsLengthSort` | emenu.c:92-101 | every stable sort by length of a list equals the reference sort |
| `LengthOrder.SwapClasses` | emenu.c:94-99 | swapping neighbours of different lengths (the only swap, taken on strictly greater length) preserves every length class |
| `LengthOrder.BubblePass` | emenu.c:93-100 | one pass of the inner loop over results[0..m) carries a longest name to row m-1, keeps every length class, keeps the prefix no longer than the rows already placed, and leaves rows from m on untouched |
| `LengthOrder.BubbleSortByLength` | emenu.c:92-101 | the in-place bubble sort leaves results[0..count) sorted by length, stable and a permutation, equal to the reference sort; rows from count on are untouched |
| `Finder.Accepts` | emenu.c:81-82 | the entry test: a name passes only if the query is its prefix and it is shorter than MAXINPUT, so a query of MAXINPUT or more characters matches nothing |
| `Finder.AcceptedSound` | emenu.c:81-82 | the entries kept from one directory all have the query as prefix and are shorter than MAXINPUT |
| `Finder.CandidatesAccepted` | emenu.c:67-90 | every candidate collected along the search path, an unopenable directory contributing nothing, passes the prefix and length test |
| `Finder.Find` | emenu.c:66-102 | the finder returns at most MAX_RESULTS names, each with the query as prefix and at most MAXINPUT-1 long |
| `Finder.AcceptedAppend` | emenu.c:78-88 | filtering a concatenation is the concatenation of the filtered parts: readdir order is kept |
| `Finder.CandidatesAreAcceptedOpened` | emenu.c:67-90 | the candidates are exactly the passing names of the openable directories' listings, concatenated in scan order |
| `Finder.UnopenableIgnored` | emenu.c:71-75 | inserting an unopenable directory anywhere in the search path does not change the result |
| `Finder.FindOrder` | emenu.c:92-101 | the result is length-sorted, stable with respect to discovery order, and a permutation of the first 10 candidates |
| `Finder.FindMembers` | emenu.c:79-101 | a name is in the result exactly when it is among the first MAX_RESULTS candidates |
| `Finder.FindComplete` | emenu.c:79 | with at most MAX_RESULTS candidates, the cap loses none of them |
| `Finder.EmptyQueryCount` | emenu.c:81-82 | the empty query returns min(MAX_RESULTS, number of entries) when every name fits the buffer |
| `Finder.TruncateSaturated` | emenu.c:79 | once MAX_RESULTS names are kept, later entries change nothing, so the early break loses nothing |
| `Finder.ScanDirectory` | emenu.c:77-88 | the readdir loop with its break at the cap leaves results[0..count) equal to the first 10 of the earlier candidates followed by this directory's passing entries |
| `Finder.CollectMatches` | emenu.c:67-90 | the loop over the search path leaves results[0..count) equal to the first MAX_RESULTS candidates in scan order, skipping directories that cannot be opened |
| `Finder.FindMatchingApplications` | emenu.c:66-102 | the method leaves exactly Find(query, listings) in results[0..count) and leaves the other rows alone |
| `Menu.Initial` | emenu.c:138-140 | main starts with an empty query and no results, within the buffer bounds, running and with nothing launched |
| `Menu.Next` | emenu.c:162-190 | one key press keeps the query under MAXINPUT, NUL-free, and at most MAX_RESULTS matches each shorter than MAXINPUT; it adds at most one launch request and never removes one |
| `Menu.Run` | emenu.c:152-191 | the event loop only adds to the launch log, and once Enter or Escape has ended the session no further key changes anything |
| `Menu.RunLaunchesAtMostOnce` | emenu.c:153-190 | over any key sequence, a running session has launched nothing, at most one launch is ever requested, and the bounds hold throughout |
| `Menu.ConfirmedIfLaunched` | emenu.c:165-171 | a session that has requested a launch has been confirmed |
| `Menu.SessionLaunchesAtMostOnce` | emenu.c:153-190 | from main's initial state, any key sequence yields at most one launch, only in a confirmed session, with the buffers in bounds |
| `Menu.BackspaceRemovesLast` | emenu.c:179-182 | Backspace removes exactly the last character of a non-empty query and leaves an empty query empty |
| `Menu.InsertAppends` | emenu.c:183-185 | Insert of a non-NUL character makes the query exactly the old query followed by it when below MAXINPUT-1, and leaves the query unchanged at capacity |
| `Menu.EditRecomputes` | emenu.c:179-187 | after Insert or Backspace (also at capacity or on an empty query) the matches are the finder's answer for the new query, so all start with it; status and launches are unchanged |
| `Menu.InsertThenBackspace` | emenu.c:179-187 | Insert then Backspace restores the whole state when the query was below capacity and its matches were the finder's answer |
| `Menu.InsertThenBackspaceQuery` | emenu.c:179-185 | below capacity, Insert then Backspace gives back the typed query whatever the matches were |
| `Menu.TabCompletes` | emenu.c:104-109 | Tab with matches sets the query to the first match and keeps the matches; with none it changes nothing |
| `Menu.TabExtendsQuery` | emenu.c:104-109 | completing from matches that answer the query yields a query that extends the typed one |
| `Menu.EnterLaunchesFirst` | emenu.c:165-171 | Enter requests exactly one launch, of the first match, if there is one and none otherwise; it clears query and matches and confirms |
| `Menu.EscapeCancels` | emenu.c:163-164 | Escape cancels with no launch and leaves the query and matches as they were |
| `Menu.OnlyEnterLaunches` | emenu.c:162-190 | no key but Enter requests a launch |
| `Menu.FindInBin` | emenu.c:66-102 | with a directory holding "ls" and "cat", the queries "l" and "ls" both find exactly ["ls"] |
| `Menu.ScenarioTypeL` | emenu.c:183-187 | typing "l" from the initial state gives query "l" and matches ["ls"] |
| `Menu.ScenarioTypeS` | emenu.c:183-187 | typing "s" next gives query "ls" and matches ["ls"] |
| `Menu.ScenarioEnter` | emenu.c:165-171 | Enter then launches "ls" and confirms with everything cleared |
| `Menu.ScenarioTab` | emenu.c:104-109 | Tab on query "l" with matches ["ls", "lsof"] sets the query to "ls" |
| `Menu.Launcher.constructor` | emenu.c:138-140 | the buffers start zeroed: empty query, no results, running, nothing launched |
| `Menu.Launcher.CompleteInputWithFirstResult` | emenu.c:104-109 | with a result, the buffer holds the first result cut to MAXINPUT-1 and terminated; with none it is unchanged; the results are untouched |
| `Menu.Launcher.ClearInput` | emenu.c:169 | after the memset the buffer is terminated and holds the empty string |
| `Menu.Launcher.EraseLast` | emenu.c:179-182 | the buffer stays terminated and its text loses exactly its last character, if any |
| `Menu.Launcher.Append` | emenu.c:183-185 | the buffer stays terminated; its text gains the character only below MAXINPUT-1 and only if it is not NUL |
| `Menu.Launcher.Search` | emenu.c:187 | after the search, results[0..resultCount) is the finder's answer for the buffer's text |
| `Menu.Launcher.Step` | emenu.c:162-190 | one key press on the real buffers keeps the class invariant and has exactly the effect Next describes |

## Left out

- `createRoundedRectMask`, `drawInput`, and the window, font and display setup and teardown in `main` (emenu.c:24-38, 49-64, 112-152, 193-197). These are X11 and Xft rendering with no logic. The `Expose` and `DestroyNotify` branches (emenu.c:155-160) only redraw or stop.
- `launchApplication` (emenu.c:40-47): process creation with `fork`/`execlp`. It is modelled only as an entry appended to the ghost launch log. Whether the process starts is not visible to the launcher.
- `opendir`/`readdir`/`closedir` and the `perror` message (emenu.c:71-89). These are file-system I/O. The listings are a parameter, and the fixed search path (`/usr/local/bin`, then `/bin`) is whatever list the caller passes. Entry names are taken to be NUL-free, as readdir guarantees.
- `XNextEvent`, `XLookupString` and the keycode mapping (emenu.c:154, 163-177). These are event translation. The model takes an `Event` instead. A key for which `XLookupString` writes no character reads an uninitialised buffer in the source. That case is not modelled: Insert carries one character, and a NUL character appends nothing, as `strncat` does.
- Each result row is modelled by the string it holds, not as a 256-byte array. The bytes after a row's terminator are not modelled.
- Menu.Launcher.Step: requires the session to be running, because `main` leaves its loop after Enter or Escape and reads no further events.
- Menu.Run: uses one set of listings for the whole key sequence. The source rereads the directories on each search, so the file system could change between keystrokes. `Step` itself takes fresh listings on every call.
- Menu.InsertThenBackspace: the restored match list assumes the same listings for both searches and results that were fresh before the Insert. A Tab or a change on disk in between breaks this in the source as well.
