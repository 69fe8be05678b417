# gesfile: navigation history, child paths and listing rows

This project models the parts of the gesfile file manager (`app.js`) that hold
logic of their own:

- **Navigation client state** (`Navigation`): the client-side navigation
  code in app.js (lines 58-178) keeps three module-level variables:
  `currentPath`, the visited-path list `history` and `historyIndex`. Four handlers change them: `navigateTo`, `goBack`,
  `goForward` and `goToRoot`. `updateNavigationButtons` derives the
  enabled/disabled state of the back and forward buttons from them. The
  class `Navigation.Navigator` has those three variables as fields and one
  method per handler. Each method is proved against a pure transition
  function on the value type `NavState`: `Initial`, `AfterNavigate`,
  `AfterBack`, `AfterForward` and `AfterRoot`. `BackDisabled` and
  `ForwardDisabled` give the two button flags. The lemmas state what the handlers promise,
  both for one step and for any sequence of user actions (`Run`).
- **Child paths** (`Paths`): the listing builds each entry's relative path as
  the bare name at the root and `parent/name` below it. `Split`, `Segments`
  and `Join` are a reference definition of paths as lists of entry names.
  They are used to prove that composing a child path adds exactly one segment.
- **Listing rows** (`Listing`): the `/files` handler turns each directory
  entry into a `{name, type}` row, with type `directory` or `file`.

The code's quirks are kept as written:
- `navigateTo` compares `path` with `history[historyIndex]`, not with the last entry. Before
  the first visit the index is -1, the read yields `undefined`, and the first
  navigation always records its path.
- `navigateTo` appends and never truncates forward entries.
- `navigateTo` does not assign `currentPath`.
- `goToRoot` appends the root even when the current path is already the root.

`loadFiles` (the fetch and re-render after every move) is treated as an
effect that does not touch the navigation state. It is not modelled.

## Model

| member | source | states |
|---|---|---|
| `Paths.ChildPath` | app.js:99-110 | the child path starts with the parent and ends with the name. Below the root, exactly one '/' separates them. At the root the result is the bare name |
| `Paths.SegmentsOfChildPath` | app.js:99 | composing a child path with an entry name adds exactly that name to the path's segments, at the root and below it |
| `Paths.SegmentsOfJoin` | app.js:99 | descending from the root through a list of entry names one child path at a time and splitting the result gives the list back |
| `Listing.Classify` | app.js:51-52 | a row keeps its entry's name and is sent with type "directory" for a directory and "file" otherwise |
| `Listing.ListFiles` | app.js:50-53 | one row per directory entry, same length and order, same names, typed `directory` exactly when the entry is a directory |
| `Listing.TypeName` | app.js:52 | the type is sent as "directory" for directories and "file" for everything else |
| `Listing.ListFilesAppend` | app.js:50-53 | classification is entry by entry: listing a concatenation gives the concatenated listings |
| `Navigation.Initial` | app.js:58-60 | the page starts at the root with nothing recorded, a state satisfying the invariant, with both button flags set |
| `Navigation.AfterNavigate` | app.js:137-140 | after navigating, the entry at the index is the path. The old history is kept as a prefix and grows by at most one entry. The current path is not changed, and the invariant is kept |
| `Navigation.AfterBack` | app.js:147-149 | going back never changes the history and keeps the invariant. It is a no-op exactly when the index is at most 0. Otherwise the index drops by one and the current path is the entry there |
| `Navigation.AfterForward` | app.js:156-158 | going forward never changes the history and keeps the invariant. It is a no-op exactly when the index is at the last entry or beyond. Otherwise the index rises by one and the current path is the entry there |
| `Navigation.AfterRoot` | app.js:165-167 | going to the root strictly extends the history, points the index at its new last entry, which is the root, and sets the current path to the root |
| `Navigation.BackDisabled` | app.js:173 | in any state satisfying the invariant, the back flag is set exactly when going back would change nothing |
| `Navigation.ForwardDisabled` | app.js:174 | in any state satisfying the invariant, the forward flag is set exactly when going forward would change nothing |
| `Navigation.Step` | app.js:133-169 | every handler keeps the invariant: empty history with index -1, or an index inside the history. The old history is a prefix of the new one |
| `Navigation.Run` | app.js:58-169 | any sequence of handler calls from a state satisfying the invariant ends in a state satisfying it |
| `Navigation.ReachableValid` | app.js:58-60 | from the initial state ("", [], -1) every reachable state satisfies the invariant |
| `Navigation.HistoryAppendOnly` | app.js:137-168 | no sequence of handler calls removes or reorders recorded entries; the history only grows at its end |
| `Navigation.HistoryFromActions` | app.js:138 | every recorded entry was already recorded, is the root, or is a path some navigation went to |
| `Navigation.CurrentPathRecorded` | app.js:149 | the current path stays the root or a recorded entry across any sequence of handler calls |
| `Navigation.NavigateEffect` | app.js:137-140 | navigating leaves the state unchanged exactly when the entry at the index is the path. Otherwise the history gains the path at its end and the index points at it. The current path is never changed |
| `Navigation.NavigateIdempotent` | app.js:137-140 | navigating to the same path twice records it once |
| `Navigation.FirstNavigateRecords` | app.js:137 | before any visit the index reads no entry, so the first navigation records its path, even the root |
| `Navigation.BackForwardRoundTrip` | app.js:146-160 | when going back moves, it decrements the index, takes the entry there as current path and leaves the history alone. Going forward afterwards restores the index, with that entry as current path |
| `Navigation.ForwardBackRoundTrip` | app.js:146-160 | when going forward moves, it increments the index, takes the entry there as current path and leaves the history alone. Going back afterwards restores the index, with that entry as current path |
| `Navigation.RootAlwaysGrows` | app.js:164-168 | going to the root grows the history by exactly one root entry and keeps the old entries. It points the index at the new entry and sets the current path to the root, even when already there |
| `Navigation.ButtonsMatchMoves` | app.js:172-175 | the disabled flags `updateNavigationButtons` computes from the state match the moves: the back (forward) flag is false exactly when going back (forward) changes the state |
| `Navigation.BackAfterNavigateFromMiddle` | app.js:137-149 | after navigating away from an earlier entry, going back reaches the entry that was last before, not the one left, because nothing is truncated |
| `Navigation.BackForwardScenario` | app.js:146-160 | from ["", "a", "a/b"] at index 2, back gives "a" at 1 and forward returns to "a/b" at 2. Back at index 0 does nothing |
| `Navigation.Navigator.constructor` | app.js:58-60 | the page starts at the root with an empty history and index -1 |
| `Navigation.Navigator.NavigateTo` | app.js:133-143 | the new state is `AfterNavigate` of the old one and keeps the invariant |
| `Navigation.Navigator.GoBack` | app.js:146-152 | the new state is `AfterBack` of the old one and keeps the invariant |
| `Navigation.Navigator.GoForward` | app.js:155-161 | the new state is `AfterForward` of the old one and keeps the invariant |
| `Navigation.Navigator.GoToRoot` | app.js:164-169 | the new state is `AfterRoot` of the old one and keeps the invariant |
| `Navigation.Navigator.UpdateNavigationButtons` | app.js:172-175 | the flag computed for each button is set exactly when its move would leave the state unchanged |

## Left out

- `loadFiles` (fetching `/files`, rendering the list, the upload form action, the current-path label): asynchronous network I/O and DOM work. Each handler's call to it is not modelled. It does not touch the navigation state.
- `viewFile` and `deleteFileOrFolder` are called by the listing's click handlers but are not defined in `app.js`; they are not part of this model. Only the paths they receive (`ChildPath`) are.
- The Express server: routing, static serving, the fixed port and root folder, and `app.listen`. This is HTTP plumbing.
- The multer upload storage and the `/upload` handler write to disk through a foreign library.
- The `fs` calls behind `/files`, `/delete` and `/view-file` (read directory, stat, recursive remove, unlink, read file) and their 400/500/200 answers are filesystem I/O. Only the classification of entries already read is modelled.
- `path.join` normalisation is library semantics. The code has no check that a joined path stays inside the root. Neither is modelled.
- `Navigation.Navigator.UpdateNavigationButtons`: the page's buttons are refreshed only at the end of a successful `loadFiles` (app.js:118), which the handlers start without waiting for it. After a failed listing the buttons keep their earlier state. The model gives the flags computed from the current state, not when they reach the page.
- UTF-8 decoding and the HTML wrapping of file contents, and all console logging.
- The directory read is abstracted to a name and an is-directory flag per entry. Other entry kinds (links, sockets) are covered by the flag being false, so they are typed `file`, as in the source.
