# To-do app state model

A Dafny model of the state logic of a single-component React to-do app
(`src/App.jsx`). The component keeps six state slots — the task list, the
"add" draft, the view filter, the edit session (index and draft text) and
the theme flag — and its handlers overwrite them. The model keeps that form:

- `JsString` models `String.prototype.trim` and the handlers' test
  `s.trim() === ""`, proved equivalent to "every character is whitespace".
- `Tasks` holds the `Task` record and the pure parts: removal by position
  (`Delete`, a stable filter), the view filter (`Visible`), and the lists
  that toggling (`Toggled`) or renaming (`Renamed`) one entry produce, with
  lemmas about them.
- `Theme` maps the stored theme token to the flag and back.
- `TodoApp.App` is a class with the six slots as fields and one method per
  handler; each method's `ensures` gives its whole new state in terms of the
  old one, and `Valid()` (an idle session holds no draft) is kept by all.

Where the code's behaviour looks unintended, the model follows the code:
`addTask` and `saveTask` test the trimmed text but store the untrimmed
text; an empty commit leaves the edit session open; `deleteTask` does not
touch the edit session, so an open session may afterwards name a shifted or
vanished row; `toggleTask` and `saveTask` index the list unguarded, so an
out-of-range index is a precondition rather than a no-op; and a malformed
stored task list makes `JSON.parse` throw, with no fallback to an empty list.

The row handlers receive the row's position in the filtered view. The edit
button keeps it as a view position: `StartEdit` takes a view position, reads
the row's text from the view and stores that position in `editingIndex`.
The checkbox, the delete button and the commit then use the same number as a
position in the whole list, so `ToggleTask`, `DeleteTask` and `SaveTask`
take list positions. The model keeps that as written.
`TodoApp.ViewPositionInList` shows such a position is always inside the list
(so the handlers never fail). `Tasks.ViewPositionIsNotListPosition` shows
that under the "active" filter the checkbox of a shown row can toggle a
different task, and `Tasks.ViewEditRenamesOtherTask` that editing a shown
row can rename a different task. Under the "all" filter the two positions
coincide (`Tasks.Visible`).

## Model

| member | source | states |
|---|---|---|
| `JsString.SkipForward` | src/App.jsx:34 | the forward scan of `trim` skips only whitespace and stops at the end or at a non-whitespace character |
| `JsString.SkipBackward` | src/App.jsx:34 | the backward scan of `trim` skips only whitespace and stops at its lower bound or just after a non-whitespace character |
| `JsString.Trim` | src/App.jsx:34 | the result is a slice of the input with only whitespace outside it, and it neither starts nor ends with whitespace |
| `JsString.TrimEmptyIffBlank` | src/App.jsx:50 | `trim()` yields `""` exactly when every character of the string is whitespace (both directions) |
| `Tasks.Delete` | src/App.jsx:45-47 | filtering out position `index` gives the list with exactly that entry removed and the rest in order (length one less); an out-of-range index leaves the list unchanged |
| `Tasks.Visible` | src/App.jsx:58-62 | the view is no longer than the list, holds only entries the filter keeps, and for any filter value other than "active"/"completed" is the list itself |
| `Tasks.VisibleAppend` | src/App.jsx:58-62 | the filter is order-preserving: the view of a concatenation is the concatenation of the views |
| `Tasks.VisibleSingleton` | src/App.jsx:59-61 | a single entry is shown exactly when the filter's predicate keeps it |
| `Tasks.VisibleMember` | src/App.jsx:58-62 | a task is in the view if and only if it is in the list and the filter keeps it |
| `Tasks.VisiblePartition` | src/App.jsx:58-62 | the "active" and "completed" views together hold every entry exactly as often as the list (multisets), so their lengths sum to the list's length |
| `Tasks.VisibleUpdate` | src/App.jsx:58-62 | the view of a list with one slot overwritten is the views of the parts before and after the slot around the view of the new entry |
| `Tasks.Toggled` | src/App.jsx:39-43 | the entry at `index` has `completed` negated and its text kept; the length and every other entry are unchanged |
| `Tasks.ToggledTwice` | src/App.jsx:39-43 | toggling the same entry twice restores the original list |
| `Tasks.ToggledMovesBetweenViews` | src/App.jsx:39-43 | a toggle moves exactly one entry between the "active" and "completed" views (one grows by one, the other shrinks by one) |
| `Tasks.Renamed` | src/App.jsx:51-53 | the entry at `index` gets the new text and keeps its `completed` flag; the length and every other entry are unchanged |
| `Tasks.RenamedKeepsViews` | src/App.jsx:51-53 | a rename leaves the length of every filtered view unchanged |
| `Tasks.ViewPositionIsNotListPosition` | src/App.jsx:127-140 | under "active", with a finished task before an open one, the only shown row is the open task, yet toggling its view position 0 toggles the finished one |
| `Tasks.ViewEditRenamesOtherTask` | src/App.jsx:149-168 | under "active", with a finished task before an open one, the edit box of the only shown row starts from the open task's text, yet committing at its view position 0 renames the finished one |
| `Theme.DecodeTheme` | src/App.jsx:19-21 | the flag is dark exactly when the stored token is "dark"; no token or any other token means light |
| `Theme.EncodeTheme` | src/App.jsx:30 | the written token is "dark" or "light" and decodes back to the same flag |
| `TodoApp.App.constructor` | src/App.jsx:6-21 | the initial state: the stored list (or empty), empty drafts, filter "all", no edit session, and the theme decoded from the stored token |
| `TodoApp.App.SetInput` | src/App.jsx:91 | the add draft becomes the typed text; nothing else changes |
| `TodoApp.App.SetFilter` | src/App.jsx:105-117 | the filter becomes the chosen value; nothing else changes |
| `TodoApp.App.AddTask` | src/App.jsx:33-37 | a blank draft leaves list and draft unchanged; otherwise the list gains exactly one open task holding the untrimmed draft at its end, earlier entries unchanged, and the draft becomes `""` |
| `TodoApp.App.ToggleTask` | src/App.jsx:39-43 | for an index in the list, the new list is `Toggled` of the old one; nothing else changes |
| `TodoApp.App.DeleteTask` | src/App.jsx:45-47 | the new list is `Delete` of the old one; the edit session and every other slot are unchanged |
| `TodoApp.App.SaveTask` | src/App.jsx:49-56 | a blank draft leaves list, session index and draft unchanged (the session stays open); otherwise the list is `Renamed` with the untrimmed draft and the session is reset to no index and an empty draft |
| `TodoApp.App.StartEdit` | src/App.jsx:166-169 | the session opens on the row's view position with that row's current text as draft, replacing any previous session; the list is unchanged |
| `TodoApp.App.SetEditingText` | src/App.jsx:148 | while a session is open, the draft becomes the typed text; nothing else changes |
| `TodoApp.App.ToggleTheme` | src/App.jsx:78 | the theme flag is negated; nothing else changes |
| `TodoApp.App.ThemeToken` | src/App.jsx:30 | the token the theme effect writes for the current flag decodes back to that flag |
| `TodoApp.ViewPositionInList` | src/App.jsx:127-150 | every position of the filtered view is a position of the list, so a shown row's toggle and commit never index past the list |

## Left out

- Rendering: the JSX markup, Tailwind class strings, button labels and the framer-motion animation (`motion.li`, `AnimatePresence`) carry no state contract.
- Browser storage and JSON: `localStorage` and `JSON.parse`/`JSON.stringify` are not modelled. The constructor takes the already-parsed list (None when the store holds nothing or an empty string) and the stored theme token. A malformed stored list, which makes `JSON.parse` throw, is not modelled, and no JSON round-trip is claimed. The effect that writes the list back (lines 24-26) is left out; the theme effect is modelled only as the token mapping (`EncodeTheme`, `ThemeToken`).
- React scheduling: effects and `useState` batching are not modelled; each handler is one atomic transition.
- Aliasing: `toggleTask` and `saveTask` copy the array shallowly and then mutate the shared task object, so the previous list's object changes too. Tasks are values here, so this sharing is not captured; only the new list is described.
- Strings: JavaScript strings are UTF-16 code-unit sequences; here they are sequences of Unicode scalar values, so lone surrogates cannot occur. The whitespace set is ECMAScript's WhiteSpace and LineTerminator with the Unicode category Zs as of current Unicode versions, which approximates `trim` across engines.
- Indices: handler indices are natural numbers; non-integer or negative JavaScript numbers are not modelled (the `Delete` function itself accepts any integer).
