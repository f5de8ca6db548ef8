# Dashboard document store

This project models the document store behind the dashboard page of the
NextGen-Internship web application (`src/components/Dashboard.jsx`). Once the
React hooks are set aside, the dashboard is a small sequential state machine
with four pieces of state:

- `documents`: an ordered list of `{title, description, imageUrl}` records;
- `newDocument`: the draft behind the "add" form;
- `editIndex`: the edit cursor, either a position or `null`;
- `editDocument`: the draft behind the edit form of the open card.

Each event handler becomes one pure `State -> State` function in module
`Dashboard`:

- `Change` is `handleChange` and `EditChange` is `handleEditChange`.
- `Add` is `handleAddDocument`.
- `Remove` is `handleRemoveDocument`.
- `StartEdit` is `handleEditStart`.
- `Update` is `handleUpdateDocument`.
- `Cancel` is the inline Cancel handler.

The remaining modules are:

- `Text` models `String.prototype.trim` over the whitespace set of the ECMAScript language specification (ECMA-262).
- `Document` holds the record, its three form fields and the add/update guard.
- `Session` runs the handlers over a sequence of user events. It proves that no sequence of events ever stores a record with a blank title or description.
- `CursorFix` holds the finding below.
- `Wrappers` holds the `Option` type used for the nullable cursor.

The model follows the code. The code validates with `trim()` and JavaScript truthiness, so a field is "blank" when it is empty or all whitespace. `filter` by index makes an out-of-range Remove a no-op. `map` by index makes an Update with a null or out-of-range cursor replace nothing, while it still clears the cursor and the edit draft.

## Model

| member | source | states |
|---|---|---|
| Text.Trim | src/components/Dashboard.jsx:29 | `s.trim()` is a slice `s[a..b]` with only whitespace before `a` and after `b`; it is empty exactly when every character of `s` is whitespace, and otherwise starts and ends with non-whitespace |
| Document.Set | src/components/Dashboard.jsx:18-21 | a field edit `{...prev, [name]: value}` sets the named field and copies the other two |
| Dashboard.SubmittableIffFilled | src/components/Dashboard.jsx:29 | the trim-based guard accepts a record exactly when its title and its description each contain a non-whitespace character |
| Dashboard.KeepOthers | src/components/Dashboard.jsx:35 | the index filter equals the list with the record at `index` cut out, or the whole list when `index` is past the end |
| Dashboard.ReplaceAtCursor | src/components/Dashboard.jsx:46-48 | the index map equals the list with the cursor's slot overwritten, or the list itself when the cursor is null or past the end |
| Dashboard.Change | src/components/Dashboard.jsx:18-21 | typing into the add form sets only the named field of the new-document draft; list, cursor and edit draft are untouched |
| Dashboard.EditChange | src/components/Dashboard.jsx:23-26 | typing into the edit form sets only the named field of the edit draft; list, cursor and new-document draft are untouched |
| Dashboard.Add | src/components/Dashboard.jsx:28-32 | a draft with non-blank title and description is appended at the end and the draft resets to empty; a blank title or description leaves the whole state unchanged; the old list is always a prefix of the new one |
| Dashboard.Remove | src/components/Dashboard.jsx:34-37 | for an in-range index the length drops by one, earlier records stay put, later ones shift left by one, and exactly that record leaves the multiset; an out-of-range index changes nothing; cursor and drafts are untouched |
| Dashboard.StartEdit | src/components/Dashboard.jsx:39-42 | the cursor becomes `i` and the edit draft is a copy of record `i`; the list and the new-document draft are unchanged |
| Dashboard.Update | src/components/Dashboard.jsx:44-52 | with a non-blank edit draft the length is kept, the cursor's slot gets the draft and every other slot is unchanged, and cursor and edit draft reset; a null cursor replaces nothing; a blank title or description leaves the whole state unchanged, edit still open |
| Dashboard.Cancel | src/components/Dashboard.jsx:135 | the cursor becomes null; the list and both drafts are unchanged |
| Dashboard.EditWithoutChangesKeepsDocs | src/components/Dashboard.jsx:39-52 | opening a non-blank record and saving it unchanged leaves the list as it was and closes the edit |
| Dashboard.EditOneFieldThenUpdate | src/components/Dashboard.jsx:23-52 | opening record `i`, editing one field and saving replaces exactly that field of exactly record `i` |
| Dashboard.SaveAfterCancelWritesNothing | src/components/Dashboard.jsx:135 | after Cancel, a save writes no record, whatever the edit draft holds |
| Dashboard.RemoveUndoesAdd | src/components/Dashboard.jsx:28-37 | adding a non-blank draft and then removing the last position restores the list |
| Session.AddKeepsStoredFilled | src/components/Dashboard.jsx:28-32 | Add never stores a record with a blank title or description |
| Session.RemoveKeepsStoredFilled | src/components/Dashboard.jsx:34-37 | Remove never stores a record with a blank title or description |
| Session.UpdateKeepsStoredFilled | src/components/Dashboard.jsx:44-52 | Update never stores a record with a blank title or description |
| Session.StepKeepsStoredFilled | src/components/Dashboard.jsx:18-52 | no handler stores a record with a blank title or description |
| Session.Step | src/components/Dashboard.jsx:151 | every event has a successor state except an Edit click on a position past the end of the list |
| Session.RunKeepsStoredFilled | src/components/Dashboard.jsx:18-52 | over any event sequence, the stored records stay non-blank |
| Session.NoBlankRecordIsStored | src/components/Dashboard.jsx:4-52 | starting from the mount state, no sequence of user events stores a record whose title or description is blank |
| CursorFix.RemoveBeforeCursorRetargetsUpdate | src/components/Dashboard.jsx:34-52 | as written: with record `k` open, removing an earlier record and then saving overwrites the record after `k`, while `k` keeps its old contents |
| CursorFix.RemoveWhileEditingLosesNeighbour | src/components/Dashboard.jsx:34-52 | as written: [A, B, C] with B open, Remove(0), then Update gives [B, B], so C is lost |
| CursorFix.UpdateDoesNotCommuteWithRemove | src/components/Dashboard.jsx:34-52 | as written: removing an earlier record and then saving differs from saving and then removing, whenever the draft differs from the next record |
| CursorFix.RemoveTracked | src/components/Dashboard.jsx:34-37 | corrected Remove: same list as the code. When another record `k` is open, the cursor moves to `k - 1` if an earlier record was removed and stays at `k` otherwise, and that slot holds the record that was open. Removing the open record clears the cursor, and an index past the end changes nothing |
| CursorFix.UpdateCommutesWithTrackedRemove | src/components/Dashboard.jsx:34-52 | corrected: in every state and for every index, removing and then saving gives the same list as saving and then removing |

## Left out

- Rendering, styling and the card grid are left out (`src/components/Dashboard.jsx:54-171`). The markup only decides which handler each button calls. `Session.Event` records that choice.
- React's `useState` is left out: batching, re-rendering and closures over stale state. Each handler is one atomic state transition.
- `src/App.js` (routing and the `isLoggedIn` flag) and `src/components/HomePage.jsx` (static markup) are left out because they hold no store logic. The Login, Register and Navbar components are not part of this model.
- Dashboard.StartEdit: requires an in-range index. Its only call site is a card's Edit button, and that index comes from mapping over the list (`src/components/Dashboard.jsx:98`, `:151`). An out-of-range call would store JavaScript's `undefined` as the edit draft, and `Doc` has no such value. For the same reason, `Session.Step` gives no successor state for that event.
- Field edits are limited to the three named inputs: `title`, `description` and `imageUrl`. The code's computed key `[name]` could add any property, but no other input exists.
- `Text.IsWhitespace` lists the Unicode space separators as of current Unicode. Older engines that still count U+180E as a space are not modelled.
- `Session` does not enforce which buttons are visible. For example, it allows a Remove of the open card, or an Update with no card open. The model states what each handler does when called, which covers every case the markup allows.

## Findings

| source | as written | input that shows it | evidently intended | confidence | as-written member | corrected member |
|---|---|---|---|---|---|---|
| src/components/Dashboard.jsx:34-37 | `handleRemoveDocument` filters the list but leaves `editIndex` unchanged. While card `k` is open, the Remove buttons of the other cards stay visible. Removing an earlier card moves the cursor onto the record that followed `k`, and saving overwrites that record. | `[A, B, C]`, Edit on B (index 1), Remove on A (index 0), Update: the result is `[B, B]` and C is lost | the save lands on the record that was opened, so removing another record and then saving equals saving and then removing | medium, not executed | CursorFix.RemoveWhileEditingLosesNeighbour | CursorFix.UpdateCommutesWithTrackedRemove |

The main `Dashboard` module keeps Remove as written, because it models the
code. `CursorFix.RemoveTracked` is the corrected Remove. It shifts the cursor
with the records, and `CursorFix.UpdateCommutesWithTrackedRemove` proves the
intended property for it.
