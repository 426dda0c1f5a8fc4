# To-do list controller, modelled in Dafny

The repository is a browser to-do list (`script.js`). Once the page has loaded,
one controller owns two things. The first is the list element: an ordered
sequence of items, each holding a task `{text, completed}`. The second is the
browser storage entry `"tasks"`: either absent, or a persisted copy of that
sequence. The user's commands change both in place:

- **add** trims the input. Blank input is ignored. Otherwise an incomplete task
  is appended and the list is persisted.
- **toggle** flips one task's completed marker and persists.
- **begin edit** opens an edit field holding the task's text.
- **commit edit** happens when the edit field loses focus. The trimmed draft
  becomes the text (an empty text is accepted) and the list is persisted.
- **delete** removes one task and persists.
- **persist** snapshots every item, in document order, into storage.
- **restore** appends one item per stored task at page load.

The project has three modules:

- `Text` (`text.dfy`) is `String.prototype.trim`: `Trim`, the index scans it is
  built from, and its characterisation. `Trim(s)` is the unique trimmed string
  that is left once a white-space prefix and a white-space suffix are cut off.
  The white-space set is the full ECMAScript WhiteSpace and LineTerminator set.
- `TodoModel` (`model.dfy`) holds the records (`Task`, `Mode`, `Item`) and the
  pure functions that specify each command on the task sequence (`Added`,
  `Toggled`, `Retexted`, `Removed`). It also holds `Reloaded`, what a page reload
  would show, and the lemmas about these functions.
- `TodoController` (`controller.dfy`) holds the class `TaskList`. Its fields are
  `items` (the list element) and `storage` (the `"tasks"` entry). It has one
  method per handler. `Persist` and `Restore` are written as the loops the
  source runs. A command reached through a list item takes that item's position.

Every command keeps the object invariant `Valid` (at most one edit field is
open). Every command also keeps `ReloadSafe`: reloading the page now would show
exactly the current tasks. A command that persists establishes `ReloadSafe` no
matter what was stored before.

Decisions taken where the source leaves room:

- Storage holds the task sequence directly. JSON encoding is not modelled.
- `Persist` returns whether it wrote. While an item's edit field is open, that
  item has no `.task-text` element, so reading its text throws before
  `localStorage.setItem` runs. The model keeps storage unchanged in that case.
- Add, toggle, delete and begin-edit require that no edit field is open. In the
  page, a click or key press anywhere else first moves the focus, and the open
  edit field's blur handler commits it.
- The edit field is a single-line text input, so filling it with the task's
  text drops any line breaks. Only restored text can hold them. Committing such
  an edit untouched stores the text without them.
- A double click is preceded by two clicks, so the page toggles the task twice
  before the edit opens. `ToggleTwice` shows that this leaves the list as it was.

## Model

| member | source | states |
|---|---|---|
| `Text.SkipLeading` | script.js:15 | the scan stops at the first non-white-space position at or after i, or at the end, and skips only white space |
| `Text.SkipTrailing` | script.js:15 | the backward scan stops just after the last non-white-space position before j, not going below lo, and skips only white space |
| `Text.Trim` | script.js:15 | trim gives a stripped form of the input. Neither end of the result is white space, and the result is empty exactly when the input is all white space |
| `Text.TrimUnique` | script.js:15 | any trimmed string left after cutting a white-space prefix and suffix equals `Trim(s)`, so the contract of Trim determines it |
| `Text.TrimFixedIff` | script.js:100 | trim leaves a string unchanged exactly when neither end of it is white space |
| `Text.TrimIdempotent` | script.js:100 | trimming an already trimmed value changes nothing |
| `Text.TrimIgnoresPadding` | script.js:15 | white space typed before or after the text does not change what is added |
| `Text.StripLineBreaks` | script.js:91-92 | filling a single-line text field yields a value with no line feed or carriage return, in which every other character occurs as often as in the text |
| `Text.StripLineBreaksFixed` | script.js:91-92 | a text without line breaks fills the field unchanged |
| `Text.StripLineBreaksAppend` | script.js:91-92 | the sanitization distributes over concatenation, so the kept characters stay in their order; with the contract of `StripLineBreaks` this determines it |
| `Text.TrimKeepsNoLineBreaks` | script.js:100 | trimming a value without line breaks gives a value without line breaks |
| `TodoModel.AddSpec` | script.js:15-17 | blank input leaves the tasks unchanged. Other input appends exactly one task `{trim(input), false}` with a non-empty text, and all earlier tasks stay in place |
| `TodoModel.AddThenRemove` | script.js:14-22 | deleting the task an add appended brings back the list from before the add |
| `TodoModel.ToggleSpec` | script.js:67-69 | toggling task i flips its completed flag, keeps its text, and leaves every other task and the length unchanged |
| `TodoModel.ToggleTwice` | script.js:67-69 | toggling the same task twice restores the original list |
| `TodoModel.RetextSpec` | script.js:99-102 | committing sets task i's text to the trimmed draft. The new text is trimmed, and it is empty exactly when the draft is all white space. The completed flag, the position and all other tasks are unchanged |
| `TodoModel.RetextUnchanged` | script.js:90-102 | opening an edit and committing it untouched leaves the list as it was exactly when the task's text is trimmed and has no line breaks; any other text is rewritten |
| `TodoModel.RemoveSpec` | script.js:78-80 | deleting task i shortens the list by one. Tasks before i keep their places, tasks after i move up by one, and the multiset loses exactly task i |
| `TodoModel.RemoveThenReinsert` | script.js:78-80 | putting the deleted task back at its position restores the list |
| `TodoModel.CommandsKeepTextsTrimmed` | script.js:14-103 | add, toggle, edit commit and delete keep all task texts trimmed |
| `TodoModel.TasksOfRendered` | script.js:40-62 | the items built for a task sequence read back as that sequence, and none of them is being edited |
| `TodoModel.ReloadRoundTrip` | script.js:121-145 | restoring a persisted snapshot into an empty list gives back the snapshot, and restoring with nothing stored gives an empty list |
| `TodoModel.WalkthroughSteps` | script.js:14-81 | for two non-blank trimmed texts: add, add, toggle the first, delete the second produce the expected task sequences |
| `TodoController.TaskList.Open` | script.js:137-149 | page load starts from an empty list and restores storage. The list then shows the stored tasks as text, storage is unchanged, and a reload would show the same list |
| `TodoController.TaskList.AppendTask` | script.js:40-62 | creating a task element appends one item showing the given text and completed flag, and changes nothing else |
| `TodoController.TaskList.Persist` | script.js:121-132 | when no edit field is open, storage becomes the tasks of all items in document order. Otherwise the read throws and storage is unchanged. The items are never changed |
| `TodoController.TaskList.Restore` | script.js:137-146 | appends one item, shown as text, per stored task in stored order (none when storage is absent), and does not write storage |
| `TodoController.TaskList.Add` | script.js:14-22 | the tasks become `Added(old tasks, input)`. Blank input leaves storage unchanged; otherwise storage equals the new tasks. Both the reload invariant and the one-edit invariant are kept |
| `TodoController.TaskList.Toggle` | script.js:67-70 | the tasks become `Toggled(old tasks, i)` and storage equals them afterwards |
| `TodoController.TaskList.Delete` | script.js:78-81 | the tasks become `Removed(old tasks, i)` and storage equals them afterwards |
| `TodoController.TaskList.BeginEdit` | script.js:88-96 | item i gets an edit field whose draft is its current text with line feeds and carriage returns removed. The tasks, the other items and storage are unchanged |
| `TodoController.TaskList.SetDraft` | script.js:90-92 | typing or pasting replaces the draft of the open edit field with the value, line feeds and carriage returns removed as the single-line field removes them. The tasks, the other items and storage are unchanged |
| `TodoController.TaskList.CommitEdit` | script.js:99-103 | the tasks become `Retexted(old tasks, i, draft)`. No edit field is open afterwards, and storage equals the tasks |
| `TodoController.Walkthrough` | script.js:14-81 | starting empty: add "Buy milk", add "Walk dog", toggle the first. Storage then holds `[{"Buy milk", true}, {"Walk dog", false}]`. After deleting the second it holds `[{"Buy milk", true}]` |

## Left out

- DOM construction is not modelled: the span, div and button elements, the
  trash-can label, CSS classes other than the completed marker, `replaceChild`
  and `focus()`. These are presentation. The model reduces an item to its task
  and to whether its edit field is open.
- Event registration is replaced by direct calls. Enter in the main input
  (script.js:25-28) is the same command as the add button. Enter in an edit
  field (script.js:106-109) is the same command as commit.
- `JSON.stringify` and `JSON.parse` are not modelled; storage holds the task
  sequence directly.
- Malformed stored JSON (script.js:141) is unhandled in the source. The model
  assumes the stored value is a well-formed task sequence. `if (savedTasks)`
  would also skip a stored empty string, but persist never writes one, so
  storage is modelled as absent or a sequence.
- `localStorage` is not modelled as browser I/O. It is a field whose value is
  given to the constructor. Several tabs sharing the entry is not modelled.
- Focus order is a precondition. The model does not derive it from events. Add,
  toggle, delete and begin-edit require that no edit field is open, because
  moving the focus commits an open edit first.
- The main input is a parameter of `Add`. The handler clears that input after a
  non-blank add and leaves it alone after a blank one (script.js:19); the model
  has no input-field state, so it does not capture that clearing.
- Strings are sequences of Unicode scalar values, while JavaScript strings are
  sequences of UTF-16 code units. Trim behaves the same either way, because every
  white-space character is one code unit. A lone surrogate in a JavaScript
  string has no counterpart in the model.
