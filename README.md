# Prompt store of the PyQt prompt manager

This project models the prompt store of a desktop prompt manager. A prompt is
a record `{title, content, created_at, modified_at}` kept in an ordered list
and keyed by its title. The window's controller saves prompts (an upsert by
exact title), deletes them by title and filters them with a search box. It
persists the list as a JSON file with a one-generation backup, and it fills in
time stamps missing from older files when it loads. Two small indexed
containers are modelled too: the table model's bounds-checked row lookup and
the item list of the flow layout.

Modules:

- `Text` (`text.dfy`): Python's `str.strip()` over every code point
  `str.isspace()` accepts, an ASCII `str.lower()`, and the substring test `in`.
- `Lists` (`lists.dfy`): the filtering list comprehension, proved to keep
  elements in order, and the guarded lookup `s[i] if 0 <= i < len(s) else None`.
- `Prompts` (`prompts.dfy`): the record type and the store's three list
  operations as functions (`Upsert`, `DeleteByTitle`, `Search`), with lemmas
  for what each promises.
- `Persistence` (`persistence.dfy`): the file as a list of stored records, or
  missing, or corrupt. Loading back-fills time stamps in place over an array.
  Saving copies the old file to the backup on a best-effort basis, then writes.
- `Store` (`store.dfy`): class `PromptStore`, the controller's prompt list and
  the disk. Its save and delete handlers are proved against the functions above.
- `TableModel` (`table_model.dfy`) and `Layout` (`layout.dfy`): the classes
  `PromptTableModel` and `FlowLayout` with their item lists.

The clock is a parameter: every operation that stamps or back-fills takes
`now`. Whether the backup copy and the file write succeed are the boolean
parameters `backupOk` and `writeOk`.

Two behaviours of the code shape the model:

- A failed write is not left in memory. When the primary write fails,
  `save_prompt` and `delete_selected_prompt` still reload the file, so the
  edit is dropped and the old file's contents come back.
  `Store.PromptStore.SavePrompt` states this in its last postcondition.
- Titles are unique only if they were unique before. A file holding
  duplicate titles is loaded as it is. A save then updates only the first
  record with that title, and a delete removes every record with it.
  `Prompts.UpsertKeepsTitlesUnique` and `Prompts.DeleteKeepsTitlesUnique`
  show that uniqueness, once it holds, is kept.

## Model

| member | source | states |
|---|---|---|
| `Text.Strip` | prompt_manager.py:401-410 | a stripped string is empty exactly when the input is all whitespace, which is what the two validation checks test; otherwise it neither starts nor ends with whitespace |
| `Text.StripRemovesOnlySpace` | prompt_manager.py:401-402 | the input is whitespace, then the stripped string, then whitespace: stripping removes nothing else |
| `Text.Contains` | prompt_manager.py:389 | `needle in hay` holds exactly when the needle occurs in the hay at some index |
| `Text.StripIdempotent` | prompt_manager.py:401-402 | a title that is already stripped, as every stored title saved through the editor is, strips to itself, so saving it again finds the same record |
| `Text.Lower` | prompt_manager.py:380 | no contract of its own: `Text.LowerIdempotent` states that lowering twice is lowering once and leaves no upper-case ASCII letter, and `Text.LowerCommutesWithStrip` that it commutes with stripping |
| `Text.LowerIdempotent` | prompt_manager.py:389 | lowering a lowered title or content changes nothing, and a lowered string holds no upper-case ASCII letter |
| `Text.LowerCommutesWithStrip` | prompt_manager.py:380 | stripping then lowering the query is the same as lowering then stripping it |
| `Lists.Filter` | prompt_manager.py:387-390 | the comprehension keeps exactly the elements that pass the test and never grows the list |
| `Lists.Lookup` | prompt_manager.py:154-157 | the guarded index yields a value exactly when the index is inside the list, negative indices excluded, and that value is the element at the index; `Layout.FlowLayout.ItemAt` (lines 57-60) uses it too |
| `Prompts.FindTitle` | prompt_manager.py:414-421 | the save loop stops at the first record whose title is equal, case-sensitively, to the stripped title; no index is found exactly when no record has it |
| `Prompts.Upsert` | prompt_manager.py:400-426 | no contract of its own: `Prompts.UpsertRejectsBlank`, `Prompts.UpsertModifiesFirstMatch`, `Prompts.UpsertAppendsNew`, `Prompts.UpsertStoresStripped` and `Prompts.UpsertKeepsTitlesUnique` state what a save does |
| `Prompts.UpsertRejectsBlank` | prompt_manager.py:401-410 | a title blank after stripping is refused first, then a blank content, and a refused save leaves the list unchanged |
| `Prompts.UpsertModifiesFirstMatch` | prompt_manager.py:414-421 | saving a present title rewrites only the first record with it: stripped content and `modified_at = now`; title, `created_at`, count and all other records unchanged |
| `Prompts.UpsertAppendsNew` | prompt_manager.py:423-426 | saving an absent title appends exactly one record at the end, with the stripped title and content and `created_at == modified_at == now`, and leaves the existing records untouched |
| `Prompts.UpsertStoresStripped` | prompt_manager.py:400-426 | after an accepted save, looking up the stripped title finds a record with the stripped content and `modified_at = now` |
| `Prompts.UpsertKeepsTitlesUnique` | prompt_manager.py:414-426 | if titles are unique before a save, they are unique after it |
| `Prompts.WithoutTitle` | prompt_manager.py:461 | no contract of its own: `Prompts.DeleteFindsTitle` states that it keeps exactly the records with another title, `Prompts.DeleteKeepsOrder` that it keeps their order |
| `Prompts.DeleteByTitle` | prompt_manager.py:460-462 | no contract of its own: `Prompts.DeleteFindsTitle`, `Prompts.DeleteKeepsOrder`, `Prompts.DeleteRemovesExactlyOne` and `Prompts.DeleteKeepsTitlesUnique` state what a delete does, including "not found" |
| `Prompts.DeleteFindsTitle` | prompt_manager.py:460-470 | delete succeeds exactly when some record has the title; survivors are exactly the records with another title; with no match the filtered list is the list itself ("not found") |
| `Prompts.DeleteKeepsOrder` | prompt_manager.py:461 | the survivors keep their relative order: filtering a concatenation concatenates the filtered parts |
| `Prompts.DeleteRemovesExactlyOne` | prompt_manager.py:460-462 | with unique titles, deleting a stored title removes exactly that record and the count drops by one |
| `Prompts.DeleteKeepsTitlesUnique` | prompt_manager.py:461 | deleting keeps titles unique |
| `Prompts.Matches` | prompt_manager.py:389 | no contract of its own: `Prompts.SearchSelects` states that a record is shown exactly when it matches, and `Text.Contains` what the substring test means |
| `Prompts.Search` | prompt_manager.py:379-390 | no contract of its own: `Prompts.SearchSelects`, `Prompts.SearchKeepsOrder`, `Prompts.SearchIgnoresQueryCase` and `Prompts.SearchShortcutAgrees` state what the search shows |
| `Prompts.SearchSelects` | prompt_manager.py:379-390 | a blank query yields the whole list; otherwise a record is shown exactly when the stripped, lower-cased query occurs in its lower-cased title or content |
| `Prompts.SearchKeepsOrder` | prompt_manager.py:387-390 | the search result is an order-preserving selection: searching a concatenation concatenates the searches |
| `Prompts.SearchIgnoresQueryCase` | prompt_manager.py:380 | lower-casing the query first does not change the result |
| `Prompts.SearchShortcutAgrees` | prompt_manager.py:382-390 | the blank-query shortcut returns what the filter would, since the empty string occurs in every string |
| `Prompts.GreetingExample` | prompt_manager.py:414-421 | upserting "Greeting"/"Hi" over a stored "Greeting"/"Hello" leaves one record with content "Hi", the old creation time and modification time `now` |
| `Persistence.Backfill` | prompt_manager.py:350-354 | no contract of its own: `Persistence.BackfillFillsGaps` states the repair of one record |
| `Persistence.BackfillFillsGaps` | prompt_manager.py:350-354 | back-fill sets a missing `created_at` to `now` and a missing `modified_at` to the record's `created_at`, keeps present fields, and leaves a complete record alone |
| `Persistence.BackfillTimestamps` | prompt_manager.py:350-354 | the loader's loop back-fills every record of the parsed array in place |
| `Persistence.Loaded` | prompt_manager.py:344-359 | no contract of its own: `Persistence.LoadPrompts` is proved equal to it, and `Persistence.SaveThenLoad` states that it reads back what a save wrote |
| `Persistence.LoadPrompts` | prompt_manager.py:344-359 | a missing or corrupt file loads as the empty list; otherwise the list is the file's records, each back-filled |
| `Persistence.SavePrompts` | prompt_manager.py:361-377 | no contract of its own: `Persistence.SaveThenLoad` and `Persistence.SaveKeepsPreviousGeneration` state what a save leaves on disk |
| `Persistence.SaveThenLoad` | prompt_manager.py:361-377 | writing the prompts and loading the file again gives back exactly the prompts written |
| `Persistence.SaveKeepsPreviousGeneration` | prompt_manager.py:361-377 | an existing file goes to the backup when the copy succeeds; a failed copy only warns and the write still happens; a failed write leaves the old file |
| `Store.PromptStore.Open` | prompt_manager.py:168 | at start-up the prompts are what the prompt file yields |
| `Store.PromptStore.Persist` | prompt_manager.py:361-377 | the disk becomes the save's result for the current prompts, which are unchanged |
| `Store.PromptStore.Reload` | prompt_manager.py:429 | the prompts become what the file yields now; the disk is unchanged |
| `Store.PromptStore.SavePrompt` | prompt_manager.py:400-433 | the outcome is the upsert's; a refused save changes nothing; an accepted one writes the upserted list and reloads; after a successful write the prompts are the upserted list, after a failed one the old file's contents |
| `Store.PromptStore.DeletePrompt` | prompt_manager.py:459-470 | deletes exactly when some prompt has the title; otherwise nothing changes and nothing is written; after a successful write the prompts are the survivors in order |
| `TableModel.PromptTableModel.constructor` | prompt_manager.py:116-118 | the model starts with the given rows, or none |
| `TableModel.PromptTableModel.UpdateData` | prompt_manager.py:148-151 | the rows are replaced by the new data |
| `TableModel.PromptTableModel.PromptByRow` | prompt_manager.py:154-157 | a row inside the table yields its record; any other row, negative ones included, yields `None` |
| `TableModel.SelectedRowIsStored` | prompt_manager.py:444-461 | a record read from a row of the search results is stored, so deleting its title finds it |
| `Layout.FlowLayout.constructor` | prompt_manager.py:40-44 | a new layout has no items |
| `Layout.FlowLayout.AddItem` | prompt_manager.py:51-52 | the item is appended and the count grows by one |
| `Layout.FlowLayout.Count` | prompt_manager.py:54-55 | no contract of its own: `AddItem` and `TakeAt` state how it changes |
| `Layout.FlowLayout.ItemAt` | prompt_manager.py:57-60 | an index inside the list yields that item; any other index yields `None`; nothing changes |
| `Layout.FlowLayout.TakeAt` | prompt_manager.py:62-65 | in range, it removes and returns the item `ItemAt` would return and the count drops by one; out of range it returns `None` and changes nothing |
| `Layout.FlowLayout.Dispose` | prompt_manager.py:46-49 | taking the first item until none is left empties the layout |

## Left out

- The Qt user interface is not modelled. This covers the window, the splitter, the table view, the sort/filter proxy and its index mapping, the selection handler, the dialogs, the confirmation question and the status-bar messages. It is presentation over a toolkit whose code is not part of this model. The delete handler is modelled from the confirmed title onwards.
- The system tray and the clipboard are not modelled: `copy_prompt_to_clipboard_from_tray`, `closeEvent` and `on_tray_icon_activated` only have side effects in foreign libraries. `update_tray_menu` first reloads the store from the file, which is `Store.PromptStore.Reload` (legacy records get the current clock, a corrupt file empties the store); the tray events that trigger that reload, at start-up and each time the tray menu is about to show, are not modelled, and neither is the menu it builds.
- JSON text is not modelled. The file is its list of records, or missing, or not valid JSON. An array whose objects lack a title or content fails in the source at a later point. A document that is not an array of objects fails in the loader with an uncaught TypeError (an empty object or string fails later). None of these failures is modelled.
- Only the JSON decode error is handled on load. Other errors raised while opening or reading the file, such as a file that is not valid UTF-8, propagate out of the loader in the source and are not modelled. Neither are creating the data directory or the backup file's name.
- `Persistence.SavePrompts`: a failed write is modelled as leaving the old file in place. A file truncated by a write that fails midway is not modelled.
- `Persistence.SavePrompts`: a failed backup copy is modelled as leaving the old backup in place, and `Persistence.SaveKeepsPreviousGeneration` states so. The copy opens the backup for writing, which truncates it, so a copy that fails midway leaves a partial backup; that is not modelled.
- The clock is the parameter `now`. `Store.PromptStore.SavePrompt` uses one `now` for the stamp and for the back-fill of the reload that follows; `Store.PromptStore.DeletePrompt` stamps nothing and uses `now` only for that back-fill. `Persistence.LoadPrompts` gives every legacy record in one load the same `now`, whereas the source reads the clock once per record.
- `Text.Lower`: case mapping covers the ASCII letters only. Python's `str.lower()` maps every Unicode letter; non-ASCII case folding is not modelled.
- Aliasing is not modelled. The table model's rows and the controller's list are the same Python list objects, and the save updates a dict in place. Here they are values.
- The `FlowLayout` geometry is not modelled: `_doLayout`, `minimumSize`, `sizeHint`, `heightForWidth`, `setGeometry` and `expandingDirections`. It is Qt geometry, and the class is unused.
- `Layout.FlowLayout.Dispose`: it stops when `TakeAt` returns `None`; the source's loop also stops at an item that Python treats as false, and the model treats every stored item as true.
