# CustomWidgets: a verified model of the widget logic

CustomWidgets is a small library of Qt widgets written in Python 2. This project models the parts of it that do more than wire toolkit widgets together, and proves that they behave as their code says:

- **`MultiCompleteEdit`** is a line edit that completes only the word under the cursor.
  - The word reaches back from the cursor to the last separator.
  - Accepting a completion cuts the completer's prefix off the end of the text.
  - It then appends the completion and, if configured, the separator and a space.
  - `getTextList` reads the entered words back.
- **`AnyPosCompleter`** is a completer that accepts an entry when the typed text occurs anywhere in it, ignoring case.
  - Each new prefix rebuilds a filtering view over the source model.
- **`ConfigTableWidget`** is a table whose columns are configured by key, type, sub-key and sub-type.
  - Each row is built from a dictionary, and each cell label is computed from that dictionary by `_setItemCore` and `_makeItemString`.
  - `updateItemAt` rewrites only the columns whose label it can compute.
- **`makeListByDictKey`** collects the values that a list of dictionaries holds under one key.
- **`CheckButtonGroup`** (check-box type) is a sequence of labelled check boxes.
  - They are set by name, by a list of names, by index (exclusively or not), all at once, and queried.
- **`HeaderComboBox`** is an editable combo box that accepts only the entries of its item list.
  - An activated entry outside the list is removed, and the selection returns to the last accepted index.

Layout:

| file | module | contents |
|---|---|---|
| `py.dfy` | `Py` | Python values and the built-ins the widgets rely on: `dict.get`, `dict.update`, `in`, `lower`, `join`, `split`, `replace`, `str`, negative slicing; `Option`, `Result`, Python exceptions |
| `lineedit.dfy` | `LineEdit` | `MultiCompleteEdit` |
| `completer.dfy` | `Completer` | `AnyPosCompleter` |
| `utility.dfy` | `Utility` | `makeListByDictKey` |
| `table.dfy` | `Table` | `ConfigTableWidget` |
| `button.dfy` | `Button` | `CheckButtonGroup` |
| `combobox.dfy` | `ComboBox` | `HeaderComboBox` |

The code raises Python exceptions on bad input; these are modelled as `Err(...)` and `Fail(...)` results, not excluded by preconditions. Objects whose state the code changes are classes. The pure computations are functions, and each stateful method is proved against them.

Behaviour of the line edit's code that is easy to misread:

- **Accepting a completion.** The code cuts the last `len(completionPrefix)` characters from the end of the text, wherever the cursor is, rather than cutting at the start of the current word. An empty prefix gives `text[:-0] == ""`, which discards the whole text.
- **`getTextList` and the separator.** The code always trims `,` and ` ` and splits at `,`, whatever separator the edit was configured with.
- **Text of only commas and spaces.** `getTextList` raises IndexError on such text, because the trimming loop reads `text[-1]` of the emptied string.

## Model

| member | source | states |
|---|---|---|
| Py.Lookup | table.py:207-210 | `has_key`/`get` on a dictionary's items: a value exists exactly when some item has the key, and it is that item's value |
| Py.Update | table.py:192 | after `d.update(other)` every key maps to `other`'s value if `other` has it, else to `d`'s |
| Py.Contains | completer.py:43 | `needle in hay` holds exactly when `needle` occurs in `hay` at some position |
| Py.ContainsEmpty | completer.py:43 | `""` is contained in every string |
| Py.LowerChar | completer.py:43 | an ASCII upper-case letter becomes the lower-case letter 32 code points above it; every other character is kept |
| Py.Lower | completer.py:43 | `lower()` keeps the length and lower-cases every character |
| Py.LowerCharIdentifiesCaseVariants | completer.py:43 | two characters lower-case to the same character exactly when they are equal or the upper- and lower-case forms of one ASCII letter |
| Py.LowerIdentifiesCaseVariants | completer.py:43 | two strings lower-case to the same string exactly when they have the same length and, position by position, are equal or the upper- and lower-case forms of one ASCII letter |
| Py.Join | table.py:228-231 | joining no parts gives `""`; joining one part gives that part |
| Py.Texts | table.py:228-231 | the strings of a list of values exist exactly when every value is a string (TypeError otherwise), and they are those values |
| Py.JoinValues | table.py:228-231 | `sep.join(values)` succeeds exactly when every value is a string, giving the `sep` join of those strings, and otherwise raises TypeError |
| Py.SplitComma | lineedit.py:274 | `split(",")` gives at least one part, no part holds a comma, and joining the parts with `","` gives the string back |
| Py.SplitCommaPlain | lineedit.py:274 | a comma-free string splits into itself |
| Py.SplitCommaJoin | lineedit.py:274 | `split(",")` undoes `",".join` on comma-free parts |
| Py.ReplaceCommaSpace | lineedit.py:274 | `replace(", ", ",")` never lengthens the text |
| Py.ReplaceCommaSpacePlain | lineedit.py:274 | `replace(", ", ",")` leaves comma-free text unchanged |
| Py.ReplaceAfterPlain | lineedit.py:274 | a comma-free head passes through `replace(", ", ",")` unchanged, whatever follows it |
| Py.ReplaceJoin | lineedit.py:274 | `replace(", ", ",")` turns a comma-space join of comma-free parts into their comma join |
| Py.DropLast | lineedit.py:175 | `s[:-n]` is a prefix of `s`, `n` characters shorter for `0 < n <= len(s)`, and empty for `n == 0` or `n > len(s)` |
| Py.NatToDecimal | table.py:140-141 | `str(n)` of a natural number is nonempty decimal digits without a leading zero, so `str(0)` is exactly "0" |
| Py.NatToDecimalValue | table.py:140-141 | the decimal digits of `str(n)` denote `n` |
| Py.IntToDecimal | table.py:140-141 | `str(n)` starts with `-` exactly for a negative number; the rest is decimal digits without a leading zero ("0" for zero) that denote the absolute value of `n` |
| Py.Show | table.py:140-143 | `str(value)`: `None` gives "None", a string itself, an integer its decimal form, a boolean "True" or "False"; a list is bracketed and a dictionary braced |
| Py.Repr | table.py:140-143 | `repr` of a list element: a string in quotes; any other value as `str` gives it, which for an integer is exact only for a Python `int` (a `long` gets an `L`) |
| LineEdit.TokenStart | lineedit.py:193-197 | the backward scan stops right after the last separator before the cursor, or at 0, with no separator in between |
| LineEdit.CurrentToken | lineedit.py:190-204 | the word is the text just before the cursor, holds no separator, is empty at the start of the text or right after a separator, and reaches back to the separator minus one leading space when `addSpaceAfterCompleting` is set |
| LineEdit.Completed | lineedit.py:175-181 | the new text is the text without its last `len(prefix)` characters, then the completion, then separator and space if configured; an empty or over-long prefix discards the whole text |
| LineEdit.TrimTrailing | lineedit.py:271-272 | the trimmed text is a prefix of the text that does not end in `,` or ` `, and everything removed was `,` or ` ` |
| LineEdit.TextList | lineedit.py:266-276 | empty text gives `[]`; text made only of commas and spaces is exactly the IndexError case; otherwise at least one comma-free word, whose comma join is the trimmed text with `", "` replaced by `","` |
| LineEdit.MultiCompleteEdit.constructor | lineedit.py:148-152 | an empty edit with the given separator and `addSpaceAfterCompleting` |
| LineEdit.MultiCompleteEdit.SetText | lineedit.py:182 | the text is replaced and the cursor goes to its end |
| LineEdit.MultiCompleteEdit.Edit | lineedit.py:217 | an edit by the inherited key handling sets the text and a cursor inside it |
| LineEdit.MultiCompleteEdit.TextUnderCursor | lineedit.py:190-204 | the scanning loop returns exactly `CurrentToken` and changes nothing |
| LineEdit.MultiCompleteEdit.InsertCompletion | lineedit.py:168-182 | the new text is `Completed(old text, completion, len(prefix))` and the cursor is at its end |
| LineEdit.MultiCompleteEdit.GetTextList | lineedit.py:266-276 | the trimming loop and split return exactly `TextList(text)`, including the IndexError |
| LineEdit.LeadingSpaceDropped | lineedit.py:199-202 | with the flag exactly one leading space is dropped; without it the space stays |
| LineEdit.CompletionReplacesToken | lineedit.py:175-181 | with the cursor at the end, the text is what precedes the word under the cursor followed by that word, and accepting replaces exactly that word, keeping the text before it |
| LineEdit.CompletionExample | lineedit.py:168-204 | "Mon, Tu" has the word "Tu"; accepting "Tuesday" gives "Mon, Tuesday, " of length 14 |
| LineEdit.TokenExamples | lineedit.py:190-204 | "Mon, Tue" at 8 gives "Tue"; "Mon, " at 5 gives "" |
| LineEdit.TextListExample | lineedit.py:266-276 | "Mon, Tuesday, " reads back as ["Mon", "Tuesday"] |
| LineEdit.TextListSmallExamples | lineedit.py:266-276 | "a," reads back as ["a"]; ", ," raises IndexError |
| LineEdit.AcceptedIsJoin | lineedit.py:175-179 | the text built by accepting words, each followed by ", ", is their ", " join plus ", " |
| LineEdit.TypedWordIsToken | lineedit.py:190-204 | a word being typed after accepted words is the word under the cursor |
| LineEdit.AcceptedSnoc | lineedit.py:175-179 | accepting one more word appends it and ", " |
| LineEdit.CompletedAfter | lineedit.py:175-181 | accepting a completion for the typed end of the text keeps everything before it |
| LineEdit.TypedWordCompletes | lineedit.py:168-204 | accepting a completion for the typed word appends exactly the completion and ", " to the accepted words |
| LineEdit.RoundTrip | lineedit.py:266-276 | `getTextList` of the text built by accepting comma-free words (the last nonempty and not ending in a space) gives those words back, in order |
| Completer.Accepts | completer.py:41-43 | an entry is accepted exactly when the lower-cased prefix is `in` the lower-cased entry, that is, occurs in it at some position |
| Completer.Filter | completer.py:39-47 | the view never holds more rows than the source, and holds exactly the accepted entries of the source |
| Completer.FilterAppend | completer.py:45-47 | the view keeps the source's order |
| Completer.FilterEmptyPrefix | completer.py:43 | an empty prefix accepts every entry: the view is the whole source |
| Completer.AcceptsIgnoresCase | completer.py:43 | case variants of the prefix or the entry give the same answer |
| Completer.FilterIgnoresCase | completer.py:43-47 | the whole view is the same for every case variant of the prefix |
| Completer.FilterExample | completer.py:41-47 | "day" over ["Monday", "Sunday"] keeps both, in order |
| Completer.FilterBothAccepted | completer.py:41-47 | two accepted entries are both kept, in order |
| Completer.AnyPosCompleter.constructor | completer.py:17-28 | the prefix starts empty; an item model or a nonempty list becomes the source model and the model; an empty list or anything else leaves no source model |
| Completer.AnyPosCompleter.SetModel | completer.py:31-33 | the model becomes both the source model and the completion model |
| Completer.AnyPosCompleter.UpdateModel | completer.py:36-47 | the completion model becomes a filtering view with the prefix captured at call time; the source model is unchanged; the view holds only source entries |
| Completer.AnyPosCompleter.SplitPath | completer.py:50-53 | the path becomes the prefix, the view is rebuilt for it, and `""` is returned |
| Utility.Project | utility.py:10 | `[d[key] for d in values]` succeeds exactly when every value is a dictionary with the key, giving their values in order; otherwise the error of the first value without the key: KeyError for a dictionary, TypeError for anything else |
| Utility.HasKey | utility.py:7 | `has_key(key)` holds exactly for a dictionary with an item whose key is `key` |
| Utility.MakeListByDictKey | utility.py:3-10 | `[]` for an empty list; AttributeError when the first element is no dictionary; `[]` when the first lacks the key; the values in order when all have it; past a first dictionary with the key, exactly `Project`, so a later element without it raises that element's KeyError or TypeError |
| Table.SubstringsOfInt | table.py:140-141 | `colType in ("int")` holds exactly for the seven substrings of "int" |
| Table.SubstringsOfBool | table.py:142-143 | `colType in ("bool")` holds exactly for the ten substrings of "bool" |
| Table.MakeItemString | table.py:135-145 | None gives `""`; a missing type raises TypeError; "str"/"string" give the value itself; substrings of "int" or "bool" give `str(value)`; every other type gives `""` |
| Table.MakeItemStrings | table.py:231 | the converted list exists exactly when every element converts, and holds each element's conversion |
| Table.SetItemCore | table.py:203-236 | AttributeError when the data is no dictionary or lacks the column's key; a label is only computed from a dictionary; the only exceptions are AttributeError, TypeError and KeyError |
| Table.SetItemCoreDict | table.py:212-220 | a "dict" column: AttributeError without a nested dictionary holding the sub-key, otherwise the nested value converted by the sub-type |
| Table.SetItemCoreScalar | table.py:222-234 | a "list" column whose value is no list gives `""`; a column of any other type converts its value by that type |
| Table.SetItemCoreList | table.py:230-231 | a "list" column whose elements all convert to strings gives their ", " join |
| Table.SetItemCoreListOfDict | table.py:225-228 | a "list" column with sub-type "dict" over dictionaries that all hold the sub-key gives the ", " join of their values under it |
| Table.JoinLabels | table.py:228-231 | `", ".join(labels)` is the ", " join of the labels when all are strings, TypeError otherwise |
| Table.CellLabel | table.py:163-168 | AttributeError becomes `""`; every other exception escapes unchanged; a string label is the cell's text; an integer or boolean label makes an empty cell; any other label raises TypeError |
| Table.FirstErr | table.py:161-170 | the first column whose label lets an exception escape: every column before it computes a label |
| Table.UpdateCell | table.py:186-193 | one column of `updateItemAt` keeps the row's number of cells (its cell and its dictionary merge are stated by the lemmas below) |
| Table.UpdateFrom | table.py:185-195 | the rest of `updateItemAt` keeps the row's number of cells (its cells and its dictionary merge are stated by the `UpdateFrom...` lemmas) |
| Table.UpdateFromData | table.py:178-192 | a successful `updateItemAt` that updates some column leaves the row's dictionary mapping every key of `itemData` to its value there and every other key to its old value; one that updates none leaves the dictionary unchanged |
| Table.UpdateCellChanges | table.py:190-192 | one column of `updateItemAt` changes at most its own cell, and only to the label computed for it |
| Table.UpdateCellPasses | table.py:186-193 | a column that passes is reported exactly when its label computes, and then holds that label |
| Table.UpdateFromKeepsShape | table.py:185-195 | `updateItemAt` keeps the number of cells and the cells of columns already passed |
| Table.UpdateFromChangesOnlyComputedCells | table.py:185-195 | only cells whose label was computed change, and each gets that label |
| Table.UpdateFromSuccessCells | table.py:185-195 | on success every column whose label computes is set to it |
| Table.UpdateFromSuccessColumns | table.py:185-195 | on success the updated columns are exactly those whose label computes |
| Table.UpdateFromAscending | table.py:184-195 | the updated columns are reported in ascending order, each once, all within the row |
| Table.UpdateFromWithoutLabels | table.py:186-189 | data matching no column changes nothing and updates nothing |
| Table.SortedRows | table.py:257 | `sorted(set)`: strictly ascending, with the same elements |
| Table.ConfigTableWidget.Item | table.py:190 | `self.item(row, col)`: the cell of an existing row and column, None outside the table |
| Table.ConfigTableWidget.constructor | table.py:40-42 | the given configuration and no rows |
| Table.ConfigTableWidget.GetHeaderSectionByKey | table.py:95-115 | ValueError when no argument is given; otherwise the first column whose key matches and whose sub-key, if present, matches, with a given column configuration supplying both; AttributeError when none matches |
| Table.ConfigTableWidget.AddItem | table.py:154-173 | one row is appended sharing the data; columns before the first escaping exception (`FirstErr` of `Labels`) get their label, the rest stay empty; the outcome is that exception or success |
| Table.ConfigTableWidget.UpdateOne | table.py:186-193 | one step of the loop gives exactly `UpdateCell` |
| Table.ConfigTableWidget.UpdateRow | table.py:183-195 | the loop over one row gives exactly `UpdateFrom` of the computed labels |
| Table.ConfigTableWidget.UpdateItemAt | table.py:183-195 | the row and result are `UpdateFrom` of the computed labels and the old row, so its cells and its dictionary are those stated by the `UpdateFrom...` lemmas; no other row changes; a missing row is a row without items |
| Table.ConfigTableWidget.ClearAll | table.py:243-245 | no rows remain |
| Table.ConfigTableWidget.SelectedRows | table.py:251-257 | the rows of the selected items, each once, strictly ascending |
| Table.ConfigTableWidget.GetItemByValue | table.py:323-330 | the first row whose item in the column has the text, skipping rows without an item; None when no row has it |
| Table.ConfigTableWidget.GetItemDataAt | table.py:310-316 | the row's dictionary when its first item exists, AttributeError otherwise |
| Button.CheckedIndices | button.py:337-347 | the checked positions: each is checked, every checked position is there, strictly ascending |
| Button.CheckedNames | button.py:319-331 | the labels of the checked buttons, position by position |
| Button.NoneChecked | button.py:337-347 | with no button checked, no position is reported |
| Button.AllChecked | button.py:337-347 | with every button checked, every position is reported, in order |
| Button.OneChecked | button.py:293-299 | after an exclusive check exactly one position is reported |
| Button.CheckButtonGroup.constructor | button.py:169-176 | one unchecked button per item, in order |
| Button.CheckButtonGroup.AddItem | button.py:196-203 | exactly one unchecked button with the label is appended |
| Button.CheckButtonGroup.SetCheckedByNames | button.py:243-254 | buttons whose label is among the names get `check`, the others `not check`; labels and order stay |
| Button.CheckButtonGroup.SetCheckedByName | button.py:262-273 | buttons whose label is the name get `check`, the others `not check`; labels and order stay |
| Button.CheckButtonGroup.SetAll | button.py:416-430 | every button gets `check`; labels and order stay |
| Button.CheckButtonGroup.CheckAll | button.py:401-402 | every button is checked |
| Button.CheckButtonGroup.UncheckAll | button.py:408-409 | every button is unchecked |
| Button.CheckButtonGroup.SetCheckedByIndex | button.py:282-299 | IndexError past the end, AttributeError for a negative index, both changing nothing; otherwise the target gets `check`, and the others get `not check` (exclusive) or stay (non-exclusive) |
| Button.CheckButtonGroup.GetCheckedIndices | button.py:337-347 | the loop returns exactly `CheckedIndices` |
| Button.CheckButtonGroup.GetCheckedNames | button.py:319-331 | the loop returns exactly `CheckedNames` |
| Button.CheckButtonGroup.IndexOf | button.py:370-380 | the first position with the label, or -1 when there is none |
| Button.CheckButtonGroup.NameAt | button.py:386-395 | the label at the position; IndexError past the end; AttributeError for a negative index |
| ComboBox.FindText | combobox.py:196-197 | the first position of an exactly equal entry, or -1 exactly when there is none |
| ComboBox.RemoveAt | combobox.py:80 | the entry is removed and the others keep their order |
| ComboBox.HeaderComboBox.constructor | combobox.py:33-55 | entries and allowed items are the items, `_prevIdx` is 0, the first entry is current |
| ComboBox.HeaderComboBox.ItemText | combobox.py:78 | the entry's text, `""` for an index without an entry |
| ComboBox.HeaderComboBox.SetCurrentIndex | combobox.py:147-148 | the index becomes current, or -1 when it has no entry |
| ComboBox.HeaderComboBox.Activated | combobox.py:77-87 | a disallowed entry is removed, `_prevIdx` is restored and reported and stays; an allowed one becomes current and the new `_prevIdx` and is reported |
| ComboBox.HeaderComboBox.ClearItems | combobox.py:93-94 | no entries and no current index; the allowed items stay |
| ComboBox.HeaderComboBox.SetCurrentText | combobox.py:139-144 | the first equal entry becomes current; without one nothing changes |
| ComboBox.HeaderComboBox.SetItems | combobox.py:181-188 | entries and allowed items become the items, the first entry is current, `_prevIdx` is untouched |
| ComboBox.HeaderComboBox.CurrentIndex | combobox.py:100-101 | the current index, -1 or the position of an entry |

## Left out

- Rendering, layout, sizing, styling, visibility and signal wiring are not modelled. This covers `HeaderLineEdit`, `CenterCheckBox`, and the header, description, direction and size methods of every widget. The `completed`, `activated`, `itemToggled` and `itemClicked` signals are not modelled either; instead, `Activated` returns the index it would emit.
- `keyPressEvent` and `_updateCompleterPopupItems` are not modelled: they handle popup visibility and event ignoring. Their effect on the text is the `Edit` method, and `completionPrefix` is passed to `InsertCompletion` as a parameter.
- `setCompleteItems`, `setCaseSensitivity` and `AnyPosMultiCompleteEdit` are not modelled: they configure the toolkit's own completer.
- QCompleter and QSortFilterProxyModel internals (popup order, prefix matching inside the view) are not modelled. An item model is given by the display texts of its rows.
- `getSelectItemsAt` is not modelled: it returns `list(set(...))` in an unspecified order and depends on Python `int()` parsing.
- `sortItemsByKey` is not modelled: it only calls Qt's `sortItems`.
- `_initSettings`, `setSignals`, `_setHeaderSetting` and `setColumnVisibe` are not modelled: they configure the view.
- Sorting is not modelled. `_initSettings` turns sorting on (table.py:60). With sorting on, Qt may move a row when `setItem` (table.py:168) or `setText` (table.py:191) changes the sort column. The real `addItem` and `updateItemAt` can then write the later columns into another row. The model keeps every row in place, so what it states about `AddItem` and `UpdateItemAt` holds only for a table whose sorting is off.
- Radio buttons are not modelled (only the check-box type is): their auto-exclusivity is toolkit behaviour. `setIcon` is also not modelled.
- `HeaderComboBox` has several members outside the model:
  - `currentText`, `itemData`, `setItemData`, `setComboEditable`, `setHeader` and `findText` with other flags are not modelled.
  - Inserting typed text into the entries is done by Qt before `activated` fires; the model takes the index `_activatedEvent` receives.
  - How Qt moves the current index inside `removeItem` is not modelled; `setCurrentIndex` overrides it straight away.
- Aliasing is not modelled:
  - all items of a row share one dictionary, so the model keeps one dictionary per row;
  - `update` also changes the caller's dictionary;
  - `_items` is the caller's list.
- Intermediate states are not modelled. `AddItem` and `UpdateItemAt` write the row once, at the end; the state they leave, including after an exception, is the state the code leaves.
- Py.Lower: folds ASCII letters only, not all of Unicode.
- Py.Show / Py.Repr: the escapes of `repr`, the `u` prefix of unicode strings and the `L` suffix that `repr` gives a Python 2 `long` (an integer beyond `sys.maxint`, a bound that depends on the platform) are not modelled: the model has one unbounded integer type. Python 2's byte strings and unicode strings are one string type here, so the UnicodeEncodeError that `str()` raises on a unicode string holding a non-ASCII character is not modelled. A dictionary prints its items in iteration order, and its keys are strings.
- Table.ColInfo: every configuration entry is assumed to have `key` and `type`, so the KeyError of `colInfo[...]` is not modelled. A `subKey` or `subType` present with the value None is treated as absent.
- Table.CellLabel: the cell constructor is not modelled beyond its result. For an integer or boolean label PySide takes the item-type overload, and the model gives the empty text that this makes, without the item type it sets.
- Table.ConfigTableWidget.AddItem, Table.ConfigTableWidget.UpdateItemAt and Table.ConfigTableWidget.GetItemByValue: return the outcome, the updated column numbers and the found row number rather than the created, updated or found item objects.
- Table.MakeItemString and Py.JoinValues: with byte strings and unicode strings as one type, `str(value)` of a non-ASCII unicode value (table.py:141, 143) never raises UnicodeEncodeError, and `", ".join` of a list mixing non-ASCII byte strings with unicode strings (table.py:228, 231) never raises UnicodeDecodeError.
- Table.ConfigTableWidget.GetHeaderSectionByKey: the configuration's key and sub-key are strings. Python's `==` between other types is not modelled.
- ComboBox.HeaderComboBox.Activated: it keeps the selection on an allowed entry only when the activated entry is allowed, or lies after `_prevIdx`. A disallowed entry before `_prevIdx` shifts the remembered entry. Qt's default policy inserts typed text at the bottom, so that case does not arise with it.
- The example application `example/example_ui.py` is not modelled: it only assembles widgets.
