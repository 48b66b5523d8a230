# Spyder: configuration, shortcut and naming logic, modelled in Dafny

This project models the deterministic logic inside several parts of the
Spyder IDE. In the original, each of these parts is mixed in with Qt widget
code:

- **Shortcuts** (`shortcuts.dfy`): the keyboard-shortcut editor and table.
  - The editor holds a key sequence of at most four strokes.
  - Its warning has a fixed priority, and its Ok button follows from the warning.
  - Conflicts are between shortcuts with the same key in a shared context.
  - Also modelled: clearing conflicting keys on override, loading the table
    from the configuration, the duplicate-key check over the whole table,
    and wrap-around row navigation.
- **DataFrame** (`dataframe.dfy`): the variable explorer's DataFrame editor.
  - Lazy loading of rows and columns in chunks, in the data model and in the header model.
  - The names given to inserted or duplicated index labels: `label_copy(n)`
    for text, and the next free integer for numbers.
  - Also `bool_false_check`, `global_max`, and the bookkeeping of `remove_item`.
- **ConfigPage** (`config_page.dfy`): the settings page base class.
  - It tracks changed options and the modified flag.
  - `save_to_conf` writes only changed options.
  - List options are shown as text joined with `", "` and read back by splitting on `","` and stripping.
  - Also modelled: the first-failure validation, the `create_lineedit`
    precondition, and the section default of `get_option`/`set_option`.
- **Linting** (`linting.dfy`): the linting tab.
  - Its two regex fields are validated, filenames first.
  - Its provider radio buttons each show exactly one group.
- **Pyenv** (`pyenv.dfy`): pyenv interpreter paths, and the map of
  environments built from the lines `pyenv versions` prints, including its
  collision renaming.
- **Images** (`images.dfy`): the image-path registry. It maps an image name
  to its file, and files in an `svg` directory win.
- **SvgColorize** (`svg_colorizer.dfy`): coloured-path extraction from an
  SVG icon, the XML declaration rule of `save_to_string`, and the guards of
  `save_to_file` and `_find_elements_by_class`.
- **Installers** (`installers.dfy`): the conda installer build's merging of
  package specifications, its platform and architecture strings, and its
  artifact file name.

Shared modules model the Python built-ins the code relies on:

- `Wrappers`: `Option` and `Result`.
- `Text`: `str.split`, `join`, `strip`, `lower`, `replace`, `find`/`rfind`,
  `isnumeric`, and `int`/`str` conversion of decimal numbers.
- `Dicts`: an insertion-ordered `dict` as a list of key/value pairs.
- `Paths`: `os.path.join`, `basename`, `dirname` and `splitext`.
- `Seqs`: list comprehensions with a filter.

State that the source updates in place is a Dafny `class`:

- the shortcut editor, the shortcut records (whose `key` is cleared through
  aliases), the table model and the table;
- both DataFrame models;
- the configuration page (its store is the configuration `CONF`);
- the linting tab, the image registry and the pyenv cache.

Loops become methods whose `ensures` ties the result, or the new state, to
a specification function. Lemmas then prove what the source promises about
that function.

Things outside the program become parameters:

- the key sequences typed (as strings);
- the configuration store;
- the result of `re.compile`, `os.walk`, `osp.isdir`, `osp.isfile` and `osp.abspath`;
- the output of `pyenv versions`;
- the parsed SVG tree;
- the version reported by the source tree and the local channel's package versions.

## Model

| member | source | states |
|---|---|---|
| Shortcuts.Code | spyder/plugins/shortcuts/widgets/table.py:52-56 | Warning codes are 0 to 4, and code 0 belongs to "no warning" alone. |
| Shortcuts.Strokes | spyder/plugins/shortcuts/widgets/table.py:429-435 | Splitting a key string on `", "` always gives at least one stroke. |
| Shortcuts.NewSequenceStrokes | spyder/plugins/shortcuts/widgets/table.py:168-171 | Joining strokes with `", "` and splitting the result gives the strokes back, when none contains `", "`. |
| Shortcuts.CheckAscii | spyder/plugins/shortcuts/widgets/table.py:348-358 | The sequence passes exactly when every stroke is ASCII. |
| Shortcuts.EditorAcceptsMore | spyder/plugins/shortcuts/widgets/table.py:360-378 | A sequence the single-key rule accepts in any context is also accepted in the editor context. |
| Shortcuts.LoneLetterRejected | spyder/plugins/shortcuts/widgets/table.py:360-378 | A sequence whose first stroke is a lone capital letter, with no modifier, is rejected in every context. |
| Shortcuts.Shortcut.constructor | spyder/plugins/shortcuts/widgets/table.py:476-481 | A shortcut record holds the given context, name, key and plugin, with index 0. |
| Shortcuts.ShortcutEditor.constructor | spyder/plugins/shortcuts/widgets/table.py:153-167 | A new editor shows `<None>` for an empty sequence, has an empty buffer and the empty-sequence warning, and Ok is disabled. |
| Shortcuts.ShortcutEditor.ConflictsIn | spyder/plugins/shortcuts/widgets/table.py:328-346 | The result holds exactly the shortcuts of the list that conflict with the sequence being typed. |
| Shortcuts.ShortcutEditor.CheckConflicts | spyder/plugins/shortcuts/widgets/table.py:328-346 | An empty buffer has no conflicts. A conflict has a non-empty key, is not the shortcut being edited, and shares its context or one of the two contexts is `_`. Every conflicting shortcut is reported. |
| Shortcuts.ShortcutEditor.UpdateWarning | spyder/plugins/shortcuts/widgets/table.py:380-427 | Sets the warning by priority: empty, conflict, blacklisted, invalid key, none. Sets Ok from the warning. Leaves the buffer unchanged. |
| Shortcuts.OkEnabledMeaning | spyder/plugins/shortcuts/widgets/table.py:380-427 | After an update, Ok is enabled exactly when the buffer is non-empty and either there are conflicts or the sequence is not blacklisted and passes both key checks. |
| Shortcuts.SetFromStrLeavesStale | spyder/plugins/shortcuts/widgets/table.py:168-175 | On a new dialog, setting the sequence from any text fails and leaves strokes held while the dialog is still graded as empty, with Ok disabled. |
| Shortcuts.ShortcutEditor.KeyPress | spyder/plugins/shortcuts/widgets/table.py:309-326 | An unknown key, key 0, a lone modifier, or a full buffer changes nothing. Any other key appends exactly one stroke and regrades. The buffer never exceeds four strokes. |
| Shortcuts.ShortcutEditor.BackNewSequence | spyder/plugins/shortcuts/widgets/table.py:447-450 | Drops only the last stroke, and does nothing on an empty buffer. |
| Shortcuts.ShortcutEditor.ClearNewSequence | spyder/plugins/shortcuts/widgets/table.py:452-455 | Empties the buffer, which gives the empty-sequence warning, no conflicts and Ok disabled. |
| Shortcuts.ShortcutEditor.UnbindShortcut | spyder/plugins/shortcuts/widgets/table.py:457-460 | Empties the buffer and accepts the dialog. |
| Shortcuts.ShortcutEditor.SetSequenceFromStr | spyder/plugins/shortcuts/widgets/table.py:429-435 | As written, the call fails with `TypeError`. The buffer has become the strokes of the string, while the warning, the conflicts and the Ok button keep their old values. |
| Shortcuts.ShortcutEditor.SetSequenceFromStrIntended | spyder/plugins/shortcuts/widgets/table.py:429-435 | As intended, the buffer becomes the strokes of the string, joining them gives the string back, and the dialog is graded for them. |
| Shortcuts.ShortcutEditor.SetSequenceToDefault | spyder/plugins/shortcuts/widgets/table.py:437-445 | A non-empty default becomes the buffer. A missing or empty default unbinds and accepts, leaving the warning, the conflicts and the Ok button as they were. |
| Shortcuts.ShortcutEditor.AcceptOverride | spyder/plugins/shortcuts/widgets/table.py:462-468 | Clears the key of every shortcut that conflicted and no other key, keeps every index, and accepts. |
| Shortcuts.ClearKeys | spyder/plugins/shortcuts/widgets/table.py:465-467 | Every shortcut in the list ends with an empty key and its old index. |
| Shortcuts.ShortcutsModel.constructor | spyder/plugins/shortcuts/widgets/table.py:497-501 | A new model has no shortcuts. |
| Shortcuts.ShortcutsModel.SetData | spyder/plugins/shortcuts/widgets/table.py:600-610 | Succeeds exactly for a valid index with an in-range row. Changes only the key of that row's shortcut, and only in the sequence column. |
| Shortcuts.DataMap | spyder/plugins/shortcuts/widgets/table.py:708-717 | The keys are exactly the lowercased (context, name) pairs of the registered shortcut data. Each key maps to the plugin name of the last declaration with that pair. |
| Shortcuts.Kept | spyder/plugins/shortcuts/widgets/table.py:719-727 | Every row kept comes from a configured shortcut whose (context, name) is registered, and carries that shortcut's key and plugin. The converse is Shortcuts.KeptComplete. |
| Shortcuts.Insert | spyder/plugins/shortcuts/widgets/table.py:728-730 | Inserting into rows sorted by context + name keeps them sorted and adds exactly that row. |
| Shortcuts.SortRows | spyder/plugins/shortcuts/widgets/table.py:728-730 | The result is sorted by context + name and is a permutation of the input. |
| Shortcuts.LexLeTotal | spyder/plugins/shortcuts/widgets/table.py:728-730 | Any two sort keys are ordered one way or the other. |
| Shortcuts.LoadedFromConf | spyder/plugins/shortcuts/widgets/table.py:706-741 | A loaded row has a lowercase context and name, comes from a configured shortcut with its key, and is registered. Its plugin name is that of the last declaration of its pair. |
| Shortcuts.KeptComplete | spyder/plugins/shortcuts/widgets/table.py:719-727 | Every configured shortcut whose (context, name) is registered is kept, with its key and plugin. |
| Shortcuts.LoadedComplete | spyder/plugins/shortcuts/widgets/table.py:719-730 | Every configured shortcut whose (context, name) is registered appears in the loaded table, with its configured key and the plugin of the last declaration. |
| Shortcuts.LoadedSortedPermutation | spyder/plugins/shortcuts/widgets/table.py:728-730 | The loaded table is sorted and holds exactly the kept rows. |
| Shortcuts.ShortcutsTable.constructor | spyder/plugins/shortcuts/widgets/table.py:641-646 | A table is built over the given source model. |
| Shortcuts.ShortcutsTable.LoadShortcuts | spyder/plugins/shortcuts/widgets/table.py:706-742 | The model's shortcuts are fresh, distinct records of the loaded rows in order, each with its position as its index. |
| Shortcuts.NextRow | spyder/plugins/shortcuts/widgets/table.py:806-812 | Moving down from an in-range row stays in range and wraps from the last row to 0. |
| Shortcuts.PreviousRow | spyder/plugins/shortcuts/widgets/table.py:814-820 | Moving up from an in-range row stays in range and wraps from 0 to the last row. |
| Shortcuts.RowNavigationInverse | spyder/plugins/shortcuts/widgets/table.py:806-820 | Moving down and then up, or up and then down, returns to the starting row. |
| Shortcuts.RowClashesMembers | spyder/plugins/shortcuts/widgets/table.py:751-757 | The pairs found for row i are exactly (i, k) for a later k below the bound that clashes with row i. |
| Shortcuts.EmptyKeyNoClashes | spyder/plugins/shortcuts/widgets/table.py:749-750 | A row with an empty key takes part in no reported pair. |
| Shortcuts.TableClashesMembers | spyder/plugins/shortcuts/widgets/table.py:743-758 | The pairs found for the first n rows are exactly the clashing pairs i < j with i among those rows. |
| Shortcuts.AllTableClashes | spyder/plugins/shortcuts/widgets/table.py:743-758 | The whole table's pairs are exactly the pairs i < j that clash: equal non-empty keys, and the same context or a `_` context. |
| Shortcuts.ShortcutsTable.CheckShortcuts | spyder/plugins/shortcuts/widgets/table.py:743-758 | The nested loop reports exactly the clashing pairs i < j of the model's shortcuts. |
| DataFrame.BoolFalseCheck | spyder/plugins/variableexplorer/widgets/dataframeeditor.py:194-202 | The result is `""` exactly when the value is empty or its lowercased form is a false word of line 156. Otherwise it is the value unchanged. |
| DataFrame.BoolFalseCheckIdempotent | spyder/plugins/variableexplorer/widgets/dataframeeditor.py:194-202 | Applying the check twice gives the same as once. |
| DataFrame.GlobalMax | spyder/plugins/variableexplorer/widgets/dataframeeditor.py:205-209 | With at least one non-None column, the result is the largest maximum and the smallest minimum, each taken from some column. With none, it is a `ValueError`. |
| DataFrame.Fetched | spyder/plugins/variableexplorer/widgets/dataframeeditor.py:659-674 | A fetch grows the counter by at most one chunk, never past the total, and by at least one while rows remain. It changes nothing when nothing remains. |
| DataFrame.FetchesReachTotal | spyder/plugins/variableexplorer/widgets/dataframeeditor.py:659-674 | Enough fetches load exactly the total. |
| DataFrame.DataFrameModel.RowCount | spyder/plugins/variableexplorer/widgets/dataframeeditor.py:646-657 | The row count is the smaller of the total and the loaded rows. |
| DataFrame.DataFrameModel.ColumnCount | spyder/plugins/variableexplorer/widgets/dataframeeditor.py:676-690 | The column count is the smaller of the total and the loaded columns. |
| DataFrame.DataFrameModel.constructor | spyder/plugins/variableexplorer/widgets/dataframeeditor.py:269-297 | Above 500000 cells, 500 rows and 40 columns are loaded. Otherwise all rows load up to 100000 (500 beyond), and all columns up to 60 (40 beyond). Colouring is on below the size limit. |
| DataFrame.DataFrameModel.FetchMore | spyder/plugins/variableexplorer/widgets/dataframeeditor.py:659-674 | Each requested counter takes one fetch step and the totals are unchanged. A counter within its total stays within it. |
| DataFrame.DataFrameModel.RecalculateIndex | spyder/plugins/variableexplorer/widgets/dataframeeditor.py:540-551 | After a reset both counters equal the new totals, so every row and column is counted. |
| DataFrame.DataFrameHeaderModel.constructor | spyder/plugins/variableexplorer/widgets/dataframeeditor.py:1548-1571 | The header shape is taken along the axis: header rows with data columns for axis 0, and the reverse for axis 1. |
| DataFrame.DataFrameHeaderModel.RowCount | spyder/plugins/variableexplorer/widgets/dataframeeditor.py:1573-1581 | For axis 0 it is the header rows, at least 1. Otherwise it is the smaller of the total and the loaded rows. |
| DataFrame.DataFrameHeaderModel.ColumnCount | spyder/plugins/variableexplorer/widgets/dataframeeditor.py:1583-1591 | For axis 0 it is the smaller of the total and the loaded columns. Otherwise it is the header columns, at least 1. |
| DataFrame.DataFrameHeaderModel.FetchMore | spyder/plugins/variableexplorer/widgets/dataframeeditor.py:1593-1608 | Fetches columns for axis 0 and rows for axis 1, one step each, with the totals unchanged. |
| DataFrame.Stringified | spyder/plugins/variableexplorer/widgets/dataframeeditor.py:1377-1380 | Each label is replaced by the string of its text, position by position. |
| DataFrame.Stringify | spyder/plugins/variableexplorer/widgets/dataframeeditor.py:1377-1380 | The in-place loop leaves the array stringified. |
| DataFrame.MaxCopy | spyder/plugins/variableexplorer/widgets/dataframeeditor.py:1386-1398 | The result is the start value or the largest copy number of the form `name` + n + `)` among the texts, whichever is larger. |
| DataFrame.LargestCopy | spyder/plugins/variableexplorer/widgets/dataframeeditor.py:1386-1398 | The loop over the index computes that largest copy number. |
| DataFrame.CopyBase | spyder/plugins/variableexplorer/widgets/dataframeeditor.py:1382-1450 | The base name always ends in `_copy(`, and the start number is at least -1. |
| DataFrame.CopyBaseOfCopy | spyder/plugins/variableexplorer/widgets/dataframeeditor.py:1383-1411 | The base of `text_copy(n)` is `text_copy(` with start n, when `text` has no `_copy(`. |
| DataFrame.LastCopyAt | spyder/plugins/variableexplorer/widgets/dataframeeditor.py:1383-1411 | In `text_copy(digits)`, the last `_copy(` is the one after `text`. |
| DataFrame.CopyOfCopy | spyder/plugins/variableexplorer/widgets/dataframeeditor.py:1383-1411 | A label without `_copy(` gets `label_copy(m+1)`, where m is the largest copy number present or -1. The new name's own base is that copy. |
| DataFrame.NextCopyNameFresh | spyder/plugins/variableexplorer/widgets/dataframeeditor.py:1453-1454 | The generated copy name is not among the existing labels. |
| DataFrame.CopyName | spyder/plugins/variableexplorer/widgets/dataframeeditor.py:1375-1454 | Stringifies the index in place and returns the next copy name of the old labels. |
| DataFrame.FirstFreeAfter | spyder/plugins/variableexplorer/widgets/dataframeeditor.py:1455-1462 | Returns the first integer above the label that is not in the index: every integer strictly between is present. |
| DataFrame.NextIndexName | spyder/plugins/variableexplorer/widgets/dataframeeditor.py:1358-1462 | An integer label gets the first free larger integer and leaves the index unchanged. Any other label stringifies the index and gets its next copy name. |
| DataFrame.Dedup | spyder/plugins/variableexplorer/widgets/dataframeeditor.py:1481-1491 | The result has no repeats and holds exactly the input's elements. |
| DataFrame.DedupPrefix | spyder/plugins/variableexplorer/widgets/dataframeeditor.py:1481-1491 | Deduplicating a longer prefix only appends, so labels keep their first-seen order. |
| DataFrame.SelectedLabels | spyder/plugins/variableexplorer/widgets/dataframeeditor.py:1481-1491 | One label is read per selected cell, along the axis. |
| DataFrame.RemoveItem | spyder/plugins/variableexplorer/widgets/dataframeeditor.py:1465-1520 | Gives: nothing for an empty selection; an error when a cell is invalid; nothing when not confirmed; otherwise the deduplicated labels. Focus moves back one row (axis 0) or column (axis 1) unless already at 0. |
| ConfigPage.KeyOf | spyder/widgets/config.py:494-499 | A change is recorded as the bare option when the section is None, and as (section, option) otherwise. |
| ConfigPage.SpyderConfigPage.HasBeenModified | spyder/widgets/config.py:494-499 | Sets the modified flag and the apply button, and adds exactly that change key. |
| ConfigPage.SectionFor | spyder/widgets/config.py:66-87 | A given section is used, and None falls back to the page's section. |
| ConfigPage.Lookup | spyder/widgets/config.py:83-87 | A stored option gives its value. A missing one gives the default, or an error without one. |
| ConfigPage.SpyderConfigPage.GetOption | spyder/widgets/config.py:83-87 | Reads the option under the defaulted section: the stored value if present, otherwise the default if given, otherwise a `NoOptionError`. |
| ConfigPage.SpyderConfigPage.SetOption | spyder/widgets/config.py:66-81 | Writes the value under the defaulted section and changes nothing else. |
| ConfigPage.ShownText | spyder/widgets/config.py:270-277 | A list option is shown as its items joined with `", "`. Any other value is shown as its string. A flag or number shown as a list fails. |
| ConfigPage.SavedValue | spyder/widgets/config.py:408-413 | A list text gives at least one item, each stripped and free of commas. Other text is saved unchanged. |
| ConfigPage.ListRoundTrip | spyder/widgets/config.py:408-413 | Items without commas or surrounding blanks survive showing and saving unchanged. |
| ConfigPage.EmptyListRoundTrip | spyder/widgets/config.py:408-413 | An empty list is shown as `""` and comes back as `[""]`. |
| ConfigPage.CommaItemSplits | spyder/widgets/config.py:408-413 | A list shown with one item comes back with one item more than that item has commas. Each is the stripped text between two commas, and those texts rejoined with `,` are the item. |
| ConfigPage.Saved | spyder/widgets/config.py:402-423 | At most one write per line edit. |
| ConfigPage.Written | spyder/widgets/config.py:402-423 | After the writes, the store's keys are its old keys plus the keys written. |
| ConfigPage.SavedOnlyChanged | spyder/widgets/config.py:402-407 | Every write comes from a line edit whose option changed, or from any line edit when the page does not load from the configuration. |
| ConfigPage.SavedEveryChanged | spyder/widgets/config.py:402-407 | Every line edit that qualifies is written, under its defaulted section, with its saved value. |
| ConfigPage.NothingChangedNothingSaved | spyder/widgets/config.py:402-407 | A page that loads from the configuration and has no changes writes nothing. |
| ConfigPage.NotLoadingSavesAll | spyder/widgets/config.py:402-407 | A page that does not load from the configuration writes every line edit. |
| ConfigPage.WrittenKeeps | spyder/widgets/config.py:402-423 | A key that is not written keeps its presence and its value. |
| ConfigPage.SpyderConfigPage.SaveToConf | spyder/widgets/config.py:402-423 | The store becomes the old store with the saved writes applied in order. |
| ConfigPage.SpyderConfigPage.constructor | spyder/widgets/config.py:106-134 | A new page has no widgets, no changes, no restart options, and is not modified. |
| ConfigPage.SpyderConfigPage.SetModified | spyder/widgets/config.py:191-195 | Sets the flag and the apply button. `False` empties the changed options, and `True` keeps them. |
| ConfigPage.SpyderConfigPage.PromptRestart | spyder/widgets/config.py:180-183 | One prompt when a restart option changed, and none otherwise. |
| ConfigPage.SpyderConfigPage.ApplyChanges | spyder/widgets/config.py:161-184 | Changes nothing when not modified. Otherwise it saves the changed options, prompts for a restart at most once, and ends unmodified with no changed options. |
| ConfigPage.Registered | spyder/widgets/config.py:279-284 | Every line edit that needs a restart has its change key among the restart options, and the keys stay unique. |
| ConfigPage.SpyderConfigPage.LoadFromConf | spyder/widgets/config.py:260-284 | Fills in each line edit's text in order up to the first missing option, which is reported, and registers the restart options up to there. |
| ConfigPage.SpyderConfigPage.CreateLineEdit | spyder/widgets/config.py:582-668 | A validation callback without a reason is a `RuntimeError` that adds nothing. Otherwise one line edit is appended. An option from another section is recorded as cross-section. |
| ConfigPage.SpyderConfigPage.SetValidator | spyder/widgets/config.py:712-717 | Attaches a validator with its message to one line edit and changes nothing else. |
| ConfigPage.FirstRejected | spyder/widgets/config.py:197-207 | Finds the first enabled line edit whose validator rejects its text; none before it rejects. |
| ConfigPage.TabsAsked | spyder/widgets/config.py:209-219 | Tabs are asked in order up to and including the first that fails. |
| ConfigPage.SpyderConfigPage.IsValid | spyder/widgets/config.py:197-220 | Valid exactly when no line edit rejects and every tab passes. The first rejection gives its message and asks no tab. |
| Linting.Patterns | spyder/plugins/completion/providers/languageserver/conftabs/linting.py:199-207 | Splitting a field on `","` gives at least one pattern. |
| Linting.Verdict | spyder/plugins/completion/providers/languageserver/conftabs/linting.py:197-217 | Valid exactly when both fields compile. A filenames failure reports the files message. The exclude field is reported only when filenames pass. |
| Linting.EmptyFieldsValid | spyder/plugins/completion/providers/languageserver/conftabs/linting.py:197-217 | Two empty fields are valid whenever the empty pattern compiles. |
| Linting.CompileAll | spyder/plugins/completion/providers/languageserver/conftabs/linting.py:199-207 | The early-exit loop is true exactly when every stripped pattern compiles. |
| Linting.LintingConfigTab.IsValid | spyder/plugins/completion/providers/languageserver/conftabs/linting.py:197-217 | The result follows the verdict on the filenames and exclude fields alone, whatever the provider and the extend fields. At most one message is reported. |
| Linting.LintingConfigTab.ReportInvalidRegex | spyder/plugins/completion/providers/languageserver/conftabs/linting.py:180-195 | Appends the files message or the directories message. |
| Linting.ExactlyOneVisible | spyder/plugins/completion/providers/languageserver/conftabs/linting.py:146-168 | Each provider shows exactly one group, and different providers show different groups. |
| Linting.LintingConfigTab.Toggled | spyder/plugins/completion/providers/languageserver/conftabs/linting.py:146-168 | Un-checking changes nothing. Checking shows exactly the provider's group. |
| Linting.LintingConfigTab.constructor | spyder/plugins/completion/providers/languageserver/conftabs/linting.py:100-122 | The tab starts with the four field texts and no messages. |
| Pyenv.WindowsPathLayout | spyder/utils/pyenv.py:24-26 | On Windows the path is `home\.pyenv\pyenv-win\versions\<name>\python.exe`. |
| Pyenv.ShimsPathLayout | spyder/utils/pyenv.py:27-28 | Elsewhere the empty name gives `home/.pyenv/shims/python`. |
| Pyenv.PosixPathLayout | spyder/utils/pyenv.py:29-30 | Elsewhere a name gives `home/.pyenv/versions/<name>/bin/python`. |
| Pyenv.PathEndsInInterpreter | spyder/utils/pyenv.py:21-31 | Every path's last component is `python.exe` on Windows and `python` elsewhere. |
| Pyenv.Common | spyder/utils/pyenv.py:64-69 | Counts the trailing components two paths share. It is an `IndexError` when the earlier path is shorter and matches all the way. |
| Pyenv.CountCommon | spyder/utils/pyenv.py:64-69 | The counting loop computes that count or that error. |
| Pyenv.Step | spyder/utils/pyenv.py:51-76 | One output line keeps the environment keys unique. |
| Pyenv.StepFresh | spyder/utils/pyenv.py:58-76 | A line with a new name adds `Pyenv: <last>` with its path and `Python <first>`. |
| Pyenv.AddLine | spyder/utils/pyenv.py:52-76 | The loop body computes that step. |
| Pyenv.EnvsFrom | spyder/utils/pyenv.py:50-76 | The map built from the lines has unique keys. |
| Pyenv.BuildEnvs | spyder/utils/pyenv.py:50-76 | The loop over the lines, as written, computes that map or the error a line raises. |
| Pyenv.Entries | spyder/utils/pyenv.py:51-56 | One (name, (path, version)) entry per line, in order. |
| Pyenv.DistinctNamesKept | spyder/utils/pyenv.py:51-76 | Lines with distinct names give exactly those entries in order. |
| Pyenv.DistinctNamesFound | spyder/utils/pyenv.py:51-76 | With distinct names, each line's name maps to its own path and version. |
| Pyenv.ErrorStays | spyder/utils/pyenv.py:65-69 | Once a line raises, the listing's result is that error. |
| Pyenv.CollisionAsWritten | spyder/utils/pyenv.py:58-73 | On a collision, the earlier entry is removed, re-inserted under `Pyenv: `, and the new one takes the name. |
| Pyenv.TwoCollisions | spyder/utils/pyenv.py:58-73 | Two colliding lines give `Pyenv: ` for the first and the name for the second. |
| Pyenv.ThreeCollisions | spyder/utils/pyenv.py:58-73 | A third colliding line overwrites the `Pyenv: ` entry, so the first line's value is gone. |
| Pyenv.AsWrittenLosesValue | spyder/utils/pyenv.py:58-73 | For lines `a/y`, `b/y` and `c/y`, the first version is in neither entry of the result. |
| Pyenv.CommonWithin | spyder/utils/pyenv.py:58-73 | The bounded count of shared trailing components stops at the first difference or at the shorter length. |
| Pyenv.TailsDiffer | spyder/utils/pyenv.py:58-73 | From their first difference on, two different component lists have different tails. |
| Pyenv.SuffixNamesDiffer | spyder/utils/pyenv.py:58-73 | Different component lists without `/` give different names. |
| Pyenv.Unused | spyder/utils/pyenv.py:58-73 | The name returned is not taken, and it is the proposed name whenever that name is free. |
| Pyenv.FreeLength | spyder/utils/pyenv.py:58-73 | The count of trailing components is lengthened past every count at which either name is taken, and below the longer line's length both names it gives are free. |
| Pyenv.CollisionNames | spyder/utils/pyenv.py:58-73 | The two names a collision gives are free and different from each other. |
| Pyenv.IntendedCollisionNames | spyder/utils/pyenv.py:58-73 | For two different lines without `/` in their components, when the names at their first difference are free, those are the names used. |
| Pyenv.IntendedStep | spyder/utils/pyenv.py:58-73 | The corrected step keeps the keys unique in both the table and its record of component lists, and both have the same names. |
| Pyenv.IntendedCollisionKeepsBoth | spyder/utils/pyenv.py:58-73 | In the corrected step, a collision puts the earlier environment and the new one under two different names. Every other entry keeps its name and value, and the table has no other names. |
| Pyenv.IntendedStepKeeps | spyder/utils/pyenv.py:51-76 | A corrected step keeps every environment of the table and adds the line's own. |
| Pyenv.PyenvEnvList.constructor | spyder/utils/pyenv.py:18 | The cache starts empty. |
| Pyenv.IntendedEnvsFrom | spyder/utils/pyenv.py:50-76 | The table built with the corrected renaming has unique keys, its record of lines has the same names, and no line makes it fail. |
| Pyenv.IntendedKeepsEveryLine | spyder/utils/pyenv.py:51-76 | With the corrected renaming, the environment of every output line is in the table. |
| Pyenv.IntendedDistinctNamesKept | spyder/utils/pyenv.py:51-76 | With the corrected renaming too, lines with distinct names give exactly their own entries, in order. |
| Pyenv.BuildIntendedEnvs | spyder/utils/pyenv.py:50-76 | The loop over the lines, with the corrected renaming, computes that table. |
| Pyenv.PyenvEnvList.GetListPyenvEnvs | spyder/utils/pyenv.py:34-79 | Without pyenv, or when the command fails, the result is empty and the cache is kept. Otherwise it is the table of the stripped output's lines, built with the corrected renaming, so it holds every line's environment, and it becomes the cache. |
| Pyenv.PyenvEnvList.GetListPyenvEnvsCache | spyder/utils/pyenv.py:82-84 | Returns the cache. |
| Images.AddFile | spyder/utils/image_path_manager.py:35-56 | Registering a file keeps the names unique. |
| Images.AddFileEffect | spyder/utils/image_path_manager.py:35-56 | Hidden files change nothing. A new name is appended with its path. An svg-directory file replaces. An existing svg entry beats a non-svg file. Otherwise the later file wins. No other name changes. |
| Images.AddFileKeys | spyder/utils/image_path_manager.py:35-37 | A name is present afterwards exactly when it was before or the file is visible and has that stem. |
| Images.AddFiles | spyder/utils/image_path_manager.py:34-56 | Registering a directory's files keeps the names unique. |
| Images.FilesKeys | spyder/utils/image_path_manager.py:34-56 | A name is present after a directory exactly when it was before or some visible file has that stem. |
| Images.AddWalk | spyder/utils/image_path_manager.py:28-56 | Registering a whole walk keeps the names unique. |
| Images.WalkKeys | spyder/utils/image_path_manager.py:33-56 | A name is present after a walk exactly when it was before or some directory provides it. |
| Images.SvgStaysFile | spyder/utils/image_path_manager.py:40-54 | An entry from an svg directory still points into an svg directory after any file. |
| Images.SvgStaysFiles | spyder/utils/image_path_manager.py:40-54 | The same holds after a directory's files. |
| Images.SvgStays | spyder/utils/image_path_manager.py:40-54 | The same holds after a whole walk. |
| Images.ImagePathManager.constructor | spyder/utils/image_path_manager.py:22-26 | A new registry holds the walk of the image directory, or nothing when it is not a directory. It has the `not_found` default. |
| Images.ImagePathManager.AddImagePath | spyder/utils/image_path_manager.py:28-56 | A directory's walk is registered. A path that is not a directory leaves the table unchanged. |
| Images.ImagePathManager.AddDirectory | spyder/utils/image_path_manager.py:34-56 | The loop over one directory's files registers them in order. |
| Images.ImagePathManager.AddFileEntry | spyder/utils/image_path_manager.py:35-56 | The loop body registers one file. |
| Images.ImagePathManager.GetImagePath | spyder/utils/image_path_manager.py:58-65 | A known name gives its absolute path when it is a file, and None otherwise. An unknown name gives the `not_found` entry's path, or fails without one. |
| SvgColorize.Dimension | spyder/utils/svg_colorizer.py:192-193 | A digit string is read as its number. |
| SvgColorize.DefaultSize | spyder/utils/svg_colorizer.py:192-193 | The default size reads as 24. |
| SvgColorize.ColourChoice | spyder/utils/svg_colorizer.py:207-223 | The colour is the theme's colour for the path's class when it has one, else `ICON_1`, else `#FAFAFA`. |
| SvgColorize.WithoutClass | spyder/utils/svg_colorizer.py:226 | The kept attributes are exactly the element's attributes other than `class`. |
| SvgColorize.EntriesOfFiltered | spyder/utils/svg_colorizer.py:211-233 | The entries are one per path with a non-empty `d`, in order. |
| SvgColorize.EntriesFollowPaths | spyder/utils/svg_colorizer.py:211-233 | Entries follow document order: each comes from a path with data, positions increase, and every such path is used. |
| SvgColorize.ExtractedShape | spyder/utils/svg_colorizer.py:182-235 | No tree or an empty theme gives None. Otherwise the result has the root's viewBox, a size of 24 for a missing width or height, and the path entries. |
| SvgColorize.ExtractColoredPaths | spyder/utils/svg_colorizer.py:182-235 | The loop over the paths computes that result. |
| SvgColorize.Declared | spyder/utils/svg_colorizer.py:103-113 | The text always starts with `<?xml` and ends with the serialized tree, and is unchanged when it already starts so. |
| SvgColorize.DeclaredIdempotent | spyder/utils/svg_colorizer.py:110-112 | Adding the declaration twice is the same as once. |
| SvgColorize.SaveToString | spyder/utils/svg_colorizer.py:97-113 | None exactly without a tree. Otherwise the text starts with `<?xml` and ends with the serialized tree. |
| SvgColorize.SaveToFile | spyder/utils/svg_colorizer.py:132-146 | Fails without a tree or with an empty path. Otherwise it reports the write's outcome. |
| SvgColorize.FindElementsByClass | spyder/utils/svg_colorizer.py:74-86 | No tree gives `[]`. For a name with a quote, the result is what the XPath engine gives for the expression that name makes, or `[]` when the engine rejects it. Otherwise the result is exactly the elements of that class. |
| Installers.OpAt | installers-conda/build_installers.py:82 | An operator found is one of `=`, `>=`, `<=` and `!=`, and it is the text at that position. |
| Installers.SplitFrom | installers-conda/build_installers.py:82 | The split alternates pieces and operators, so it has an odd length. |
| Installers.SpecOf | installers-conda/build_installers.py:82 | The spec pieces come in operator/value pairs. |
| Installers.Rebuilds | installers-conda/build_installers.py:82 | The package followed by its spec pieces rebuilds the specification exactly. |
| Installers.EmptySpecIffBare | installers-conda/build_installers.py:82 | The spec is empty exactly when the text has no operator. |
| Installers.WithLocal | installers-conda/build_installers.py:74-79 | The local channel loop keeps package names unique. |
| Installers.Defaults | installers-conda/build_installers.py:62-79 | The defaults have unique packages, and every spec comes in pairs. |
| Installers.SpyderPin | installers-conda/build_installers.py:74-79 | Spyder is pinned to the local channel's version when there is one, and is left alone otherwise. |
| Installers.LocalDefaults | installers-conda/build_installers.py:62-79 | The loop over the local packages computes the defaults. |
| Installers.WithExtras | installers-conda/build_installers.py:81-83 | Merging the extra specifications keeps package names unique. |
| Installers.UnnamedKept | installers-conda/build_installers.py:81-83 | A package no extra specification names keeps its default. |
| Installers.LastSpecWins | installers-conda/build_installers.py:81-83 | The last extra specification for a package decides its entry. |
| Installers.Rebuilt | installers-conda/build_installers.py:88 | The output holds exactly the package + spec of each entry with a non-empty spec. |
| Installers.VerbatimInOutput | installers-conda/build_installers.py:82-88 | An extra specification with an operator that no later one overrides appears verbatim in the output. |
| Installers.ProcessedOutcome | installers-conda/build_installers.py:85-90 | A `ValueError` exactly when spyder's spec is missing or empty. Otherwise the result is the rebuilt list and the piece after spyder's operator. |
| Installers.BareSpyderFails | installers-conda/build_installers.py:85-86 | A final bare `spyder` specification raises `ValueError`. |
| Installers.DefaultVersionKept | installers-conda/build_installers.py:60-90 | Without an extra spyder specification, the version is the local channel's when it has one, else the source version. |
| Installers.ProcessExtraSpecs | installers-conda/build_installers.py:60-90 | The function's loops compute the defaults, the merge and the checks as specified. |
| Installers.TargetOf | installers-conda/build_installers.py:33-50 | `nt` is Windows. Otherwise `linux*` is Linux, and `darwin` is macOS. Any other platform is a `RuntimeError`. |
| Installers.PlainMachine | installers-conda/build_installers.py:56-57 | A machine name without `amd64` or `x86_64` is only lowercased, and the platform is the prefix plus it. |
| Installers.Amd64Machine | installers-conda/build_installers.py:56-57 | `AMD64` in any case gives the architecture `x86_64` and the platform prefix + `64`. |
| Installers.GenericMachine | installers-conda/build_installers.py:56 | An empty machine name gives `generic`. |
| Installers.PrefixesSeparable | installers-conda/build_installers.py:37-57 | No OS prefix can make an `x86_64` start inside it, so only the architecture part is replaced. |
| Installers.OutputFileParts | installers-conda/build_installers.py:180-181 | The installer lies directly in the distribution directory as `Spyder-{OS}-{ARCH}.{type}`, and two types give two files. |

## Left out

- Qt widgets, layouts, signals, dialogs, focus and painting are not modelled. A message box shown to the user is a recorded message, a counter or an outcome value.
- `QKeySequence` parsing is not modelled. Key strings are opaque. A sequence is its strokes split on `", "`, matching is a prefix relation on strokes, and an empty sequence is the empty string.
- `re.compile`, the search regex and the fuzzy scores of the shortcut table are not modelled. Compiling is a predicate given as input, and the table's score and rich-text columns are left out.
- Shortcuts.ShortcutsTable.LoadShortcuts: the stability of Python's `sorted` for equal keys is not proved. The model proves the result sorted and a permutation.
- Shortcuts.ShortcutEditor.SetSequenceFromStr: like the source, it and SetSequenceFromStrIntended accept any number of strokes, so the four-stroke bound holds only for sequences typed key by key. The `QKeySequence` objects the source stores are modelled by their stroke texts.
- Text.Lower: `str.lower` changes the ASCII letters only, with no Unicode case mapping. This affects DataFrame.BoolFalseCheck, Installers.Arch, Installers.Platform, Shortcuts.DataMap and Shortcuts.Loaded.
- Text.IsNumeric: `str.isnumeric` accepts ASCII digits only, not other Unicode numerals. This affects DataFrame.CopyNumber and SvgColorize.Dimension. `strip` uses Python's full set of whitespace characters.
- DataFrame.DataFrameModel.ColumnCount: the 1-D branch that returns 2 is left out, because the model stores a two-dimensional shape, as the constructor at line 274 reads it.
- pandas work in the DataFrame editor is not modelled: sorting, inserting, dropping, `iat`/`iloc`, `max_min_col_update`, type conversion in `setData`, and copying to CSV.
- DataFrame.NextIndexName: float, complex and boolean labels are not distinguished. Any label that is not an integer is handled as text, and its text is an input.
- Floating point is not modelled: background colour hue, the aspect ratio of the SVG render, and `QPixmap` compositing.
- DataFrame.GlobalMax: column maxima and minima are exact integers, so NaN values and the column-order dependence of Python's `max`/`min` when a NaN is present are not modelled.
- ConfigPage: only line edits are modelled. Checkboxes, radio buttons, spin boxes, combo boxes, text edits, fonts and colours follow the same write-back rule but are not modelled.
- ConfigPage.SpyderConfigPage.ApplyChanges: the pre-apply and apply callbacks, `apply_settings` and `_save_lang` are not modelled.
- ConfigPage.ShownText: `str()` of a list is written without Python's quote escaping.
- `CONF` is a map from (section, option) to a value. Secure storage, notifications and defaults files are not modelled.
- Linting.LintingConfigTab.IsValid follows the code rather than the feature description: validation does not depend on the selected provider.
- Images: the `warnings.warn` issued when a file overrides a name already registered (image_path_manager.py lines 40-43) is not modelled. A path that is not a directory is ignored silently, as in the source. `os.walk`, `osp.isdir`, `osp.isfile` and `osp.abspath` are inputs, and paths use `/` only.
- Pyenv: `find_program`, the shell call and `decode` are inputs. The command's output is an optional string.
- Pyenv.CollisionNames: the source has no rule for a name that is already taken. The corrected renaming lengthens the shared suffix until both names are free, and appends `'` only when even the whole lines are taken. That last rule is the model's own.
- SvgColorize.FindElementsByClass: the XPath expression built from a name holding a quote is not evaluated. What the engine gives for it is an input, so for such names the model promises nothing about the classes of the elements found.
- SvgColorize: lxml parsing, XPath and serialization are inputs. `int(float(...))` is an input function, except that digit strings are read exactly.
- SvgColorize.SaveToFile: the exceptions of `tostring` and `write` and the logging are not modelled. The write's outcome is an input.
- SvgColorize: `render_colored_svg`, `get_colored_paths` and the icon cache are not modelled.
- Installers: `get_version`, `CONDA_BLD_PATH` and the channel JSON are inputs. conda-lock, constructor, Pillow and the subprocess calls are not modelled. The distribution directory is joined with `/`.

## Findings

| source | as written | input that shows it | evidently intended | confidence | as-written member | corrected member |
|---|---|---|---|---|---|---|
| spyder/utils/pyenv.py:58-73 | On a name collision, the shared trailing components are counted against the stored interpreter path, which always ends in the interpreter's name (`python`, or `python.exe` on Windows), not against the earlier output line. So the earlier entry is re-inserted as `Pyenv: `, and a third colliding line overwrites it. | three output lines `a/y`, `b/y`, `c/y` | Both colliding entries get distinct longer names built from their own components, and no environment is lost. | not executed | Pyenv.AsWrittenLosesValue | Pyenv.IntendedKeepsEveryLine |
| spyder/plugins/shortcuts/widgets/table.py:429-435 | `set_sequence_from_str` stores `QKeySequence` objects in the stroke buffer. The `update_warning` call that follows builds `new_sequence` at once (lines 382-383), and its `', '.join` (line 171) accepts only strings. So every call raises `TypeError` after the buffer is replaced and before the dialog is regraded. | any text, such as `Ctrl+A`, on a new dialog | The strokes are stored as text, as `keyPressEvent` (line 325) and `set_sequence_to_default` (line 442) store them, and the dialog is regraded. | not executed | Shortcuts.SetFromStrLeavesStale | Shortcuts.ShortcutEditor.SetSequenceFromStrIntended |

`Pyenv.Step`, `Pyenv.EnvsFrom`, `Pyenv.BuildEnvs` and `Pyenv.AddLine`
model the loop as written. The corrected step, `Pyenv.IntendedStep`,
compares a line with the components of the earlier line and never reuses
a name already in the table. It is proved to keep both values on a
collision, and the table it builds holds the environment of every line.
`Pyenv.PyenvEnvList` lists with the corrected step.

`Shortcuts.ShortcutEditor.SetSequenceFromStr` models the method as
written, and `Shortcuts.ShortcutEditor.SetSequenceFromStrIntended` the
method as intended. Nothing else in the model calls either.
