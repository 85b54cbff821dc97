# backend_depal: a verified model of its data logic

backend_depal is a small document service with two desktop clients:
- a Flask server (`server.py`) lists the files of a `documents` folder and returns a batch of them in one answer;
- a Tk client (`main.py`) shows those files as a folder tree of checkboxes, fetches the selected ones and previews each one as a 3D cloud, an image, text or a hex dump;
- an earlier client (`test_api.py`) does the same with a flat checkbox list;
- a YAML configuration editor (`src/ui_components.py`) shows a configuration as nested entries, searches its keys and writes the edited values back with their original types.

This project models the parts of these programs that compute something, once widgets, HTTP and the file system are replaced by values:
- the hex-dump serialiser;
- the client's file tree, its visiting order and the full paths it registers;
- the checkbox map;
- the batch fetch and its summary;
- the extension-to-MIME table and the preview precedence of both clients;
- the server's request validation, per-name classification and status;
- the YAML editor's widget tree, search labels, typed rebuild and cyclic search.

Modules:
- `Wrappers`: `Option` and `Result`.
- `Strings`: the Python `str` operations the code relies on. These are `join`, `split`, ASCII `lower`, `in`, `startswith`, one-character `replace` and string ordering.
- `Numerals`: `f'{n:08X}'`, `str(n)` and `int(s)`.
- `HexDump`: `format_hex_dump`.
- `FileTree`: `build_file_tree` and the order and paths of `populate_tree_view`.
- `Selection`: the ordered checkbox dictionary that both clients share.
- `Preview`: the MIME table and the viewer choice.
- `Client`: the `App` of `main.py`.
- `Server`: `server.py`.
- `YamlEditor`: `YamlEditorWindow`.
- `LegacyClient`: the `App` of `test_api.py`.

Stateful code is modelled as classes with methods:
- the checkbox dictionary, `Selection.CheckboxMap`, with fields for the key order and the states;
- both client windows;
- the editor window.

Loops in the source become loops with invariants, proved against specification functions. Pure rules become functions with lemmas. One loop is an exception: the descent of `build_file_tree` (main.py:253-254, `node = node[part]`) becomes the recursive function `FileTree.Insert` on tree values. In the source, `node` aliases a sub-dictionary of the shared `defaultdict`; the model returns the updated tree instead. The resulting tree is the same.

The tree's sort key is `(is_folder, name)`. Python orders `False` before `True`, so in each folder the FILES are listed first and then the subfolders, each group by name. The model follows the code (`FileTree.Before`). A description of the program that puts folders before files does not match what the code does.

## Model

| member | source | states |
|---|---|---|
| HexDump.FormatHexDump | src/utils.py:64-72 | The dump is the formatted lines joined with "\n", with no trailing newline; it is empty exactly when the data is empty |
| HexDump.Chunk | src/utils.py:67-68 | Every chunk holds between 1 and 16 bytes |
| HexDump.LineCountBound | src/utils.py:67 | Line k exists exactly when 16·k is below the data length |
| HexDump.LineCountIsCeiling | src/utils.py:67 | The number of lines is the ceiling of len(data)/16; no data gives no lines |
| HexDump.ChunkSizes | src/utils.py:67-68 | Every line but the last covers 16 bytes and the last covers the remainder |
| HexDump.ChunksCoverData | src/utils.py:67-68 | The chunks from line k on, concatenated, are exactly the data from byte 16·k on |
| HexDump.HexByteLayout | src/utils.py:69 | A byte is two uppercase hex digits, high nibble first, which read back to the byte |
| HexDump.HexFieldLayout | src/utils.py:69 | The hex field holds each byte's two digits at position 3·j, single spaces between, length 3n-1 |
| HexDump.PaddedHexField | src/utils.py:71 | The hex field is right-padded with spaces to exactly 48 characters |
| HexDump.AsciiColumnLayout | src/utils.py:70-71 | The ASCII column is two spaces, '\|', one character per byte, '\|' |
| HexDump.AsciiFieldShowsPrintable | src/utils.py:70 | A byte in 32..126 is shown as its own character, any other byte as '.' |
| HexDump.LineOffsetColumn | src/utils.py:71 | A line is 62 + n characters long and starts with the offset as 8 uppercase hex digits and two spaces, for offsets below 2^32 |
| HexDump.LineHexColumn | src/utils.py:69-71 | Columns 10..57 of a line hold the byte pairs and then only spaces |
| HexDump.LineAsciiColumn | src/utils.py:70-71 | Columns 58 on of a line are "  \|", the characters of the bytes and a closing '\|' |
| HexDump.LineHasNoNewline | src/utils.py:71 | No line contains a newline |
| HexDump.DecodeFormatLine | src/utils.py:71 | Reading a line back gives its offset and its bytes |
| HexDump.DumpSplitsIntoLines | src/utils.py:72 | Splitting the dump at "\n" gives back exactly the lines |
| HexDump.DecodeDumpRoundTrip | src/utils.py:64-72 | Reading the whole dump back gives the original bytes |
| Numerals.ToBaseDigits | src/utils.py:69 | Every character of a number written in base b is a digit of base b |
| Numerals.FromToBase | src/utils.py:69 | Reading a number's digits back in the same base gives the number |
| Numerals.HexRoundTrip | src/utils.py:71 | The zero-padded uppercase hex text of n reads back to n |
| Numerals.HexWidth | src/utils.py:71 | `{i:08X}` has exactly 8 characters when i is below 16^8 |
| Numerals.ParseIntRoundTrip | src/ui_components.py:181 | int(str(i)) == i for every integer i of at most 4300 digits, the most `str` prints |
| Numerals.ParseIntRefusesLong | src/ui_components.py:181 | A number of more than 4300 digits makes `int()` raise, whatever its digits |
| Strings.SplitJoin | main.py:251 | Splitting a '/'-join of separator-free pieces gives the pieces back |
| Strings.JoinSplit | main.py:251 | Joining the pieces of a split with the separator gives the string back |
| Strings.AfterLastOf | main.py:240 | `split('.')[-1]` is the text after the last dot |
| Strings.LessIrreflexive | main.py:259 | Python string order never puts a string before itself |
| Strings.LessTransitive | main.py:259 | Python string order is transitive |
| Strings.LessTotal | main.py:259 | Of two different strings one comes before the other |
| Strings.LessAsymmetric | main.py:259 | Two strings are never each before the other |
| FileTree.InsertSpec | main.py:250-255 | Inserting a path whose prefixes are not files succeeds; afterwards the files are the old ones plus the path, and the folders the old ones plus the path's strict prefixes |
| FileTree.Insert | main.py:250-255 | One iteration of the loop: `node = node[part]` for each segment but the last, creating missing folders, then `node[parts[-1]] = None`; it fails when a segment names a file. Its properties are the lemmas below |
| FileTree.FileOnPathRaises | main.py:253-254 | For any tree and path: when some strict prefix of the path is a file of the tree, the insert raises |
| FileTree.InsertSomeNoFile | main.py:253-254 | An insert that succeeds crossed no file: no strict prefix of the path was a file |
| FileTree.InsertOverwrites | main.py:255 | For any tree and a path with no file on its prefixes, the insert succeeds, the path becomes a file and nothing below it remains, so a folder of that name is replaced |
| FileTree.InsertKeepsApart | main.py:250-255 | An insert that succeeds changes no file whose path is neither a prefix nor an extension of the inserted one |
| FileTree.InsertKeepsFileOnPath | main.py:250-255 | Once some strict prefix of a path is a file, a later insert that succeeds keeps some strict prefix of it a file |
| FileTree.BuildTreeStep | main.py:250-255 | The tree of n+1 paths is the tree of the first n with the last inserted, or the failure once it has failed |
| FileTree.FileBeforeSubpathRaises | main.py:250-255 | A listed path followed later by a path running through it makes the whole build raise, whatever comes between or after |
| FileTree.NoneStays | main.py:250 | Once the build has raised, later paths do not matter |
| FileTree.BuildFileTree | main.py:247-256 | The loop computes the paths inserted in order, failing once an insert fails; when no path runs through another listed path, the tree has a file at every path, a folder at every strict prefix and nothing else |
| FileTree.BeforeTransitive | main.py:259 | The (is_folder, name) order is transitive |
| FileTree.BeforeTotal | main.py:259 | Of two different names of a folder one comes first in the (is_folder, name) order |
| FileTree.SortedNames | main.py:259 | `sorted(tree.items(), key=(is_folder, name))` lists every name once, files before folders, each group by name |
| FileTree.VisitNamesAppend | main.py:260-268 | Visiting one more name appends exactly that entry's paths |
| FileTree.LeavesAreFiles | main.py:258-268 | The leaves the traversal reaches are exactly the file paths of the tree |
| FileTree.VisitIsPathsOfLeaves | main.py:258-268 | The traversal registers, in order, the full path of each leaf |
| FileTree.Visit | main.py:258-268 | The traversal: the names in sorted order, a file giving its full path and a folder the traversal of its contents under its full path. Its properties are the lemmas below |
| FileTree.FullPathClean | main.py:261 | For a clean name the full path is parent + "/" + name, or the name alone at the root |
| FileTree.PathOfClean | main.py:261 | For clean segments the registered full path is the parent path and the segments joined with "/" |
| FileTree.VisitRegistersInputPaths | main.py:247-268 | For clean, prefix-free inputs the paths registered from the built tree are exactly the input paths |
| FileTree.LeavesDistinct | main.py:258-268 | The traversal reaches every file of the tree once |
| FileTree.VisitDistinct | main.py:247-268 | For clean, prefix-free inputs no path is registered twice |
| Selection.RegisteredMembers | main.py:297 | `d[key] = v` keeps the keys distinct and adds exactly `key` |
| Selection.RegisteredAllMembers | main.py:297 | Assigning keys in turn keeps the keys distinct and holds exactly the old and the new keys |
| Selection.RegisteredAllAppends | test_api.py:170-173 | Assigning distinct new keys appends them in order |
| Selection.SelectedKeys | main.py:203 | The selection is the checked keys, each once |
| Selection.SelectedKeysFilter | main.py:203 | The selection is the key order filtered by the states: the keys at the ticked positions, in increasing position, with every ticked position present |
| Selection.SelectedFromTicked | main.py:203 | From any position on, the selection holds the keys at the ticked positions, one for one |
| Selection.TickedFromIncrease | main.py:203 | The ticked positions lie in the order and increase |
| Selection.TickedFromComplete | main.py:203 | Every ticked position is listed |
| Selection.AllSelected | main.py:425-428 | With every checkbox ticked the selection is every key, in order |
| Selection.NoneSelected | main.py:425-428 | With every checkbox cleared nothing is selected |
| Selection.CheckboxMap.constructor | main.py:124 | The map starts empty |
| Selection.CheckboxMap.Clear | main.py:304 | `clear()` empties the map |
| Selection.CheckboxMap.Put | main.py:297 | A new key goes last and an existing one keeps its place; the checkbox starts unchecked |
| Selection.CheckboxMap.PutAll | test_api.py:170-173 | After one assignment per key, the order and states are those of assigning the keys in turn |
| Selection.CheckboxMap.SetAll | main.py:425-428 | Every checkbox takes the given state and no key is added or removed |
| Preview.Extension | main.py:240 | The extension never contains a dot |
| Preview.ExtensionAfterLastDot | main.py:240 | The extension of stem.ext is ext, lowercased, when ext has no dot |
| Preview.ExtensionWithoutDot | main.py:240 | A name without a dot is its own extension, lowercased |
| Preview.MimeFor | main.py:240-244 | The table of `_fetch_file_details`: png, jpg, txt and json map to their types, any other extension to application/octet-stream; its classes are proved in Preview.MimeClasses |
| Preview.MimeClasses | main.py:240-244 | The MIME type is image/ exactly for png and jpg, text/ exactly for txt, contains "json" exactly for json, and is octet-stream for every other extension |
| Preview.Dispatch | main.py:373-381 | The viewer of `open_viewer_in_frame`: npy or pcd first, then an image type, then a text type or one holding "json", else hex |
| Preview.LegacyDispatch | test_api.py:221-231 | The viewer of the older client: as above, but text only for a text type, exactly application/json or a .json name |
| Preview.DispatchOfFetched | main.py:373-381 | For a fetched file the viewer follows from the extension: npy or pcd 3D, png or jpg image, txt or json text, anything else hex |
| Preview.DispatchesDiffer | test_api.py:221-231 | The two clients choose differently exactly when the type holds "json" but is neither application/json nor a .json file, or the reverse |
| Preview.JsonVariantDiffers | test_api.py:228 | application/ld+json for data.bin is text in main.py and a hex dump in test_api.py |
| Client.TruncateText | main.py:299-300 | Short text is unchanged; longer text keeps its first max_len-3 characters, ends in "..." and is max_len long |
| Client.FileDetails | main.py:237-245 | The details carry the bytes, with an image type exactly for png and jpg |
| Client.PartitionCovers | main.py:221-235 | Each selected path lands in exactly one of found and failed, in selection order, with its own details or error |
| Client.Summary | main.py:234 | The final status: the number of files found, and the number of failures when there are any |
| Client.SummaryMentionsFailures | main.py:234 | The summary mentions "Falliti" exactly when some fetch failed |
| Client.App.constructor | main.py:124-130 | The window starts with no checkboxes, select-all off and status "Pronto." |
| Client.App.CreateFileNode | main.py:293-297 | The file's full path gets an unchecked checkbox |
| Client.App.PopulateTreeView | main.py:258-268 | The folder's files are registered unchecked in visiting order under their full paths |
| Client.App.CreateNode | main.py:260-268 | One entry registers its file, or the contents of its folder |
| Client.App.CreateFolderNode | main.py:270-282 | A folder's contents are registered below its full path |
| Client.App.LoadAvailableFiles | main.py:302-328 | Clears the map, resets select-all and sets each branch's status; on a non-empty listing it raises exactly when building the tree fails, and otherwise reports the count and registers the visit of the built tree, unchecked; for a clean, prefix-free listing the order is exactly that visit and the keys exactly the listed paths |
| Client.App.ShowListing | main.py:320-321 | The built tree's files are registered unchecked in visiting order and the status counts the listed files |
| Client.ListingRegistered | main.py:247-268 | For clean, prefix-free paths the visit of the tree built from them registers each listed path once, so the checkbox order is that visit |
| Client.App.ToggleSelectAll | main.py:425-428 | Every checkbox takes the select-all value and the keys stay the same |
| Client.App.ClickSelectAll | main.py:129-130 | A click flips select-all and sets every checkbox to it, so every key or none is selected; the keys and the status stay as they were |
| Client.App.GetAllFilesLogic | main.py:202-235 | No selection only sets the status; one path opens it or shows its error; several are split into found and failed in order and summed up; select-all is untouched |
| Server.Validate | server.py:43-51 | The request check, in the source's order: an undecodable body, a falsy body or one without 'documents', then a non-list 'documents' |
| Server.ValidateAccepts | server.py:43-51 | A request passes exactly when its body is an object whose 'documents' is a list, and then yields that list |
| Server.ValidateMalformed | server.py:45-46 | A falsy body or an object without 'documents' gets "Richiesta malformata." |
| Server.PayloadAccepted | test_api.py:296-297 | The clients' {"documents": names} passes validation with exactly those names, all strings |
| Server.RegularFilesMembers | server.py:28 | The listing keeps exactly the regular files of the folder |
| Server.ListFiles | server.py:16-32 | A missing folder gives 500; an unreadable one gives 500; otherwise the regular files, in listing order |
| Server.Classify | server.py:57-79 | A name is found only if it is a regular file of the folder; its document carries the guessed type or application/octet-stream, and the file's bytes |
| Server.GetDocuments | server.py:35-84 | An invalid request gets 400 with its message; a list or object among the names crashes, and so do error keys `jsonify` cannot sort (null, numbers and strings mixed); otherwise 200 with the found files, the errors and the status |
| Server.MixedErrorKeysUnsortable | server.py:57-84 | A refused null, boolean or number beside a string name that is not found leaves error keys that cannot be sorted, so `{"documents": [null, "a/b"]}` gets 500 |
| Server.StringNamesSortable | server.py:84 | Names that are all strings, as both clients send, always give sortable error keys |
| Server.ClassifyAll | server.py:55-79 | The loop runs to the end exactly when every name can be a dictionary key (only a failing one is used as a key, and every found one is a string), and then fills files and errors exactly as the per-name rule says; found_any_files is set exactly when some file was found |
| Server.Extend | server.py:57-79 | One more name adds its own entry to files or to errors and leaves the other map unchanged |
| Server.EveryNameAnswered | server.py:57-79 | Every requested name is a key of exactly one of files and errors, and no other key appears |
| Server.SeparatorsRefused | server.py:58-60 | A non-string name or one holding '/' or '\\' gets "Nome file non valido." |
| Server.MissingNotFound | server.py:62-79 | A well-formed name that is not a regular file gets "File non trovato." |
| Server.StatusMeaning | server.py:54-82 | The status is "success" exactly when every name was found and "error" exactly when some name was asked for and none was found |
| YamlEditor.Build | src/ui_components.py:105-130 | `_build_ui_recursive` without the widgets: a dict gives a dict of widgets, a list a list, a scalar an entry holding `str(value)`, left empty for `None` |
| YamlEditor.BuildMirrors | src/ui_components.py:105-130 | The widget tree mirrors the data: dict to dict with the same keys, list to list of the same length, scalar to entry |
| YamlEditor.LabelsOfFlatMap | src/ui_components.py:107-113 | A mapping of scalars gets one "key:" label per key, in key order |
| YamlEditor.Coerce | src/ui_components.py:176-183 | The reading of one entry by the type of the original value: bool from the truth words, `None` only from "none", int through `int(...)` falling back to the text, str as is |
| YamlEditor.Rebuild | src/ui_components.py:170-183 | `_rebuild_data_recursive`: dicts and lists rebuilt entry by entry against the original, scalars read by `Coerce` |
| YamlEditor.RebuildMirrors | src/ui_components.py:170-174 | The rebuilt data has the dict keys and list lengths of the widget tree, whatever was typed |
| YamlEditor.ScalarRoundTrip | src/ui_components.py:126-129 | An untouched bool, int or string entry reads back as its value (an int of at most 4300 digits, the most `str` shows) |
| YamlEditor.RebuildRoundTrip | src/ui_components.py:170-183 | Saving without edits gives back null-free data as written, and any data with the corrected reading, for data the editor can show |
| YamlEditor.NullBecomesEmptyString | src/ui_components.py:128-129 | As written, saving an untouched null writes an empty string in its place |
| YamlEditor.Matching | src/ui_components.py:141 | The indices of the labels whose lowercased text holds the query, in label order |
| YamlEditor.MatchingMembers | src/ui_components.py:141 | The results are exactly the labels whose lowercased text holds the query, each once, in label order |
| YamlEditor.Editor.constructor | src/ui_components.py:55-84 | The editor's widgets and search labels are those built from the data, with no search yet |
| YamlEditor.Editor.BuildUiRecursive | src/ui_components.py:105-130 | Returns the widget tree of the node and appends its labels to the search map |
| YamlEditor.Editor.BuildEntries | src/ui_components.py:106-114 | The widgets of each entry in order, with a label appended before each entry's own labels |
| YamlEditor.Editor.BuildItems | src/ui_components.py:115-123 | The widgets of each list item in order, with the items' labels appended |
| YamlEditor.Editor.PerformSearch | src/ui_components.py:132-154 | An empty query changes nothing; a new query recomputes the results, restarts the index and records the query; the index then moves one step cyclically and highlights that result, or with no results the status is "Nessun risultato" |
| LegacyClient.HttpErrorText | test_api.py:298-302 | The text `raise_for_status` gives for an error code: the code, then "Client Error" below 500 and "Server Error" from 500 |
| LegacyClient.ShownFor | test_api.py:274-302 | A request exception shows files {} and the single error key "Errore di Connessione"; a batch is shown as the server sent it |
| LegacyClient.App.constructor | test_api.py:105 | The window starts with no checkboxes and select-all off |
| LegacyClient.App.LoadAvailableFiles | test_api.py:152-180 | Clears the map and resets select-all; on a listing it holds exactly the listed names, unchecked, in server order |
| LegacyClient.App.ToggleSelectAll | test_api.py:143-150 | Every checkbox takes the select-all value and the keys stay the same |
| LegacyClient.App.GetFilesLogic | test_api.py:291-304 | No selection makes no request; otherwise the answer to {"documents": selection} is shown |
| LegacyClient.App.FormatHexDump | test_api.py:305-313 | The copy produces the same dump as src/utils.py for every input |

## Left out

- Widgets, layout, tooltips, folder expansion, scrolling and image scaling. They are UI code; `scroll_to_widget` also works in floating point.
- Threads and `after(...)`: the fetch runs as one sequential method.
- Intermediate status messages ("Recuperando ...") are not kept. They are overwritten by the final status.
- HTTP and Flask:
  - the reply of `/list_files` and the outcome of each fetch are parameters;
  - `main.py` fetches from `/get_document/<name>`, a route the server does not define, so each fetch is an arbitrary success or failure;
  - Flask's JSON encoding of the answer is not modelled, except that its key sorting raises on keys of mixed classes (`Server.Sortable`). Non-string keys written as strings are not modelled.
- The file system: the documents folder is a value. It holds whether the folder exists, what listing it gives and what each name is.
- Library calls:
  - base64 is left out, and files travel as bytes;
  - `mimetypes.guess_type` is a function parameter;
  - `json.dumps` pretty-printing is left out;
  - YAML loading and dumping are left out, and a configuration is a value.
- 3D viewing and the helper process launch (src/utils.py:12-61): foreign processes and floating point.
- Floats in JSON values (the `Server.Json` datatype) are left out.
- Server.GetDocuments: two Python dict keys that compare equal are kept apart. In Python, `true` and `1` name the same dict entry.
- YamlEditor.Coerce: floats and other YAML scalar types (dates) are left out. Mapping keys are strings.
- YamlEditor.Rebuild: requires `Fits`, that is, a widget tree of the data's shape. The editor only ever rebuilds the widgets it built from its own data, and entry edits change only entry texts.
- `save_and_close` (writing the file, message boxes) is left out; its data step is `YamlEditor.Rebuild`.
- LegacyClient.HttpErrorText: only the start of the `HTTPError` text is modelled. requests also puts the reason and the URL in it.
- HexDump.FormatHexDump and LegacyClient.App.FormatHexDump: only the default width of 16 is modelled, the only width either caller uses.
- FileTree.FullPath: `os.path.join` is modelled as POSIX `posixpath.join`, where only a name starting with '/' restarts the path. On Windows `ntpath.join` also restarts at a drive ("C:x") or a backslash, and the code does run there (main.py:261 replaces backslashes, main.py:366 uses `os.sep`, src/ui_components.py:22 checks `os.name == 'nt'`).
- Numerals.ParseInt: only ASCII digits and ASCII whitespace are modelled. Python's `int()` also accepts other Unicode decimal digits and strips Unicode whitespace; this reaches `YamlEditor.Coerce` through src/ui_components.py:181. The default 4300-digit limit (`sys.get_int_max_str_digits()`) is modelled. A program that changes the limit is not.
- YamlEditor.Build: `str(i)` raises for an int of more than 4300 digits. The model shows its digits instead. `YamlEditor.WellFormed`, which the round-trip lemmas require, excludes such ints, since the source never builds an editor for them.
- Strings.Lower: only ASCII letters are lowered. Python lowers every Unicode letter.
- Client.TruncateText: its contract speaks of `max_len >= 3`. Every caller passes 40, 45 or 50 (main.py:299-300, 352, 353, 357, 362).
- Both clients' constructors run a first refresh; this is modelled as a separate `LoadAvailableFiles` call.
- Client.App.LoadAvailableFiles: when `build_file_tree` raises, the exception leaves the method. The model reports this as `raised`, with an empty map and the refresh status.

## Findings

| source | as written | input that shows it | evidently intended | confidence | as-written member | corrected member |
|---|---|---|---|---|---|---|
| src/ui_components.py:128-129 | A `None` value is shown as an empty entry. The rebuild turns `None` back only from the text "none", so an untouched null becomes the string "" | configuration `{k: null}`, saved without edits, is written as `{k: ''}` | Saving without edits keeps null values null | high (not executed) | YamlEditor.NullBecomesEmptyString | YamlEditor.RebuildRoundTrip |
