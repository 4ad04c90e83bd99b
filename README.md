# ZEN file organizer — verified model of the organizing engine

ZEN sorts the files of one directory into category sub-folders. For each
file, the first custom keyword rule whose keyword occurs in the name decides
the folder. Failing that, the first enabled category (in map order) that lists
the file's lowercased extension decides it. Failing that, an optional
`Unsorted` folder takes the file. A file is never moved over a name already
present in its folder: it gets `base_k.ext` with the smallest free `k`. The
rules live in `config.json`. When the file is loaded, it is merged key by key
over the built-in defaults, and it is written back after every change to
the rules.

This project models, in Dafny:

- `ConfigManager.load_config`: the defaults, the merge of a persisted document
  over them, and the missing, corrupt and not-an-object cases (modules
  `ConfigStore` and `Schema`).
- `FileOrganizer` as a class: its constructor, `save_state`, the five mutators
  and `organize_files` (module `Organizer`). The class keeps the four rule
  fields and the document. A ghost field `persisted` stands for the content
  of `config.json`.
- The decisions `organize_files` makes: classification (module
  `Classification`), collision-free destination names (module `Collision`)
  and the run over a directory snapshot with its reported events (module
  `Scanner`).
- Python's ordered dicts (module `Dicts`, an association list in insertion
  order, since categories are searched in map order).
- The string operations the engine uses: `lower`, `in`, `os.path.splitext`
  and `str(n)` (module `Text`).

The filesystem is a value:
- a listing of `(name, isDir)` entries, or `Missing`, or `Unreadable`;
- a map from each sub-folder to the names it holds;
- the set of file names whose move fails.

Each message of the log callback is an `Event` (`Moved`, `FileError`,
`NoMatches`, `Success(n)`, `PathNotFound`, `SystemError`).

The loops of the source are loops of the model, each proved against a
specification function:
- `LoadConfig` against `Loaded`/`Merge`;
- `FindTarget` against `Classify`;
- `ResolveCollision` against `FreeName`;
- `ScanEntries` and `FileOrganizer.Organize` against `Scan`/`Organized`.

The properties are then proved about those functions.

Two facts about the code shape the model:
- `load_config` makes a shallow `copy()` of the defaults and updates the
  nested default dicts in place. Within one load this gives the same document
  as a deep copy would, and that document is what the model computes.
- The probing loop always finds a free name in a finite folder, so a name
  collision never causes a per-file failure (`FreeName`, `TakenBound`).

## Model

| member | source | states |
|---|---|---|
| ConfigStore.Defaults | ZEN.py:15-36 | the default document has the keys `extension_map`, `enabled_categories`, `custom_rules`, `enable_unsorted` and `user_settings`, in that order, each once |
| ConfigStore.DefaultCategoriesUnique | ZEN.py:16-28 | both default tables have exactly the seven category names as keys, each once, in the same order |
| ConfigStore.DefaultsDecode | ZEN.py:15-36 | the default document has no repeated key and holds the default rule set (the tables above, no rules, unsorted off) |
| ConfigStore.DocumentDecodes | ZEN.py:15-36 | any document of the default shape, for unique category tables, decodes to exactly those tables with no rules and unsorted off |
| ConfigStore.Combine | ZEN.py:52-55 | when both the default and the persisted value are objects, the result is an object that keeps the default's keys in order at the front and repeats no key when the default repeats none; in every other case the persisted value replaces the default |
| ConfigStore.MergeEntry | ZEN.py:52-55 | one pass of the merge loop: the key holds `Combine` of its running and persisted values, keeps its position or is appended when new, and every other key keeps its value |
| ConfigStore.Merge | ZEN.py:49-56 | the merged document has every key of either side, keeps the default keys in their order at the front, and never repeats a key |
| ConfigStore.MergeGet | ZEN.py:49-56 | after the merge, a persisted key holds the combination of its default and its persisted value (children assigned over children for two objects, replacement otherwise), and every other key holds its default |
| ConfigStore.MergedAt | ZEN.py:51-55 | a key present in the persisted document holds the combination of both values |
| ConfigStore.MergeStep | ZEN.py:51-55 | one more iteration of the loop extends the merge of the already processed prefix by one entry |
| ConfigStore.Loaded | ZEN.py:41-58 | whatever was found on disk, the loaded document keeps every default key, in order at the front, and repeats no key when the defaults repeat none |
| ConfigStore.LoadConfig | ZEN.py:39-58 | the loop computes `Loaded`: defaults for a missing, unreadable or non-object file, else the merge; a missing file is written with the defaults and any other file is left as it was |
| ConfigStore.LoadedEntries | ZEN.py:45-56 | every default key survives loading; an unknown persisted key is kept with its value; a persisted value that is not an object over an object replaces the default whatever its type; for two objects, persisted children override and default-only children survive |
| ConfigStore.LoadedFallback | ZEN.py:41-58 | without a readable object document, loading yields exactly the defaults |
| ConfigStore.DocumentGets | ZEN.py:16-30 | what the four rule keys of a default-shaped document hold |
| ConfigStore.MergedSchemaGets | ZEN.py:49-56 | loading a saved document over a default-shaped one assigns the saved tables over the default tables and takes the saved rule list and flag outright |
| ConfigStore.ReloadDocument | ZEN.py:49-56 | a saved rule set, loaded again over a default-shaped document, decodes to the saved tables assigned over the default ones, with the saved rules and flag |
| ConfigStore.ReloadAfterSave | ZEN.py:39-92 | save then load gives back the saved rules and flag, the saved list and flag of every saved category, and the defaults for the default categories the saved document lacks (so a category disabled and saved is disabled after reloading) |
| Schema.DecodeRuleSet | ZEN.py:80-84 | a decoded rule set has no repeated category key in either table |
| Schema.UnsortedFlag | ZEN.py:84 | `config.get("enable_unsorted", False)`: a missing key reads as `false`, a boolean reads as itself, and any other value does not decode |
| Schema.Encoded | ZEN.py:88-91 | the four entries `save_state` assigns, under the four schema keys in assignment order, each once |
| Schema.Store | ZEN.py:88-91 | the stored document has exactly the old keys plus the four schema keys, and the old keys keep their order at the front |
| Schema.StoreGet | ZEN.py:86-91 | after `save_state`, each of the four keys holds the encoding of its field and every other key (such as `user_settings`) holds what it held |
| Schema.StoreDecodes | ZEN.py:86-91 | storing a well-keyed rule set into a document without repeated keys keeps it so, and the document decodes to that rule set |
| Schema.StoreRoundTrip | ZEN.py:86-91 | decoding a stored document gives the stored rule set back, and the keys outside the schema are untouched |
| Schema.DecodeExact | ZEN.py:80-84 | each schema key a decodable document holds carries exactly the encoding of what it decodes to (only `enable_unsorted` may be absent), so re-storing changes none of the schema keys the document already holds; storing adds `enable_unsorted` when it is absent |
| Schema.CategoriesRoundTrip | ZEN.py:88 | decoding the encoded category table gives it back |
| Schema.CategoriesExact | ZEN.py:81 | only an encoding decodes, and it is the encoding of what it decodes to |
| Schema.FlagsRoundTrip | ZEN.py:89 | decoding the encoded flag table gives it back |
| Schema.RulesRoundTrip | ZEN.py:90 | the rule list encodes to `{"keyword", "target_folder"}` objects and decodes back, in both directions |
| Schema.StringsRoundTrip | ZEN.py:88 | an extension list encodes to a JSON list of strings and decodes back, in both directions |
| Dicts.Get | ZEN.py:52 | `d.get(k)` finds a value exactly when `k` is a key, and the value found is paired with `k` in the dict |
| Dicts.GetOr | ZEN.py:157 | `d.get(k, default)` is the value of `k` when `k` is a key, and `default` otherwise |
| Dicts.GetPut | ZEN.py:97 | after `d[k] = v`, `k` holds `v` and every other key what it held |
| Dicts.Put | ZEN.py:97 | assignment keeps the key order, appends a new key at the end and never repeats a key |
| Dicts.Update | ZEN.py:53 | `update` yields the union of the keys, keeps the old keys in their order at the front and never repeats a key |
| Dicts.GetUpdate | ZEN.py:53 | after `d.update(e)`, the keys of `e` hold its values and the others what they held |
| Dicts.MapValuesUpdate | ZEN.py:53 | encoding the values commutes with `update`, so merging encoded tables is encoding the merged tables |
| Text.Lower | ZEN.py:147 | `lower()` keeps the length, maps each ASCII capital to its small letter, keeps every other character, and leaves no ASCII capital |
| Text.OccursStep | ZEN.py:147 | an occurrence of the needle is at the front of the text or is an occurrence in its tail |
| Text.Contains | ZEN.py:147 | the `in` test holds exactly when the needle occurs as a contiguous slice at some index |
| Text.Decimal | ZEN.py:177 | `str(k)` of a counter is a non-empty string of decimal digits without a leading zero |
| Text.SplitTaggedExt | ZEN.py:177 | a name ending in `_`, digits and an extension splits off exactly that extension |
| Text.SplitTaggedNoExt | ZEN.py:177 | a name without an extension gains none from `_` and digits |
| Text.SplitExtTagged | ZEN.py:176-177 | putting `_` and digits between the `splitext` parts of a name keeps its extension |
| Text.SplitExt | ZEN.py:153 | `splitext`: the two parts concatenate to the name; a non-empty extension starts with its only dot and the base before it is not made only of dots; the extension is empty exactly when no dot follows a non-dot |
| Text.LowerIdempotent | ZEN.py:122-123 | lowering twice is lowering once |
| Text.DecimalRoundTrip | ZEN.py:177 | the decimal digits of a counter read back as that counter |
| Text.DecimalInjective | ZEN.py:177 | distinct counters print differently |
| Classification.KeywordMatches | ZEN.py:147 | a rule matches exactly when its lowercased keyword occurs in the lowercased file name; an empty keyword matches every name |
| Classification.Truthy | ZEN.py:152-166 | the truthiness test on `target_folder_name` (lines 152, 162 and 166): false exactly for `None` and the empty string |
| Classification.ExtOf | ZEN.py:153-154 | the lowercased extension is empty exactly when the name has none, otherwise a dot followed by dot-free text, and lowering it again changes nothing |
| Classification.Accepts | ZEN.py:157 | a category accepts an extension exactly when its flag is present and true and it lists the extension (a missing flag counts as disabled) |
| Classification.FirstRule | ZEN.py:146-149 | the first rule in list order whose lowercased keyword occurs in the lowercased name; none exactly when no rule matches |
| Classification.FirstCategory | ZEN.py:156-159 | the first category in map order that is enabled (a missing flag counts as disabled) and lists the extension; none exactly when no category does |
| Classification.Classify | ZEN.py:143-166 | a chosen folder is never the empty name (the truthiness test of the move step) |
| Classification.CustomRuleWins | ZEN.py:146-152 | the first matching rule with a non-empty folder decides, whatever the extension would select |
| Classification.InvoiceExample | ZEN.py:146-152 | the rule `invoice -> Invoices` sends `invoice_march.pdf` to `Invoices`, whatever the categories say about `.pdf` |
| Classification.EmptyTargetFallsThrough | ZEN.py:148-152 | a first matching rule with an empty folder is falsy: the result is what it would be without rules, and later matching rules are not consulted |
| Classification.ExtensionMatch | ZEN.py:152-159 | when no rule decides, the first enabled category listing the lowercased extension is chosen |
| Classification.UnsortedFallback | ZEN.py:161-166 | a file stays put exactly when no rule, no category and no fallback decides; with the fallback on and nothing else deciding it goes to `Unsorted` |
| Classification.ClassifySound | ZEN.py:143-166 | every chosen folder is the folder of a matching rule, an enabled category listing the extension, or `Unsorted` with the fallback on |
| Classification.FindRule | ZEN.py:146-149 | the rule loop left by `break` yields the folder of the first matching rule, or none |
| Classification.FindCategory | ZEN.py:156-159 | the category loop left by `break` yields the first category that accepts the extension, or none |
| Classification.FindTarget | ZEN.py:143-163 | the two `break` loops and the fallback compute `Classify` |
| Collision.Candidate | ZEN.py:177 | the candidate `base_k.ext` is longer than the original name by `_` and the digits of `k`, so it is never the original name |
| Collision.CandidateExtension | ZEN.py:176-177 | a candidate has the same extension as the original name |
| Collision.FreeName | ZEN.py:173-179 | the destination is never a name already in the folder; it is the original name when that is free, else the candidate `base_k.ext` with the smallest counter from 1 that is free |
| Collision.FirstFree | ZEN.py:176-178 | probing from counter `k` on stops at a free candidate, past only taken ones |
| Collision.TakenBound | ZEN.py:177-178 | if counters 1..k all collide the folder holds at least k names, so the probing loop terminates |
| Collision.CandidateInjective | ZEN.py:177 | different counters give different names |
| Collision.CandidateSetSize | ZEN.py:177 | the candidates for counters 1..k are k distinct names |
| Collision.ResolveCollision | ZEN.py:173-179 | the probing `while` loop computes `FreeName` |
| Collision.SecondCopyGetsSuffix | ZEN.py:173-179 | moving `a.txt` into a folder that holds `a.txt` stores it as `a_1.txt` |
| Scanner.EntryEvents | ZEN.py:137-185 | a directory or an unclassified file reports nothing; a classified file reports one event, `Moved` to its chosen folder when the move succeeds and `FileError` when it fails |
| Scanner.EntryFolders | ZEN.py:166-181 | an entry that is not a classified file changes no folder; a classified file changes only its target folder, which then exists, keeps every name it held, and gains exactly one name unless the move fails |
| Scanner.Scan | ZEN.py:137-185 | the scan reports one event per classified file of the listing and one `Moved` per file whose move succeeds |
| Scanner.Summary | ZEN.py:187-190 | the summary is `NoMatches` exactly when no file was moved, else `Success` with the number of files moved |
| Scanner.Organized | ZEN.py:130-193 | a missing path reports only `PathNotFound` and an unreadable one only `SystemError`, both changing nothing; a listing reports one event per classified file and then the summary of those events |
| Scanner.ScanSnoc | ZEN.py:137-185 | one more listing entry extends the scan by that entry's event and folder change |
| Scanner.ReportedAppend | ZEN.py:137-185 | the per-file events of a listing are those of its parts, in listing order |
| Scanner.FoldersAppend | ZEN.py:137-185 | the folder changes of a listing are those of its first part followed by those of the rest |
| Scanner.ScanAppend | ZEN.py:137-185 | scanning `a + b` is scanning `a` and then `b` from the folders `a` left: events in listing order, and a failed move does not stop the scan |
| Scanner.FailedMoveContinues | ZEN.py:169-185 | a failing move reports `FileError`, leaves its folder's names as they were (the folder is still created) and the scan goes on with the rest |
| Scanner.ReportedCounts | ZEN.py:137-185 | one event per classified file, none for directories or unclassified files, and as many `Moved` events as successful moves |
| Scanner.AllReportSnoc | ZEN.py:137-185 | one more entry keeps every event attributable to an entry |
| Scanner.ScanEvents | ZEN.py:166-185 | every event reports on a classified file of the listing: `Moved` to its chosen folder when the move succeeds, `FileError` when it fails |
| Scanner.EntryGrows | ZEN.py:166-181 | one entry keeps every name of each folder and adds exactly one per file moved into it |
| Scanner.NeverOverwrites | ZEN.py:170-181 | no name a folder held is lost, and each folder grows by exactly one new name per `Moved` into it |
| Scanner.MovedCountAppend | ZEN.py:183 | the moved count of a concatenation is the sum of the counts |
| Scanner.MovesIntoAppend | ZEN.py:182 | the moves into a folder of a concatenation are the sum of the moves |
| Scanner.OnlyDirectories | ZEN.py:137-190 | a listing of directories only (an empty one included) changes nothing and reports exactly `NoMatches` |
| Scanner.RunShape | ZEN.py:130-193 | a missing path reports only `PathNotFound`, a listing failure only `SystemError`; otherwise one per-file event per classified file precedes exactly one summary, `NoMatches` for no moves, else `Success(n)` with `n` the successful moves |
| Organizer.NormalizeExt | ZEN.py:120-123 | the stored form starts with a dot and is already lowercase |
| Organizer.NormalizeIdempotent | ZEN.py:120-123 | normalising a normalised extension changes nothing |
| Organizer.NormalizeAlike | ZEN.py:120-123 | spellings that differ in ASCII case or in a missing leading dot normalise alike |
| Organizer.NormalizeUndotted | ZEN.py:120-123 | an extension written without its dot normalises like its dotted, lowercased spelling, so a double difference such as `PNG` and `.png` normalises alike |
| Organizer.PngExample | ZEN.py:120-123 | `PNG` and `.png` both normalise to `.png` |
| Organizer.WithExtension | ZEN.py:122-123 | the list then holds the normalised extension, starts with the old list, grows by at most one entry, gains nothing else and stays free of duplicates |
| Organizer.WithExtensionIdempotent | ZEN.py:117-124 | adding two spellings of the same extension adds it once |
| Organizer.OrganizeEntry | ZEN.py:140-185 | one loop iteration computes the entry's events and folder change, and counts a move exactly for a `Moved` |
| Organizer.ScanEntries | ZEN.py:134-185 | the loop over the listing computes `Scan`, and `files_moved` equals the number of `Moved` events |
| Organizer.FileOrganizer.constructor | ZEN.py:79-84 | the document is what `load_config` returns, the four fields are the rule set it holds, and a missing `config.json` is written with the defaults |
| Organizer.FileOrganizer.SaveState | ZEN.py:86-92 | the document is the old one with the four fields stored into it, the fields are unchanged, the file holds the document, and the document decodes to the fields |
| Organizer.FileOrganizer.SaveConfig | ZEN.py:61-67 | the file holds the document |
| Organizer.FileOrganizer.SetCategoryEnabled | ZEN.py:94-98 | an unknown category changes nothing and saves nothing; a known one gets the flag, keeps the key order, the other fields stay as they were, and the state is saved |
| Organizer.FileOrganizer.SetUnsortedEnabled | ZEN.py:100-103 | always sets the flag, changes nothing else, and saves |
| Organizer.FileOrganizer.AddCustomRule | ZEN.py:105-109 | with an empty keyword or folder nothing changes and nothing is saved; otherwise the rule is appended at the end, nothing else changes, and the state is saved |
| Organizer.FileOrganizer.RemoveCustomRule | ZEN.py:111-115 | an out-of-range index changes nothing and saves nothing; otherwise exactly that rule is removed, the others keep their order, and the state is saved |
| Organizer.FileOrganizer.AddExtensionToCategory | ZEN.py:117-124 | an unknown category, or an extension whose normalised form is already listed, changes and saves nothing; otherwise the normalised form is appended to that category alone and the state is saved |
| Organizer.FileOrganizer.Organize | ZEN.py:126-193 | the events and the folders after the run are `Organized` for the current rule set: the scan of the listing followed by its summary, or the single error event |

## Left out

- The user interface, colours and popups (`ZEN.py` from line 196 on) are not part of this model. `user_settings` is carried through as an opaque JSON value.
- Real I/O (`open`, `json.load`/`json.dump`, `os.path.exists`, `os.listdir`, `os.makedirs`, `shutil.move`, `os.path.join`) is replaced by values: a `Stored` oracle for what reading `config.json` gave, a `Listing` for the directory, a map of folders, and a set of names whose move fails.
- JSON text, character encodings and floating-point numbers are not modelled. A document is a `JVal` tree.
- The exact text of the log messages is not modelled; each message is an `Event`.
- Organizer.FileOrganizer.constructor: requires the loaded document to decode strictly to the schema's shape: objects of string lists and of booleans, a list of rule objects holding exactly `keyword` then `target_folder`, both strings, and a boolean or missing `enable_unsorted`. The model refuses some documents that Python handles normally. A rule object with its two keys in the other order, or with extra keys, works as usual through `rule["keyword"]` and `rule["target_folder"]` (ZEN.py:147-148). A non-string entry in an extension list simply never matches (ZEN.py:157), and a non-boolean category flag is read by truthiness. A `Rule` value cannot carry the extra keys or entries that `save_state` would write back unchanged, so such documents are outside the model. Other malformed values, such as a non-string keyword, make Python fail only when they are used, with a `SystemError` part-way through a scan; the model has no such failure.
- Organizer.FileOrganizer.SaveConfig: a failing write is printed and swallowed by the source. The model always writes.
- ConfigStore.LoadConfig: when `config.json` is missing, the defaults are written through `save_config`, whose failing write is printed and swallowed. The model always writes them.
- Value semantics are used throughout. The source's `DEFAULT_CONFIG.copy()` is shallow, so the merge and the mutators update the nested default dicts in place, and the organizer's fields alias the lists and dicts inside its document. Neither aliasing is modelled.
- The default download folder depends on the host's home directory; it is the `defaultPath` parameter.
- Text.Lower: only ASCII letters are lowercased. Unicode case mapping is not modelled.
- Text.SplitExt: covers bare file names only; directory separators in a name are not modelled.
- Names are compared by exact string equality, as on a case-sensitive file system. `os.path.exists` on a case-insensitive one also treats `Report.pdf` and `report.pdf` as the same name, and a rule folder `images` and the category `Images` as the same folder. So Collision.FreeName, Scanner.EntryFolders and Scanner.NeverOverwrites hold for a case-sensitive file system only.
- `os.makedirs` is taken to succeed. A target name that is an existing plain file, a target folder name containing path separators (nested folders), the folder names `.` and `..`, and symbolic links are not modelled. `Folders` treats `.` and `..` as ordinary names, while on disk `.` renames the file in place (to `base_1.ext` when it collides with itself) and `..` moves it out of the directory. Failures in these cases fall under the failing-move oracle.
- A run works on the snapshot the listing gave. Concurrent changes to the directory, and the race between the existence checks and the move, are not modelled.
