# rstring / stringify in Dafny

This project models the core of `rstring` and its older sibling `stringify`. Both are command-line tools that:

- ask `rsync -ain --list-only` which files a set of include/exclude filters selects;
- gather those files into one labelled text blob;
- optionally draw the selected files as a tree, refine the filters interactively, and store filter sets as named presets.

The model covers the parts of that pipeline that are logic rather than I/O:

- **Rsync** (`rsync.dfy`): reading the file list out of rsync's listing (`parse_rsync_output`). The three copies of this function in the repository are the same code.
- **Gitignore** (`gitignore.dfy`): translating `.gitignore` lines into `--exclude=` filters (`parse_gitignore`).
- **Presets** (`presets.dfy`): the in-memory preset table of rstring, with `get_default_preset` and `set_default_preset`.
- **Interactive** (`interactive.dfy`): the add/remove/edit/done loop of `interactive_mode`.
- **ArgRules** (`args.dfy`): the "default source" rule that appends `.`.
- **PathTree** (`pathtree.dfy`): building the nested-dictionary tree of `print_tree` and rendering it with `├── `/`└── ` connectors. This covers rstring's variant and the two stringify copies.
- **TreeString** (`treestring.dfy`): rstring's `get_tree_string`, which covers:
  - the root directory taken from the common prefix;
  - the relative-path tree;
  - directories sorted first, then names;
  - ANSI colours.
- **Gather** (`gather.dfy`): the framing of `gather_code` in its rstring variant (directories only with `include_dirs`) and its stringify variant (every non-file gets a `[Directory]` block).
- **Cli** (`cli.dfy`): rstring's `parse_target_directory` and the argument composition in its `main`:
  - target directory;
  - preset choice;
  - `.gitignore` filters in front;
  - default source.
- **StringifyMain** (`stringifymain.dfy`): the argument composition in stringify's `main`, through validation, the interactive loop and `--save-as-preset`.
- **PyText** (`pytext.dfy`): the Python string and `posixpath` built-ins used above, written out with their contracts (`str.split`, `splitlines`, `strip`, `lower`, `os.path.commonprefix`, `dirname`, `basename`, `join`). **PyTextFacts** holds the lemmas about them.

The source works by changing things in place, and the model follows it:

- The list-building loops become `method`s with `while`/`for` loops and invariants. Each is proved equal to a specification function, and the properties are proved about that function.
- The preset table whose dicts `set_default_preset` rewrites is a `class` with `modifies`.
- Functions that are recursive in the source (`build_tree_string`, `print_tree_recursive`) are recursive functions.

These become parameters of the model:

- the file system (`os.path.isdir`, `isfile`, `access`, `abspath`, `relpath`);
- the answers typed into `input()`;
- `validate_rsync_args` and `shlex.split`;
- file contents and their UTF-8 decoding.

Three behaviours of the code are easy to misread; the model follows the code:

- **Empty strings as sources.** The default-source test `any(arg for arg in args if not arg.startswith('--'))` needs a *truthy* argument. An empty-string token therefore does not count as a source, and `.` is still appended (`ArgRules.IsSource`).
- **`if args.directory`, `if preset_name`, `if args.save_as_preset`.** These are truthiness tests, so an empty name behaves like no name (`ArgRules.Truthy`).
- **Overwritten subtrees.** `current[parts[-1]] = {}` replaces an existing subtree. A later path that names an existing directory as a leaf empties that directory in the drawing (`PathTree.OverwrittenDirectory`). The reachability lemma `PathTree.BuildShows` therefore carries that exception as a precondition.

## Model

| member | source | states |
|---|---|---|
| ArgRules.WithDefaultSource | rstring/cli.py:144-145 | if some argument is a non-empty string not starting with `--`, the list is unchanged; otherwise exactly one `.` is appended; either way the result names a source |
| ArgRules.WithDefaultSourceAppends | stringify.py:235-236 | `.` is appended exactly when every argument is empty or starts with `--` (both directions) |
| ArgRules.WithDefaultSourceIdempotent | stringify.py:235-236 | applying the rule to its own result changes nothing |
| Rsync.ParseRsyncOutput | rstring/utils.py:117-125 | the loop returns exactly the kept paths of the output's `splitlines`, in line order; stringify.py:62-70 and stringify/utils.py:58-66 are the same code |
| Rsync.ListedFilesMembers | rstring/utils.py:119-124 | a path is in the result iff some line has at least five fields, does not end in `/`, and gives that path from its fifth field on, and the path is not `.` |
| Rsync.ListedFilesAppend | stringify/utils.py:60-65 | the result for two runs of lines is the first run's result followed by the second's, so output order follows line order |
| Rsync.ListedFilesWellFormed | rstring/utils.py:122-123 | no returned path is `.`, and every returned path is non-empty, has no leading or trailing space and no run of spaces |
| Rsync.JoinFieldsSingleSpaced | rstring/utils.py:122 | joining whitespace-free fields with single spaces gives a single-spaced string |
| Rsync.RowFields | rstring/utils.py:120 | a listing row (mode, padding, size, date, time, path) splits into exactly its five fields |
| Rsync.RowEntry | rstring/utils.py:121-124 | such a row contributes its path unless the path is `.` or ends in `/` |
| Rsync.ListingOfRows | rstring/utils.py:117-125 | for any listing laid out as rsync prints it, newline-terminated, the result is the paths of the file rows in order |
| Rsync.ExampleListing | tests/test_rstring.py:63-74 | the repository's listing yields `file1.py`, `file2.py`, `subdir/file3.py` |
| Gitignore.Translate | rstring/utils.py:73-80 | a line yields no filter iff, once stripped, it is empty or starts with `#`; every filter starts with `--exclude=` |
| Gitignore.ParseGitignore | rstring/utils.py:64-82 | a missing file gives no filters; otherwise the result is `--exclude=.git` followed by the translation of every kept line, in file order |
| Gitignore.TranslatedLength | rstring/utils.py:71-82 | there is exactly one filter per kept line, so the result has 1 + (number of kept lines) entries, never more than 1 + the number of lines |
| Gitignore.TranslatedMembers | rstring/utils.py:72-80 | a filter appears iff some line translates to it, and every filter starts with `--exclude=` |
| Gitignore.TranslatedAppend | rstring/utils.py:72-80 | the filters of two runs of lines are those of the first followed by those of the second |
| Gitignore.TranslateInverse | rstring/utils.py:75-80 | removing `--exclude=` and a `*` added for a trailing `/` gives back the stripped line without its leading `/` |
| Gitignore.TranslateRootedDirectory | rstring/utils.py:75-78 | `/build/` becomes `--exclude=build/*` |
| Gitignore.TranslateComment | rstring/utils.py:74 | an indented comment line yields nothing |
| Gitignore.TranslateBlank | rstring/utils.py:73-74 | a whitespace-only line yields nothing |
| Gitignore.TranslatePlain | rstring/utils.py:79-80 | `*.pyc` becomes `--exclude=*.pyc` |
| Presets.FirstDefault | rstring/utils.py:45-49 | `None` iff no preset is marked default; otherwise the first marked name in table order, with none marked before it |
| Presets.PresetTable.GetDefault | rstring/utils.py:45-49 | the search loop with early return returns that first default name |
| Presets.MarkDefault | rstring/utils.py:57-58 | the same keys and the same `args`; a preset is default iff it has the given name |
| Presets.MarkDefaultFound | rstring/utils.py:52-58 | after marking an existing name, the default lookup returns that name |
| Presets.PresetTable.SetDefault | rstring/utils.py:52-61 | an unknown name leaves the table untouched and reports failure; a known name marks exactly that preset default, keeping names, order and `args` |
| Interactive.ParseAction | rstring/utils.py:173-192 | the lower-cased answer selects done, add, remove or edit by word or initial (each an iff); anything else is unknown |
| Interactive.Step | rstring/utils.py:162-192 | a round that continues has validated arguments and consumes at least one answer |
| Interactive.InteractiveMode | rstring/utils.py:160-194 | the loop returns exactly the outcome of running the rounds over the answers; stringify.py:105-141 and stringify/utils.py:101-137 are the same loop |
| Interactive.AddRemoveAppend | rstring/utils.py:176-181 | `a` appends exactly `--include`, pattern; `r` appends exactly `--exclude`, pattern; the earlier arguments stay a prefix; two answers are consumed |
| Interactive.EditReplacesOnlyValid | stringify.py:129-137 | edit keeps the arguments or replaces them with the new tokens plus a default `.`, and replaces them exactly when those validate |
| Interactive.RoundOutcomes | rstring/utils.py:164-192 | for every input: invalid arguments spin; no answer left is end of input; `d`/`done` returns the arguments; add, remove or edit without a second line is end of input; an edit line `shlex.split` rejects is a split failure; an unknown answer consumes only itself and leaves the arguments |
| Interactive.FinishedValid | rstring/utils.py:164-175 | arguments returned by `d` have passed validation |
| Interactive.AddOnlyExtends | stringify/utils.py:116-124 | with only add, remove and done answers, the initial arguments are a prefix of the result |
| Interactive.ExampleAddPattern | tests/test_rstring.py:119-125 | answers `a`, `*.txt`, `d` from `--include=*.py` give `--include=*.py`, `--include`, `*.txt` |
| PathTree.Find | rstring/utils.py:203 | the index of the first child with the name, or -1 iff no child has it |
| PathTree.PutGet | rstring/utils.py:203-207 | assigning a key keeps an existing key's position or appends a new one, and looking the key up gives the assigned subtree |
| PathTree.PutOther | rstring/utils.py:204-207 | assigning one key leaves every other key's subtree as it was |
| PathTree.BuildTree | rstring/utils.py:198-207 | the insertion loop builds exactly the tree of the fold over the paths with the given leaf test; the loops of stringify.py:145-153 and stringify/utils.py:141-149 are this one with every leaf kept |
| PathTree.BuildUnique | stringify/utils.py:145-149 | at every level of the built tree the names are distinct, so a shared prefix is one node |
| PathTree.InsertPathHas | stringify.py:148-153 | after inserting a path, its directory part is reachable, and the whole path when its leaf is kept |
| PathTree.InsertPathKeeps | rstring/utils.py:202-207 | inserting a path keeps every path already reachable, unless the new leaf overwrites a directory above it |
| PathTree.BuildShows | rstring/utils.py:199-207 | when no later path names an earlier path's directory as a kept leaf, every path's directories are reachable, and its leaf too when kept |
| PathTree.ShowsKept | rstring/utils.py:202-207 | inserting keeps what an earlier path made reachable, under the same exception |
| PathTree.OverwrittenDirectory | rstring/utils.py:206-207 | `a/b` then `a` leaves `a` as an empty leaf: `current[last] = {}` replaces the subtree |
| PathTree.RenderCount | rstring/utils.py:209-219 | the drawing has exactly one line per node |
| PathTree.RenderPrefix | stringify/utils.py:151-161 | every line of a subtree's drawing starts with the prefix it was given |
| PathTree.RenderFromHead | stringify.py:156-163 | an entry's line is the prefix then `└── ` for the last sibling and `├── ` otherwise, then the name |
| PathTree.RenderDirsSame | rstring/utils.py:218 | the extra `include_dirs`/`isdir` descent changes nothing, since descending into an empty subtree draws nothing |
| PathTree.PrintTreeFiles | rstring/utils.py:197-221 | the lines printed are the drawing of the tree built with leaves kept iff `include_dirs` or the path is a file |
| PathTree.PrintTree | stringify.py:144-167 | the lines printed are the drawing of the tree built with every leaf kept; stringify/utils.py:140-163 is the same code |
| PathTree.TestPrintTree | tests/test_rstring.py:128-145 | for the layout `d1/f1`, `d1/d2/f2`, `f3` of distinct slash-free names that are files, the five expected lines |
| TreeString.Colorize | rstring/tree.py:41-42 | identity with colours off; with colours on, the colour code, the text unchanged, then the reset code |
| TreeString.StrLeTotal | rstring/tree.py:46 | Python's string order is total |
| TreeString.StrLeTrans | rstring/tree.py:46 | Python's string order is transitive |
| TreeString.StrLeAntisymmetric | rstring/tree.py:46 | Python's string order is antisymmetric |
| TreeString.KeyLeTotal | rstring/tree.py:46 | the key `(not isdir, name)` orders any two entries |
| TreeString.KeyLeTrans | rstring/tree.py:46 | that key order is transitive |
| TreeString.InsertSorted | rstring/tree.py:46 | inserting an entry adds it and loses nothing (multiset) |
| TreeString.InsertSortedSorted | rstring/tree.py:46 | inserting into a sorted list keeps it sorted by the key |
| TreeString.SortEntries | rstring/tree.py:46 | the sorted entries are a permutation of the dict's entries |
| TreeString.SortEntriesSorted | rstring/tree.py:46 | the sorted entries are ordered by the key |
| TreeString.DirectoriesFirst | rstring/tree.py:46 | no directory comes after a non-directory |
| TreeString.NamesAscend | rstring/tree.py:46 | among directories, and among non-directories, names ascend |
| TreeString.GetTreeString | rstring/tree.py:16-75 | the method returns exactly the joined drawing: the root line, then the sorted tree lines |
| TreeString.TreeTextEmpty | rstring/tree.py:17-18 | an empty list gives the empty string |
| TreeString.DirnamePrefix | rstring/tree.py:22 | a directory name is a prefix of its path |
| TreeString.RootNeverEmpty | rstring/tree.py:20-25 | the root directory is never empty and never `/` |
| TreeString.RootIsPrefix | rstring/tree.py:20-25 | unless it is `.`, the root is a prefix of every listed path |
| TreeString.RootIsCommonDirectory | rstring/tree.py:20-21 | a common prefix that is a directory (not empty, not `/`) is the root itself |
| TreeString.TreeTextStartsWithRoot | rstring/tree.py:73-75 | the text starts with the root's base name, coloured blue when colours are on |
| TreeString.TreeTextLines | rstring/tree.py:75 | splitting the text at newlines gives back exactly the lines, when no line holds a newline |
| TreeString.LinesFromHead | rstring/tree.py:47-67 | an entry's line is the prefix, `└── ` for the last entry or `├── ` otherwise, then the displayed name |
| TreeString.NoDescentIntoFiles | rstring/tree.py:69-70 | an entry that is not a directory contributes exactly its own line |
| TreeString.DisplayColours | rstring/tree.py:60-65 | directories blue, executable non-directories green, other dot-names yellow, the rest plain; all plain with colours off |
| TreeString.LinesPrefix | rstring/tree.py:44-71 | every line of a subtree's drawing starts with the prefix it was given |
| Gather.GatherCode | rstring/utils.py:136-157 | the accumulation loop returns exactly the concatenated block of every path, with directories only when `include_dirs` |
| Gather.GatherCodeAll | stringify.py:81-102 | the accumulation loop returns exactly the concatenated block of every path, with a `[Directory]` block for every non-file; stringify/utils.py:77-98 is the same code |
| Gather.GatheredAppend | rstring/utils.py:138-156 | the blob for two lists of paths is the first's followed by the second's: one block per path, in input order |
| Gather.GatheredAllAppend | stringify/utils.py:79-97 | the same for the stringify variant |
| Gather.VariantsAgree | stringify.py:85-101 | with `include_dirs` on and every path a file or a directory, the rstring and stringify variants agree |
| Gather.EmptyPieces | rstring/utils.py:140-156 | a path contributes nothing iff reading it fails, or it is a directory without `include_dirs`, or it is neither; in the stringify variant only when reading fails |
| Gather.HeaderOnly | rstring/utils.py:149-152 | a preview length of zero or less gives the header-only block |
| Gather.ShownContents | rstring/utils.py:143-150 | with contents shown, a binary file's block is exactly its note, whose hex decodes back to the first 32 bytes (all bytes of a shorter file); a text file's block is exactly the first min(N, line count) lines of the decoded text joined by `\n`, or all of them without a preview length; stringify.py:88-97 is the same code |
| Gather.DirectoryBlocks | stringify.py:100-101 | the stringify versions give every directory, and every path that is neither file nor directory, the block `--- path ---`, `[Directory]`; rstring's (rstring/utils.py:155-156) gives a directory that block with `include_dirs` and nothing without |
| Gather.BlockFrame | stringify.py:95-101 | every block starts with `--- path ---` and a newline and ends with a blank line |
| Gather.Hexlify | rstring/utils.py:145 | two hex digits per byte |
| Gather.HexRoundTrip | rstring/utils.py:145 | the hex dump decodes back to the bytes |
| Gather.SliceTo | rstring/utils.py:148 | `lines[:n]` is a prefix of the lines |
| Cli.ParseTargetDirectory | rstring/cli.py:17-50 | the scanning loop returns exactly the target directory and remaining tokens of the scan with its positional fallback, or its error |
| Cli.AfterFirstEqOfDirectory | rstring/cli.py:32-33 | for a `--directory=` token, everything after the first `=` is what follows `--directory=` |
| Cli.ScanAppend | rstring/cli.py:24-37 | the scan of two runs: the later run's directory wins, and its other tokens follow the earlier run's |
| Cli.ScanPlain | rstring/cli.py:35-37 | tokens that are not directory options pass through in order, with no target |
| Cli.LastFlagWins | rstring/cli.py:26-29 | after a last `-C dir`, `dir` is the target and both tokens are removed |
| Cli.DirectoryEqWins | rstring/cli.py:32-34 | after a last `--directory=X`, `X` is the target and the token is removed |
| Cli.TrailingFlagFails | rstring/cli.py:27-31 | `-C` or `--directory` as the final token is the "requires a directory argument" error |
| Cli.ScanRemaining | rstring/cli.py:35-37 | the remaining tokens contain no directory option and are a subsequence of the input |
| Cli.PositionalFallback | rstring/cli.py:40-48 | with no directory option, a first token not starting with `-` that is a directory becomes the target and is dropped; otherwise the target is `.` and all tokens remain |
| Cli.OptionBeatsPositional | rstring/cli.py:40 | once a directory option is seen, no positional token is taken |
| Cli.ExplicitPresetIgnored | rstring/cli.py:116 | as written, any remaining argument means no preset, even one named with `-p` |
| Cli.ExplicitPresetCounterexample | rstring/cli.py:116 | for `-p web --include=*.py` in an existing current directory, the option stays an extra argument (it cannot be the target), so as written no preset is chosen, while the intended reading chooses `web` |
| Cli.ChosenPresetFacts | rstring/cli.py:116-120 | a named preset is always chosen; with no remaining arguments the two readings agree; with remaining arguments and no name there is none |
| Cli.ApplyPresetFacts | rstring/cli.py:117-125 | failure iff the name is truthy and unknown; otherwise the preset's arguments come first and the remaining ones form the tail |
| Cli.WithGitignoreFacts | rstring/cli.py:135-139 | with `.gitignore` in use and present, `--exclude=.git` and one filter per kept line come first and the earlier arguments follow unchanged; otherwise nothing changes |
| Cli.PrepareArgs | rstring/cli.py:99-145 | the method returns exactly the composed target and arguments (with the corrected preset rule), or the error message |
| Cli.PreparedArgsFacts | rstring/cli.py:110-145 | whatever `main` goes on with has an existing target directory and names a source |
| StringifyMain.ComposeArgsAsWritten | stringify.py:230-236 | the composed arguments, together with the table as it stands after the in-place `extend`/`append` on the stored list |
| StringifyMain.ComposeArgs | stringify.py:230-236 | the composed arguments, with the table left as loaded |
| StringifyMain.InitialArgsFacts | stringify.py:230-236 | the preset's arguments, then every unknown token in order, then at most a `.`; a source is always named; an unknown or empty preset name contributes nothing |
| StringifyMain.FinalArgsValid | stringify.py:238-243 | invalid initial arguments stop the run; the arguments that go on have passed validation |
| StringifyMain.StoredPresetRewritten | stringify.py:230-260 | as written, `--save-as-preset` under another name also writes the used preset back as the composed list, which differs from the stored one when unknown tokens were given |
| StringifyMain.AliasingCounterexample | stringify.py:230-260 | with `web` stored as `-a`, `-p web -sap web2 src` saves `web` as `-a src` |
| StringifyMain.SavedKeepsOthers | stringify.py:258-260 | saving changes exactly the saved name and keeps every other preset |
| PyText.SplitOn | rstring/utils.py:200 | `split(os.sep)` gives at least one part, no part holds the separator, and joining the parts gives back the string |
| PyTextFacts.SplitOnJoin | rstring/tree.py:32 | splitting a join of separator-free parts gives back exactly the parts |
| PyText.SplitLines | rstring/utils.py:119 | no line holds a line break, and there are no lines iff the text is empty |
| PyTextFacts.SplitLinesTerminated | rstring/utils.py:119 | splitting newline-terminated break-free lines gives them back |
| PyTextFacts.SplitFieldsJoin | rstring/utils.py:120-122 | `split()` of whitespace-free fields joined by single spaces gives back the fields |
| PyTextFacts.SplitFieldsAreFields | rstring/utils.py:120 | every part from `split()` is non-empty and whitespace-free |
| PyTextFacts.StripIs | rstring/utils.py:73 | `strip()` removes exactly the leading and trailing whitespace |
| PyText.Lower | rstring/utils.py:173 | same length, each character lowered |
| PyText.IndexOf | rstring/cli.py:33 | the position of the first occurrence of the character |
| PyText.CommonPrefix | rstring/tree.py:20 | a prefix of every path that cannot be extended: it is one of the paths, or two paths differ just after it |
| PyText.Dirname | rstring/tree.py:22 | the directory name is empty exactly when the path has no `/` |
| PyText.Basename | rstring/tree.py:27 | the base name is the longest end of the path without `/`: it holds no `/`, ends the path, and is the whole path or follows a `/` |
| PyText.PathJoin | rstring/tree.py:49 | an absolute second part replaces the first; otherwise the result is the first part, then a `/` exactly when the first part is non-empty and does not end with one, then the second part |
| PyTextFacts.DirnameBasenameJoin | rstring/tree.py:22 | joining a path's directory name and base name gives the path back when it has no doubled `/` |

## Left out

- `check_rsync`, `run_rsync`, `validate_rsync_args`, `copy_to_clipboard` and all of rstring/git.py run other programs. `validate_rsync_args` is the parameter `valid`; the file list rsync would return is not modelled.
- `load_presets` and `save_presets` are file I/O with YAML/JSON. Presets are an in-memory table, and "saving" is the table that would be written.
- Several branches of `main` are persistence and printing, and are not modelled:
  - `--list-presets`, `--delete-preset` and `--save-preset` in rstring/cli.py:79-97 and 127-132;
  - `--save-preset`, `--list-presets` and `--delete-preset` in stringify.py:204-228.
- The `set_default_preset` call in rstring's `main` is modelled by `Presets.PresetTable.SetDefault`. Its printed messages and the save are not.
- Reading files in `gather_code` is I/O:
  - `is_binary`'s 1024-byte sniff is the predicate `Gather.IsBinary` over the bytes a parameter supplies;
  - `decode('utf-8', errors='ignore')` is a parameter;
  - a read that raises is `RegularFile(None)`, which adds nothing (the log message is not modelled).
- `interactive_mode` also runs rsync and prints the file list and arguments each round. None of that affects the arguments, so it is left out. `input()` is the finite list of answers. Running out of answers, which raises `EOFError`, is the outcome `InputExhausted`.
- The endless re-validation in `interactive_mode` when the arguments are invalid (rstring/utils.py:164-166) is the outcome `Spins`. The loop itself is not run for ever.
- `shlex.split` is a parameter that returns `None` where it raises `ValueError`.
- `os.path.isdir`, `isfile`, `access(X_OK)`, `abspath` and `relpath` are parameters, not a modelled file system. `os.path.exists` of `.gitignore` is the flag `present`, and its `readlines()` are the input `lines`.
- The descent test `os.path.join(*node.keys(), name)` at rstring/utils.py:218 is a parameter. `PathTree.RenderDirsSame` shows that it cannot change the output.
- argparse, stringify/cli.py, `os.chdir` and the summary and clipboard messages of rstring/cli.py:175-213 are command-line plumbing. So are the summary, clipboard and `print(result)` steps of stringify.py:245-255.
- colorama initialisation is left out. The colour codes are the ANSI sequences colorama's `Fore.BLUE`, `Fore.GREEN`, `Fore.YELLOW` and `Style.RESET_ALL` stand for.
- defunct/ and setup.py are packaging and vestigial code.
- Python's object identity is not modelled: the nested dictionaries and the `current` pointer are values. The only aliasing with a visible effect is `presets.get(...)` in stringify.py:230, which `StringifyMain.ComposeArgsAsWritten` models explicitly.
- In rstring/cli.py:118-120, a stored preset that is an empty dict counts as "not found" (`if preset:`), and one without an `args` key raises `KeyError`. `Presets.Preset` always has both fields, so neither case arises in the model.
- `PyText.Lower`: only ASCII capitals are lowered, while Python's `str.lower` covers all of Unicode. It only matters for the answer words `a`/`add` and the rest, which are ASCII.
- The calls `main` makes at rstring/cli.py:152-173 (validation, `interactive_mode`, `run_rsync`, the git filter, `gather_code`, `get_tree_string`) are not composed into one operation: each callee is modelled or left out on its own.
- Cli.PrepareArgs and Cli.PreparedArgs compose line 116 of rstring/cli.py with the corrected preset rule `Cli.ChosenPreset`; the rule as written exists only as `Cli.ChosenPresetAsWritten`, so the model does not promise what `main` as written does when `-p` is given together with extra arguments.
- `TreeString.StrLe` compares characters by code point, which is Python's `str` order.

## Findings

| source | as written | input that shows it | evidently intended | confidence | as-written member | corrected member |
|---|---|---|---|---|---|---|
| rstring/cli.py:116 | `args.preset or get_default_preset(presets) if not rsync_args_base else None` parses as `(args.preset or default) if not rsync_args_base else None`, so any remaining argument discards even an explicit `-p` preset | `rstring -p web --include=*.py` run in an existing directory: `--include=*.py` starts with `-`, so it is never taken as the target and stays in `rsync_args_base`, and the run goes without the `web` preset (with `-p web src` and `src` a directory, `src` becomes the target and the preset does apply) | an explicit preset always applies, followed by the remaining arguments (line 120 appends `rsync_args_base` after the preset's, which is only useful then); the default preset applies only without remaining arguments | not executed; high | Cli.ChosenPresetAsWritten (Cli.ExplicitPresetIgnored, Cli.ExplicitPresetCounterexample) | Cli.ChosenPreset (Cli.ChosenPresetFacts), used by Cli.PreparedArgs and Cli.PrepareArgs |
| stringify.py:230-236 | `presets.get(args.preset, [])` returns the stored list itself, and `extend(unknown_args)` and `append('.')` change it in place; `--save-as-preset` then writes the whole table (lines 258-260) | with `web` stored as `-a`, `stringify -p web -sap web2 src` saves `web` as `-a src` | the used preset keeps its stored arguments and only the new name is saved (rstring/cli.py:120 builds a new list instead) | not executed; medium | StringifyMain.ComposeArgsAsWritten (StringifyMain.StoredPresetRewritten, StringifyMain.AliasingCounterexample) | StringifyMain.ComposeArgs (StringifyMain.SavedKeepsOthers) |
