# MGS.AssetFilter in Dafny

MGS.AssetFilter is a Unity editor window that checks a project's asset files
against naming rules. Each rule (an `AssetPattern`) pairs an asset category
with two regular expressions: one for the file's extension and one for its
base name. A file is a *naming mismatch* when some rule's extension pattern
matches its extension while that rule's name pattern does not match its base
name. `.meta` sidecar files are never checked.

"Check" clears the previous result and refuses to start unless the target
directory exists and a settings asset is loaded. Otherwise a worker thread
lists every file under the directory and checks them in turn. It collects the
mismatches in scan order, counts progress in `doneCount` / `totalCount`, and
at the end publishes the number of result pages (100 assets per page). An
exception inside that thread ends it early. If listing the files throws,
nothing is counted. If checking a file throws (`Regex.IsMatch` rejects a rule
pattern that does not parse), the files before it stay counted and collected,
and no page count is published. Each editor tick (`Update`) offers "cancel"
while a scan runs. A cancelled scan is treated as finished. Once a scan has
finished, the tick resets the progress counters. The result list is shown one
page at a time, with "Previous" / "Next" buttons. The "Browse" button sets the
target directory to the chosen folder's path from its first `Assets` on.
Typing in the directory field replaces the target directory. Picking another
settings asset, or creating a new one with "New", clears the result.

The model has five files:

- `options.dfy`: the `Option` type. It stands for the .NET "-1" and "null" return values, and for
  an exception that ended the computation.
- `base_library.dfy`: module `BaseLibrary`. It models, on strings, the three .NET functions
  the filter calls: `Path.GetExtension` (AssetFilterEditor.cs:283),
  `Path.GetFileNameWithoutExtension` (:289) and ordinal `String.IndexOf(string)` (:212).
  `GetFileName` and `LastIndexOf`, which model `Path.GetFileName` and
  `String.LastIndexOf(char)`, are what the first two are built from; the filter does not call
  them itself. `FirstIndexOf` and `IndexOfFrom` are helpers of the model. They split
  extension patterns and search for a substring.
- `asset_filter_settings.dfy`: module `Settings` holds the rule and settings data and the four
  default rules.
- `extension_patterns.dfy`: module `ExtensionPatterns` describes the default extension
  patterns. Each is an alternation of end-anchored extensions, such as `.cs$|.js$`.
  `SplitAlternatives` and `Anchored` are helpers of the model that take such a pattern apart.
- `asset_filter_editor.dfy`: module `AssetFilter`.
  - The verdict for one file: `CheckMismatchPattern` when every pattern parses, and
    `TryCheckMismatchPattern`, which is `None` where the check throws.
  - The scan result as a function of the scanned files: `ScanStop` (how many files the scan
    gets through) and `Mismatches`.
  - The page arithmetic.
  - The class `AssetFilterEditor`. Its fields are the window's state, and its methods are the
    window's operations.

`Regex.IsMatch(input, pattern)` is split into two parameters. `isValid` says whether a pattern
parses; `IsMatch` throws `ArgumentException` on one that does not. `isMatch` is the verdict of a
total matcher on a pattern that parses. Nothing else is assumed about either, so every property
holds for any total matcher and any notion of a valid pattern. `Directory.Exists` and
`Directory.GetFiles` are also parameters. The first is a boolean, `directoryExists`. The second,
`searchFiles`, is the list of files it returned, or `None` when it threw. The value saved in the
editor preferences and the settings loaded from the settings asset are arguments of the
constructor. The folder panel's answer is the argument of `SelectDirectory`, and the user's
cancel click is the argument of `Update`.

## Model

| member | source | states |
|---|---|---|
| Settings.AssetPatternStoresArguments | Assets/Editor/AssetFilterSettings.cs:26-31 | the rule constructor stores its category, name pattern and extension pattern unchanged |
| Settings.DefaultAssetPatternsShape | Assets/Editor/AssetFilterSettings.cs:37-43 | a new settings asset holds exactly four rules, in the order Script, Model, Material, Texture, with their four name patterns |
| Settings.ScriptExtensionPattern | Assets/Editor/AssetFilterSettings.cs:39 | the Script rule's extension pattern is the anchored alternation of its extension list |
| Settings.ModelExtensionPattern | Assets/Editor/AssetFilterSettings.cs:40 | the Model rule's extension pattern is the anchored alternation of its extension list |
| Settings.MaterialExtensionPattern | Assets/Editor/AssetFilterSettings.cs:41 | the Material rule's extension pattern is the anchored alternation of its extension list |
| Settings.TextureExtensionPattern | Assets/Editor/AssetFilterSettings.cs:42 | the Texture rule's extension pattern is the anchored alternation of its extension list |
| Settings.DefaultExtensionPatterns | Assets/Editor/AssetFilterSettings.cs:39-42 | each default extension pattern is the '$'-anchored alternation of that rule's extension list (.cs/.js; 7 model, 1 material and 9 texture formats) |
| Settings.DefaultExtensionsWellFormed | Assets/Editor/AssetFilterSettings.cs:39-42 | every extension listed by a default rule starts with '.', has at least one more character and holds no '\|' |
| Settings.DefaultAlternativesAnchored | Assets/Editor/AssetFilterSettings.cs:39-42 | every alternative of every default extension pattern is '.', an extension, then the end anchor '$' |
| ExtensionPatterns.SplitAnchoredAlternation | Assets/Editor/AssetFilterSettings.cs:39-42 | splitting an anchored alternation at its '\|' gives back exactly the anchored extensions, in order (the inverse of building it) |
| ExtensionPatterns.AlternativesAreAnchored | Assets/Editor/AssetFilterSettings.cs:39-42 | an alternation built from '.'-led, '\|'-free extensions splits only into '.'-led, '$'-closed alternatives |
| ExtensionPatterns.AnchoredAlternationAppend | Assets/Editor/AssetFilterSettings.cs:40-42 | the alternation of two lists joined is the two alternations joined by '\|' |
| ExtensionPatterns.ScriptAlternation | Assets/Editor/AssetFilterSettings.cs:39 | the Script extension pattern is the alternation of .cs and .js |
| ExtensionPatterns.ModelAlternation | Assets/Editor/AssetFilterSettings.cs:40 | the Model extension pattern is the alternation of its seven formats |
| ExtensionPatterns.MaterialAlternation | Assets/Editor/AssetFilterSettings.cs:41 | the Material extension pattern is the alternation of .mat alone |
| ExtensionPatterns.TextureAlternation | Assets/Editor/AssetFilterSettings.cs:42 | the Texture extension pattern is the alternation of its nine formats |
| BaseLibrary.GetFileName | Assets/Editor/AssetFilterEditor.cs:283 | the file name is the suffix of the path after its last directory separator: it holds no separator and is preceded by one unless it is the whole path |
| BaseLibrary.LastIndexOf | Assets/Editor/AssetFilterEditor.cs:283 | the index of the last occurrence of the character, or none when it does not occur |
| BaseLibrary.ExtensionOf | Assets/Editor/AssetFilterEditor.cs:283 | the extension of a file name, as `Path.GetExtension` takes it: empty, or a '.' and at least one more character, and no longer than the name |
| BaseLibrary.ExtensionOfShape | Assets/Editor/AssetFilterEditor.cs:283 | an extension is empty or a '.' followed by at least one character with no further '.', and it is a suffix of the name |
| BaseLibrary.ExtensionNoSeparator | Assets/Editor/AssetFilterEditor.cs:283 | the extension of a separator-free file name holds no separator |
| BaseLibrary.GetExtension | Assets/Editor/AssetFilterEditor.cs:283 | the extension of a path holds no directory separator |
| BaseLibrary.StemOf | Assets/Editor/AssetFilterEditor.cs:289 | the base name is a prefix of the file name |
| BaseLibrary.GetFileNameWithoutExtension | Assets/Editor/AssetFilterEditor.cs:289 | the base name of a path holds no directory separator |
| BaseLibrary.StemAndExtension | Assets/Editor/AssetFilterEditor.cs:283-289 | base name and extension put back together give the file name, apart from a trailing '.', which neither keeps |
| BaseLibrary.ExtensionPresent | Assets/Editor/AssetFilterEditor.cs:283-284 | a file has a non-empty extension exactly when its name holds a '.' and does not end with one |
| BaseLibrary.FileNameAfterDirectory | Assets/Editor/AssetFilterEditor.cs:283 | a separator-free name written after a directory (or alone) is the path's file name |
| BaseLibrary.ExtensionAfterStem | Assets/Editor/AssetFilterEditor.cs:283-289 | a stem followed by a proper extension splits back into that stem and that extension |
| BaseLibrary.SplitPath | Assets/Editor/AssetFilterEditor.cs:283-289 | a path written as directory + stem + extension has exactly that extension and that base name |
| BaseLibrary.IndexOf | Assets/Editor/AssetFilterEditor.cs:212 | the first index at which the substring occurs, or none when it occurs nowhere |
| AssetFilter.Flags | Assets/Editor/AssetFilterEditor.cs:292 | the condition of the rule loop: the rule's extension pattern matches the extension and its name pattern does not match the base name |
| AssetFilter.FirstFlaggingPattern | Assets/Editor/AssetFilterEditor.cs:290-297 | the rule at which the loop returns: the first rule whose extension pattern matches and name pattern does not, or none |
| AssetFilter.CheckMismatchPattern | Assets/Editor/AssetFilterEditor.cs:281-298 | a `.meta` file is never a mismatch; any other file is a mismatch exactly when some rule matches its extension and not its base name |
| AssetFilter.NoPatternsNoMismatch | Assets/Editor/AssetFilterEditor.cs:290-297 | with no rules, no file is a mismatch |
| AssetFilter.VerdictIgnoresPatternOrder | Assets/Editor/AssetFilterEditor.cs:290-297 | the verdict depends only on which rules are present, not on their order or repetition |
| AssetFilter.MetaFileExempt | Assets/Editor/AssetFilterEditor.cs:283-287 | a file named `<stem>.meta`, in any directory, is never a mismatch, whatever the rules |
| AssetFilter.VerdictOnNamedFile | Assets/Editor/AssetFilterEditor.cs:283-297 | for `dir/stem.ext` with any extension but `.meta`, the rules see exactly `.ext` and `stem`: it is a mismatch exactly when some rule flags that pair |
| AssetFilter.EvaluateRules | Assets/Editor/AssetFilterEditor.cs:290-297 | the rule loop with throwing matches: when it returns, its verdict is "some rule flags the file"; it throws only if some rule pattern does not parse, and never when all parse |
| AssetFilter.EvaluateRulesThrows | Assets/Editor/AssetFilterEditor.cs:290-295 | the rule loop throws exactly when, for some rule k, the rule throws (its extension pattern does not parse, or it matches and the name pattern does not parse) while every earlier rule neither throws nor flags the file; an unparsable pattern after the first flagging rule is never reached |
| AssetFilter.ThrowsAfterPassedRule | Assets/Editor/AssetFilterEditor.cs:290-295 | after a first rule that neither throws nor flags, the loop throws on the whole list exactly when it throws on the rest |
| AssetFilter.TryCheckMismatchPattern | Assets/Editor/AssetFilterEditor.cs:281-298 | the per-file check: a `.meta` file is not a mismatch, any other goes through the rule loop; `None` where that throws (its properties are stated by TryCheckAgrees and TryCheckThrows) |
| AssetFilter.TryCheckAgrees | Assets/Editor/AssetFilterEditor.cs:281-298 | a check that does not throw gives exactly the verdict of `CheckMismatchPattern` |
| AssetFilter.TryCheckThrows | Assets/Editor/AssetFilterEditor.cs:283-295 | a check throws only on a file that is not `.meta` when some rule pattern does not parse; a `.meta` file is never checked, so it never throws; on any other file it throws exactly when the rule loop reaches a throwing rule before a flagging one |
| AssetFilter.Filter | Assets/Editor/AssetFilterEditor.cs:254-259 | the kept files are never more than the scanned files |
| AssetFilter.FilterMembers | Assets/Editor/AssetFilterEditor.cs:254-259 | a path is kept exactly when it was scanned and accepted |
| AssetFilter.FilterAppend | Assets/Editor/AssetFilterEditor.cs:254-259 | scanning two batches one after the other collects the first batch's results, then the second's |
| AssetFilter.FilterInOrder | Assets/Editor/AssetFilterEditor.cs:254-259 | the collected files are a subsequence of the scanned files: scan order is kept |
| AssetFilter.FilterNone | Assets/Editor/AssetFilterEditor.cs:254-259 | when no file is accepted, nothing is collected |
| AssetFilter.Mismatches | Assets/Editor/AssetFilterEditor.cs:252-262 | the scan collects at most one entry per scanned file |
| AssetFilter.MismatchesMembers | Assets/Editor/AssetFilterEditor.cs:252-262 | a scan collects a path exactly when it is one of the scanned files and is a mismatch |
| AssetFilter.MismatchesStep | Assets/Editor/AssetFilterEditor.cs:254-260 | scanning one more file appends it to the result exactly when it is a mismatch, and leaves the result as it was otherwise |
| AssetFilter.NoPatternsNoMismatches | Assets/Editor/AssetFilterEditor.cs:252-262 | with no rules, a scan collects nothing |
| AssetFilter.ScanStep | Assets/Editor/AssetFilterEditor.cs:256-260 | a file whose check does not throw is appended to the result exactly when its verdict is a mismatch |
| AssetFilter.AcceptedPrefix | Assets/Editor/AssetFilterEditor.cs:254-262 | the scan's stopping point lies within the file list |
| AssetFilter.AcceptedPrefixStops | Assets/Editor/AssetFilterEditor.cs:254-262 | every file before the stopping point is accepted, and the file at it (if any) is not |
| AssetFilter.AcceptedPrefixUnique | Assets/Editor/AssetFilterEditor.cs:254-262 | any point before which every file is accepted and at which one is not is the stopping point |
| AssetFilter.ScanStop | Assets/Editor/AssetFilterEditor.cs:254-262 | how many files the scan thread gets through, at most all of them (which ones: ScanStopAtFirstThrow, ScanStopHere) |
| AssetFilter.ScanStopAtFirstThrow | Assets/Editor/AssetFilterEditor.cs:254-262 | the scan thread gets through exactly the files before the first one whose check throws, or all of them |
| AssetFilter.ScanStopHere | Assets/Editor/AssetFilterEditor.cs:254-262 | up to the stopping point, the next check throws exactly when the scan stops there |
| AssetFilter.ScanCompletes | Assets/Editor/AssetFilterEditor.cs:254-263 | when every rule pattern parses, the scan gets through every file |
| AssetFilter.CheckFiles | Assets/Editor/AssetFilterEditor.cs:254-262 | the foreach stops at the first check that throws, having counted exactly the files before it and collected exactly the mismatches among them, in order |
| AssetFilter.PageCount | Assets/Editor/AssetFilterEditor.cs:300-303 | no assets give no pages; otherwise the pages are the fewest that hold all assets with none left empty |
| AssetFilter.PageCountUnique | Assets/Editor/AssetFilterEditor.cs:300-303 | any page count that holds every asset with no empty page is the computed one |
| AssetFilter.StartIndex | Assets/Editor/AssetFilterEditor.cs:119 | a page starts at the page boundary that many pages in |
| AssetFilter.LimitCount | Assets/Editor/AssetFilterEditor.cs:120 | a page shows at most 100 assets; the count is non-negative exactly when the page starts within the result, never runs past its end, and is short only on the page that reaches the end |
| AssetFilter.PageWindowInRange | Assets/Editor/AssetFilterEditor.cs:119-121 | every existing page shows between 1 and 100 assets, all at valid indices of the result |
| AssetFilter.AssetOnItsPage | Assets/Editor/AssetFilterEditor.cs:119-121 | asset k appears on page k / 100, and that page exists |
| AssetFilter.PagesDisjoint | Assets/Editor/AssetFilterEditor.cs:119-121 | no asset is shown on two different pages |
| AssetFilter.AssetFilterEditor.constructor | Assets/Editor/AssetFilterEditor.cs:37-59 | a new window targets the directory saved in the preferences, or `Assets` when none was saved, holds the loaded settings and starts in the cleared state |
| AssetFilter.AssetFilterEditor.EditDirectory | Assets/Editor/AssetFilterEditor.cs:74 | the typed text becomes the target directory and nothing else changes |
| AssetFilter.AssetFilterEditor.ChangeSettings | Assets/Editor/AssetFilterEditor.cs:86-90 | a picked settings asset replaces the settings and the result is cleared; the directory is unchanged |
| AssetFilter.AssetFilterEditor.CreateNewSettings | Assets/Editor/AssetFilterEditor.cs:221-233 | the result is cleared and the window switches to a new settings asset holding the default rules; the directory is unchanged |
| AssetFilter.AssetFilterEditor.ClearEditorCache | Assets/Editor/AssetFilterEditor.cs:274-279 | the result is emptied and every counter and the page index become 0; directory and settings are unchanged |
| AssetFilter.AssetFilterEditor.ScanAssets | Assets/Editor/AssetFilterEditor.cs:250-265 | when listing the files throws, the window stays cleared; otherwise the total is the number of files, the done count and the result are those of the foreach up to the first throwing check, and the page count is published only when every file was checked |
| AssetFilter.AssetFilterEditor.Publish | Assets/Editor/AssetFilterEditor.cs:253-263 | the thread leaves the file total, the count and mismatches of the files it got through, and the page count only when it got through every file |
| AssetFilter.AssetFilterEditor.CheckAssetsName | Assets/Editor/AssetFilterEditor.cs:235-272 | a missing directory, then missing settings, stop the check with a cleared state; otherwise the scan's result is published, up to the first exception inside the thread |
| AssetFilter.AssetFilterEditor.Update | Assets/Editor/AssetFilterEditor.cs:171-192 | while scanning, a cancel marks every file done and publishes the page count, and without a cancel nothing changes; after a scan, the counters go back to 0; the result and page index are untouched |
| AssetFilter.AssetFilterEditor.PreviousPage | Assets/Editor/AssetFilterEditor.cs:132-142 | "Previous" is offered exactly on a multi-page result past page 0 and moves one page back; the page index stays valid |
| AssetFilter.AssetFilterEditor.NextPage | Assets/Editor/AssetFilterEditor.cs:132-159 | "Next" is offered exactly on a multi-page result before its last page and moves one page on; the page index stays valid |
| AssetFilter.AssetFilterEditor.CurrentPageAssets | Assets/Editor/AssetFilterEditor.cs:119-127 | the drawing loop lists at most 100 assets, consecutive in the result from the page's start, and never reads outside the result |
| AssetFilter.AssetFilterEditor.SelectDirectory | Assets/Editor/AssetFilterEditor.cs:201-219 | an empty answer changes nothing; otherwise the state is cleared, and the target becomes the suffix from the first `Assets`, or stays as it was when there is no `Assets`, the "invalid selection" case |

## Left out

- The worker thread, `Thread.Abort`, `Thread.Sleep(0)` and the interleaving of the scan with `Update` and `OnGUI` are not modelled. The scan runs in one call. Its loop works on local values, and `ScanAssets` sets the window's fields from them when the loop stops. The intermediate counts change nothing but what a concurrent `Update` could show. `Update` is specified on any state the invariant `Valid` allows, including a scan stopped half-way by an exception.
- The semantics of `Regex.IsMatch` is not modelled, because it is a foreign call into the regular-expression engine. It is the parameters `isMatch` (a total matcher) and `isValid` (whether a pattern parses). Match timeouts are not modelled: no timeout is set.
- `Directory.Exists`, `Directory.GetFiles`, `EditorPrefs`, `AssetDatabase` and `EditorUtility.OpenFolderPanel` are not modelled as I/O. They become parameters. Which exception `Directory.GetFiles` throws is not modelled, only that it throws.
- The progress bar's float ratio, `ShowNotification` texts, the `OnGUI` layout, the scroll position, `Selection.activeObject` and `markRepaint` / `Repaint` are not modelled. They only affect the display. Notifications reappear as the outcome values of `CheckAssetsName` and `SelectDirectory`.
- `ShowEditor` and `OnDisable` are not modelled. They open the window and unload assets. The constructor stands for `OnEnable`.
- Saving the target directory with `EditorPrefs.SetString` in `SelectDirectory`, and writing the new settings asset to disk in `CreateNewSettings`, are not modelled. Both are I/O.
- Aliasing of the settings asset is not modelled. In Unity `patternSettings` is a shared object whose public `assetPatterns` list the user can edit in the Inspector (`CreateNewSettings` selects the new asset for that, AssetFilterEditor.cs:232). Such an edit changes the rules of the next scan but does not clear the shown result. The model holds the settings as an immutable value that only `ChangeSettings` and `CreateNewSettings` replace, and both clear the result.
- The settings object field is modelled by `ChangeSettings`, called when the user picks an asset. `OnGUI` redraws that leave the field unchanged change nothing.
- The exception handler around thread creation (`catch (Exception e)`) is not modelled. Creating the thread has no counterpart in the sequential model.
- AssetFilter.AssetFilterEditor.SelectDirectory: `IndexOf("Assets")` is modelled as an ordinal comparison, while .NET compares culture-sensitively. `Substring(-1)` throwing is modelled as the `InvalidDirectory` outcome.
- BaseLibrary.GetFileName: the separator set is fixed to the Windows one, `/` and `\`. On Mono under macOS or Linux only `/` separates, so there a `\` is part of the file name. The volume separator `:` is not modelled. Invalid path characters, which make .NET throw, are not modelled either.
- Integer width is not modelled. The counters are unbounded `nat`s, because a file count near 2^31 cannot occur in an asset folder.
