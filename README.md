# A verified model of calibre's small decision logic

This project models, in Dafny, the sequential logic that sits under the Qt,
D-Bus and file-system wiring of calibre (the customised fork
`miaopas/customized-calibre`), and proves what that logic promises:

- the news-recipe scheduler store (`web/feeds/recipes/collection.py`):
  - schedules written into and read back from the scheduler file;
  - the rule deciding when a scheduled recipe is due;
  - replace-by-id of scheduled recipes, customisations and account records;
  - the store of custom recipes, and language-tag normalisation;
- the zip-plugin loader's name resolution (`customize/zipplugin.py`);
- the MTP device defaults table (`devices/mtp/defaults.py`);
- the device manager's bookkeeping (`gui2/device.py`):
  - job queues;
  - connected and ejected devices;
  - device jobs;
  - the "book on device" caches and the library/device matching cascade;
  - the menu rules and the mail-destination parsing;
- the main window's helpers (`gui2/ui.py`):
  - the action and store registries;
  - `calibre://` URL handling;
  - views, pages and the window title;
- the e-book viewer's helpers (`gui2/viewer/ui.py`):
  - `open_at`;
  - the search title;
  - the shortcut map;
  - the annotations map;
- the "similar books" search builder (`gui2/actions/similar_books.py`);
- the interface-action helpers (`gui2/actions/__init__.py`);
- the pure parts of the UDisks2 helper (`devices/udisks.py`);
- string utilities of the `calibre` package (`__init__.py`).

Shared modules:

- `Wrappers`: `Option` and `Result`.
- `Strings` (text.dfy) holds Python's string operations on sequences:
  - `replace`, `split`, `join`, `startswith`, `strip`;
  - integer reading and writing;
  - hex;
  - UTF-8 decoding.
- `PosixPath` holds the parts of `os.path` that are used.
- `OrderedDicts` holds an insertion-ordered dictionary as a sequence of pairs.

Python exceptions are modelled as `Err` values of a `Failure` datatype per
module. Collaborators the model cannot see are taken as parameters:

- the job manager;
- the database;
- D-Bus;
- the clock and time-zone conversion;
- `replace_entities`.

Mutable objects are classes whose methods are proved against
specification functions of the old state. Loops are kept as loops.

## Model

| member | source | states |
|---|---|---|
| CalibreUtils.SubstituteInvalid | src/calibre/__init__.py:146-147 | every character of the invalid set (backslash, vertical bar, `?*<>":+/`, codepoints below 32) is replaced by the substitute; with a valid substitute the result has no invalid character, and every result character comes from the name or the substitute |
| CalibreUtils.BlankSpaces | src/calibre/__init__.py:148 | each whitespace character becomes a space, every other character and the length are kept |
| CalibreUtils.FixTrailing | src/calibre/__init__.py:153-155 | a final period or space is replaced by `_`, so a non-empty result ends in neither; length kept |
| CalibreUtils.FixLeading | src/calibre/__init__.py:156-158 | a leading period is replaced by `_`; the rest is kept |
| CalibreUtils.SanitizeFileName | src/calibre/__init__.py:134-159 | a non-empty result never starts with a period and never ends with a period or a space |
| CalibreUtils.SanitizeNoInvalid | src/calibre/__init__.py:146-152 | with a substitute free of invalid characters (such as the default `_`) the sanitised name contains no invalid character |
| CalibreUtils.SanitizeAllDots | src/calibre/__init__.py:149-150 | a name made only of periods becomes `_` |
| CalibreUtils.DefaultSubstituteValid | src/calibre/__init__.py:130-134 | the default substitute `_` is not an invalid character |
| CalibreUtils.SubstituteValid | src/calibre/__init__.py:146-147 | a name free of invalid characters passes the substitution unchanged |
| CalibreUtils.CleanSlashes | src/calibre/__init__.py:563 | the left-to-right `(?<!:)/{2,}` substitution: empty exactly for empty input, keeps whether the text starts with `/`, and leaves no `//` that does not follow a `:` |
| CalibreUtils.UrlSlashCleaner | src/calibre/__init__.py:559-563 | every `//` left in the result comes right after a `:`, and only redundant slashes are removed: squeezing every slash run to one slash gives the same text before and after, and the result is never longer |
| CalibreUtils.CleanSlashesSqueeze | src/calibre/__init__.py:560-563 | the substitution keeps every non-slash character and one slash of every run, in order, and never lengthens the text |
| CalibreUtils.CleanSlashesFixed | src/calibre/__init__.py:563 | text with no stray `//` is left unchanged |
| CalibreUtils.UrlSlashCleanerIdempotent | src/calibre/__init__.py:559-563 | cleaning a cleaned URL changes nothing |
| CalibreUtils.StripProxy | src/calibre/__init__.py:239-244 | the rewritten value is a suffix of the reported value with at most one trailing `/` cut |
| CalibreUtils.CleanProxy | src/calibre/__init__.py:235-249 | an entry is kept exactly when its value is non-empty, holds no `..`, its key is not `auto` and the rewritten value has more than four characters; a kept entry holds the rewritten value |
| CalibreUtils.StripProxyScheme | src/calibre/__init__.py:239-240 | `key://host` is rewritten to `host` |
| CalibreUtils.StripProxySchemeSlash | src/calibre/__init__.py:239-244 | `key://host/` is rewritten to `host` |
| CalibreUtils.CleanProxyKeepsHost | src/calibre/__init__.py:235-249 | `key://host` and `key://host/` are kept as `host` for any host longer than four characters without `..` or a trailing `/` |
| CalibreUtils.CleanProxyKeepsBare | src/calibre/__init__.py:235-249 | a bare host value without a scheme is kept unchanged |
| CalibreUtils.CleanProxyHttpsOverHttp | src/calibre/__init__.py:241-242 | for the `https` key, `http://host` is kept as `host` |
| CalibreUtils.CleanProxyShortDropped | src/calibre/__init__.py:245-249 | a value of four characters or fewer is always deleted |
| CalibreUtils.CleanProxyKept | src/calibre/__init__.py:235-249 | a kept proxy never has key `auto`, is longer than four characters, holds no `..`, and is a slice of the original value with at most a prefix and one trailing character cut |
| CalibreUtils.GetProxies | src/calibre/__init__.py:232-253 | the cleanup loop deletes or rewrites each entry in place; the result is the entry-wise cleaning of the reported map |
| CalibreUtils.EscapeForXml | src/calibre/__init__.py:519-521 | the result has no `<` or `>`, and with `attribute` no `"` or `'` |
| CalibreUtils.PrepareStringForXml | src/calibre/__init__.py:517-522 | whatever the entity replacement returns, the result has no `<` or `>`, and with `attribute` no quotes |
| CalibreUtils.EscapeForXmlEach | src/calibre/__init__.py:519-521 | the chain of `replace` calls equals escaping each character on its own (`&` first, so no entity is escaped twice) |
| CalibreUtils.UnescapeEscape | src/calibre/__init__.py:519-521 | decoding the five predefined entities gives back the text: the escaping loses nothing |
| RecipeCollection.Partition | src/calibre/web/feeds/recipes/collection.py:50 | `partition` splits at the first separator, or returns the whole text and no separator |
| RecipeCollection.NormalizeLanguage | src/calibre/web/feeds/recipes/collection.py:49-55 | the normalised tag never holds a `-` |
| RecipeCollection.NormalizeLanguageSplit | src/calibre/web/feeds/recipes/collection.py:49-55 | a tag `lang` + (`-` or `_`) + `country` becomes lower-case `lang`, `_`, upper-case `country` |
| RecipeCollection.NormalizeLanguagePlain | src/calibre/web/feeds/recipes/collection.py:53-54 | a tag without separator is only lower-cased |
| RecipeCollection.NormalizeLanguageIdempotent | src/calibre/web/feeds/recipes/collection.py:49-55 | normalising a normalised tag changes nothing |
| RecipeCollection.NormalizeLanguageDash | src/calibre/web/feeds/recipes/collection.py:50 | `-` and `_` are interchangeable as separators |
| RecipeCollection.MaxId | src/calibre/web/feeds/recipes/collection.py:187-189 | the largest integer among the keys, attained by one of them |
| RecipeCollection.FirstId | src/calibre/web/feeds/recipes/collection.py:186-189 | 1000 for an empty store, otherwise the largest id plus one |
| RecipeCollection.FirstIdUnique | src/calibre/web/feeds/recipes/collection.py:186-189 | the first id is determined by the store |
| RecipeCollection.Added | src/calibre/web/feeds/recipes/collection.py:191-205 | adding a batch never removes a stored key (what the new keys hold is stated by AddedStoresEach and AddedKeepsOthers) |
| RecipeCollection.AddedStoresEach | src/calibre/web/feeds/recipes/collection.py:191-205 | the i-th title of a batch is stored under id `first + i`, with its title and file name |
| RecipeCollection.AddedKeepsOthers | src/calibre/web/feeds/recipes/collection.py:191-205 | a key below the first new id keeps its entry or stays absent |
| RecipeCollection.AddKeepsExisting | src/calibre/web/feeds/recipes/collection.py:183-205 | adding never disturbs a recipe already stored |
| RecipeCollection.Updated | src/calibre/web/feeds/recipes/collection.py:158-170 | every stored key stays and keeps its file name |
| RecipeCollection.UpdatedOk | src/calibre/web/feeds/recipes/collection.py:160 | the update fails exactly when some id is not an integer |
| RecipeCollection.UpdatedKeepsFileName | src/calibre/web/feeds/recipes/collection.py:163-166 | an existing recipe keeps its file name through any update |
| RecipeCollection.UpdatedKeepsOthers | src/calibre/web/feeds/recipes/collection.py:154-176 | a key no item targets keeps its entry |
| RecipeCollection.UpdatedLastWins | src/calibre/web/feeds/recipes/collection.py:154-176 | the last item that targets a key decides its title |
| RecipeCollection.CustomRecipes.AddCustomRecipes | src/calibre/web/feeds/recipes/collection.py:183-205 | fails, changing nothing, exactly when a stored key is not an integer; otherwise the store gains the batch under consecutive ids from the first id |
| RecipeCollection.CustomRecipes.UpdateCustomRecipes | src/calibre/web/feeds/recipes/collection.py:154-176 | the loop leaves the store, and reports success, as the update function says |
| RecipeCollection.FirstFreeId | src/calibre/web/feeds/recipes/collection.py:185-189 | `ValueError` exactly when a key is not an integer, else the first id |
| RecipeScheduler.SerializeSchedule | src/calibre/web/feeds/recipes/collection.py:423-437 | `ValueError` exactly for an unknown schedule type (a known type with a schedule of the wrong shape raises `TypeError`); an interval is written as a whole number no smaller than the 0.04-day minimum |
| RecipeScheduler.ParseSchedule | src/calibre/web/feeds/recipes/collection.py:439-449 | only the four known types can fail; an interval reads back as an interval and a day list as a day-list schedule; `IndexError` only for a day-list text with fewer than three `:`-separated parts |
| RecipeScheduler.HourReadBeforeMinute | src/calibre/web/feeds/recipes/collection.py:446-449 | a day-list text `days:h` with an unreadable hour fails with `ValueError` from the hour, before the missing minute is indexed |
| RecipeScheduler.IntsToStrings | src/calibre/web/feeds/recipes/collection.py:431 | each integer written in decimal, in order |
| RecipeScheduler.ParseInts | src/calibre/web/feeds/recipes/collection.py:444-449 | `map(int, …)` keeps the count when it succeeds |
| RecipeScheduler.SerializeUnknown | src/calibre/web/feeds/recipes/collection.py:434-435 | an unknown schedule type raises `ValueError` |
| RecipeScheduler.DaysRoundTrip | src/calibre/web/feeds/recipes/collection.py:431-432 | a non-empty day list written with commas splits back into its numbers and has no `:` |
| RecipeScheduler.ScheduleRoundTrip | src/calibre/web/feeds/recipes/collection.py:423-456 | reading back a written schedule gives its type and values (an interval raised to its 0.04-day minimum) |
| RecipeScheduler.EmptyDaysUnreadable | src/calibre/web/feeds/recipes/collection.py:431-449 | an empty day list is written as `:h:m`, which cannot be read back |
| RecipeScheduler.NeedsDownload | src/calibre/web/feeds/recipes/collection.py:458-514 | the due rule raises only for a day/time schedule, and a recipe is due only under an interval, day/time or day-list schedule |
| RecipeScheduler.HaveWeekday | src/calibre/web/feeds/recipes/collection.py:492-496 | the `for day in days` loop finds a matching day exactly when one exists |
| RecipeScheduler.RecipeNeedsToBeDownloaded | src/calibre/web/feeds/recipes/collection.py:458-514 | the method, with its day loop, returns what the due rule says |
| RecipeScheduler.UnknownNeverDue | src/calibre/web/feeds/recipes/collection.py:514 | a schedule of an unknown type is never due |
| RecipeScheduler.DayTimeDue | src/calibre/web/feeds/recipes/collection.py:478-487 | a day/time recipe is due exactly when the weekday matches (any day outside 0..6 means every day), it was not downloaded earlier the same local day, and the time is reached |
| RecipeScheduler.DaysOfWeekDue | src/calibre/web/feeds/recipes/collection.py:488-500 | a days-of-week recipe is due exactly when some listed day matches, it was not downloaded today, and the time is reached |
| RecipeScheduler.DaysOfMonthDue | src/calibre/web/feeds/recipes/collection.py:501-512 | a days-of-month recipe is due exactly when today's date is listed, it was not downloaded today, and the time is reached |
| RecipeScheduler.IntervalDue | src/calibre/web/feeds/recipes/collection.py:476-477 | an interval recipe is due once more than the interval has passed since the last download |
| RecipeScheduler.FirstMatch | src/calibre/web/feeds/recipes/collection.py:341-342 | the index of the first entry of the kind with the id, or -1 when there is none |
| RecipeScheduler.RemoveMatches | src/calibre/web/feeds/recipes/collection.py:364-366 | exactly the entries that are not customisations of the urn remain |
| RecipeScheduler.SchedulerConfig.FindFirst | src/calibre/web/feeds/recipes/collection.py:341-342 | the scanning loop finds the first entry of the kind with the id |
| RecipeScheduler.SchedulerConfig.ScheduleRecipe | src/calibre/web/feeds/recipes/collection.py:339-359 | fails exactly when the schedule type is unknown; the root becomes: the first recipe with the id removed and the new one appended |
| RecipeScheduler.SchedulerConfig.CustomizeRecipe | src/calibre/web/feeds/recipes/collection.py:362-375 | every customisation of the urn removed, one appended |
| RecipeScheduler.SchedulerConfig.UnScheduleRecipe | src/calibre/web/feeds/recipes/collection.py:377-383 | only the first recipe with the id is removed |
| RecipeScheduler.SchedulerConfig.UpdateLastDownloaded | src/calibre/web/feeds/recipes/collection.py:385-400 | the first recipe with the id gets the new download time; when reading its schedule raises, nothing changes |
| RecipeScheduler.SchedulerConfig.SetAccountInfo | src/calibre/web/feeds/recipes/collection.py:516-524 | the first account record of the urn removed, the new one appended |
| RecipeScheduler.SchedulerConfig.GetAccountInfo | src/calibre/web/feeds/recipes/collection.py:526-530 | the credentials of the first account record with the urn, or none |
| RecipeScheduler.SchedulerConfig.GetCustomizeInfo | src/calibre/web/feeds/recipes/collection.py:540-553 | the first customisation of the urn read back, or the defaults |
| RecipeScheduler.StripPieces | src/calibre/web/feeds/recipes/collection.py:550 | each tag stripped, in order |
| RecipeScheduler.ScheduleReplaces | src/calibre/web/feeds/recipes/collection.py:339-359 | every other entry stays in place and in order, recipe ids stay unique, and the recipe found under the id is the new one with the kept download time (the given one, else the old entry's, else the epoch) |
| RecipeScheduler.RemovedHasNoOther | src/calibre/web/feeds/recipes/collection.py:377-383 | with unique ids, after the removal no entry with the id is left |
| RecipeScheduler.AccountRoundTrip | src/calibre/web/feeds/recipes/collection.py:516-530 | after `set_account_info` the urn reads back the new credentials, every other urn reads as before, and ids stay unique |
| RecipeScheduler.CustomizeRoundTrip | src/calibre/web/feeds/recipes/collection.py:362-375 | `get_customize_info` reads back what `customize_recipe` stored, when the tags survive the comma join |
| RecipeScheduler.CustomizeDefaults | src/calibre/web/feeds/recipes/collection.py:540-553 | a missing urn gives title tag on, no tags, no issue limit, empty options |
| RecipeScheduler.UpdateSnapsWithinHour | src/calibre/web/feeds/recipes/collection.py:385-398 | only the first recipe with the id changes, and only its download time; that time is one interval after the previous download exactly when the recipe is an interval recipe and now is within an hour of it, and is now otherwise; never more than an hour from now |
| RecipeScheduler.DecodeOldSchedule | src/calibre/web/feeds/recipes/collection.py:602-612 | a code above 100000 becomes a day/time schedule with day in -1..6; any other number stays an interval |
| RecipeScheduler.DecodeOldSixDigits | src/calibre/web/feeds/recipes/collection.py:602-612 | a six-digit code `D x HH MM` decodes to day `D-1` (every day when 7 or more), hour `HH-1` and minute `MM-1` |
| RecipeScheduler.OldRecipeScheduled | src/calibre/web/feeds/recipes/collection.py:593-615 | a migrated recipe is scheduled under a urn of the form `builtin:<name>` or `custom:<number>` |
| RecipeScheduler.AddOldRecipe | src/calibre/web/feeds/recipes/collection.py:593-615 | the root is updated as the migration says; the call fails exactly when a built-in id lacks the `recipe_` prefix, and then with `KeyError` (the element builder has no type entry for `None`) |
| ZipPlugin.StripLeading | src/calibre/customize/zipplugin.py:341 | one leading `/` is removed from each entry name; an empty entry name raises `IndexError` |
| ZipPlugin.ImportNameIn | src/calibre/customize/zipplugin.py:344-347 | the import name is the text after the last `-` of the stem, so it holds no `-` |
| ZipPlugin.ImportName | src/calibre/customize/zipplugin.py:343-347 | none exactly when no `plugin-import-name-X.txt` entry exists; otherwise the name taken from such an entry, the last one in the order the listing is iterated |
| ZipPlugin.DummyNameInjective | src/calibre/customize/zipplugin.py:349-355 | distinct counters give distinct `dummyN` names |
| ZipPlugin.PyNames | src/calibre/customize/zipplugin.py:361 | exactly the entries ending in `.py` |
| ZipPlugin.InitDirs | src/calibre/customize/zipplugin.py:363-364 | exactly the directories of the `…/__init__.py` entries |
| ZipPlugin.SortByDepthSorted | src/calibre/customize/zipplugin.py:365 | sorting by the number of `/` is a permutation into shallowest-first order |
| ZipPlugin.ValidMono | src/calibre/customize/zipplugin.py:368-373 | a package stays valid once recorded |
| ZipPlugin.ValidSound | src/calibre/customize/zipplugin.py:368-373 | every valid package is the dotted name of a candidate directory |
| ZipPlugin.ValidComplete | src/calibre/customize/zipplugin.py:365-373 | visiting candidates shallowest first, a directory whose every ancestor has an `__init__.py` is a valid package once visited |
| ZipPlugin.InitChainValid | src/calibre/customize/zipplugin.py:363-373 | whatever the listing order, a directory whose every ancestor up to the top level has an `__init__.py` becomes a valid package |
| ZipPlugin.ChainValidSorted | src/calibre/customize/zipplugin.py:366-373 | in a shallowest-first candidate list, a directory with a full `__init__.py` chain ends up valid |
| ZipPlugin.NamesSound | src/calibre/customize/zipplugin.py:375-383 | only admitted `.py` entries (top level or inside a valid package) that the zip holds are recorded, each under its own dotted name |
| ZipPlugin.NamesComplete | src/calibre/customize/zipplugin.py:375-383 | every admitted entry is recorded under its dotted name |
| ZipPlugin.NamesFail | src/calibre/customize/zipplugin.py:383 | building the names raises `KeyError` exactly when an admitted entry is missing from the zip |
| ZipPlugin.FirstLegacy | src/calibre/customize/zipplugin.py:386-390 | the entry of a top-level name ending in `plugin` (the first in the order the names are iterated), or none when there is no such name |
| ZipPlugin.WithLegacyInit | src/calibre/customize/zipplugin.py:385-390 | with an `__init__` nothing changes; without one, the first legacy module's entry is also recorded as `__init__` |
| ZipPlugin.WithLegacyInitKeeps | src/calibre/customize/zipplugin.py:385-390 | the legacy step touches no other module name |
| ZipPlugin.CodeNames | src/calibre/customize/zipplugin.py:361-395 | a successful result always has an `__init__` module |
| ZipPlugin.CodeNamesNoInit | src/calibre/customize/zipplugin.py:392-395 | with neither `__init__` nor a legacy module the plugin is rejected with `InvalidPlugin` |
| ZipPlugin.PluginFinder.LocateCode | src/calibre/customize/zipplugin.py:339-399 | `IndexError` for an empty entry, `InvalidPlugin` for an import name not starting with a letter or for a plugin without `__init__`; on success the chosen name (the declared one, or the smallest free `dummyN`) is recorded with its module names and nothing else changes; on failure nothing is recorded |
| ZipPlugin.PluginFinder.Load | src/calibre/customize/zipplugin.py:297-337 | an unreadable file is `PluginNotFound`; when the import of the located plugin fails its record is deleted again, leaving the other plugins as they were |
| ZipPlugin.FindImportName | src/calibre/customize/zipplugin.py:343-347 | the loop finds the declared import name |
| ZipPlugin.ChooseDummy | src/calibre/customize/zipplugin.py:349-355 | the smallest `dummyN` with `N >= 1` that no loaded plugin uses |
| ZipPlugin.ValidPackages | src/calibre/customize/zipplugin.py:366-373 | the loop computes the valid packages |
| ZipPlugin.BuildNames | src/calibre/customize/zipplugin.py:375-383 | the loop computes the names dictionary, or its `KeyError` |
| ZipPlugin.AddLegacyInit | src/calibre/customize/zipplugin.py:385-390 | the loop performs the legacy step |
| ZipPlugin.FindSpec | src/calibre/customize/zipplugin.py:259-295 | a found spec carries the full name asked for |
| ZipPlugin.FindSpecFound | src/calibre/customize/zipplugin.py:259-282 | a module is found exactly when it is `calibre_plugins` itself, or its plugin is loaded and holds the in-plugin name (default `__init__`) or that name plus `.__init__` |
| ZipPlugin.FindSpecResolves | src/calibre/customize/zipplugin.py:269-282 | the loader resolves to the name asked for when the plugin holds it, else to that name plus `.__init__` |
| ZipPlugin.IsPackageExactly | src/calibre/customize/zipplugin.py:270-287 | a found module is a package exactly when its name has under two dots, the in-plugin name asked for is `__init__` or ends in `.__init__`, or the plugin lacks that name and its `__init__` is loaded in its place |
| ZipPlugin.PluginRootIsPackage | src/calibre/customize/zipplugin.py:276-287 | a plugin's top-level module, and a module found through the `__init__` fallback, is a package |
| ZipPlugin.ChildrenOf | src/calibre/customize/zipplugin.py:226-232 | exactly the entries directly inside the base directory |
| ZipPlugin.Contents | src/calibre/customize/zipplugin.py:216-232 | nothing for a non-package or a module without an entry; otherwise exactly the zip entries directly inside the package's directory |
| ZipPlugin.ResourceIsContent | src/calibre/customize/zipplugin.py:216-240 | for a package, a plain file name is a resource exactly when the entry it names is among the package's contents |
| ZipPlugin.GetResources | src/calibre/customize/zipplugin.py:25-55 | one requested name gives its data or none; several give a map holding exactly the requested names present in the zip, with their data |
| MtpDefaults.FirstMatch | src/calibre/devices/mtp/defaults.py:59-71 | the index of the first rule whose every test passes, or the table length when none does |
| MtpDefaults.HexRun | src/calibre/devices/mtp/defaults.py:50 | the length of the leading run of hexadecimal digits, which the regular expression's `[0-9a-fA-F]+` consumes greedily |
| MtpDefaults.DefaultsFor | src/calibre/devices/mtp/defaults.py:47-73 | the returned vid and pid are always the ones derived from the device, whichever rule matched |
| MtpDefaults.DefaultsFirstRule | src/calibre/devices/mtp/defaults.py:59-71 | the settings are those of the first rule, in table order, whose every test passes |
| MtpDefaults.DefaultsNoRule | src/calibre/devices/mtp/defaults.py:73 | with no passing rule the settings are `{}` |
| MtpDefaults.VendorRuleAnyProduct | src/calibre/devices/mtp/defaults.py:62-68 | a rule that only tests the vendor passes for every product id |
| MtpDefaults.AmazonDevices | src/calibre/devices/mtp/defaults.py:24-31 | every Amazon device (vendor 0x1949) gets the Amazon settings, whatever its product id |
| MtpDefaults.UnknownSupernote | src/calibre/devices/mtp/defaults.py:40-45 | a Supernote vendor id with an unlisted product id gets no settings |
| MtpDefaults.NoPatternDefaults | src/calibre/devices/mtp/defaults.py:48-51 | on Windows, a path without the `vid_…&pid_…` pattern gives 0xffff for both ids |
| MtpDefaults.SearchSkipsPrefix | src/calibre/devices/mtp/defaults.py:50 | the search cannot match inside a prefix holding no `v` in any case |
| MtpDefaults.NoMatchSearch | src/calibre/devices/mtp/defaults.py:50-51 | when the pattern matches at no position, the search finds nothing |
| MtpDefaults.WindowsIds | src/calibre/devices/mtp/defaults.py:48-53 | on Windows, a path `pre vid_H1&pid_H2 rest` yields the hexadecimal values of `H1` and `H2` |
| MtpDefaults.MatchHereOf | src/calibre/devices/mtp/defaults.py:50-53 | the pattern at the start of the text yields the values of its two hexadecimal runs |
| MtpDefaults.LiteralPrefix | src/calibre/devices/mtp/defaults.py:50 | the `(?i)` flag accepts the lower-case literal itself |
| DeviceManagement.DeviceJob.constructor | src/calibre/gui2/device.py:67-80 | a new job waits, is neither aborted nor failed, has the default details, and stores any callback but a dispatcher wrapped in a function dispatcher |
| DeviceManagement.DeviceJob.Abort | src/calibre/gui2/device.py:125-135 | the job ends aborted and failed with the error as details and exception; a waiting job is started and finished on the spot (its work events are emitted), any other emits nothing |
| DeviceManagement.DeviceJob.Run | src/calibre/gui2/device.py:108-123 | the work always starts and finishes; a returned value is kept; a raised error is recorded as failure, details and exception only when the job was not aborted |
| DeviceManagement.CleanInfo | src/calibre/gui2/device.py:543-546 | one `{}` is appended when there are fewer than five fields; text fields lose every `\x00` and `\x01` and keep every other character; other fields are unchanged |
| DeviceManagement.DeviceManager.constructor | src/calibre/gui2/device.py:183-224 | no device, no jobs, nothing ejected, nothing cached |
| DeviceManagement.DeviceManager.NextJob | src/calibre/gui2/device.py:413-424 | the oldest pending step before any pending job, and none when both queues are empty; nothing else changes |
| DeviceManagement.DeviceManager.CreateJobStep | src/calibre/gui2/device.py:508-517 | every job is handed to the job manager; it joins the step queue exactly when `done` is absent or a function dispatcher and the target is the current job, else the job queue |
| DeviceManagement.DeviceManager.ConnectedDeviceRemoved | src/calibre/gui2/device.py:290-318 | every queued job is aborted and the queue left empty; the device and cached information are cleared and the device leaves the ejected set; disconnection is signalled only when it had not been ejected; afterwards no device is present |
| DeviceManagement.DeviceManager.UmountDevice | src/calibre/gui2/device.py:401-411 | acts only with a device connected and no device job running; a device or unmanaged device is ejected and the disconnection signalled, and only a managed device joins the ejected set; another kind is asked to unmount when it can |
| DeviceManagement.DeviceManager.GetDeviceInformation | src/calibre/gui2/device.py:541-550 | the cleaned fields with the card prefixes and free space, which are also cached |
| DeviceManagement.EjectedNotPresent | src/calibre/gui2/device.py:226-231 | a connected device in the ejected set is connected but not present |
| DeviceManagement.SendEnabled | src/calibre/gui2/device.py:910-928 | a send action is on only when device actions are enabled; then the main one always is, and a card's only when that card's prefix exists |
| DeviceManagement.SendEnabledRules | src/calibre/gui2/device.py:910-928 | disabled, every send action is off; enabled, main is on, card A is on exactly when the first card prefix exists and card B exactly when the second does |
| DeviceManagement.DeviceMenu.EnableDeviceActions | src/calibre/gui2/device.py:910-931 | the main, card A and card B send actions follow those rules, other actions keep their state, and fetching annotations is enabled exactly when enabling a device that supports it |
| DeviceManagement.SplitDest | src/calibre/gui2/device.py:1369 | `partition(':')`: the part before the first colon and the rest |
| DeviceManagement.StripLowerAll | src/calibre/gui2/device.py:1386 | each format stripped and lower-cased, in order |
| DeviceManagement.MailDestination | src/calibre/gui2/device.py:1379-1386 | the recipient holds no `;`, and there is always at least one format |
| DeviceManagement.MailRoundTrip | src/calibre/gui2/device.py:1379-1387 | `to;formats;subject` gives back the recipient, the trimmed lower-case formats, and the subject, which may itself hold `;` |
| DeviceManagement.MailRecipientOnly | src/calibre/gui2/device.py:1380-1386 | a destination without `;` gives that recipient, one empty format and an empty subject |
| DeviceManagement.DispatchSyncEvent | src/calibre/gui2/device.py:1322-1392 | no selected rows is the no-books error; a send to the device needs a connected device and a send to a card needs a card; the no-card error comes only with a device connected and no card |
| DeviceManagement.DispatchToDevice | src/calibre/gui2/device.py:1369-1378 | sending to a card needs a connected device with a card; main memory needs only the device |
| DeviceManagement.SplitDestAt | src/calibre/gui2/device.py:1369 | a destination is split at its first colon |
| DeviceBooks.WordChars | src/calibre/gui2/device.py:1868 | keeps exactly the word characters of the text: every kept character is one, and every word character of the input is kept |
| DeviceBooks.CleanString | src/calibre/gui2/device.py:1870-1877 | the cleaned key holds only lower-case word characters; a missing or empty value gives the empty key |
| DeviceBooks.CleanIdempotent | src/calibre/gui2/device.py:1870-1877 | cleaning a cleaned key changes nothing |
| DeviceBooks.CleanIsWordsOfLower | src/calibre/gui2/device.py:1873-1877 | cleaning is lower-casing followed by dropping non-word characters |
| DeviceBooks.CleanJoinedAuthors | src/calibre/gui2/device.py:2042 | the cleaned `" & "`-joined author list is the concatenation of the cleaned authors: the separator vanishes |
| DeviceBooks.WordCharsAppend | src/calibre/gui2/device.py:1868 | dropping non-word characters distributes over concatenation |
| DeviceBooks.TitleCacheOfSound | src/calibre/gui2/device.py:1890-1913 | every id under a title key belongs to a library book with that cleaned title, and every library book is listed under its own cleaned title |
| DeviceBooks.UuidCacheLast | src/calibre/gui2/device.py:1911 | a uuid is a key exactly when some library book has it, and it maps to the last such book |
| DeviceBooks.BuildLibraryCaches | src/calibre/gui2/device.py:1890-1913 | the loop builds exactly the title cache and the uuid cache of the library |
| DeviceBooks.MatchBook | src/calibre/gui2/device.py:2005-2049 | a book gets a match kind exactly when it gets an id; it matches by uuid exactly when its uuid is in the uuid cache; any other match needs its cleaned title in the title cache |
| DeviceBooks.MatchByAppId | src/calibre/gui2/device.py:2015-2026 | a book whose uuid is unknown and whose application id is the id of a library book with the same cleaned title matches by application id, with that id |
| DeviceBooks.MatchByDbId | src/calibre/gui2/device.py:2015-2033 | when the application id is no same-title book's id, a db id that is such a book's id matches by db id, with that id |
| DeviceBooks.MatchByJoinedAuthors | src/calibre/gui2/device.py:2039-2043 | after both id steps miss, a book whose joined, cleaned authors are known under its title matches through that key |
| DeviceBooks.MatchByFirstKnownAuthor | src/calibre/gui2/device.py:2043-2046 | when the joined authors are unknown, the book matches through its first author that is known under its title |
| DeviceBooks.MatchByKnownAuthor | src/calibre/gui2/device.py:2039-2046 | once both id steps miss, any known author gives a match by author or by author sort |
| DeviceBooks.MatchByLibraryAuthor | src/calibre/gui2/device.py:2015-2046 | a book whose uuid and ids are unknown, with the cleaned title and, as one author, the cleaned authors of a library book, is matched by author or by author sort |
| DeviceBooks.TitleCacheAuthorsComplete | src/calibre/gui2/device.py:1895-1909 | every library book is listed under its cleaned title, its non-empty cleaned authors and its non-empty author sort |
| DeviceBooks.FirstAuthorMatchComplete | src/calibre/gui2/device.py:2044-2046 | the author loop stops at the first author that is known, and answers with that author's match |
| DeviceBooks.FirstAuthorMatchFound | src/calibre/gui2/device.py:2044-2046 | the author loop finds a match whenever some author is known |
| DeviceBooks.MatchedIffId | src/calibre/gui2/device.py:2005-2049 | a device book gets a match kind exactly when it gets a library id |
| DeviceBooks.UuidFirst | src/calibre/gui2/device.py:2006-2013 | a book whose uuid is in the library matches by uuid, to that library id, whatever its title |
| DeviceBooks.FirstAuthorMatchSome | src/calibre/gui2/device.py:1955-1968 | an author match is by author or by author sort, and its id comes from the title entry's author or author-sort map |
| DeviceBooks.MatchSource | src/calibre/gui2/device.py:2006-2046 | a uuid match takes the uuid cache's id; any other match takes an id held in the title entry of the book's cleaned title |
| DeviceBooks.MatchPointsIntoLibrary | src/calibre/gui2/device.py:2006-2046 | a matched id is that of a library book with the same uuid (uuid match) or the same cleaned title (any other match) |
| DeviceBooks.UnknownTitleUnmatched | src/calibre/gui2/device.py:2047-2049 | without a uuid match and with no library book of the same cleaned title, the book is unmatched and loses its application id |
| DeviceBooks.NoEntryUnmatched | src/calibre/gui2/device.py:2016-2049 | a title absent from the title cache leaves the book unmatched |
| DeviceBooks.UuidStepAsWritten | src/calibre/gui2/device.py:2006-2007 | as written: the step fails exactly when the caches were not rebuilt in this call and the book's uuid is in the cache; an id it returns is the cache's id for that uuid |
| DeviceBooks.UuidStepFailsWithoutRebuild | src/calibre/gui2/device.py:2006-2007 | when the caches were kept from an earlier call, a device book whose uuid is in the cache fails with an unbound local, where the intended lookup matches it |
| DeviceBooks.UuidStepAgrees | src/calibre/gui2/device.py:2006-2013 | whenever the step as written succeeds with an id, the corrected matcher gives the same id by uuid; after a rebuild it always succeeds |
| DeviceBooks.MatchBooklist | src/calibre/gui2/device.py:1988-2054 | every book of the list is replaced by its matched form, with the author sort filled from the authors when missing and the match was not by uuid, application id or db id |
| DeviceBooks.IdCacheOf | src/calibre/gui2/device.py:1814-1825 | one set per booklist, holding exactly the application ids of that list |
| DeviceBooks.CachesMeaning | src/calibre/gui2/device.py:1826-1831 | the count and path maps have a key exactly for the ids on the device; the count is the number of books with that id and the paths are their non-empty paths |
| DeviceBooks.IdsOfMeaning | src/calibre/gui2/device.py:1821-1825 | an id is collected exactly when some book of the list carries it as application id |
| DeviceBooks.IdsOfAppend | src/calibre/gui2/device.py:1818-1825 | the ids of two lists together are the union of their ids |
| DeviceBooks.FoundIn | src/calibre/gui2/device.py:1833-1835 | true exactly when the id is in one of the first `n` memory sets |
| DeviceBooks.FoundInUnion | src/calibre/gui2/device.py:1833-1835 | the id is in one of the first `n` sets exactly when some book of the first `n` lists carries it |
| DeviceBooks.FreshLocation | src/calibre/gui2/device.py:1814-1838 | after a rebuild the answer has three flags, each true exactly when that memory holds a book with the id; the count is the number of such books and the paths their paths |
| DeviceBooks.IdsInPathMap | src/calibre/gui2/device.py:1826-1837 | an id found in any memory has an entry in the path map, so the lookup at the end cannot fail |
| DeviceBooks.DeviceMixin.constructor | src/calibre/gui2/device.py:1804-1807 | no library or device cache exists yet |
| DeviceBooks.DeviceMixin.BookOnDevice | src/calibre/gui2/device.py:1792-1838 | reset clears the device caches and returns nothing; not connected or no library cache gives the not-found answer; otherwise the device caches are built when absent and the answer is read from them |
| DeviceBooks.DeviceMixin.BuildIdCaches | src/calibre/gui2/device.py:1814-1831 | the id sets, counts and path map become exactly those of the three booklists |
| DeviceBooks.DeviceMixin.AddList | src/calibre/gui2/device.py:1819-1831 | one booklist's ids are returned and its books are added to the counts and the path map |
| DeviceBooks.DeviceMixin.ReadLocation | src/calibre/gui2/device.py:1833-1838 | the loop reads the location answer of the id from the caches |
| DeviceBooks.DeviceMixin.SetBooksInLibrary | src/calibre/gui2/device.py:1848-2117 | nothing changes and the answer is false without a connected device or a library view; otherwise the library caches are rebuilt on reset or when missing, every device book takes its matched form, and the answer is whether metadata is to be sent (`on_connect` management or `force_send`) |
| MainWindow.RegisteredLookup | src/calibre/gui2/ui.py:173-179 | after registering, the name is held by the plugin of higher priority, the newcomer winning a tie; every other name keeps its plugin |
| MainWindow.RegisteredKeys | src/calibre/gui2/ui.py:173-179 | the names keep their order and a new name is added last, so each name is held once |
| MainWindow.RegisteredLower | src/calibre/gui2/ui.py:175-177 | a plugin of lower priority than the holder of its name changes nothing |
| MainWindow.Window.constructor | src/calibre/gui2/ui.py:173-214 | both registries and the change queue are empty and the window is not shutting down |
| MainWindow.Window.AddIAction | src/calibre/gui2/ui.py:173-179 | the action registry becomes the registered form of the old one; nothing else changes |
| MainWindow.Window.AddIStore | src/calibre/gui2/ui.py:208-214 | the store registry becomes the registered form of the old one; nothing else changes |
| MainWindow.GuiEventsExactly | src/calibre/gui2/ui.py:545-551 | an event is passed on exactly when some queued change carrying it is about the GUI's library |
| MainWindow.Window.HandleChangesFromServerDebounced | src/calibre/gui2/ui.py:541-553 | nothing happens while shutting down; otherwise the queue is emptied and the events about the GUI's library, in queue order, are handled as one batch when there are any |
| MainWindow.Window.Quit | src/calibre/gui2/ui.py:1207-1224 | nothing happens while shutting down or when the user declines a confirmation; otherwise the window records the restart wish, shuts down and exits |
| MainWindow.DecodeHexLibraryId | src/calibre/gui2/ui.py:700-705 | a library id written as `_hex_-` and the hex of its ASCII text decodes back to that text |
| MainWindow.DecodePlainLibraryId | src/calibre/gui2/ui.py:700-705 | an id that is neither `_` nor hex-prefixed is used as it is |
| MainWindow.VirtualLibrary | src/calibre/gui2/ui.py:707-715 | a virtual library that is returned is never `-` |
| MainWindow.VirtualLibraryPrecedence | src/calibre/gui2/ui.py:707-715 | the hex-encoded name wins over the plain one; without it the plain name is used; `-` means none |
| MainWindow.Segments | src/calibre/gui2/ui.py:723 | the path's segments are non-empty and hold no `/` |
| MainWindow.NonEmpty | src/calibre/gui2/ui.py:723 | keeps only non-empty parts, each one taken from the input |
| MainWindow.NoteItemOf | src/calibre/gui2/ui.py:751-767 | a parsed item is always an id or a value: an unknown prefix gives no item |
| MainWindow.NoteItemUnknownPrefix | src/calibre/gui2/ui.py:766-767 | as written, an item without a known prefix goes on with neither id nor value, where the corrected parsing ignores it |
| MainWindow.DecodeLibraryId | src/calibre/gui2/ui.py:700-705 | only a `_hex_-` id can fail; a decoded hex id is the text whose hex follows the prefix; only `_` and hex ids are rewritten, `_` becoming the server's library id or staying `_` |
| MainWindow.HandleUrlAction | src/calibre/gui2/ui.py:697-859 | every action but a library switch names a library the broker knows, with the broker's path for it; a switch carries the broker's answer; a note is shown only for an id or a value |
| MainWindow.NoteItemAsWritten | src/calibre/gui2/ui.py:751-767 | as written: an item with no known prefix goes on as neither id nor value; only an unreadable `id_` or `hex_` item gives none |
| MainWindow.NoteItemAgree | src/calibre/gui2/ui.py:752-765 | both parsings agree on every item with a known prefix |
| MainWindow.NoteItemById | src/calibre/gui2/ui.py:752-754 | `id_` followed by an integer names that item id |
| MainWindow.NoteField | src/calibre/gui2/ui.py:749-750 | same length; a leading `_` becomes `#` and the rest is kept |
| MainWindow.SegmentCountChecked | src/calibre/gui2/ui.py:722-842 | book-details and show-book need two segments, view-book and show-note three and search one; any other count is ignored |
| MainWindow.UnknownActionIgnored | src/calibre/gui2/ui.py:717-860 | only the six known actions do anything |
| MainWindow.TwoSegments | src/calibre/gui2/ui.py:723-726 | the segments of `/lib/book` are the library id and the book id |
| MainWindow.BookDetailsUrl | src/calibre/gui2/ui.py:722-738 | a book-details URL for a known plain library id shows that book of that library |
| MainWindow.CurrentView | src/calibre/gui2/ui.py:937-950 | there is a view exactly for the four stack pages 0 to 3, and the library view exactly on page 0 |
| MainWindow.WindowTitle | src/calibre/gui2/ui.py:1042-1055 | the title starts with the application name, then a dash and a double bar, then the library name, and it ends with a double bar |
| MainWindow.LocationPage | src/calibre/gui2/ui.py:1061 | the page is one of the four stack pages |
| MainWindow.LocationShowsItsView | src/calibre/gui2/ui.py:937-950 | selecting a location shows its view: library, main memory, card A, and card B for anything else |
| MainWindow.WindowTitleCases | src/calibre/gui2/ui.py:1042-1055 | the title in each of the four cases of base and search restriction set or not |
| Viewer.OpenAt | src/calibre/gui2/viewer/ui.py:605-628 | an empty `open_at` sets no search; a pending search always opens at the book's start and is case-sensitive exactly when it is a regex search; no position is chosen only when none is named and no usable CFI was remembered |
| Viewer.OpenAtPrefixesExclusive | src/calibre/gui2/viewer/ui.py:608-626 | no text starts with two of the recognised prefixes, so the order of the tests decides nothing |
| Viewer.OpenAtToc | src/calibre/gui2/viewer/ui.py:608-610 | `toc:` opens at the contents entry whose text is the rest |
| Viewer.OpenAtTocHref | src/calibre/gui2/viewer/ui.py:611-616 | `toc-href:` opens at the entry whose link is the rest, `toc-href-contains:` at one whose link contains it |
| Viewer.OpenAtCfiOrRef | src/calibre/gui2/viewer/ui.py:617-620 | a CFI opens at itself, `ref:` at the anchor that follows |
| Viewer.OpenAtSearch | src/calibre/gui2/viewer/ui.py:621-626 | `search:` and `regex:` open at the book's start with a pending normal (case-insensitive) or regex (case-sensitive) search of the rest |
| Viewer.OpenAtNoPrefix | src/calibre/gui2/viewer/ui.py:605-628 | text with no prefix that is not a number keeps the remembered CFI position, if any, and sets no search |
| Viewer.SearchTitle | src/calibre/gui2/viewer/ui.py:336-345 | every title starts with `Search`, and is exactly `Search` for a negative count (no search running) |
| Viewer.SearchTitleCount | src/calibre/gui2/viewer/ui.py:343-344 | with several matches the title is `Search :: N matches` and the count reads back from it |
| Viewer.SearchTitleMany | src/calibre/gui2/viewer/ui.py:336-344 | with several matches the title is none of the three fixed titles |
| Viewer.SearchTitleInjective | src/calibre/gui2/viewer/ui.py:336-345 | different counts (taking every negative as -1) give different titles |
| Viewer.Inverse | src/calibre/gui2/viewer/ui.py:224-229 | the actions of the reverse map are exactly the actions the shortcut map binds, each listed with at least one key |
| Viewer.InverseMembers | src/calibre/gui2/viewer/ui.py:225-227 | a key is listed under an action exactly when the shortcut map holds that pair |
| Viewer.InverseExactly | src/calibre/gui2/viewer/ui.py:225-227 | each key of the map is listed under its own action and under no other |
| Viewer.ShortcutsChanged | src/calibre/gui2/viewer/ui.py:224-229 | the loop builds exactly the reverse map |
| Viewer.InitialCfi | src/calibre/gui2/viewer/ui.py:693-698 | a position is returned exactly when there is a first reading position, positions are remembered and it is a CFI; it is that position |
| Viewer.FirstWithUuid | src/calibre/gui2/viewer/ui.py:744-745 | the index of the first highlight with the uuid, and none when no highlight has it |
| Viewer.ViewerWindow.constructor | src/calibre/gui2/viewer/ui.py:700-705 | no book loaded, no annotations, nothing saved |
| Viewer.ViewerWindow.CfiChanged | src/calibre/gui2/viewer/ui.py:700-705 | with a book open the reading positions become the single CFI given and the save timer starts; with none nothing changes |
| Viewer.ViewerWindow.NotesEdited | src/calibre/gui2/viewer/ui.py:743-751 | raises exactly when no book is open; otherwise the first highlight with the uuid gets the notes and a new time and the annotations are saved once; without such a highlight nothing changes |
| Viewer.CfiChangedReopens | src/calibre/gui2/viewer/ui.py:693-705 | after a position change the book reopens there when positions are remembered, and at no CFI otherwise |
| Viewer.NotesEditedOne | src/calibre/gui2/viewer/ui.py:744-748 | editing notes changes only the first highlight with the uuid, keeps every uuid, and that highlight stays the first with it |
| SimilarBooks.SimilarSearch | src/calibre/gui2/actions/similar_books.py:40-110 | the search raises only for a series search over a grouped search term |
| SimilarBooks.AddAllMembers | src/calibre/gui2/actions/similar_books.py:66-75 | adding values to the collected set adds exactly those values and keeps it free of duplicates |
| SimilarBooks.GroupedValuesMembers | src/calibre/gui2/actions/similar_books.py:63-75 | the values of a grouped search term are exactly the values of its fields that are set, each once |
| SimilarBooks.CollectGroupedValues | src/calibre/gui2/actions/similar_books.py:66-75 | the loop over the fields collects exactly the grouped values |
| SimilarBooks.EscapeRoundTrip | src/calibre/gui2/actions/similar_books.py:95-106 | escaping the quotes of a value loses nothing: unescaping gives the value back |
| SimilarBooks.EscapeHead | src/calibre/gui2/actions/similar_books.py:104-106 | an escaped value never starts with a quote |
| SimilarBooks.EscapedQuotes | src/calibre/gui2/actions/similar_books.py:104-106 | every quote in an escaped value follows a backslash, so none can end the term early |
| SimilarBooks.SeriesHead | src/calibre/gui2/actions/similar_books.py:96-97 | a dot after the first character cuts the series at the first dot, leaving a non-empty dot-free prefix; otherwise the series is kept whole |
| SimilarBooks.TrimTrailingSpace | src/calibre/gui2/actions/similar_books.py:102 | the result is a prefix of the text, ends in no whitespace, and only whitespace was removed |
| SimilarBooks.RemoveEtAlOf | src/calibre/gui2/actions/similar_books.py:101-102 | a name followed by whitespace and `et al.` loses both |
| SimilarBooks.TrimGap | src/calibre/gui2/actions/similar_books.py:102 | trimming a name followed only by whitespace gives the name |
| SimilarBooks.RemoveEtAlKeeps | src/calibre/gui2/actions/similar_books.py:101-102 | a name not ending in `et al.` is kept |
| SimilarBooks.Terms | src/calibre/gui2/actions/similar_books.py:93-106 | a series gives one term; any other type one term per value |
| SimilarBooks.EmptyValueNoSearch | src/calibre/gui2/actions/similar_books.py:80-84 | a missing or empty value of the column, or of the default column it falls back to, searches for nothing |
| SimilarBooks.TextIsOneValue | src/calibre/gui2/actions/similar_books.py:90-91 | a single text is searched like a list holding it |
| SimilarBooks.TwoValuesJoined | src/calibre/gui2/actions/similar_books.py:51-54 | two tags give two terms joined by ` and ` for "match all" and ` or ` otherwise |
| SimilarBooks.SeriesFirstValue | src/calibre/gui2/actions/similar_books.py:93-98 | a series search uses the top level of the first value only |
| SimilarBooks.AuthorEtAl | src/calibre/gui2/actions/similar_books.py:99-104 | authors are searched without their `et al.` |
| SimilarBooks.GroupedSeriesRaises | src/calibre/gui2/actions/similar_books.py:63-95 | a series search over a grouped search term with a set value raises, since a set cannot be indexed |
| InterfaceActions.ActionUniqueName | src/calibre/gui2/actions/__init__.py:214-219 | the unique name starts with `Interface Action: `, shows the base plugin's name when it has one and the class name otherwise, and ends with the action's name in parentheses |
| InterfaceActions.ActionUniqueNameFallback | src/calibre/gui2/actions/__init__.py:216-218 | an empty base plugin name gives the name a base plugin named like the class would give |
| InterfaceActions.ActionUniqueNameIgnoresClass | src/calibre/gui2/actions/__init__.py:217-218 | a base plugin name hides the class name |
| InterfaceActions.ActionUniqueNameInjective | src/calibre/gui2/actions/__init__.py:219 | actions shown under one name have different unique names when their names differ |
| InterfaceActions.MenuActionUniqueNameParts | src/calibre/gui2/actions/__init__.py:83-84 | the plugin's unique name and the action's own name can both be read back from a menu action's unique name |
| InterfaceActions.MenuActionUniqueNameInjective | src/calibre/gui2/actions/__init__.py:83-84 | different menu actions of one plugin get different unique names |
| InterfaceActions.CreateAction | src/calibre/gui2/actions/__init__.py:221-283 | a registration uses the plugin's unique name and the attribute, a non-empty shortcut name and, as its group, the class's own text, which is not empty; the main action of an instant-popup button registers nothing; a registered description is the tip shown |
| InterfaceActions.CreateActionTips | src/calibre/gui2/actions/__init__.py:236-243 | the tips are the tooltip, or the text when there is no tooltip; the registered description is the tooltip, or none |
| InterfaceActions.CreateActionShortcutName | src/calibre/gui2/actions/__init__.py:249-261 | the shortcut name is the argument, else the class's shortcut name, else the spec's text; the shortcut registers under the plugin's unique name and the attribute, in the group of the action's text |
| InterfaceActions.CreateActionKeys | src/calibre/gui2/actions/__init__.py:247-248 | a string shortcut registers one key and a sequence registers its keys |
| InterfaceActions.CreateActionNoRegistration | src/calibre/gui2/actions/__init__.py:246-255 | nothing is registered without a shortcut in the spec, without text in the action's spec, or for the main action of an instant-popup button |
| InterfaceActions.CreateMenuAction | src/calibre/gui2/actions/__init__.py:285-347 | a shortcut is registered unless it is `False`, always under the menu action's unique name; `None` registers no default keys |
| InterfaceActions.MenuActionShortcuts | src/calibre/gui2/actions/__init__.py:318-340 | `False` registers nothing, `None` registers no default keys, keys register those keys; the registration uses the menu action's unique name and the shortcut name or the text |
| InterfaceActions.ResourcesLookup | src/calibre/gui2/actions/__init__.py:369-374 | a name is answered exactly when it was asked for and is in the zip, with its content |
| InterfaceActions.ResourcesDistinct | src/calibre/gui2/actions/__init__.py:369-374 | the answer holds each name once |
| InterfaceActions.LoadResources | src/calibre/gui2/actions/__init__.py:367-374 | a plugin not loaded from a zip raises; otherwise the loop over the zip's listing builds exactly the resources |
| InterfaceActions.ParseIds | src/calibre/gui2/actions/__init__.py:472 | one id per word of the bytes when every word, stripped of ASCII whitespace, is an integer |
| InterfaceActions.IdsText | src/calibre/gui2/actions/__init__.py:472 | one word per id |
| InterfaceActions.ParseIdsText | src/calibre/gui2/actions/__init__.py:472 | ids written out as words are read back |
| InterfaceActions.LibraryDropAction.constructor | src/calibre/gui2/actions/__init__.py:457-458 | no ids dropped and no drop scheduled |
| InterfaceActions.LibraryDropAction.DropEvent | src/calibre/gui2/actions/__init__.py:470-475 | a drop without library books is refused and changes nothing; its bytes are split on ASCII whitespace and a word that is not an integer raises; otherwise the ids become the dropped ids and one drop is scheduled |
| InterfaceActions.DropCarriesIds | src/calibre/gui2/actions/__init__.py:470-473 | a drop whose data is the ids separated by spaces carries exactly those ids |
| InterfaceActions.IdsTextAt | src/calibre/gui2/actions/__init__.py:472 | the k-th word is the k-th id written out |
| InterfaceActions.DropRejectsFileSeparator | src/calibre/gui2/actions/__init__.py:472 | a file separator between two ids is not whitespace for bytes, so the drop raises |
| Udisks.DeMangleAsWrittenKeepsEscape | src/calibre/devices/udisks.py:22-24 | the kernel writes a backslash as `\134`, which the replacements as written leave as four characters, where the corrected unmangling gives the backslash back |
| Udisks.EscapesDiffer | src/calibre/devices/udisks.py:23-24 | no escape of one of the four bytes starts like the escape of another |
| Udisks.UnmangleAsWritten | src/calibre/devices/udisks.py:22-24 | as written: the replacements never lengthen the text and leave text without a backslash unchanged |
| Udisks.Unmangle | src/calibre/devices/udisks.py:22-24 | with the kernel's `\134` escape for a backslash: the replacements never lengthen the text and leave text without a backslash unchanged |
| Udisks.UnmanglePass | src/calibre/devices/udisks.py:23-24 | one replacement pass undoes its own escape in the written form of a byte and acts independently on what follows |
| Udisks.UnmangleCons | src/calibre/devices/udisks.py:23-24 | a written byte followed by anything unmangles to that byte followed by the rest unmangled |
| Udisks.UnmangleMangle | src/calibre/devices/udisks.py:22-24 | undoing the escapes gives back every mount point as the kernel wrote it |
| Udisks.NodeMountpoint | src/calibre/devices/udisks.py:33-38 | the loop over the mount table gives the mount point of the first line whose device is the node, an error for a short line before it, and none without such a line; the mount point is unmangled with the corrected `\134` escape |
| Udisks.MountpointFirst | src/calibre/devices/udisks.py:34-37 | the first line naming the node decides, whatever later lines say |
| Udisks.MountpointNone | src/calibre/devices/udisks.py:38 | without a line for the node there is no mount point |
| Udisks.MountpointRoundTrip | src/calibre/devices/udisks.py:17-37 | with the corrected unmangling, an ASCII mount point written by the kernel is found as it is |
| Udisks.BasicMountOptions | src/calibre/devices/udisks.py:41-42 | six options: read-write, no exec, no setuid, no devices, then the user and group ids |
| Udisks.MountOptionsRoundTrip | src/calibre/devices/udisks.py:137 | the options joined with commas split back into the same list |
| Udisks.FilesystemOperationArgs | src/calibre/devices/udisks.py:129-134 | the caller's arguments are kept and user interaction is turned off |
| Udisks.MountArgs | src/calibre/devices/udisks.py:136-137 | mounting passes exactly the comma-joined options and no user interaction |
| Udisks.UnmountArgs | src/calibre/devices/udisks.py:148-150 | unmounting passes exactly force and no user interaction |
| Udisks.MountAlreadyMounted | src/calibre/devices/udisks.py:136-146 | a failed mount of a node the mount table lists answers its mount point, unmangled with the corrected `\134` escape |
| Udisks.MountOutcome | src/calibre/devices/udisks.py:136-146 | a successful reply is the answer; after a failure an answer is the node's mount point in the table, unmangled with the corrected `\134` escape, and a node the table does not list re-raises the failure |
| Udisks.MountNotMounted | src/calibre/devices/udisks.py:141-145 | a failed mount of a node the table does not list raises the call's own error |
| Udisks.DeviceNodePath | src/calibre/devices/udisks.py:84 | a decoded device node path holds no NUL |
| Udisks.DeviceNodePathAscii | src/calibre/devices/udisks.py:84 | removing NULs keeps every other byte, so a NUL-free ASCII path decodes to itself |
| Udisks.RemoveNothing | src/calibre/devices/udisks.py:84 | removing bytes that do not occur changes nothing |
| Udisks.FirstWithPath | src/calibre/devices/udisks.py:124-127 | a name is returned only for a device with the path, and `KeyError` only when no device has it |
| Udisks.DeviceName | src/calibre/devices/udisks.py:116-127 | fails only with `KeyError`; the name found is the path's last component when that resolves back to the path, or else a block device with that node path |
| Udisks.DeviceNameSound | src/calibre/devices/udisks.py:116-127 | the name found is one whose node path is the resolved path; `KeyError` means no block device has it |
| Udisks.DeviceNameDirect | src/calibre/devices/udisks.py:117-122 | a node path whose last component names it directly is answered without enumerating the devices |
| Udisks.LastPiece | src/calibre/devices/udisks.py:118 | the last piece of the split is what follows the last `/` |
| Udisks.SplitHasTwo | src/calibre/devices/udisks.py:118 | a path holding `/` splits into at least two pieces |
| Udisks.JoinedTests | src/calibre/devices/udisks.py:102-104 | joining the UDisks2 path with an absolute part gives that part, so the tests look for `/block_devices` and `/drives` anywhere in the object path |
| Udisks.DriveMatches | src/calibre/devices/udisks.py:105-106 | true exactly for a removable USB drive with the serial; a missing property raises |
| Udisks.FindDeviceVolsBySerial | src/calibre/devices/udisks.py:93-114 | the two loops give exactly the scan's error, or the volumes of the blocks on the drives it chose |
| Udisks.ScanStops | src/calibre/devices/udisks.py:101-107 | an error among the first objects is the first loop's error |
| Udisks.VolumesStop | src/calibre/devices/udisks.py:108-113 | an error among the first blocks is the second loop's error |
| Udisks.ScanDrives | src/calibre/devices/udisks.py:104-107 | a drive is chosen exactly when its object path contains `/drives` and it is a removable USB drive with the serial |
| Udisks.VolumesSound | src/calibre/devices/udisks.py:108-113 | every volume is a block on a chosen drive, and its device has no NUL at either end |
| Udisks.VolumesComplete | src/calibre/devices/udisks.py:108-113 | every block on a chosen drive gives a volume |

## Left out

- Qt: widgets, signals, dialogs, menus, timers and the tray. Their effects are recorded as fields or counters: handled change batches, saves, scheduled drops, the device manager's event logs.
- Threads and locks: each method runs atomically. The device manager's polling loop (`DeviceManager.run`) and the viewer's book-loading thread are not part of this model.
- D-Bus calls, subprocesses and the system. `send`, `introspect`, `GetManagedObjects`, the reading of `/proc/mounts`, `os.geteuid`/`os.getegid` and `os.path.realpath` are inputs: the reply, the mount table, the ids and the resolved path are parameters. `eject`, `rescan` and `drive_for_device` only pass arguments on and are not modelled.
- The FreeBSD branch of `node_mountpoint`, which reads the JSON output of `mount -p`, is not modelled; only the `/proc/mounts` branch is.
- File and zip I/O, and executing plugin code. The scheduler file, recipe files and the zip listing are values; compiling and executing modules, `importlib`/`reload` and `sys.meta_path` are not modelled.
- Floating point. Interval schedules are whole seconds written in decimal; the source writes a float number of days with `%f` and reads it back with `float`. The 0.04-day minimum is 3456 seconds. `is_float` is a parameter (`isNumber`), and so is a bookpos fraction, which is kept as its text. The progress percentage of `set_books_in_library` is not modelled.
- Clocks and time zones. `utcnow`, `nowf`, `astimezone` and ISO-8601 parsing are not modelled. Instants are integer seconds and local times are records supplied by the caller. The viewer's timestamps are a `now` text parameter.
- Collaborators are parameters:
  - the library database (titles, authors, uuids, `author_sort_from_authors` as `sortOf`);
  - `split_if_is_multiple_composite` and `search_term_to_field_key`;
  - the library broker (`path_for_library_id`, `is_gui_library`);
  - the contents model's lookups (`node_id_for_text`, `node_id_for_href`);
  - the keyboard manager (registrations are returned as values);
  - `replace_entities`, a native extension.
- `update_book`, `updateq`, thumbnails and the metadata sync of `set_books_in_library`: only the matching cascade, the caches and the author-sort fill are modelled.
- Python's set order for grouped search values: the set is a duplicate-free sequence in first-seen order. The searched terms are the same, but their order in the search text may differ.
- Unicode tables:
  - `\w` in `clean_string` keeps ASCII letters and digits and every non-ASCII character that is not whitespace (`DeviceBooks.IsWordChar`). Python's full Unicode word class also drops non-ASCII punctuation.
  - `lower` and `upper` act on ASCII letters only.
  - `int()` reads ASCII digits only.
  - Text is split and stripped on Unicode whitespace (`Strings.IsSpace`): space, the ASCII controls 9-13 and 28-31, and the other separators `str.split()` uses. The ids of a library drop are bytes and are split and stripped on ASCII whitespace only (`Strings.IsByteSpace`).
- `DeviceManagement.DeviceManager.ConnectedDeviceRemoved`: requires a connected device whenever shutdown-on-disconnect is set. The flag is only set while a device is connected; with none, `device.py:311` would raise `AttributeError`.
- Two details where the model follows the code as written rather than its plain description:
  - `_get_device_information` appends a single `{}` when there are fewer than five fields; it does not pad to five.
  - `is_package` counts a resolved name that is `__init__` or ends with `.__init__`; a name ending in `__init__` without the dot does not count.
- CalibreUtils.CleanSlashes: its own contract says only that no stray `//` is left; that only redundant slashes are removed is stated about it by CalibreUtils.CleanSlashesSqueeze, and for the whole cleaner by CalibreUtils.UrlSlashCleaner.
- ZipPlugin.ImportName: the zip's names are a `frozenset`, iterated in Python's hash order, which is unspecified. The model takes the listing as a sequence in that iteration order, and "the last one wins" is stated in it. Duplicate entries, which the set collapses, are not modelled.
- ZipPlugin.FirstLegacy: "the first legacy name" is the first in the iteration order of the same `frozenset`, given as the input sequence; which name comes first in Python is not modelled.
- ZipPlugin.BuildNames: the entries are visited in the listing's iteration order, given as the input sequence; which missing entry raises first is stated in that order only.
- ZipPlugin.Contents: `contents` keeps the `frozenset`'s iteration order, given as the input sequence; the order Python would give is not modelled.
- Udisks.MountpointRoundTrip: holds for `node_mountpoint` with the corrected unmangling (`Udisks.Unmangle`). As written, `de_mangle` leaves a backslash's `\134` escape as four characters (see Findings).
- Udisks.MountAlreadyMounted: the mount point answered is unmangled with the corrected `\134` escape, not with `de_mangle` as written.
- Udisks.MountpointOf, Udisks.NodeMountpoint and Udisks.MountOutcome use the corrected unmangling. For the table line `node /m/a\134b` the source answers `/m/a\134b`, and the model answers `/m/a\b`.
- DeviceBooks.MatchBook: reads the uuid match from the cache kept on the object. As written (device.py:2006-2007), a call with `reset` false, once the caches exist, raises `UnboundLocalError` on a uuid hit; the model returns the match (see Findings). Every call in the source passes `reset=True`.
- DeviceBooks.MatchBooklist: matches every book with DeviceBooks.MatchBook, so it too returns the uuid match where the code as written raises `UnboundLocalError` (`reset` false, caches already built).
- DeviceBooks.DeviceMixin.SetBooksInLibrary: when `reset` is false and the caches already exist, a device book whose uuid is cached makes the source raise `UnboundLocalError`; the model completes the call with the uuid match.
- MainWindow.HandleUrlAction: for a show-note item without an `id_`, `hex_` or `val_` prefix (`calibre://show-note/lib/authors/name`) the model ignores the URL. As written (ui.py:766-767, 781) the source prints that it is ignoring the item, then still calls `perform_url_action`, which may switch library before showing the note with neither an id nor a value (see Findings).
- RecipeScheduler.RecipeCustomization: `recipe_specific_options` is kept as the JSON text stored in the file. Writing it with `json.dumps(... or {})` and reading it with `json.loads` are not modelled, nor is a `json.loads` error on malformed text; the defaults hold the text `{}` where the source holds an empty dict.
- InterfaceActions.ActionUniqueName: takes the base plugin's name as text, empty when it has none. Before a base plugin is attached, `interface_action_base_plugin` is `None`, and `getattr(None, 'name')` raises `AttributeError`; the model gives the class name instead.
- SimilarBooks.FieldValue: a field value is missing, one text, or a list of texts. Numeric columns (ratings, numbers) are not modelled; for such a value the source's `for t in val` (or `val[0]` for series) raises `TypeError`.
- Strings.ParseInt: reads optional whitespace, an optional sign and ASCII digits. Python's `int()` also accepts `_` between digits (`1_000`), which the model rejects.
- `SimilarBooks.SimilarSearch`: the check that a row is selected is not modelled; the current book's metadata is an input. The same holds for the device-connected test of `book_on_device`, which is a parameter.

## Findings

| source | as written | input that shows it | evidently intended | confidence | as-written member | corrected member |
|---|---|---|---|---|---|---|
| src/calibre/gui2/device.py:2006-2007 | the uuid test looks in the cache kept on the object but reads the id from the local `db_book_uuid_cache`, which is bound only when the caches were rebuilt in the same call | a second call with `reset` false, once the caches exist, and a device book whose uuid is in the cache | read the id from the cache kept on the object | not executed | DeviceBooks.UuidStepAsWritten, shown by DeviceBooks.UuidStepFailsWithoutRebuild | DeviceBooks.MatchBook, related by DeviceBooks.UuidStepAgrees |
| src/calibre/devices/udisks.py:23-24 | `de_mangle` replaces `\0134` by a backslash, but the kernel writes a backslash in a mount point as `\134` | a mount point holding a backslash, written in the table as `\134` | replace `\134` by a backslash, so that every escape the kernel writes is undone | not executed | Udisks.UnmangleAsWritten, shown by Udisks.DeMangleAsWrittenKeepsEscape | Udisks.Unmangle, proved by Udisks.UnmangleMangle; `node_mountpoint` is modelled with it (Udisks.MountpointOf, Udisks.NodeMountpoint, Udisks.MountOutcome) |
| src/calibre/gui2/ui.py:766-767 | an item without an `id_`, `hex_` or `val_` prefix is reported as ignored, but the handler goes on with neither an id nor a value | `calibre://show-note/lib/authors/name` | return, like the other invalid items | not executed | MainWindow.NoteItemAsWritten, shown by MainWindow.NoteItemUnknownPrefix | MainWindow.NoteItemOf, used by MainWindow.HandleUrlAction |
