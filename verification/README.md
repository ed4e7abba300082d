# python_curso example scripts: a Dafny model of their computing core

The `Ejemplos` folder of this course repository holds several small
Python applications. Most of each script is UI (Streamlit, Dash),
operating-system calls and file or network I/O. Sandwiched between
these are five pieces of self-contained logic. This project models each
of them in Dafny and proves the behaviour the code promises.

- **Ping dashboard** (`Ejemplos/ping.py`), modules `PingProbe` and
  `PingDashboard`:
  - the ping argument vector for each platform;
  - the three round-trip-time regular expressions, searched in order,
    with `parse_rtt_ms` built on them;
  - the liveness rule of `ping_once`, applied to the text a probe printed
    or to a timeout;
  - the per-host counter table. It is the class `Dashboard`, whose methods
    `UpdateStats`, `Reset`, `AutoRefresh` and `BuildTable` follow the
    script's session state. The table keeps the invariant `recv <= sent`.
  - the normalisation of the host list.
- **SAIN assurance-graph editor** (`Ejemplos/sain_builder.py`), module
  `SainBuilder`:
  - the prefix colour lookup;
  - the parameter parsing rule;
  - the class `Editor`. Its methods are `Save`, `Delete`, `Clear`,
    `BuildJson` (the `ietf-service-assurance:subservices` document of
    RFC 9418, section 3) and `Import`.
  - The invariant: every dependency's source is a node, node ids are
    distinct, and the key order is the dict's insertion order.
  - Module `Json` gives an abstract JSON value whose objects keep their
    members in insertion order, as Python dicts do.
- **CSV header de-duplication** (`Ejemplos/main.py`), module `CsvHeader`:
  `remove_duplicate_header` and the default-metric rule of the upload
  callback.
- **Steam inventory join** (`Ejemplos/cs2-inventory.py`), module
  `Cs2Inventory`: the description index keyed by `classid_instanceid`
  and the row built for each asset.
- **Company-name lookup** (`Ejemplos/depurador.py`), module
  `DomainSearch`:
  - domain cleaning and the www/non-www variants;
  - the first-success search over http and https;
  - the per-domain bookkeeping of the names column and the failed list.
  - The HTTP client and the copyright extractor are function parameters.

Modules `Wrappers` (`Option`) and `Text` (Python's `strip`, `split`,
`join`, `replace(p, "")`, `startswith` and `in` on strings) are shared.

Python exceptions that the code does not catch become `None` results.
Examples are a `KeyError` on a missing inspect value in the inventory
join and an out-of-range `header_row`. Exceptions the code catches become
the path the code takes after catching them.

## Model

| member | source | states |
|---|---|---|
| PingProbe.BuildPing | Ejemplos/ping.py:11-15 | six arguments: `ping`, then `-n 1 -w 1000` on Windows or `-c 1 -W 1` elsewhere, and the host last |
| PingProbe.BuildPingFlagsIgnoreHost | Ejemplos/ping.py:11-15 | the flags depend on the platform only, never on the host |
| PingProbe.Search | Ejemplos/ping.py:27 | `pat.search`: the match found is at the leftmost position where the pattern matches; `None` only when it matches nowhere |
| PingProbe.CapturedGroupIsNumber | Ejemplos/ping.py:18-21 | whatever a pattern captures is a digit string with an optional fraction, and for the summary pattern digits only, so the `float` conversion never raises |
| PingProbe.LatencyMatchIsUnique | Ejemplos/ping.py:18-19 | a text shaped like `time`/`tiempo`, `=` or `<`, spaces, a number, spaces, `ms` (any case) is matched at that position, and its number is the group |
| PingProbe.LatencyMatchHasShape | Ejemplos/ping.py:18-19 | conversely, every latency match has exactly that shape |
| PingProbe.SummaryMatchIsUnique | Ejemplos/ping.py:21 | a text shaped like `media`/`promedio`/`average` (any case), spaces, `=`, spaces, digits, spaces, `ms` is matched by that alternative at that position, and its digits are the group |
| PingProbe.SummaryMatchHasShape | Ejemplos/ping.py:21 | conversely, every match of a summary alternative has exactly that shape |
| PingProbe.ParseRtt | Ejemplos/ping.py:23-35 | `None` for empty output; a value found is never negative |
| PingProbe.ParseRttMatches | Ejemplos/ping.py:23-35 | a value is found exactly when one of the three patterns matches somewhere in the output |
| PingProbe.RttPrecedence | Ejemplos/ping.py:26-34 | when the k-th pattern is the first that matches at all, its leftmost match gives the round-trip time |
| PingProbe.DecimalValueOfParts | Ejemplos/ping.py:29 | `float` of digits, a dot and digits is the integer part plus the fraction |
| PingProbe.SummaryRttIsWhole | Ejemplos/ping.py:21 | a round-trip time taken from the `Media`/`Promedio`/`Average` summary is a whole number |
| PingProbe.RttFromLeadingTime | Ejemplos/ping.py:26-29 | output that starts with a `time` latency token gives that token's number |
| PingProbe.RttFromLeadingTiempo | Ejemplos/ping.py:26-29 | output that starts with a `tiempo` token, and has no `time` match anywhere, gives that token's number |
| PingProbe.RttExampleTime | Ejemplos/ping.py:18 | `time=14.1 ms` gives 14.1 |
| PingProbe.RttExampleBelowOne | Ejemplos/ping.py:18 | `time<1ms` gives 1 |
| PingProbe.RttExampleTiempo | Ejemplos/ping.py:19 | `tiempo=14.1 ms` gives 14.1 |
| PingProbe.TtlFrom | Ejemplos/ping.py:44 | true exactly when a word-initial `ttl`, spaces, `=`, spaces and a digit occur at or after the position |
| PingProbe.PingOnce | Ejemplos/ping.py:37-45 | the measurement carries the parsed RTT; alive exactly when the TTL marker occurs or an RTT was parsed; a timeout gives not alive and no RTT |
| PingProbe.TtlLineHasNoRtt | Ejemplos/ping.py:23-35 | output `ttl=57` has no round-trip time |
| PingProbe.PingOnceTtlOnly | Ejemplos/ping.py:43-45 | output `ttl=57` alone gives alive with no RTT |
| PingDashboard.RecordEffect | Ejemplos/ping.py:94-101 | one measurement adds 1 to `sent`, adds 1 to `recv` exactly when alive, always overwrites `last_alive` and `last_checked`, and overwrites `last_rtt`, possibly with `None`, only when alive |
| PingDashboard.FoldConsistent | Ejemplos/ping.py:88-101 | a round of measurements keeps `recv <= sent` for every host |
| PingDashboard.FoldCounts | Ejemplos/ping.py:88-101 | after a round, `sent` grows by the host's number of measurements and `recv` by its number of alive ones; a host absent from the round is unchanged |
| PingDashboard.HostsOf | Ejemplos/ping.py:91 | the hosts of the measurements, in order |
| PingDashboard.FoldAt | Ejemplos/ping.py:88-101 | in a round over distinct hosts, each host's entry is its old entry updated by its own measurement |
| PingDashboard.FoldAbsent | Ejemplos/ping.py:94-101 | a host no measurement names keeps its presence and its entry |
| PingDashboard.CompletionOrderIrrelevant | Ejemplos/ping.py:47-54 | for distinct hosts, the order in which the probes complete does not change the resulting table |
| PingDashboard.ThreeRoundScenario | Ejemplos/ping.py:88-101 | two alive rounds and one timeout leave `sent=3`, `recv=2`, the last RTT of the alive rounds and DOWN |
| PingDashboard.LossPercent | Ejemplos/ping.py:108 | no loss figure exactly when nothing was sent; with `recv <= sent` it lies in [0, 100]; it is 0 exactly when every probe was answered |
| PingDashboard.UnseenRow | Ejemplos/ping.py:106-108 | a host never seen, or seen only before a reset, shows DOWN, 0 sent, 0 received and no loss |
| PingDashboard.LineEnd | Ejemplos/ping.py:127 | the length of the first line: no line boundary before it, a boundary at it |
| PingDashboard.SplitLines | Ejemplos/ping.py:127 | `str.splitlines`: no line contains a line boundary |
| PingDashboard.KeepHostsClean | Ejemplos/ping.py:127 | every kept host is non-empty and already stripped, and no line gives more than one host |
| PingDashboard.NormaliseHosts | Ejemplos/ping.py:127 | the host list holds only non-empty stripped entries |
| PingDashboard.KeepHostsOfTokens | Ejemplos/ping.py:127 | stripped non-empty tokens are all kept, in order, duplicates included |
| PingDashboard.SplitLinesOfJoin | Ejemplos/ping.py:127 | hosts joined by newlines split back into the same hosts |
| PingDashboard.NormaliseJoinedHosts | Ejemplos/ping.py:127 | a text with one host per line normalises to exactly those hosts, in order |
| PingDashboard.BlankLinesDropped | Ejemplos/ping.py:127 | an empty or whitespace-only line contributes no host |
| PingDashboard.Dashboard.constructor | Ejemplos/ping.py:63-70 | empty stats, `last_refresh` 0, auto-refresh off, interval 3 |
| PingDashboard.Dashboard.SetControls | Ejemplos/ping.py:74-75 | sets the auto-refresh switch and the interval; the counters are untouched |
| PingDashboard.Dashboard.Reset | Ejemplos/ping.py:76-77 | empties the counter table and nothing else |
| PingDashboard.Dashboard.UpdateStats | Ejemplos/ping.py:88-101 | the new table is the old one folded with the round, and the invariant `recv <= sent` holds |
| PingDashboard.Dashboard.DoMeasurement | Ejemplos/ping.py:120-124 | one measurement per listed host is folded in; with no hosts nothing changes |
| PingDashboard.Dashboard.AutoRefresh | Ejemplos/ping.py:134-137 | a round runs exactly when auto-refresh is on and `now - last_refresh >= interval`, and then `last_refresh = now`; otherwise nothing changes |
| PingDashboard.Dashboard.BuildTable | Ejemplos/ping.py:103-118 | one row per listed host, in list order, duplicates included; UP exactly when last alive; counts copied; a loss figure exactly when `sent > 0`, within [0, 100] |
| Json.Keys | Ejemplos/sain_builder.py:221 | the keys of an object, in insertion order |
| Json.GetFinds | Ejemplos/sain_builder.py:207 | `dict.get` finds a value exactly when the key is present, and the value is the one stored under it |
| Json.SetEffect | Ejemplos/sain_builder.py:187-191 | after `d[key] = v`, `key` maps to `v`, other keys keep their values, and a new key is appended to the key order |
| Json.SetNewKey | Ejemplos/sain_builder.py:187-191 | assigning an absent key appends the member |
| Json.Iter | Ejemplos/sain_builder.py:209 | iterating a list yields its items; an object yields its keys, the k-th item being the k-th key; a string yields its characters, the k-th item being the k-th character; `null`, booleans and numbers cannot be iterated |
| SainBuilder.NodeType | Ejemplos/sain_builder.py:78-82 | a standard preset's type is its name; a `custom:` preset takes the typed type trimmed when that is not blank, and its type is never empty or padded |
| SainBuilder.NodeTypeDefault | Ejemplos/sain_builder.py:80 | a `custom:` preset with a blank typed type gets `vendor-x:foo-type` |
| SainBuilder.ColorFromFirstPrefix | Ejemplos/sain_builder.py:57-60 | the colour is that of the first key, in map order, that is a prefix of the type |
| SainBuilder.ColorFromNoPrefix | Ejemplos/sain_builder.py:61 | with no matching key the colour is `#A0A0A0` |
| SainBuilder.GetColor | Ejemplos/sain_builder.py:57-61 | the loop returns the first prefix key's colour, or the default when none matches |
| SainBuilder.ParseParams | Ejemplos/sain_builder.py:106-113 | blank text gives `{}`, and so does text that does not parse; non-blank text that parses gives the parsed value |
| SainBuilder.FromSource | Ejemplos/sain_builder.py:189 | exactly the dependencies with that source |
| SainBuilder.DropSource | Ejemplos/sain_builder.py:131 | exactly the dependencies with another source |
| SainBuilder.DropNode | Ejemplos/sain_builder.py:143 | exactly the dependencies that neither start nor end at the node |
| SainBuilder.Linked | Ejemplos/sain_builder.py:132-137 | one dependency per selected destination, in selection order, with the chosen type |
| SainBuilder.Without | Ejemplos/sain_builder.py:142 | the key order with the popped key removed |
| SainBuilder.WithoutDistinct | Ejemplos/sain_builder.py:142 | popping a key keeps the keys distinct |
| SainBuilder.SavedDependencies | Ejemplos/sain_builder.py:131-137 | after a save, the saved node's dependencies are exactly its new links and every other node's are unchanged |
| SainBuilder.RelinkWellFormed | Ejemplos/sain_builder.py:131-137 | replacing a node's outgoing dependencies by new ones from it keeps the graph invariant |
| SainBuilder.StoreWellFormed | Ejemplos/sain_builder.py:124-137 | storing a node with dependencies from it keeps the graph invariant |
| SainBuilder.DepEntries | Ejemplos/sain_builder.py:191-195 | one dependency entry per outgoing dependency, in order |
| SainBuilder.Entries | Ejemplos/sain_builder.py:179-196 | one subservice entry per node key, in key order |
| SainBuilder.EntryKeys | Ejemplos/sain_builder.py:181-195 | an entry's keys are `type`, `id`, then the parameters key when the parameters are truthy, then `dependencies` when the node has outgoing dependencies |
| SainBuilder.EntryValues | Ejemplos/sain_builder.py:181-195 | under those keys an entry holds the node's type, its id, its parameters and its dependencies block |
| SainBuilder.EntryHasParams | Ejemplos/sain_builder.py:186-187 | the parameters key appears exactly when the parameters are non-empty |
| SainBuilder.EntryHasDependencies | Ejemplos/sain_builder.py:189-191 | the dependencies block appears exactly when the node has outgoing dependencies |
| SainBuilder.DepEntryFields | Ejemplos/sain_builder.py:192-194 | a dependency entry carries the destination's type, or `unknown` when the destination is missing, its id, and the dependency type |
| SainBuilder.ExportOnePerNode | Ejemplos/sain_builder.py:178-197 | the document holds one subservice per node, in node order, each with that node's id |
| SainBuilder.PresetKeyFrom | Ejemplos/sain_builder.py:216-217 | a key guessed from the presets is the parameters key of one of the remaining presets, and the subservice has it |
| SainBuilder.PresetKeyFirst | Ejemplos/sain_builder.py:214-218 | no key exactly when no remaining preset matches the type and is present in the subservice; otherwise the key of the first such preset |
| SainBuilder.FallbackKeyFrom | Ejemplos/sain_builder.py:222-223 | a fallback key is one of the subservice's keys that ends in `:parameters` or is `service-instance-parameter` |
| SainBuilder.FallbackKeyFirst | Ejemplos/sain_builder.py:219-224 | no key exactly when no remaining key qualifies; otherwise the first remaining key that does |
| SainBuilder.GuessKeyFound | Ejemplos/sain_builder.py:213-224 | a guessed parameters key is present in the subservice |
| SainBuilder.GuessParamsKey | Ejemplos/sain_builder.py:213-224 | the two loops return the preset key first, else the first fallback key, else nothing |
| SainBuilder.ImportDeps | Ejemplos/sain_builder.py:227-228 | one dependency per listed entry, all from the subservice being imported |
| SainBuilder.ImportDepsSpec | Ejemplos/sain_builder.py:227-228 | the dependency list fails exactly when one entry fails; otherwise its k-th dependency is the one imported from the k-th entry |
| SainBuilder.ImportDepFields | Ejemplos/sain_builder.py:228 | an imported dependency runs from the subservice to the entry's `id`, with the entry's `dependency-type` or, when that is missing, `impacting` |
| SainBuilder.ImportOne | Ejemplos/sain_builder.py:210-228 | an imported node has a plain parameters key, and its dependencies start at it |
| SainBuilder.ImportDepDefaultType | Ejemplos/sain_builder.py:228 | a missing `dependency-type` becomes `impacting` |
| SainBuilder.ImportOneNode | Ejemplos/sain_builder.py:210-226 | the node takes the subservice's `id` and `type`; an unresolved key gives `custom:parameters` with `{}`, a resolved one its stored value |
| SainBuilder.ImportSubservice | Ejemplos/sain_builder.py:210-228 | the loop body imports one subservice as `ImportOne` describes |
| SainBuilder.ImportIntoFails | Ejemplos/sain_builder.py:209-228 | importing a subservice list fails exactly when one of its subservices cannot be imported |
| SainBuilder.ImportIntoWellFormed | Ejemplos/sain_builder.py:208-228 | importing subservices one after another keeps the graph invariant |
| SainBuilder.ImportDocWellFormed | Ejemplos/sain_builder.py:204-230 | a successfully imported document is a well-formed graph |
| SainBuilder.DrawnEdges | Ejemplos/sain_builder.py:240-242 | an edge is drawn exactly for a dependency whose two ends are both nodes |
| SainBuilder.DrawnEdgeLabel | Ejemplos/sain_builder.py:242 | the label of an edge is the type of its last dependency |
| SainBuilder.SaveDecision | Ejemplos/sain_builder.py:115-123 | a blank id is refused, and so is an existing id that is not the selected one; otherwise the save goes ahead exactly when the parameters are not `null`, and `null` parameters are the refusal at line 123 |
| SainBuilder.Editor.constructor | Ejemplos/sain_builder.py:63-69 | no nodes, no dependencies, no selection |
| SainBuilder.Editor.Save | Ejemplos/sain_builder.py:115-139 | refused saves change nothing; a save stores the node under its id, replaces that node's dependencies by its new links, keeps other sources' dependencies, selects the id, and keeps the invariant |
| SainBuilder.Editor.Put | Ejemplos/sain_builder.py:124-129 | stores the node under its id, a new id last in the key order and an existing one in its place, and keeps the invariant |
| SainBuilder.Editor.Relink | Ejemplos/sain_builder.py:131-137 | drops the node's dependencies, appends one per selected destination, and keeps the invariant |
| SainBuilder.Editor.Delete | Ejemplos/sain_builder.py:141-145 | an unknown id changes nothing; a known one removes the node and every dependency touching it and clears the selection |
| SainBuilder.Editor.Clear | Ejemplos/sain_builder.py:147-148 | clears the selection only |
| SainBuilder.Editor.SubserviceOf | Ejemplos/sain_builder.py:181-195 | the loop body builds the node's export entry |
| SainBuilder.Editor.BuildJson | Ejemplos/sain_builder.py:178-197 | the built document is the export of the current graph |
| SainBuilder.Editor.Import | Ejemplos/sain_builder.py:204-233 | state is replaced only when the whole document imports; otherwise nodes and dependencies are kept; the selection is untouched |
| CsvHeader.RemoveDuplicateHeader | Ejemplos/main.py:11-15 | the function succeeds exactly when `header_row` is a valid Python index into the lines |
| CsvHeader.PyIndex | Ejemplos/main.py:13 | Python list indexing: valid exactly for `-n <= i < n`, negative indices counting from the end |
| CsvHeader.OthersFilter | Ejemplos/main.py:14 | the lines that differ from the header: the header never among them, every other line kept as often as it occurs |
| CsvHeader.KeptAreOthers | Ejemplos/main.py:14 | skipping the header row and every line equal to it keeps exactly the lines that differ from the header, in order |
| CsvHeader.ResultLines | Ejemplos/main.py:11-15 | the output lines are the header followed by the other lines in their original order |
| CsvHeader.HeaderOnce | Ejemplos/main.py:11-15 | the first output line is the header and no later line equals it |
| CsvHeader.DefaultRowTotal | Ejemplos/main.py:12-15 | with `header_row = 0` the function never fails, and empty input gives empty output |
| CsvHeader.Idempotent | Ejemplos/main.py:11-15 | with `header_row = 0`, applying the function twice is the same as once |
| CsvHeader.OthersAfterHeader | Ejemplos/main.py:14 | a header followed by header-free lines leaves those lines |
| CsvHeader.DefaultMetric | Ejemplos/main.py:107-111 | on an upload with numeric columns: `GPS Speed (km/h)` if it is one of them, else the first; otherwise the current selection |
| Cs2Inventory.Key | Ejemplos/cs2-inventory.py:20 | the key is the class id, `_`, then the instance id |
| Cs2Inventory.KeyInjective | Ejemplos/cs2-inventory.py:20 | ids without `_` give the same key exactly for the same pair |
| Cs2Inventory.KeyCollision | Ejemplos/cs2-inventory.py:20 | ids containing `_` can collide |
| Cs2Inventory.IndexKeys | Ejemplos/cs2-inventory.py:20 | the index holds exactly the keys of the descriptions |
| Cs2Inventory.LastDescriptionWins | Ejemplos/cs2-inventory.py:20 | of several descriptions sharing a key, the last one is indexed |
| Cs2Inventory.Rarity | Ejemplos/cs2-inventory.py:31 | missing or empty tags give `N/A`; otherwise the last tag's name, or `N/A` when it has none |
| Cs2Inventory.InspectLink | Ejemplos/cs2-inventory.py:33 | a link other than `N/A` is the value of one of the actions |
| Cs2Inventory.InspectLinkFirst | Ejemplos/cs2-inventory.py:33 | the link is the value of the first action whose name contains `Inspect` |
| Cs2Inventory.InspectLinkNone | Ejemplos/cs2-inventory.py:33 | with no such action the link is `N/A` |
| Cs2Inventory.RowFor | Ejemplos/cs2-inventory.py:25-33 | building an asset's row fails exactly when its description exists and the inspect lookup fails |
| Cs2Inventory.UnmatchedAsset | Ejemplos/cs2-inventory.py:26-33 | an asset without a description gets `N/A` for Nombre, Tipo, Rareza and Inspect Link |
| Cs2Inventory.MatchedAsset | Ejemplos/cs2-inventory.py:26-33 | an asset with a description takes its market name, type, last tag and inspect link, with `N/A` for missing keys |
| Cs2Inventory.QuantityOfAsset | Ejemplos/cs2-inventory.py:32 | Cantidad is the asset's amount, defaulting to 1 |
| Cs2Inventory.BuildInventory | Ejemplos/cs2-inventory.py:19-34 | one row per asset, in asset order, each the row for that asset; no rows when an inspect lookup fails |
| DomainSearch.Clean | Ejemplos/depurador.py:46 | the cleaned domain neither starts nor ends with `/` and is no longer than the input |
| DomainSearch.CleanDropsScheme | Ejemplos/depurador.py:46 | `http://` or `https://` before a scheme-free domain, and a trailing `/`, are removed, leaving the domain |
| DomainSearch.CleanPlainDomain | Ejemplos/depurador.py:46 | a domain without a scheme and without slashes at its ends is left unchanged |
| DomainSearch.CleanSinglePass | Ejemplos/depurador.py:46 | the removal is a single pass: `hthttp://tp://x` cleans to `http://x`, which cleans further to `x` |
| DomainSearch.Variants | Ejemplos/depurador.py:48-51 | two variants: the cleaned domain, then that domain with a leading `www.` dropped, or with one added |
| DomainSearch.Candidates | Ejemplos/depurador.py:53-55 | exactly four URLs, in this order: `http://` and `https://` before the first variant, then the same before the second |
| DomainSearch.FirstSuccess | Ejemplos/depurador.py:53-62 | a reply found is a status 200 and is the reply to the URL it comes with |
| DomainSearch.FirstSuccessSpec | Ejemplos/depurador.py:53-62 | the first URL whose reply is status 200, with that reply; nothing exactly when no URL gets a 200 |
| DomainSearch.FirstSuccessAt | Ejemplos/depurador.py:53-62 | when the URL at position `n` is the first to answer 200, the search stops there |
| DomainSearch.TryVariants | Ejemplos/depurador.py:42-62 | the nested loop returns the first candidate answering 200, skipping other statuses and exceptions, or nothing |
| DomainSearch.Outcome | Ejemplos/depurador.py:67-86 | a recorded name is never empty |
| DomainSearch.OutcomeSpec | Ejemplos/depurador.py:67-86 | a cell that is not text, or whose four candidates never answer 200, gives no name; otherwise the name is what the extractor finds in the first 200 reply's body, when non-empty |
| DomainSearch.OutcomesIndex | Ejemplos/depurador.py:66-86 | the outcomes of a list of domains are one per domain, each that domain's outcome |
| DomainSearch.FailedCount | Ejemplos/depurador.py:73-86 | the failed list is as long as the number of `None` names |
| DomainSearch.Results.constructor | Ejemplos/depurador.py:14-15 | both lists start empty |
| DomainSearch.Results.Record | Ejemplos/depurador.py:73-86 | appends exactly one name, and the domain to the failed list exactly when that name is `None` |
| DomainSearch.Results.Process | Ejemplos/depurador.py:67-86 | one domain's lookup: the name found, or `None` and the domain marked failed |
| DomainSearch.ProcessDomains | Ejemplos/depurador.py:66-86 | one name per domain in order; the failed list holds the domains without a name and is as long as their count |
| Text.Strip | Ejemplos/ping.py:127 | `str.strip()`: no whitespace at either end, and no longer than the text |
| Text.StripMiddle | Ejemplos/ping.py:127 | the stripped text is a slice of the text with only whitespace before and after it |
| Text.StripEmpty | Ejemplos/ping.py:127 | `str.strip()` is empty exactly for all-whitespace text |
| Text.StripChar | Ejemplos/depurador.py:46 | `str.strip("/")`: the result neither starts nor ends with the character and is no longer than the text |
| Text.StripCharMiddle | Ejemplos/depurador.py:46 | the result is a slice of the text with only that character before and after it |
| Text.StripCharTrailing | Ejemplos/depurador.py:46 | one trailing character is removed from a text that neither starts nor ends with it |
| Text.Split | Ejemplos/main.py:12 | `str.split`: at least one piece, none containing the separator |
| Text.SplitJoin | Ejemplos/main.py:12-15 | joining separator-free pieces and splitting again gives the pieces back |
| Text.JoinSplit | Ejemplos/main.py:12-15 | splitting and joining again gives the text back |
| Text.RemoveAllAbsent | Ejemplos/depurador.py:46 | `replace(p, "")` leaves a text without `p` unchanged |
| Text.RemoveAllKeep | Ejemplos/depurador.py:46 | a prefix in which no occurrence of `p` starts is kept, and the removal goes on after it |

## Left out

- Running `ping`, and its 3-second timeout (`Ejemplos/ping.py:39-42`), is I/O. The probe's result is an input: captured text or `TimedOut`.
- A missing `ping` binary raises an exception that the script does not catch. The model has no such outcome.
- The thread pool of `ping_many` (`Ejemplos/ping.py:47-54`) is concurrency. A round is a sequence of measurements in completion order, and `PingDashboard.CompletionOrderIrrelevant` shows the order does not matter for distinct hosts.
- `platform.system()` is the `Platform` parameter. The clock (`datetime.now`, `time.time`) supplies the `now` and `nowTs` parameters.
- PingProbe.ParseRtt: round-trip times are exact decimals (`real`), not binary floats.
- PingDashboard.LossPercent: the `round(..., 2)` of the loss and of the last RTT is not modelled.
- `re.IGNORECASE` is ASCII case folding, and `\b`, `\w` are their ASCII forms. Non-ASCII letters are not modelled.
- Streamlit rendering, `st.rerun`, the KPI counts, the data tables, and the layout and PNG of the graph (`Ejemplos/sain_builder.py:244-260`) are UI.
- JSON text is not parsed. `json.loads` and `json.load` become an abstract `Json` value, or `None` when the text is invalid.
- SainBuilder.Editor.Import: an id, destination id or dependency type that is not a JSON string is treated as an import error. In Python a list or object id raises `TypeError` when it is used as a dict key, which the script reports as an import error; a number, boolean or `null` would be stored.
- SainBuilder.Editor.Save: the caller passes the sidebar's node type (`Ejemplos/sain_builder.py:78-82`), preset, dependency selection and dependency type. The hints and the sorted list of dependency candidates are UI.
- `extraer_nombre_copyright` (`Ejemplos/depurador.py:17-22`) uses BeautifulSoup and a regular expression over HTML. It is the `extract` parameter.
- HTTP requests are the `fetch` parameter. The random sleeps, Excel input and output, and the `KeyboardInterrupt` handler in `Ejemplos/depurador.py` are I/O.
- In `Ejemplos/cs2-inventory.py`, reading the inventory file and writing the workbook are I/O. Assets and descriptions are assumed to carry `classid` and `instanceid` as strings.
- DomainSearch.Clean: its own contract states only the slash-free ends and the length. Scheme removal is stated by `CleanDropsScheme`, `CleanPlainDomain` and `CleanSinglePass`; `replace` is not characterised for every input.
- Text.StripChar: its own contract states the ends and the length; the slice shape is `StripCharMiddle`.
- SainBuilder.PresetKeyFrom: its own contract states membership only; the first-match rule and the `None` case are `PresetKeyFirst`.
- SainBuilder.FallbackKeyFrom: its own contract states membership only; the first-match rule and the `None` case are `FallbackKeyFirst`.
- SainBuilder.ImportDeps: its own contract states length and source only; the failure condition and the element-wise result are `ImportDepsSpec` and `ImportDepFields`.
- Json: an object's members are a list of pairs; distinct keys are not enforced, and `Get` returns the first member with a key.
- Cs2Inventory.KeyInjective: keys are proved distinct only for ids without `_`. `Cs2Inventory.KeyCollision` shows two pairs whose ids contain `_` sharing a key.
- The CSV parsing, speed conversion, statistics and plots of `Ejemplos/main.py` and `Ejemplos/Torque_log.py` are pandas and float work.
- `Ejemplos/interfaz.py` (charts over float sums) and `Ejemplos/grass.py` (package installation, FTP, shell commands) are not part of this model.
