# NCL sheet sync, modelled in Dafny

ncl-sheet-sync copies the challenge structure of a National Cyber League
scoreboard (the `preload` JSON of a cyberskyline.com report) into a team's
Google Sheet. It also has a setup helper that takes the cyberskyline.com
session cookies from a local browser.

This project models the core of that system as pure functions and small
methods over immutable data:

- **Scoreboard** (`scoreboard.dfy`). Holds the report snapshot with its
  modules and clusters. A missing JSON key is an `Option`, and it turns into a
  `MissingKey` error. A cluster's point pool is split over its questions with
  floor division, and the last question takes the remainder.
- **Sheet** (`sheet.dfy`). A tab is a map from (row, column) to a cell value.
  Rows are 1-based and columns 0-based, so A = 0 and N = 13. The calls a
  script makes are data: `batch_clear`, a values `batch_update`, and
  spreadsheet `batch_update` request lists. Applying a call gives the tab's
  values afterwards. Request-only calls change no values.
- **The template updater** `update_category_sheet`:
  - the existing-work check (Guard, `guard.dfy`);
  - the row plan of marker, question and blank rows (Layout, `layout.dfy`);
  - the dropdown, formatting and colour-rule requests, sent in batches of 100
    (Requests, `requests.dfy`);
  - the run as a whole (Template, `template.dfy`).
- **The archived updaters**:
  - first generation, flat question list (ArchiveV1, `archive_v1.dfy`);
  - second generation, scans the tab for marker rows (ArchiveV2,
    `archive_v2.dfy`).

  Both parse the whole report into a dict keyed by sheet tab (Categories,
  `categories.dfy`, over the insertion-ordered dict of `ordered_dict.dfy`).
- **The three OSINT-only scripts** (Osint, `osint.dfy`): final, test and
  clean.
- **The automated setup** (AutoSetup, `auto_setup.dfy`):
  - browser discovery;
  - cookie extraction and Chrome cookie decryption;
  - the first-success search over browsers;
  - the `COOKIE_FILE` rewrite of `config.py`;
  - the exit status.

Things outside the program are parameters:

- a tab that may not exist is an `Option` or a flag;
- a read that may raise is a flag;
- the `--yes`, `--test` and `--dry-run` command-line flags are booleans;
- files and sqlite reads are `Option`s;
- AES, DPAPI and UTF-8 decoding are functions that return `None` where the
  Python raises.

Behaviour a reader might not expect:

- A template run writes `N/A` and `Nothing` into the checked columns, and the
  existing-work check treats those as untouched. So a second run on the same
  tab passes the check and rewrites the region. `Template.SecondRunPasses`
  proves this.
- `parse_category_challenges` returns an empty list in two cases: when no
  module matches, and when the first matching module has no clusters
  (`Scoreboard.ParseCategoryEmptyIff`).
- The check and the clear stop at `end_row`, but the layout does not.
  `Template.LayoutOverrunsRegion` shows that whenever the plan's last
  written row lies below `end_row`, a column A write lands outside the
  checked and cleared region. For example, one cluster of 100 questions from
  row 3 writes down to row 103.
- `check_existing_work` reports only true or false, and a read error counts
  as work found. It does not name the offending cell.
- The formatting requests are one per marker row plus two per question row.
- The second-generation updater counts `question_count` for each marker but
  never uses it. A cluster with more questions than the sheet has rows
  therefore writes over the following marker rows (`ArchiveV2.ZipWritesCells`
  only bounds the columns).

## Model

| member | source | states |
|---|---|---|
| Scoreboard.Split | update_sheet_template.py:104-117 | A cluster of n > 0 questions gets n questions numbered 1..n whose points add up to the pool. n <= 0 gives no questions. |
| Scoreboard.SplitShares | update_sheet_template.py:105-111 | Every question but the last gets the floor share of the pool (`p // n`); the last gets at least that share and less than n more. |
| Scoreboard.SplitTotal | update_sheet_template.py:105-111 | The floor share for n - 1 questions plus the remainder question adds up to exactly the cluster's points. |
| Scoreboard.ParseCluster | update_sheet_template.py:99-123 | A missing `name`, `challenges` or `points` key raises, checked in that order. Otherwise the cluster keeps its name and total, and has max(n, 0) questions whose points add up to the total. |
| Scoreboard.ParseClusters | update_sheet_template.py:99-123 | Parses every cluster in order. Any failure aborts with the error of the first cluster that fails. |
| Scoreboard.ParseModules | update_sheet_template.py:91-127 | The first module named after the category decides the result. With no such module the result is empty. A module without a name before the match raises. |
| Scoreboard.ParseCategoryEmptyIff | update_sheet_template.py:95-127 | On a well-formed report the parse succeeds. It is empty exactly when no module matches or when the first match has no clusters. |
| Scoreboard.FirstMatch | update_sheet_template.py:95-96 | When some module matches, there is a first one, and no module before it matches. |
| Categories.LastWith | archive/update_ctf_sheet_v2.py:73-108 | Finds the module whose entry survives in the dict: the last module that maps to that sheet tab through `CATEGORY_MAP.get(name, name)`. |
| Categories.GroupBySheet | archive/update_ctf_sheet_v2.py:67-110 | Filing every module under its sheet tab gives a dict whose keys are distinct. |
| Categories.GroupBySheetOk | archive/update_ctf_sheet_v2.py:67-110 | Filing succeeds exactly when every module is named and its clusters parse; a nameless module or a failing parse makes it fail. |
| Categories.GroupBySheetValues | archive/update_ctf_sheet_v2.py:67-110 | When filing succeeds, each tab holds the value parsed from the last module filed under it, and a key no module reaches keeps its earlier value. |
| OrderedDict.Put | archive/update_ctf_sheet_v2.py:108 | Dict assignment. A new key is appended to the key order and an existing key keeps its place. The key then maps to the new value, and every other key is unchanged. |
| OrderedDict.Get | archive/update_ctf_sheet_v2.py:108 | A lookup finds a value exactly when the key is in the dict, and the value is the one stored under the key. |
| Guard.CheckExistingWork | update_sheet_template.py:129-173 | Work is found exactly when one of these holds: a read fails; an answer-status cell, stripped, is neither empty nor `N/A`; a team cell, stripped, is neither empty nor `Nothing`. |
| Guard.NoWorkIffVirgin | update_sheet_template.py:136-168 | The check over rows r1..r2 of D and G..M finds nothing exactly when every such cell of the tab is blank or holds its default. |
| Guard.WorkCellIsRead | update_sheet_template.py:140-166 | Any non-default cell of column D or G..M inside the region is seen by the check. |
| Guard.SentinelUpdatesKeepVirgin | update_sheet_template.py:249-262 | Writes that put only `N/A` into D and `Nothing` into G..M keep an untouched region untouched. |
| Guard.ClearedIsVirgin | update_sheet_template.py:204 | After A..N of the region is cleared, the check finds no work there. |
| Layout.BuildLayout | update_sheet_template.py:215-267 | The loop gives the values writes, question rows and marker rows of the row plan laid out from the start row, and ends one past its last row. |
| Layout.PlanShape | update_sheet_template.py:215-267 | The plan has 2 rows per cluster plus one per question. Cluster k starts with its marker row, then its questions in order, then a blank row. |
| Layout.RowCounts | update_sheet_template.py:226-267 | There is one marker row per cluster and one question row per question. |
| Layout.MarkerRowsAt | update_sheet_template.py:226-235 | The k-th marker row is the row of cluster k's marker, which holds that cluster's name. |
| Layout.RowsOfExact | update_sheet_template.py:226-267 | The recorded rows are strictly increasing and lie inside the layout. They are exactly the rows of the given kind. |
| Layout.LayoutRowContents | update_sheet_template.py:230-262 | After the layout is written, each written cell of a layout row holds its value: the name, `Question i`, `N/A`, the points, or `Nothing` in G..M. Every other cell of that row is unchanged. |
| Layout.LayoutOffRows | update_sheet_template.py:215-267 | Rows outside the layout are not touched by its writes. |
| Layout.UpdatesOfSafe | update_sheet_template.py:230-262 | Every layout write lies in columns A..N of a layout row. It puts only the defaults into the checked columns. |
| Requests.ValidationLayout | update_sheet_template.py:281-316 | Each question row gets 8 dropdowns: D (answer status) and G..M (team progress). Each covers exactly that one cell, with that column's choices. |
| Requests.FormatLayout | update_sheet_template.py:320-396 | Formatting is a grey marker row A..N for each marker, then for each question row white bordered A..N and white text in G..M. |
| Requests.ConditionalLayout | update_sheet_template.py:400-676 | Each question row gets 10 colour rules, in source order: five on the answer status (D) for Yes, No, N/A, Needs Validation and Ready to submit, then five on the team columns (G..M) for Nothing, Started, Agree, Disagree and Surrender. |
| Requests.TeamConditionalLayout | archive/update_osint_final.py:316-450 | The OSINT final script gives each question row 5 colour rules, in a fixed order. |
| Requests.ChunksFlatten | update_sheet_template.py:677-680 | The batches, concatenated, are the original requests in order. |
| Requests.ChunksCount | update_sheet_template.py:677-680 | There are ceil(n / 100) batches. |
| Requests.ChunksAt | update_sheet_template.py:677-680 | Batch i is requests 100i up to 100i + 100. It is non-empty and full except the last. |
| Requests.SendInChunks | update_sheet_template.py:677-680 | The sending loop sends exactly the batches, one call each, in order. |
| Requests.BatchCallsWriteNothing | update_sheet_template.py:680 | Request batches change no cell values. |
| Template.UpdateCategorySheet | update_sheet_template.py:175-689 | A run succeeds exactly when the tab exists, the region can be read, and it holds no work. A failed run makes no call. A successful one clears A..N of rows 3..100 (50..150 in test mode), then writes the layout, then the dropdowns, then the formats, then the colour-rule batches. |
| Template.TemplateValues | update_sheet_template.py:204-277 | The run's effect on values is the cleared region with the layout written over it. |
| Template.TemplateCell | update_sheet_template.py:204-277 | Afterwards each layout cell holds its value. Every other cell of the region is empty, and every cell outside is as before. |
| Template.SecondRunPasses | update_sheet_template.py:129-277 | After a successful run the check finds no work, so a second run is not stopped by it. |
| Template.TemplateCallCount | update_sheet_template.py:204-680 | A run makes 4 + ceil(10Q / 100) calls for Q questions. |
| Template.LayoutOverrunsRegion | update_sheet_template.py:190-267 | For any non-empty cluster list whose last written row (`start + 2·clusters + questions − 2`) lies below `end`, some column A write of the layout lands on a row past `end`, which neither the check nor the clear covers. |
| ArchiveV2.ParseAll | archive/update_ctf_sheet_v2.py:67-110 | The report parses exactly when every module is named and every cluster parses. Each tab holds the clusters of the last module filed under it. |
| ArchiveV2.RunEnd | archive/update_ctf_sheet_v2.py:133-143 | The inner scan stops at the next marker row (column N empty or `Point Value`) or past the last row. |
| ArchiveV2.FindChallengeMarkers | archive/update_ctf_sheet_v2.py:112-155 | The scan from row 3 returns what the reference scan defines. |
| ArchiveV2.CountQuestionRows | archive/update_ctf_sheet_v2.py:130-143 | The inner loop stops at the first marker row below the marker, or past the last row; the count is the number of rows in between. |
| ArchiveV2.MarkersFound | archive/update_ctf_sheet_v2.py:112-155 | The markers are exactly the rows >= 3 whose column N is empty or `Point Value`, in increasing order. Each carries its column A and the number of question rows that follow it. |
| ArchiveV2.QuestionWritesAt | archive/update_ctf_sheet_v2.py:205-219 | Question j of a cluster goes to the row j + 1 below its marker: `Question i` into A and the points into N. |
| ArchiveV2.ZipIgnoresExtra | archive/update_ctf_sheet_v2.py:198 | `zip` stops at the shorter list, so surplus markers or clusters have no effect. |
| ArchiveV2.ZipWritesCount | archive/update_ctf_sheet_v2.py:198-219 | The number of writes is one per zipped pair plus two per question. |
| ArchiveV2.ZipWritesCells | archive/update_ctf_sheet_v2.py:198-219 | Every write is one cell of column A or N. |
| ArchiveV2.ZipLoop | archive/update_ctf_sheet_v2.py:198-219 | The nested loop gives the writes of the zipped marker/cluster pairs in order. |
| ArchiveV2.UpdateSheet | archive/update_ctf_sheet_v2.py:157-229 | Per tab in dict order: a missing tab is skipped and a dry run writes nothing. Otherwise one values write, if it is non-empty. |
| ArchiveV2.RunCalls | archive/update_ctf_sheet_v2.py:168-224 | A dry run makes no call. A real run makes at most one call per dict entry, always a non-empty values write to an existing tab: never a clear or a formatting request. |
| ArchiveV1.ClusterEntries | archive/update_ctf_sheet.py:98-115 | A cluster gives one entry per question, in order. A single question keeps the cluster's name; otherwise question i is named `<cluster> - Question i+1`. |
| ArchiveV1.FlatParse | archive/update_ctf_sheet.py:94-117 | A module's flat list exists exactly when its clusters parse, and is their entries cluster after cluster. |
| ArchiveV1.ParseAllFlat | archive/update_ctf_sheet.py:80-120 | The report parses exactly when every module is named and parses. Each tab holds the flat list of the last module filed under it. |
| ArchiveV1.ParsedClusterEntries | archive/update_ctf_sheet.py:98-113 | A cluster of n > 0 questions gives n entries whose points add up to the cluster's pool. One with n <= 0 gives none. |
| ArchiveV1.AllEntriesPoints | archive/update_ctf_sheet.py:94-117 | The points of a tab's flat list add up to the sum of its clusters' question totals. |
| ArchiveV1.EntryWritesAt | archive/update_ctf_sheet.py:152-169 | Entry i goes to row 3 + i: its name into A and its points into N. |
| ArchiveV1.EntryWritesCells | archive/update_ctf_sheet.py:152-169 | Each write is one cell of A or N on an entry row. |
| ArchiveV1.UpdateSheet | archive/update_ctf_sheet.py:122-173 | Per tab in dict order: a missing tab is skipped, a dry run writes nothing, and an empty list writes nothing. Otherwise one values write. |
| ArchiveV1.DryRunWritesNothing | archive/update_ctf_sheet.py:140-146 | A dry run makes no call. |
| Osint.ParseOsint | archive/update_osint_final.py:70-106 | Parses the first `Open Source Intelligence` module, with the same rules as the template parser. |
| Osint.UpdateOsintFinal | archive/update_osint_final.py:108-463 | Without the tab, or without `--yes`, nothing is sent. Otherwise: the layout from row 3 (50 with `--test`), the dropdowns, the formats, and the 5-rule colour batches. There is no check and no clear. |
| Osint.FinalValues | archive/update_osint_final.py:128-193 | The run's effect on values is the layout written over the tab as it was. |
| Osint.FinalCell | archive/update_osint_final.py:128-193 | Each layout cell holds its value and every other cell is unchanged. |
| Osint.FinalCallCount | archive/update_osint_final.py:193-454 | A run makes 3 + ceil(5Q / 100) calls. |
| Osint.UpdateOsintTest | archive/test_osint_update.py:77-200 | Without the tab, or without `--yes`, nothing is sent. Otherwise the layout from row 3, then one copy of row 4's validation for each question row whose copy does not raise. |
| Osint.CopyCallsExact | archive/test_osint_update.py:163-195 | A copy call is sent exactly for the question rows whose copy succeeds. Each copies row 4, A..N, onto that row. |
| Osint.CopyCallCount | archive/test_osint_update.py:163-195 | There is one copy per succeeding row, at most one per question row, and one per question row when none fails. |
| Osint.TestValues | archive/test_osint_update.py:99-159 | The copies change no values. The run's effect on values is the layout from row 3. |
| Osint.UpdateOsintClean | archive/update_osint_clean.py:77-184 | With the tab, A3:N100 is cleared. With `--yes`, the layout without team defaults follows, then light-grey marker rows. |
| Osint.CleanMarkerFormats | archive/update_osint_clean.py:105-136 | The i-th format request paints cluster i's marker row A..N light grey. |
| Osint.CleanValues | archive/update_osint_clean.py:98-171 | A confirmed run's effect on values is A3:N100 cleared, then the layout without team defaults written from row 3. |
| Osint.CleanCell | archive/update_osint_clean.py:98-171 | Each layout cell holds its value. The rest of A3:N100 is empty and cells outside are unchanged. |
| Osint.PreviewClears | archive/update_osint_clean.py:98 | Without `--yes` the script still clears A3:N100, so a preview changes any tab with a value in A3. |
| Osint.PreviewKeepsSheet | archive/update_osint_clean.py:169-184 | With the clear moved under `--yes`, a preview leaves the tab unchanged. A confirmed run is as before. |
| AutoSetup.FilterBrowsers | utils/auto_setup.py:71-73 | Browsers with no candidate paths are dropped. Each kept browser keeps exactly its candidates that exist. |
| AutoSetup.EmptyBrowsersDropped | utils/auto_setup.py:72-73 | A browser with no candidate paths never appears in the result. |
| AutoSetup.CookieValue | utils/auto_setup.py:200-217 | A non-empty plaintext value wins. Otherwise the cookie's value is the decryption, and it is kept only when non-empty. |
| AutoSetup.CookiePairsExact | utils/auto_setup.py:200-217 | `name=value` appears exactly for the cookies whose value is recovered. |
| AutoSetup.CookiePairsEmpty | utils/auto_setup.py:200-219 | No pairs exactly when no cookie's value is recovered. |
| AutoSetup.JoinCookies | utils/auto_setup.py:219-220 | No pairs gives no cookie string. Otherwise the string starts with the first pair, and a single pair is the whole string. |
| AutoSetup.ExtractChromeCookies | utils/auto_setup.py:174-223 | A failed read gives nothing. Otherwise the result is the recovered cookies joined with `; `. |
| AutoSetup.ExtractFirefoxCookies | utils/auto_setup.py:150-171 | Nothing when the read fails or finds no cookie. Otherwise a string that starts with the first cookie's `name=value`; a single cookie gives exactly that. |
| AutoSetup.Unpad | utils/auto_setup.py:142 | `decrypted[:-decrypted[-1]]` raises on an empty block. It drops the last k bytes when 1 <= k <= length, and leaves nothing when k is 0 or too large. |
| AutoSetup.UnpadPad | utils/auto_setup.py:141-142 | Removing the padding of a PKCS#7-padded block gives back the plaintext. |
| AutoSetup.DecryptLinux | utils/auto_setup.py:130-147 | No crypto library or no key gives nothing. A value without a `v10`/`v11` prefix is decoded as is. A prefixed one is AES-CBC decrypted with the 16-space IV, unpadded, then decoded. |
| AutoSetup.DecryptLinuxRoundTrip | utils/auto_setup.py:135-142 | A `v10` cookie whose body decrypts to the padded plaintext is decoded from exactly that plaintext. |
| AutoSetup.PlatformDecrypt | utils/auto_setup.py:206-212 | Windows uses DPAPI, Linux and macOS use the AES path, and any other system recovers nothing. |
| AutoSetup.FindAndExtractCookies | utils/auto_setup.py:226-259 | The result is the first browser/path in order whose extraction yields cookies, with that browser's name. When none does, every attempt failed. |
| AutoSetup.RewriteCookieLine | utils/auto_setup.py:278-283 | The loop replaces only the first line that, stripped, starts with `COOKIE_FILE =`. It reports whether one existed. |
| AutoSetup.CookieLineIsCookieLine | utils/auto_setup.py:281 | The line written is itself recognised as the cookie line. |
| AutoSetup.ReplaceCookieLineIdempotent | utils/auto_setup.py:279-283 | Rewriting is idempotent and keeps the position of the first cookie line. |
| AutoSetup.UpdateOrCreateConfig | utils/auto_setup.py:262-322 | Succeeds exactly when `config.py` or `config.example.py` exists. An existing config is written only when it has a cookie line. Otherwise config is created from the example, rewritten. |
| AutoSetup.WrittenConfigPointsAtCookies | utils/auto_setup.py:279-304 | A written config's first cookie line names the saved cookie file. |
| AutoSetup.Setup | utils/auto_setup.py:325-366 | Exit status 0 exactly when cookies were found and a config file exists, 1 otherwise. Without cookies nothing is saved or written. |

## Left out

- Fetching the report (HTTP, cookie file, regex over the page, JSON decoding):
  the model starts from the decoded snapshot.
- Google authentication and the gspread client. A call is modelled by its
  effect on cell values only. Formats, validation and colour rules are data
  and have no visual effect in the model.
- Colours are named constants, not RGB floats.
- Printing, the progress output and `main`'s argument parsing of the sheet
  scripts. The flags are parameters.
- `check_existing_work`'s exceptions are one flag: any read failure counts as
  work found.
- The first-generation updater's `get_all_values` read is unused by the code,
  so it is not modelled.
- Osint.UpdateOsintFinal, Osint.UpdateOsintTest, Osint.UpdateOsintClean: when
  the OSINT tab is missing, the three scripts raise from `worksheet(...)`. The
  model returns no calls instead, which matches the calls sent (none are sent
  before the raise) but turns the exception into a normal exit.
- `test_osint_update.py`'s copies call `values_batch_get` and
  `batch_update`, and either may raise per row. That is a per-row `fails`
  parameter.
- AES-CBC, DPAPI, PBKDF2, base64 and UTF-8 decoding are parameters.
  `get_chrome_key_linux` (reading `Local State`) is an `Option` key.
- The per-OS browser path tables, `glob` and `os.path.exists` are
  parameters. `FilterBrowsers` takes the table and an existence predicate.
- The sqlite copy, query and `LIKE '%cyberskyline.com%'` filter are an
  `Option` of the rows; `None` stands for a raised exception.
- File reads and writes of `config.py`, `config.example.py` and the cookie
  file are `Option` line lists and results.
- Dict order: Python dicts iterate in insertion order. That is modelled as a
  sequence of key/value pairs, not a map.
- The other scripts of the repository (the per-category wrappers, the sheet
  readers, the batch drivers, the Google auth helper) are not part of this
  model.

## Findings

| source | as written | input that shows it | evidently intended | confidence | as-written member | corrected member |
|---|---|---|---|---|---|---|
| archive/update_osint_clean.py:98 | `A3:N100` is cleared before the `--yes` check, and the preview branch then says no changes were made | an OSINT tab with a value in A3 and a run without `--yes` | the clear happens only on a confirmed run, so a preview leaves the tab as it was | not executed | Osint.PreviewClears | Osint.PreviewKeepsSheet |
