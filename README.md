# GitHub activity summary — Dafny model

`github-cli.py` is a command-line tool. It fetches a user's recent public activity
records from GitHub. It summarises them per category and prints the summaries.
This project models the core of that tool:

- **the eight reducers** `push_event` … `delete_event`. Each makes one pass over
  the fetched records and keeps those of its own `type`.
  - Push, pull-request and issues records are grouped by repository. A set
    `repo_names` sits beside a list `repo_data` of groups.
  - Fork, watch, create, release and delete records give one row each.
  - A reducer stores its list in its own slot of the result table when its
    found flag `event_exists` is set. Otherwise it stores the sentinel
    "Event does not exist".
- **the result table** `repo_event_info`. It has eight slots in a fixed order,
  and every slot starts as `None`.
- **`check_conflicts`**, which rejects the three forbidden flag combinations.
- **the category selection in `main`**:
  - no flag at all means `--default-events`;
  - `--default-events` runs push, pull request, issues, fork and watch;
  - `--all-events` runs all eight;
  - otherwise exactly the flagged reducers run, in slot order.

Module layout:

| file | module | contents |
|---|---|---|
| `events.dfy` | `Events` | activity records; categories and their slot positions; the `[0:10]` day prefix; filtering by category |
| `grouping.dfy` | `Grouping` | the reference definition of group-by-repository (`Grouped`); the shared grouping step `AddToGroups` |
| `reducers.dfy` | `Reducers` | seven loop methods for the eight reducers (`CollectPush` …; `CollectActions` serves both pull_request_event and issues_event), each proved equal to a reference function; lemmas stating what the summaries contain |
| `selection.dfy` | `Selection` | the flags, `check_conflicts`, and the set of categories `main` selects |
| `table.dfy` | `EventTable` | the class `EventInfoTable` (the slot table and the eight reducers writing it); `Run`, the model of `main` |

Each reducer is split in two:

- a loop method, for example `CollectPush`, that builds `repo_data` and
  `event_exists` exactly as the source's `for event in data` loop does;
- a class method, for example `EventInfoTable.PushEvent`, that stores the result
  in its slot.

The loop method is proved equal to a reference function of the records. Lemmas
then state what that function contains.

The docstrings of fork_event, watch_event, create_event, release_event and
delete_event say they organise their records by repository (github-cli.py:359, 386,
414, 441, 469), but their code appends one row per record without grouping
(github-cli.py:369-377, 397-405, 425-432, 451-460, 479-488). The model follows the
code.

## Model

| member | source | states |
|---|---|---|
| Events.TypeName | github-cli.py:197-225 | the table of the eight `type` labels, one per category, exactly as the slot table lists them (all of the form "XEvent") |
| Events.TypeNameInjective | github-cli.py:197-225 | two categories have the same `type` string iff they are the same category |
| Events.TypeOf | github-cli.py:245 | for a well-typed record, the test `event['type'] == "XEvent"` holds exactly when the record is of category X |
| Events.Index | github-cli.py:195-228 | each category has a slot position below eight |
| Events.Day | github-cli.py:251 | `created_at[0:10]` is the first ten characters, or the whole string if it is shorter, and is a prefix of the timestamp |
| Events.OfCategory | github-cli.py:370 | the records kept for a category all have that category and come from the input |
| Events.OfCategoryIndexed | github-cli.py:368-378 | filtering by `type` keeps exactly the records of the category, each once, in input order |
| Events.PresentSnoc | github-cli.py:377 | one more record sets the found flag exactly when that record contributes |
| Grouping.FirstSeenSpec | github-cli.py:256-257 | the names recorded in `repo_names` order are distinct, are exactly the names seen, and are ordered by first occurrence |
| Grouping.GroupedSpec | github-cli.py:256-265 | grouping gives distinct repository names, exactly the names contributed, in first-seen order; each group holds all notes for its name in input order; there are no groups iff there were no contributions |
| Grouping.GroupedEmpty | github-cli.py:256-265 | grouping is empty exactly when nothing was contributed |
| Grouping.GroupedSnoc | github-cli.py:256-265 | one more contribution opens a new group at the end for a new name, or extends only the group of a known name |
| Grouping.AddToGroups | github-cli.py:256-265 | one grouping step turns the grouping of the records so far into the grouping with one more record; `repo_names` stays equal to the set of names in `repo_data` |
| Reducers.CollectPush | github-cli.py:237-267 | push_event's loop gives the grouping of the commit notes of every push that has commits, and sets the found flag iff such a push exists |
| Reducers.CollectActions | github-cli.py:284-309 | pull_request_event's (and issues_event's) loop gives the grouping of one note per record, and sets the flag iff a record of the category exists |
| Reducers.CollectFork | github-cli.py:366-377 | fork_event's loop gives the reference fork rows, with the flag iff a fork record exists |
| Reducers.CollectWatch | github-cli.py:394-405 | watch_event's loop gives the reference watch rows, with the flag iff a watch record exists |
| Reducers.CollectCreate | github-cli.py:422-432 | create_event's loop gives the reference create rows, with the flag iff a create record exists |
| Reducers.CollectRelease | github-cli.py:448-460 | release_event's loop gives the reference release rows, with the flag iff a release record exists |
| Reducers.CollectDelete | github-cli.py:476-488 | delete_event's loop gives the reference delete rows, with the flag iff a delete record exists |
| Reducers.PushContributorNames | github-cli.py:245-258 | a repository gets a push group iff one of its push records has commits |
| Reducers.PushNotesFor | github-cli.py:246-265 | the notes under a repository are the commits of all its pushes, in input order |
| Reducers.PushNotesCount | github-cli.py:247-252 | a repository's notes number exactly its commits |
| Reducers.PushFoundIffGroups | github-cli.py:267-272 | push_event's found flag is set iff it produced a group |
| Reducers.PushSummarySpec | github-cli.py:237-272 | the push summary: distinct repositories, in order of their first push with commits; each repository's commits in input order, as many notes as commits; empty iff no push has a commit |
| Reducers.EmptyPushIgnored | github-cli.py:246-254 | a push record without commits changes neither the groups nor the found flag, wherever it stands |
| Reducers.ActionContributorNames | github-cli.py:289-292 | a repository gets a pull-request or issues group iff it has a record of that category |
| Reducers.ActionNotesFor | github-cli.py:290-307 | the notes under a repository are the notes of all its records, in input order |
| Reducers.ActionFoundIffGroups | github-cli.py:309-314 | the pull-request and issues found flags are set iff a group was produced |
| Reducers.ActionSummarySpec | github-cli.py:284-355 | the pull-request and issues summaries: distinct repositories in first-record order; each holds its records' (action, title, day) notes in input order; empty iff no record |
| Reducers.OfCategoryFound | github-cli.py:370-382 | for the non-push categories, the rows are empty iff the found flag stays unset |
| Reducers.ForkRowsSpec | github-cli.py:366-382 | one fork row per fork record, in input order, with the repository, the forkee's full name and the `created_at` day; empty iff no fork record |
| Reducers.WatchRowsSpec | github-cli.py:394-410 | one watch row per watch record, in input order, with the action and the `created_at` day; empty iff no watch record |
| Reducers.CreateRowsSpec | github-cli.py:422-437 | one create row per create record, in input order, with the `created_at` day; empty iff no create record |
| Reducers.ReleaseRowsSpec | github-cli.py:448-465 | one release row per release record, in input order, with the name, the tag and the day of `published_at` (not `created_at`); empty iff no release record |
| Reducers.DeleteRowsSpec | github-cli.py:476-493 | one delete row per delete record, in input order, with the ref, the ref type and the `created_at` day; empty iff no delete record |
| Selection.CheckConflicts | github-cli.py:123-164 | rejects exactly three cases: default with all; default with a category flag; all with a category flag; each is reported as the first test that fires; everything else is accepted |
| Selection.FlaggedCategories | github-cli.py:658-674 | the flagged categories are exactly those whose flag is given; the set is empty iff no category flag is given |
| Selection.Selected | github-cli.py:638-674 | no flag, or `--default-events`, selects the default five; `--all-events` selects all eight; otherwise exactly the flagged categories; never empty |
| EventTable.SlotSpec | github-cli.py:269-272 | a written slot is never `None`; it holds the sentinel iff the summary list would be empty; a stored summary is of the slot's own category |
| EventTable.EventInfoTable.constructor | github-cli.py:195-228 | every slot starts as `None` |
| EventTable.EventInfoTable.PushEvent | github-cli.py:230-272 | push_event writes slot 0 with the reference value (summary iff found, else the sentinel) and no other slot |
| EventTable.EventInfoTable.PullRequestEvent | github-cli.py:274-314 | pull_request_event writes slot 1 only, with its reference value |
| EventTable.EventInfoTable.IssuesEvent | github-cli.py:316-355 | issues_event writes slot 2 only, with its reference value |
| EventTable.EventInfoTable.ForkEvent | github-cli.py:357-382 | fork_event writes slot 3 only, with its reference value |
| EventTable.EventInfoTable.WatchEvent | github-cli.py:384-410 | watch_event writes slot 4 only, with its reference value |
| EventTable.EventInfoTable.CreateEvent | github-cli.py:412-437 | create_event writes slot 5 only, with its reference value |
| EventTable.EventInfoTable.ReleaseEvent | github-cli.py:439-465 | release_event writes slot 6 only, with its reference value |
| EventTable.EventInfoTable.DeleteEvent | github-cli.py:467-493 | delete_event writes slot 7 only, with its reference value |
| EventTable.EventInfoTable.Reduce | github-cli.py:659-674 | the reducer of a category writes that category's slot and no other |
| EventTable.CategoryAt | github-cli.py:195-228 | slot position `i` belongs to the category whose index is `i` |
| EventTable.TableAfter | github-cli.py:195-228 | after the reducers of `sel` run, the slot of each category in `sel` holds its reference value and every other slot holds `None` |
| EventTable.TableAfterAdd | github-cli.py:269-272 | running one more reducer gives the table for the enlarged selection, whatever its slot held before |
| EventTable.EventInfoTable.ReduceTwice | github-cli.py:269-272 | running a reducer twice leaves the table exactly as running it once: only its slot changes, to its reference value |
| EventTable.RunEach | github-cli.py:641-656 | running a list of reducers in order gives the table for the set of their categories |
| EventTable.RunFlagged | github-cli.py:658-674 | the per-flag branch gives the table for exactly the flagged categories |
| EventTable.Run | github-cli.py:620-676 | `main`: conflicting flags exit and carry the conflict `check_conflicts` reports; otherwise each selected slot holds its reference value and every other slot is `None` |

## Left out

- Argument parsing, the help text and the `sys.argv[1]` test (github-cli.py:101-121): only the parsed flags are modelled, as `Selection.Flags`.
- Line 162 reads the global `args` rather than its parameter; that is the same value when `main` calls it, so the model uses the parameter.
- The printed error messages and the exit status are left out. `Run` returns `Exit(conflict)` where the program prints and exits with status 1.
- fetch_github_data (network I/O, timeout and connection errors) is not part of this model. `Run` takes the fetched records as a parameter, and `data` is assumed to be a list of records. The source never checks the HTTP status, so an error reply (a JSON object, not a list) makes the first reducer that runs crash on `event['type']`; that crash is not modelled.
- display_events (terminal output) is not part of this model. `Run` ends with the table that would be displayed.
- JSON decoding is not modelled. A record's `type` string is represented by the variant of `Events.Payload`, and types the tool ignores become `OtherPayload`. `Events.WellTyped` says an `OtherPayload` record carries none of the eight known type strings; `Events.TypeOf` shows that under it the variant test agrees with the source's string test.
- Records are assumed well formed: a record of a known type carries the fields its reducer reads. The source would raise `KeyError` on a malformed record, and that is not modelled.
- The `type` label of each slot is fixed text and is not stored in `EventTable.EventInfoTable`. `Events.TypeName` gives it, and the slot position identifies the category.
- `main` writes `args.default_events = True` when no flag is given. The model uses a local variable instead, with the same effect.
- EventTable.RunFlagged: the eight consecutive `if args.<flag>` statements of `main` are written as one loop over the categories in slot order. It calls the same reducers in the same order.
- EventTable.RunEach: the fixed call sequences of the default and all-events branches are written as one loop over the list of categories, in the same order.
- The per-group dictionary keys (`repo_msgs`, `pr_info`, `issue_info`) are not modelled. Pull-request and issues notes share one `ActionNote` shape.
- In-place mutation of the group dictionaries is modelled as replacing the group in a `seq` value. No two groups share a notes list in the source, so no aliasing is lost.
