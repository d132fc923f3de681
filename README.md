# gsync: checklist ↔ Google Tasks reconciliation, modelled in Dafny

gsync keeps markdown checklists in step with Google Tasks. It handles two kinds of file:

- **Ordinary files.** For each `.md` file, it takes the list named after the file's stem (creating the list if needed). It reads the file's checklist lines (`- [ ] title`, `- [x] title`) into an ordered title → completed map. It reads the list's top-level tasks into the same kind of map.
  - The merge keeps the local map and folds the remote one in. A title only ever moves from open to completed.
  - The file is rewritten with the merged marks, and titles new to the file are appended.
  - On the remote side, every fetched task is popped from the merged map. A task the merge completed is updated. Every title still left in the map is inserted.
- **Daily notes.** These work the same way, but against the subtasks of one top-level task. That task lives in the list "Daily" and carries the file's stem as its title; it is created when missing.
- **Daily files.** Before the daily pass, an empty note is created for every top-level "Daily" task that has no file yet.

The model covers all of this for one file at a time. It is written in the source's own form:

- A Python `dict[str, bool]` is a `Dict`: the keys in insertion order, plus the map.
- The file is its sequence of lines. `readlines()` keeps each line's `"\n"`. The file is opened in text mode, so `"\r"` and `"\r\n"` are read as `"\n"` too: no line read holds a `"\r"`.
- The service is a class `Service`. It holds a `Store` (the lists, each list's tasks, and the next fresh id) and a log of every write sent to it.
- Each loop of the source is a method with loop invariants. Each method is proved equal to a specification function. The properties are lemmas about those functions.

Modules:

- `OrderedDict` (`ordered_dict.dfy`): the `dict`.
- `Checklist` (`checklist.dfy`): `read_local_tasks`, `update_local_tasks`, and `str.strip`.
- `Merge` (`merge.dfy`): `merge_task_dicts`.
- `Remote` (`remote.dfy`):
  - tasks and task lists;
  - the writes and their effect on the store;
  - the service object and `get_tasklist_id`;
  - `read_google_tasks`.
- `WritePlan` (`write_plan.dfy`): `update_google_tasks`, including its KeyError.
- `Sync` (`sync.dfy`): `sync_tasks`, `sync_daily_tasks`, the lookup-or-insert of the day's task, and the daily-file loop of `main`.
- `Converge` (`converge.dfy`): a second sync straight after a successful one changes nothing.

Three points where the code's behaviour is easy to misread:

- **Title trimming.** The title of a checklist line is `line[6:].strip()`. Whitespace is removed at both ends, not only at the end. Python's full `isspace` set is used.
- **Duplicate or missing titles.** `update_google_tasks` pops each fetched task's title with `task_dict.pop(title)`. The first duplicate stops the whole update loop with a KeyError, and so does an untitled task when `""` is not a merged title. The model returns the failing title. It keeps every write sent before the failure and sends nothing after it.
- **The day's task.** It is inserted without a status, so the model gives it the server's default status "needsAction".

## Model

| member | source | states |
|---|---|---|
| OrderedDict.Put | gsync/__main__.py:84 | `d[k] = v`: the new value is stored; a present key keeps its position and a new key goes last |
| OrderedDict.Remove | gsync/__main__.py:125 | `d.pop(k)`: the key leaves both the order and the map; the other keys keep their order |
| Checklist.StripStripped | gsync/__main__.py:83 | `strip()` removes only edge whitespace: the string is a whitespace prefix, the result and a whitespace suffix. The result has no whitespace at either end, and stripping again changes nothing |
| Checklist.LStripShape | gsync/__main__.py:83 | `lstrip` removes a leading run of whitespace characters and keeps the rest, which starts with a non-whitespace character or is empty |
| Checklist.RStripShape | gsync/__main__.py:83 | `rstrip` removes a trailing run of whitespace characters and keeps the rest, which ends with a non-whitespace character or is empty |
| Checklist.RenderReads | gsync/__main__.py:82-84 | a line written as `- [x] title\n` or `- [ ] title\n` is a checklist line again, giving back the same title and mark when the title is clean (already stripped, no `"\n"` or `"\r"`) |
| Checklist.ReadLocalTasks | gsync/__main__.py:77-85 | the loop over the lines builds exactly the parse map of the file |
| Checklist.ParseKeys | gsync/__main__.py:81-84 | the parsed titles are exactly the titles of the checklist lines; other lines add nothing |
| Checklist.ParseLastWins | gsync/__main__.py:81-84 | for a repeated title, the mark of its last checklist line is the one kept |
| Checklist.ParseKeyOrder | gsync/__main__.py:81-84 | titles keep the order in which they first appear in the file |
| Checklist.ParseClean | gsync/__main__.py:83 | in a file whose every line ends in one newline, every parsed title is clean |
| Checklist.UpdateLocalTasks | gsync/__main__.py:117-133 | the two loops write exactly the write-back of the file under the map; the caller's map is not changed |
| Checklist.StreamRest | gsync/__main__.py:121-127 | after the first loop, the map copy holds the titles found on no checklist line of the file, in map order |
| Checklist.StreamOut | gsync/__main__.py:123-130 | the first loop writes one line per original line. The first checklist line of each map title is rewritten with the map's mark; every other line (later duplicates, titles not in the map, non-checklist lines) is copied verbatim |
| Checklist.WriteBackShape | gsync/__main__.py:117-133 | the written file is the original lines, rewritten one for one, followed by one rendered line per leftover title in map order |
| Checklist.WriteBackLine | gsync/__main__.py:123-133 | each written line is well formed; a rewritten checklist line keeps its title and carries the map's mark for it; a non-checklist line is copied as it is; an appended line carries its leftover title and that title's mark |
| Checklist.RoundTrip | gsync/__main__.py:77-133 | writing a map back over a well-formed file and reading the result gives the map whole: the file's titles in file order, then the new ones in map order. The file stays well formed, with distinct titles, in written form |
| Checklist.RoundTripParse | gsync/__main__.py:77-133 | the read of the written file is the file's own title order extended by the leftover titles, with every value from the map |
| Checklist.WriteBackFixpoint | gsync/__main__.py:117-133 | a file already in written form with distinct titles is left unchanged by writing back its own map |
| Merge.MergeTaskDicts | gsync/__main__.py:106-113 | the loop computes the merge: the local map with each remote entry folded in, in remote order |
| Merge.MergeValues | gsync/__main__.py:109-112 | a title is merged iff it is on either side; its value is the local value when it is only local, the remote value when it is only remote, and the OR of both when it is on both sides |
| Merge.MergeNoDowngrade | gsync/__main__.py:111-112 | a title completed on either side is completed in the merge |
| Merge.MergeOrder | gsync/__main__.py:109-112 | merge order is the local titles in local order, then the remote-only titles in remote order |
| Merge.MergeOntoAt | gsync/__main__.py:110-112 | for any start map and any prefix of the remote keys, membership and value of one title after the fold |
| Merge.MergeOntoKeys | gsync/__main__.py:110-112 | the fold keeps the start map's order and appends the new remote keys in order |
| Merge.MergeAbsorbs | gsync/__main__.py:106-113 | a remote map agreeing with the merged map on every title it holds merges into it without change |
| Remote.StatusOf | gsync/__main__.py:163 | the status written for an inserted task is "completed" iff the merged value is true |
| Remote.ApplyAllValid | gsync/__main__.py:152-174 | the writes keep the store's invariant: ids below the next fresh id, distinct within each list, so an update by id reaches one task |
| Remote.InScopeMember | gsync/__main__.py:97 | the parent filter keeps exactly the tasks of the list whose parent is the one asked for |
| Remote.InScopeAppend | gsync/__main__.py:97 | the filter works task by task, in list order |
| Remote.RemoteDictKeys | gsync/__main__.py:98-102 | the remote map holds exactly the titles of the titled fetched tasks; untitled tasks are skipped |
| Remote.RemoteDictLast | gsync/__main__.py:98-102 | for a repeated title, the remote map holds the completion of its last task |
| Remote.FindList | gsync/__main__.py:66-69 | the lookup stops at the first list with the title, or reports that none has it |
| Remote.ResolveListCreates | gsync/__main__.py:63-74 | a list is created iff no list has the name; it is then the only write and has the fresh id, and no task changes |
| Remote.ResolveListAgain | gsync/__main__.py:63-74 | a second lookup of the same name finds the same id and creates nothing |
| Remote.Service.ListTaskLists | gsync/__main__.py:64 | the lists call returns the service's lists |
| Remote.Service.ListTasks | gsync/__main__.py:93-96 | the tasks call returns all of the list's tasks, completed ones included, in list order |
| Remote.Service.InsertTaskList | gsync/__main__.py:72 | the insert creates one list with the fresh id and the name, and logs it |
| Remote.Service.InsertTask | gsync/__main__.py:158-165 | the insert appends one task with the fresh id, title, status and parent to the list, and logs it |
| Remote.Service.UpdateTask | gsync/__main__.py:152-154 | the update replaces the task with that id in the list, and logs it |
| Remote.Service.GetTasklistId | gsync/__main__.py:63-74 | `get_tasklist_id`: the id is the lookup-or-create result; the service changes by exactly its writes |
| Remote.ReadGoogleTasks | gsync/__main__.py:88-103 | returns the list's tasks under the parent, in list order, and their title → completed map |
| WritePlan.MarkCompleted | gsync/__main__.py:151 | the sent task is completed and keeps its id, title and parent |
| WritePlan.UpdateGoogleTasks | gsync/__main__.py:136-174 | the method sends exactly the planned writes in order and returns the planned KeyError |
| WritePlan.PopFetched | gsync/__main__.py:146-154 | the update loop pops each fetched title and sends the planned updates; it stops at the first missing title |
| WritePlan.InsertRemaining | gsync/__main__.py:156-174 | the insert loop sends one insert per remaining title, in map order, with its status and the parent |
| WritePlan.UpdatePhaseOk | gsync/__main__.py:146-148 | the loop raises no KeyError iff every fetched title is in the map and no two fetched tasks share a key; what is left is then the map without the fetched titles |
| WritePlan.UpdatePhaseFails | gsync/__main__.py:148 | a KeyError names the key of a fetched task that is not in the map or whose key an earlier task already popped |
| WritePlan.UpdatePhaseRaises | gsync/__main__.py:148 | a title missing at the i-th pop is the KeyError the whole loop ends with, with the writes up to that point |
| WritePlan.UpdatePhaseStops | gsync/__main__.py:146-154 | once the KeyError is raised, later fetched tasks change nothing |
| WritePlan.UpdatesComplete | gsync/__main__.py:150-154 | every update sent marks a fetched task that was not completed as completed; none reopens a task |
| WritePlan.UpdatesExactly | gsync/__main__.py:146-154 | without a KeyError, a fetched task is updated iff its merged value is true and it is not completed |
| WritePlan.UpdatePhaseWrites | gsync/__main__.py:146-154 | without a KeyError, the updates are the fetched tasks filtered by that condition, in fetched order |
| WritePlan.UpdatesAt | gsync/__main__.py:150 | for fetched tasks with distinct keys, the filtered updates hold a task's update iff its merged value is true and it is open |
| WritePlan.GooglePlanInserts | gsync/__main__.py:156-174 | the inserts are for exactly the merged titles no fetched task carries, once each, in merged order |
| WritePlan.InsertWritesAt | gsync/__main__.py:157-174 | the i-th insert carries the i-th remaining title, its status and the parent |
| WritePlan.PromotedAt | gsync/__main__.py:150 | the ids updated are those of the fetched tasks whose merged value is true and that are open |
| WritePlan.ApplyUpdates | gsync/__main__.py:150-154 | sending the updates marks exactly those tasks completed in the list and touches no other list |
| WritePlan.ApplyInserts | gsync/__main__.py:156-174 | sending the inserts appends the new tasks, with fresh ids in order, to the list and touches no other list |
| Sync.FindTask | gsync/__main__.py:202-205 | the lookup stops at the first task with the stem as title, or reports that none has it |
| Sync.ResolveParentCreates | gsync/__main__.py:202-212 | the day's task is inserted iff no top-level task of the list has the stem as title; otherwise the id is that of such a task |
| Sync.ResolveParentAgain | gsync/__main__.py:202-212 | a second lookup of the day's task finds the same id and inserts nothing |
| Sync.GetParentId | gsync/__main__.py:200-212 | the method returns the lookup-or-insert id and changes the service by exactly its writes |
| Sync.ExampleLocal | gsync/__main__.py:77-85 | the file `- [ ] A`, `- [x] B` reads as A open, then B completed |
| Sync.ExampleRemote | gsync/__main__.py:88-103 | a list holding B open and C completed reads as B open, then C completed |
| Sync.ExampleMerge | gsync/__main__.py:106-113 | merging those gives A open, B completed, C completed, in that order |
| Sync.ExampleFile | gsync/__main__.py:117-133 | writing that merge back keeps both lines and appends `- [x] C` |
| Sync.ExamplePlan | gsync/__main__.py:136-174 | the writes for that merge are: B set completed, then A inserted open; C is left alone |
| Sync.ExampleExchange | gsync/__main__.py:177-187 | one whole pass on that file and list gives that file, that merge and those two writes, with no KeyError |
| Sync.SyncTasks | gsync/__main__.py:177-187 | `sync_tasks`: the file written, the KeyError, and every write sent, in order, are those of one ordinary pass |
| Sync.SyncDailyTasks | gsync/__main__.py:190-224 | `sync_daily_tasks`: the same for one daily pass under the day's task |
| Sync.CreateDailyFiles | gsync/__main__.py:253-261 | the loop of `main` leaves the daily directory as the daily-files function of the top-level "Daily" tasks gives it |
| Sync.DailyFilesAt | gsync/__main__.py:253-261 | afterwards a file exists iff it existed or some day's task names it; existing files keep their lines; the new ones are empty |
| Sync.DailyFilesPresent | gsync/__main__.py:259-261 | when every day's file exists, nothing is created |
| Sync.DailyFilesAgain | gsync/__main__.py:253-261 | making the daily files a second time changes nothing |
| Converge.LocalRoundTrip | gsync/__main__.py:178-186 | reading the file written from the merge gives back the merge whole, in written form |
| Converge.RemoteNoDowngrade | gsync/__main__.py:98-112 | when fetched titles are distinct, a completed remote task makes its title completed in the merge |
| Converge.NoUpdates | gsync/__main__.py:146-154 | when no fetched task is open where the map says completed, no update is sent |
| Converge.ExchangeStore | gsync/__main__.py:136-174 | after a pass without KeyError, the list is the old one with the promoted tasks marked, followed by one new task per new title; other lists are unchanged |
| Converge.ExchangeOtherScope | gsync/__main__.py:97-174 | a pass under one parent leaves the tasks under any other parent, and the lists, unchanged |
| Converge.ExchangeSettles | gsync/__main__.py:136-174 | after a pass without KeyError, the tasks in scope agree with the merged map, and every merged title is among them |
| Converge.SettledAbsorbs | gsync/__main__.py:106-113 | tasks agreeing with a map merge into it without change |
| Converge.SettledPlan | gsync/__main__.py:136-174 | against tasks agreeing with the map and covering it, the update function sends nothing and raises nothing |
| Converge.SettledExchange | gsync/__main__.py:177-187 | a file in written form whose map agrees with the tasks in scope, and is covered by them, is synced without any change or write |
| Converge.ExchangeAgain | gsync/__main__.py:177-224 | the second of two passes in a row changes neither the file nor the merged map and sends no write |
| Converge.ResolveListSame | gsync/__main__.py:63-74 | a list found without creating is found again in any store with the same lists |
| Converge.ResolveParentSame | gsync/__main__.py:202-212 | a day's task found without inserting is found again while the top-level tasks stay the same |
| Converge.SyncPassAgain | gsync/__main__.py:177-187 | `sync_tasks` run twice in a row: the second run writes the same file, keeps the same merged map and sends no write |
| Converge.DailyLookups | gsync/__main__.py:196-212 | after the lookups of a daily pass, looking up "Daily" and the day's task again creates nothing |
| Converge.DailyPassStore | gsync/__main__.py:190-224 | a daily pass is its two lookups followed by an ordinary pass under the day's task |
| Converge.DailyPassAgain | gsync/__main__.py:190-224 | `sync_daily_tasks` run twice in a row: the second run writes the same file, keeps the same merged map and sends no write |

## Left out

- Authentication (`authenticate_google_tasks`, lines 37-60) and the HTTP transport are left out. The service is a store value held by the `Service` class. A failing or rejected call is not modelled.
- Remote.Service.ListTasks: it returns every task of the list. The real call returns one page of results, and the source never follows a next-page token. The model does not capture that tasks beyond the first page are unseen, nor hidden or deleted tasks.
- Configuration, the directory scans and the `.md` suffix filter (lines 228-249 and 263-270) are left out; they are file-system and YAML I/O. The file name enters the model as its stem; the daily directory is a map from file name to lines.
- Logging (lines 16-25) is left out.
- Real file I/O is left out. A file is its sequence of lines, and `update_local_tasks` returns the new lines instead of writing them.
- Checklist.RoundTrip: it requires a well-formed file (every line ends in exactly one `"\n"` and holds no other line end), distinct checklist titles, every checklist title of the file present in the map, and clean map titles (stripped, no `"\n"` or `"\r"`). For a last line without a newline, for duplicate titles, for a file title missing from the map, or for titles with edge whitespace or a line end inside, the parse and write-back are modelled but the round trip is not claimed. A title holding a `"\r"` would be written as one line and read back as two.
- Converge.ExchangeAgain: it requires that no KeyError was raised, a well-formed file with distinct titles, and clean remote titles in scope (stripped, no `"\n"` or `"\r"`). These are the conditions under which the rewritten file reads back as the merge.
- Converge.SyncPassAgain: it holds under the same conditions, for every list of the store (`CleanStore`).
- Converge.DailyPassAgain: it holds under the same conditions as SyncPassAgain.
- Remote.Service.InsertTask: new tasks are appended at the end of the list's order. The service's real placement of inserted tasks (position, ordering by the server) is left out.
- Task ids are modelled as natural numbers handed out by the store. The `""` default of `task.get("id", "")` never arises, and an id is assumed never to be missing.
- A list id absent from the store reads as an empty list, and an update to it changes nothing. The real service would reject the call.
- WritePlan.PopFetched: it returns the map left after popping from the caller's `task_dict`. The source changes the caller's dict in place, but no caller reads that dict afterwards.
- The fetched task changed in place by `google_task["status"] = "completed"` (line 151) is sent as a fresh value. No caller reads the fetched list afterwards.
- A KeyError ends the process in the source. The model returns it as the failing title, with the writes sent before it. Whatever the main loop would have done next is left out.
- The existence check and creation of daily files (lines 257-261) are map membership and insertion. Path joining and file-system errors are left out.
