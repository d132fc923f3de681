/**
 * `sync_tasks` and `sync_daily_tasks`: one markdown file against one list, or against the
 * subtasks of one day's task in the "Daily" list. Also the loop of `main` that makes an empty
 * daily file for every day's task that has none.
 */
module Sync {
  import opened Wrappers
  import opened OrderedDict
  import opened Checklist
  import opened Merge
  import opened Remote
  import opened WritePlan

  /** The list holding one top-level task per day, with that day's tasks as its subtasks. */
  const DailyList: string := "Daily"

  /**
   * What one sync of a file leaves behind: the rewritten file, the merged map, every write
   * sent in order, and the title of the KeyError that ended it, if any.
   */
  datatype Outcome = Outcome(lines: seq<string>, merged: Dict, writes: seq<Write>, failed: Option<string>)

  /**
   * The common part of both syncs: read the file and the tasks of list `listId` under
   * `parent`, merge, rewrite the file, then send the plan for the service.
   */
  function Exchange(s: Store, lines: seq<string>, listId: nat, parent: Option<nat>): (o: Outcome)
    ensures Valid(o.merged)
  {
    var fetched := InScope(Tasks(s, listId), parent);
    var merged := Merged(Parse(lines), RemoteDict(fetched));
    var plan := GooglePlan(listId, fetched, merged, parent);
    Outcome(WriteBack(lines, merged), merged, plan.writes, plan.failed)
  }

  /** `sync_tasks`: the file `stem.md` against the top-level tasks of the list named `stem`. */
  function SyncPass(s: Store, lines: seq<string>, stem: string): Outcome
  {
    var r := ResolveList(s, stem);
    var o := Exchange(ApplyAll(s, r.writes), lines, r.id, None);
    o.(writes := r.writes + o.writes)
  }

  /** `next((t for t in tasks if t.get("title") == title), None)`, as the index it stops at. */
  function FindTask(ts: seq<Task>, title: string): (r: Option<nat>)
    ensures r.Some? ==> r.value < |ts| && ts[r.value].title == Some(title)
    ensures r.Some? ==> forall j :: 0 <= j < r.value ==> ts[j].title != Some(title)
    ensures r.None? ==> forall j :: 0 <= j < |ts| ==> ts[j].title != Some(title)
  {
    if ts == [] then None
    else if ts[0].title == Some(title) then Some(0)
    else
      match FindTask(ts[1..], title)
      case None => None
      case Some(i) => Some(i + 1)
  }

  /**
   * The day's task: the first top-level task of the list titled `stem`, or a task inserted
   * at the top level with only that title.
   */
  function ResolveParent(s: Store, listId: nat, stem: string): Resolved
  {
    var top := InScope(Tasks(s, listId), None);
    match FindTask(top, stem)
    case Some(i) => Resolved(top[i].id, [])
    case None => Resolved(s.nextId, [CreateTask(listId, stem, None, None)])
  }

  /** `sync_daily_tasks`: the file `stem.md` against the subtasks of the day's task `stem`. */
  function DailyPass(s: Store, lines: seq<string>, stem: string): Outcome
  {
    var r := ResolveList(s, DailyList);
    var s1 := ApplyAll(s, r.writes);
    var q := ResolveParent(s1, r.id, stem);
    var o := Exchange(ApplyAll(s1, q.writes), lines, r.id, Some(q.id));
    o.(writes := r.writes + q.writes + o.writes)
  }

  /**
   * A day's task is inserted only when no top-level task has the title; otherwise the
   * first one with the title is used.
   */
  lemma ResolveParentCreates(s: Store, listId: nat, stem: string)
    ensures ResolveParent(s, listId, stem).writes == [] <==>
      exists t :: t in Tasks(s, listId) && t.parent == None && t.title == Some(stem)
    ensures ResolveParent(s, listId, stem).writes != [] ==>
      && ResolveParent(s, listId, stem).writes == [CreateTask(listId, stem, None, None)]
      && ResolveParent(s, listId, stem).id == s.nextId
    ensures ResolveParent(s, listId, stem).writes == [] ==>
      exists t :: t in Tasks(s, listId) && t.parent == None && t.title == Some(stem) &&
        t.id == ResolveParent(s, listId, stem).id
  {
    var top := InScope(Tasks(s, listId), None);
    match FindTask(top, stem)
    case Some(i) =>
      InScopeMember(Tasks(s, listId), None, top[i]);
    case None =>
      forall t | t in Tasks(s, listId) && t.parent == None
        ensures t.title != Some(stem)
      {
        InScopeMember(Tasks(s, listId), None, t);
      }
  }

  /** Looking the day's task up again finds the same task and inserts nothing. */
  lemma ResolveParentAgain(s: Store, listId: nat, stem: string)
    ensures ResolveParent(ApplyAll(s, ResolveParent(s, listId, stem).writes), listId, stem) ==
      Resolved(ResolveParent(s, listId, stem).id, [])
  {
    var q := ResolveParent(s, listId, stem);
    if q.writes != [] {
      var w := CreateTask(listId, stem, None, None);
      var s' := ApplyAll(s, q.writes);
      ApplyAllOne(s, w);
      var c := Created(s, w);
      var top := InScope(Tasks(s, listId), None);
      assert Tasks(s', listId) == Tasks(s, listId) + [c];
      InScopeAppend(Tasks(s, listId), [c], None);
      assert InScope([c], None) == [c];
      var top' := InScope(Tasks(s', listId), None);
      assert top' == top + [c];
      assert top'[|top|].title == Some(stem);
    }
  }

  // ---------------------------------------------------------------- the two syncs

  /** `sync_tasks(service, stem.md)`: returns the rewritten file and the KeyError, if any. */
  method SyncTasks(service: Service, lines: seq<string>, stem: string)
    returns (out: seq<string>, failed: Option<string>)
    modifies service
    ensures out == SyncPass(old(service.Contents()), lines, stem).lines
    ensures failed == SyncPass(old(service.Contents()), lines, stem).failed
    ensures service.Contents() ==
      ApplyAll(old(service.Contents()), SyncPass(old(service.Contents()), lines, stem).writes)
    ensures service.log == old(service.log) + SyncPass(old(service.Contents()), lines, stem).writes
  {
    ghost var s0 := service.Contents();
    ghost var r := ResolveList(s0, stem);
    var localTaskDict := ReadLocalTasks(lines);
    var tasklistId := service.GetTasklistId(stem);
    ghost var s1 := service.Contents();
    var googleTasks, googleTaskDict := ReadGoogleTasks(service, tasklistId, None);
    var mergedTaskDict := MergeTaskDicts(localTaskDict, googleTaskDict);
    out := UpdateLocalTasks(lines, mergedTaskDict);
    failed := UpdateGoogleTasks(service, tasklistId, googleTasks, mergedTaskDict, None);
    ghost var plan := GooglePlan(tasklistId, googleTasks, mergedTaskDict, None);
    ApplyAllAppend(s0, r.writes, plan.writes);
    LogAppend(old(service.log), r.writes, plan.writes);
  }

  /** The lookup-or-insert of the day's task in `sync_daily_tasks`. */
  method GetParentId(service: Service, listId: nat, stem: string) returns (id: nat)
    modifies service
    ensures id == ResolveParent(old(service.Contents()), listId, stem).id
    ensures service.Contents() ==
      ApplyAll(old(service.Contents()), ResolveParent(old(service.Contents()), listId, stem).writes)
    ensures service.log == old(service.log) + ResolveParent(old(service.Contents()), listId, stem).writes
  {
    var googleTasks, _ := ReadGoogleTasks(service, listId, None);
    var found := FindTask(googleTasks, stem);
    if found.None? {
      var task := service.InsertTask(listId, stem, None, None);
      id := task.id;
      assert [CreateTask(listId, stem, None, None)][..0] == [];
    } else {
      id := googleTasks[found.value].id;
    }
  }

  /** `sync_daily_tasks(service, stem.md)`: returns the rewritten file and the KeyError, if any. */
  method SyncDailyTasks(service: Service, lines: seq<string>, stem: string)
    returns (out: seq<string>, failed: Option<string>)
    modifies service
    ensures out == DailyPass(old(service.Contents()), lines, stem).lines
    ensures failed == DailyPass(old(service.Contents()), lines, stem).failed
    ensures service.Contents() ==
      ApplyAll(old(service.Contents()), DailyPass(old(service.Contents()), lines, stem).writes)
    ensures service.log == old(service.log) + DailyPass(old(service.Contents()), lines, stem).writes
  {
    ghost var s0 := service.Contents();
    ghost var r := ResolveList(s0, DailyList);
    var localTaskDict := ReadLocalTasks(lines);
    var tasklistId := service.GetTasklistId(DailyList);
    ghost var q := ResolveParent(service.Contents(), tasklistId, stem);
    var taskId := GetParentId(service, tasklistId, stem);
    var googleSubtasks, googleTaskDict := ReadGoogleTasks(service, tasklistId, Some(taskId));
    var mergedTaskDict := MergeTaskDicts(localTaskDict, googleTaskDict);
    out := UpdateLocalTasks(lines, mergedTaskDict);
    failed := UpdateGoogleTasks(service, tasklistId, googleSubtasks, mergedTaskDict, Some(taskId));
    ghost var plan := GooglePlan(tasklistId, googleSubtasks, mergedTaskDict, Some(taskId));
    ApplyAllAppend(s0, r.writes, q.writes);
    ApplyAllAppend(s0, r.writes + q.writes, plan.writes);
    LogAppend(old(service.log), r.writes, q.writes);
    LogAppend(old(service.log), r.writes + q.writes, plan.writes);
  }

  // ---------------------------------------------------------------- the daily files

  /** The daily file of a day's task: its title (or "") with ".md" appended. */
  function DailyFileName(t: Task): string
  {
    Key(t) + ".md"
  }

  /**
   * The daily directory, from file name to lines, after an empty file has been made for
   * each of `days` whose file does not exist yet.
   */
  function DailyFiles(files: map<string, seq<string>>, days: seq<Task>): map<string, seq<string>>
  {
    if days == [] then files
    else
      var dir := DailyFiles(files, days[..|days| - 1]);
      var name := DailyFileName(days[|days| - 1]);
      if name in dir then dir else dir[name := []]
  }

  /**
   * The loop of `main` over the top-level tasks of "Daily". It looks the list up (creating
   * it if need be) and returns the daily directory after it.
   */
  method CreateDailyFiles(service: Service, files: map<string, seq<string>>)
    returns (dir: map<string, seq<string>>)
    modifies service
    ensures service.Contents() ==
      ApplyAll(old(service.Contents()), ResolveList(old(service.Contents()), DailyList).writes)
    ensures service.log == old(service.log) + ResolveList(old(service.Contents()), DailyList).writes
    ensures dir == DailyFiles(files,
      InScope(Tasks(service.Contents(), ResolveList(old(service.Contents()), DailyList).id), None))
  {
    var tasklistId := service.GetTasklistId(DailyList);
    var days, _ := ReadGoogleTasks(service, tasklistId, None);
    dir := files;
    for i := 0 to |days|
      invariant dir == DailyFiles(files, days[..i])
    {
      var name := DailyFileName(days[i]);
      if name !in dir {
        dir := dir[name := []];
      }
      assert days[..i + 1][..i] == days[..i];
    }
    assert days[..|days|] == days;
  }

  /**
   * Every day's task has its file afterwards, existing files keep their contents, and the
   * files made are empty: no other file appears.
   */
  lemma {:induction false} DailyFilesAt(files: map<string, seq<string>>, days: seq<Task>, name: string)
    ensures name in DailyFiles(files, days) <==>
      name in files || exists i :: 0 <= i < |days| && DailyFileName(days[i]) == name
    ensures name in files ==> DailyFiles(files, days)[name] == files[name]
    ensures name !in files && name in DailyFiles(files, days) ==> DailyFiles(files, days)[name] == []
  {
    if days != [] {
      var n := |days| - 1;
      var p := days[..n];
      DailyFilesAt(files, p, name);
      if exists i :: 0 <= i < |p| && DailyFileName(p[i]) == name {
        var i :| 0 <= i < |p| && DailyFileName(p[i]) == name;
        assert days[i] == p[i];
      }
      if exists i :: 0 <= i < |days| && DailyFileName(days[i]) == name {
        var i :| 0 <= i < |days| && DailyFileName(days[i]) == name;
        if i < n {
          assert days[i] == p[i];
        }
      }
    }
  }

  /** A directory that already has every day's file is left as it is. */
  lemma {:induction false} DailyFilesPresent(files: map<string, seq<string>>, days: seq<Task>)
    requires forall i :: 0 <= i < |days| ==> DailyFileName(days[i]) in files
    ensures DailyFiles(files, days) == files
  {
    if days != [] {
      DailyFilesPresent(files, days[..|days| - 1]);
    }
  }

  /** Making the daily files a second time changes nothing. */
  lemma DailyFilesAgain(files: map<string, seq<string>>, days: seq<Task>)
    ensures DailyFiles(DailyFiles(files, days), days) == DailyFiles(files, days)
  {
    forall i | 0 <= i < |days|
      ensures DailyFileName(days[i]) in DailyFiles(files, days)
    {
      DailyFilesAt(files, days, DailyFileName(days[i]));
    }
    DailyFilesPresent(DailyFiles(files, days), days);
  }

  // ---------------------------------------------------------------- a worked example

  /** The file `- [ ] A`, `- [x] B` reads as A open, then B completed. */
  lemma ExampleLocal(la: string, lb: string)
    requires Parse([la]) == Dict(["A"], map["A" := false])
    requires IsTaskLine(lb) && TitleOf(lb) == "B" && DoneOf(lb)
    ensures Parse([la, lb]) == Dict(["A", "B"], map["A" := false, "B" := true])
  {
    assert [la, lb][..1] == [la];
    assert Parse([la, lb]) == ParseLine(Parse([la]), lb);
    assert ParseLine(Parse([la]), lb) == Put(Parse([la]), "B", true);
  }

  /** The first line alone reads as A open. */
  lemma ExampleLocalFirst(la: string)
    requires la == Render("A", false)
    ensures Parse([la]) == Dict(["A"], map["A" := false])
  {
    RenderReads("A", false);
    assert [la][..0] == [];
    assert ParseOnto(Empty(), [la]) == ParseLine(Empty(), la);
    assert ParseLine(Empty(), la) == Put(Empty(), "A", false);
    assert Empty().keys + ["A"] == ["A"];
  }

  /** The list holding B open and C completed reads as B open, then C completed. */
  lemma ExampleRemote()
    ensures var ts := [Task(2, Some("B"), Some(NeedsAction), None), Task(3, Some("C"), Some(Completed), None)];
      && InScope(ts, None) == ts
      && RemoteDict(ts) == Dict(["B", "C"], map["B" := false, "C" := true])
  {
    var b := Task(2, Some("B"), Some(NeedsAction), None);
    var ts := [b, Task(3, Some("C"), Some(Completed), None)];
    assert ts[..1] == [b] && [b][..0] == [];
    assert RemoteDict([b]) == Dict(["B"], map["B" := false]);
  }

  /** The merge of the example: A open, B and C completed, in that order. */
  lemma ExampleMerge()
    ensures Merged(Dict(["A", "B"], map["A" := false, "B" := true]), Dict(["B", "C"], map["B" := false, "C" := true])) ==
      Dict(["A", "B", "C"], map["A" := false, "B" := true, "C" := true])
  {
    var local := Dict(["A", "B"], map["A" := false, "B" := true]);
    var rv := map["B" := false, "C" := true];
    assert ["B", "C"][..1] == ["B"] && ["B"][..0] == [];
    assert MergeOnto(local, ["B"], rv) == local;
  }

  /** The written file keeps both lines and gains `- [x] C`. */
  lemma ExampleFile(la: string, lb: string, m: Dict)
    requires la == Render("A", false) && lb == Render("B", true)
    requires m == Dict(["A", "B", "C"], map["A" := false, "B" := true, "C" := true])
    ensures WriteBack([la, lb], m) == [la, lb, Render("C", true)]
  {
    ExampleTitles(la, lb);
    ExampleMarks(m);
    ExampleOut(la, lb, m);
    ExampleRest(la, lb, m);
    ExampleRenderRest();
  }

  /** The merged map marks A open and B completed. */
  lemma ExampleMarks(m: Dict)
    requires m == Dict(["A", "B", "C"], map["A" := false, "B" := true, "C" := true])
    ensures Valid(m)
    ensures "A" in m.vals && !m.vals["A"] && "B" in m.vals && m.vals["B"]
  {
  }

  /** What the second loop has left to append: C alone. */
  lemma ExampleRest(la: string, lb: string, m: Dict)
    requires TaskTitles([la, lb]) == {"A", "B"}
    requires m == Dict(["A", "B", "C"], map["A" := false, "B" := true, "C" := true])
    ensures Stream([la, lb], m).rest == Dict(["C"], map["C" := true])
  {
    StreamRest([la, lb], m);
    ExampleWithoutAB(m);
  }

  /** The second loop appends one line for C. */
  lemma ExampleRenderRest()
    ensures RenderKeys(["C"], map["C" := true]) == [Render("C", true)]
  {
    assert ["C"][..0] == [];
  }

  /** The titles of the example file, line by line. */
  lemma ExampleTitles(la: string, lb: string)
    requires la == Render("A", false) && lb == Render("B", true)
    ensures IsTaskLine(la) && TitleOf(la) == "A" && !DoneOf(la)
    ensures IsTaskLine(lb) && TitleOf(lb) == "B" && DoneOf(lb)
    ensures TaskTitles([la, lb][..0]) == {} && TaskTitles([la, lb][..1]) == {"A"}
    ensures TaskTitles([la, lb]) == {"A", "B"}
  {
    RenderReads("A", false);
    RenderReads("B", true);
    assert [la, lb][..1] == [la] && [la][..0] == [];
    TaskTitlesSnoc([la]);
    TaskTitlesSnoc([la, lb]);
  }

  /** The first loop copies both example lines: each already carries the merged mark. */
  lemma ExampleOut(la: string, lb: string, m: Dict)
    requires Valid(m)
    requires IsTaskLine(la) && TitleOf(la) in m.vals && la == Render(TitleOf(la), m.vals[TitleOf(la)])
    requires IsTaskLine(lb) && TitleOf(lb) in m.vals && lb == Render(TitleOf(lb), m.vals[TitleOf(lb)])
    requires TaskTitles([la, lb][..0]) == {} && TitleOf(lb) !in TaskTitles([la, lb][..1])
    ensures Stream([la, lb], m).out == [la, lb]
  {
    StreamOut([la, lb], m);
    assert Rewritten([la, lb], m, 0) == la;
    assert Rewritten([la, lb], m, 1) == lb;
  }

  lemma ExampleWithoutAB(m: Dict)
    requires m == Dict(["A", "B", "C"], map["A" := false, "B" := true, "C" := true])
    ensures Without(m, {"A", "B"}) == Dict(["C"], map["C" := true])
  {
    assert Minus(["A", "B", "C"], {"A", "B"}) == ["C"] by {
      assert ["A", "B", "C"][..2] == ["A", "B"] && ["A", "B"][..1] == ["A"] && ["A"][..0] == [];
    }
    assert m.vals - {"A", "B"} == map["C" := true];
  }

  lemma ExampleRemoveFromAll(m: Dict)
    requires m == Dict(["A", "B", "C"], map["A" := false, "B" := true, "C" := true])
    ensures Remove(m, "B") == Dict(["A", "C"], map["A" := false, "C" := true])
  {
    assert Minus(["A", "B", "C"], {"B"}) == ["A", "C"] by {
      assert ["A", "B", "C"][..2] == ["A", "B"] && ["A", "B"][..1] == ["A"] && ["A"][..0] == [];
    }
    assert m.vals - {"B"} == map["A" := false, "C" := true];
  }

  lemma ExampleRemoveC(r: Dict)
    requires r == Dict(["A", "C"], map["A" := false, "C" := true])
    ensures Remove(r, "C") == Dict(["A"], map["A" := false])
  {
    assert Minus(["A", "C"], {"C"}) == ["A"] by {
      assert ["A", "C"][..1] == ["A"] && ["A"][..0] == [];
    }
    assert r.vals - {"C"} == map["A" := false];
  }

  /** B is updated to completed, C is left alone, and A is inserted open. */
  lemma ExamplePlan()
    ensures GooglePlan(1, [Task(2, Some("B"), Some(NeedsAction), None), Task(3, Some("C"), Some(Completed), None)],
                       Dict(["A", "B", "C"], map["A" := false, "B" := true, "C" := true]), None) ==
      Plan([SetTask(1, Task(2, Some("B"), Some(Completed), None)), CreateTask(1, "A", Some(NeedsAction), None)], None)
  {
    var b := Task(2, Some("B"), Some(NeedsAction), None);
    var c := Task(3, Some("C"), Some(Completed), None);
    var m := Dict(["A", "B", "C"], map["A" := false, "B" := true, "C" := true]);
    ExampleUpdates(b, c, m);
    assert InsertWrites(1, ["A"], map["A" := false], None) == [CreateTask(1, "A", Some(NeedsAction), None)];
  }

  /** The update loop of the example: B is marked completed, and only A is left. */
  lemma ExampleUpdates(b: Task, c: Task, m: Dict)
    requires b == Task(2, Some("B"), Some(NeedsAction), None) && c == Task(3, Some("C"), Some(Completed), None)
    requires m == Dict(["A", "B", "C"], map["A" := false, "B" := true, "C" := true])
    ensures UpdatePhase(1, [b, c], m) ==
      Progress([SetTask(1, Task(2, Some("B"), Some(Completed), None))], Dict(["A"], map["A" := false]), None)
  {
    var r1 := Dict(["A", "C"], map["A" := false, "C" := true]);
    ExampleUpdateB(b, m, r1);
    assert [b, c][..1] == [b];
    assert UpdatePhase(1, [b, c], m) == PopStep(1, UpdatePhase(1, [b], m), c);
    ExampleRemoveC(r1);
  }

  lemma ExampleUpdateB(b: Task, m: Dict, r1: Dict)
    requires b == Task(2, Some("B"), Some(NeedsAction), None)
    requires m == Dict(["A", "B", "C"], map["A" := false, "B" := true, "C" := true])
    requires r1 == Dict(["A", "C"], map["A" := false, "C" := true])
    ensures UpdatePhase(1, [b], m) == Progress([SetTask(1, Task(2, Some("B"), Some(Completed), None))], r1, None)
  {
    assert [b][..0] == [];
    assert UpdatePhase(1, [b], m) == PopStep(1, Progress([], m, None), b);
    assert !IsCompleted(b);
    ExampleRemoveFromAll(m);
  }

  /**
   * The file `- [ ] A`, `- [x] B` against a list holding B open and C completed: the merge
   * is A open, B and C completed. The file gains `- [x] C`. B is updated to completed, A is
   * inserted open, and C, already completed, is left alone.
   */
  lemma ExampleExchange()
    ensures var s := Store([TaskList(1, Some("Todo"))],
                           map[1 := [Task(2, Some("B"), Some(NeedsAction), None),
                                     Task(3, Some("C"), Some(Completed), None)]], 4);
      Exchange(s, ["- [ ] A\n", "- [x] B\n"], 1, None) ==
        Outcome(["- [ ] A\n", "- [x] B\n", "- [x] C\n"],
                Dict(["A", "B", "C"], map["A" := false, "B" := true, "C" := true]),
                [SetTask(1, Task(2, Some("B"), Some(Completed), None)),
                 CreateTask(1, "A", Some(NeedsAction), None)],
                None)
  {
    ExampleRenders();
    ExampleLocalFirst(Render("A", false));
    RenderReads("B", true);
    ExampleLocal(Render("A", false), Render("B", true));
    ExampleRemote();
    ExampleMerge();
    ExampleFile(Render("A", false), Render("B", true), Dict(["A", "B", "C"], map["A" := false, "B" := true, "C" := true]));
    ExamplePlan();
  }

  /** The three lines of the example, as `Render` spells them. */
  lemma ExampleRenders()
    ensures Render("A", false) == "- [ ] A\n"
    ensures Render("B", true) == "- [x] B\n"
    ensures Render("C", true) == "- [x] C\n"
  {
  }
}
