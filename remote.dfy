/**
 * The remote side as the sync sees it: task lists and their tasks kept by the Google Tasks
 * service, the writes the sync sends it, the reads `read_google_tasks` makes of it and the
 * lookup-or-create of `get_tasklist_id`.
 */
module Remote {
  import opened Wrappers
  import opened OrderedDict

  /** The status string of a finished task; any other status, or none, is an open task. */
  const Completed: string := "completed"
  /** The status string the sync gives a task it inserts open. */
  const NeedsAction: string := "needsAction"

  /** A task resource: its id, the optional `title`, `status` and `parent` fields. */
  datatype Task = Task(id: nat, title: Option<string>, status: Option<string>, parent: Option<nat>)

  /** A task list resource. */
  datatype TaskList = TaskList(id: nat, title: Option<string>)

  /** `task.get("status") == "completed"` */
  predicate IsCompleted(t: Task)
  {
    t.status == Some(Completed)
  }

  /** `task.get("title", "")`: the key a task is looked up by in the merged map. */
  function Key(t: Task): string
  {
    t.title.GetOr("")
  }

  /** The status the sync writes for a merged value. */
  function StatusOf(done: bool): (r: string)
    ensures r == Completed <==> done
  {
    if done then Completed else NeedsAction
  }

  /** The writes the sync can send: `tasklists().insert`, `tasks().insert`, `tasks().update`. */
  datatype Write =
    | CreateList(name: string)
    | CreateTask(listId: nat, title: string, status: Option<string>, parent: Option<nat>)
    | SetTask(listId: nat, task: Task)

  /** What the service holds: the task lists in order, each list's tasks, and the next fresh id. */
  datatype Store = Store(lists: seq<TaskList>, tasks: map<nat, seq<Task>>, nextId: nat)

  /** `tasks().list(tasklist=id, showCompleted=True)`: all tasks of a list, in list order. */
  function Tasks(s: Store, listId: nat): seq<Task>
  {
    if listId in s.tasks then s.tasks[listId] else []
  }

  /** `ts` with the task carrying `t`'s id replaced by `t`. */
  function Replace(ts: seq<Task>, t: Task): seq<Task>
  {
    seq(|ts|, i requires 0 <= i < |ts| => if ts[i].id == t.id then t else ts[i])
  }

  /** The task an insert creates: a fresh id, and "needsAction" when no status was sent. */
  function Created(s: Store, w: Write): Task
    requires w.CreateTask?
  {
    Task(s.nextId, Some(w.title), Some(w.status.GetOr(NeedsAction)), w.parent)
  }

  /** The service after one write. */
  function Apply(s: Store, w: Write): Store
  {
    match w
    case CreateList(name) =>
      s.(lists := s.lists + [TaskList(s.nextId, Some(name))], nextId := s.nextId + 1)
    case CreateTask(listId, _, _, _) =>
      s.(tasks := s.tasks[listId := Tasks(s, listId) + [Created(s, w)]], nextId := s.nextId + 1)
    case SetTask(listId, t) =>
      if listId in s.tasks then s.(tasks := s.tasks[listId := Replace(s.tasks[listId], t)]) else s
  }

  /** The service after a sequence of writes, in order. */
  function ApplyAll(s: Store, ws: seq<Write>): Store
  {
    if ws == [] then s else Apply(ApplyAll(s, ws[..|ws| - 1]), ws[|ws| - 1])
  }

  lemma {:induction false} ApplyAllAppend(s: Store, a: seq<Write>, b: seq<Write>)
    ensures ApplyAll(s, a + b) == ApplyAll(ApplyAll(s, a), b)
    decreases |b|
  {
    if b == [] {
      assert a + b == a;
    } else {
      assert (a + b)[..|a + b| - 1] == a + b[..|b| - 1];
      ApplyAllAppend(s, a, b[..|b| - 1]);
    }
  }

  lemma ApplyAllSnoc(s: Store, ws: seq<Write>, w: Write)
    ensures ApplyAll(s, ws + [w]) == Apply(ApplyAll(s, ws), w)
  {
    assert (ws + [w])[..|ws|] == ws;
  }

  /** Appending one write to a log that already extends `a` by `b`. */
  lemma LogSnoc(a: seq<Write>, b: seq<Write>, w: Write)
    ensures (a + b) + [w] == a + (b + [w])
  {
  }

  lemma LogAppend(a: seq<Write>, b: seq<Write>, c: seq<Write>)
    ensures (a + b) + c == a + (b + c)
  {
  }

  lemma ApplyAllOne(s: Store, w: Write)
    ensures ApplyAll(s, [w]) == Apply(s, w)
  {
    assert [w][..0] == [];
  }

  ghost predicate DistinctIds(ts: seq<Task>)
  {
    forall i, j :: 0 <= i < j < |ts| ==> ts[i].id != ts[j].id
  }

  ghost predicate IdsBelow(ts: seq<Task>, n: nat)
  {
    forall i :: 0 <= i < |ts| ==> ts[i].id < n
  }

  /**
   * The service hands out ids that are fresh: every id in use is below `nextId`, and no two
   * tasks of a list share an id, so an update by id reaches exactly one task.
   */
  ghost predicate ValidStore(s: Store)
  {
    && (forall i :: 0 <= i < |s.lists| ==> s.lists[i].id < s.nextId)
    && (forall l :: l in s.tasks ==> DistinctIds(s.tasks[l]) && IdsBelow(s.tasks[l], s.nextId))
  }

  /** An update keeps the ids of a list, so distinct ids stay distinct. */
  lemma ReplaceIds(ts: seq<Task>, t: Task, n: nat)
    requires DistinctIds(ts) && IdsBelow(ts, n)
    ensures DistinctIds(Replace(ts, t)) && IdsBelow(Replace(ts, t), n)
  {
    var r := Replace(ts, t);
    forall i | 0 <= i < |r|
      ensures r[i].id == ts[i].id
    {
    }
  }

  /** Every write keeps ids fresh and distinct. */
  lemma ApplyValid(s: Store, w: Write)
    requires ValidStore(s)
    ensures ValidStore(Apply(s, w))
  {
    match w
    case CreateList(_) =>
      var r := Apply(s, w);
      forall l | l in r.tasks
        ensures DistinctIds(r.tasks[l]) && IdsBelow(r.tasks[l], r.nextId)
      {
        assert IdsBelow(s.tasks[l], s.nextId);
      }
    case CreateTask(listId, _, _, _) =>
      var r := Apply(s, w);
      var ts := Tasks(s, listId);
      assert DistinctIds(ts) && IdsBelow(ts, s.nextId);
      forall l | l in r.tasks
        ensures DistinctIds(r.tasks[l]) && IdsBelow(r.tasks[l], r.nextId)
      {
        if l != listId {
          assert IdsBelow(s.tasks[l], s.nextId);
        }
      }
    case SetTask(listId, t) =>
      if listId in s.tasks {
        ReplaceIds(s.tasks[listId], t, s.nextId);
      }
  }

  lemma {:induction false} ApplyAllValid(s: Store, ws: seq<Write>)
    requires ValidStore(s)
    ensures ValidStore(ApplyAll(s, ws))
  {
    if ws != [] {
      ApplyAllValid(s, ws[..|ws| - 1]);
      ApplyValid(ApplyAll(s, ws[..|ws| - 1]), ws[|ws| - 1]);
    }
  }

  // ---------------------------------------------------------------- read_google_tasks

  /** `[task for task in tasks if task.get("parent") == parent]` */
  function InScope(ts: seq<Task>, parent: Option<nat>): (r: seq<Task>)
    ensures |r| <= |ts|
  {
    if ts == [] then []
    else if ts[|ts| - 1].parent == parent then InScope(ts[..|ts| - 1], parent) + [ts[|ts| - 1]]
    else InScope(ts[..|ts| - 1], parent)
  }

  /** The tasks kept are exactly the tasks of the list under `parent` (None: top level). */
  lemma {:induction false} InScopeMember(ts: seq<Task>, parent: Option<nat>, t: Task)
    ensures t in InScope(ts, parent) <==> t in ts && t.parent == parent
  {
    if ts != [] {
      var p := ts[..|ts| - 1];
      assert ts == p + [ts[|ts| - 1]];
      InScopeMember(p, parent, t);
    }
  }

  /** The filter keeps list order: filtering a concatenation filters each part. */
  lemma {:induction false} InScopeAppend(a: seq<Task>, b: seq<Task>, parent: Option<nat>)
    ensures InScope(a + b, parent) == InScope(a, parent) + InScope(b, parent)
    decreases |b|
  {
    if b == [] {
      assert a + b == a;
    } else {
      assert (a + b)[..|a + b| - 1] == a + b[..|b| - 1];
      InScopeAppend(a, b[..|b| - 1], parent);
    }
  }

  /** Filtering out tasks keeps the ids of the rest distinct. */
  lemma {:induction false} InScopeDistinct(ts: seq<Task>, parent: Option<nat>)
    requires DistinctIds(ts)
    ensures DistinctIds(InScope(ts, parent))
  {
    if ts != [] {
      var p := ts[..|ts| - 1];
      var t := ts[|ts| - 1];
      assert DistinctIds(p);
      InScopeDistinct(p, parent);
      if t.parent == parent {
        var f := InScope(p, parent);
        forall i | 0 <= i < |f|
          ensures f[i].id != t.id
        {
          InScopeMember(p, parent, f[i]);
          var j :| 0 <= j < |p| && p[j] == f[i];
        }
      }
    }
  }

  /** `{task["title"]: task.get("status") == "completed" for task in tasks if "title" in task}` */
  function RemoteDict(ts: seq<Task>): (d: Dict)
    ensures Valid(d)
  {
    if ts == [] then Empty()
    else
      var t := ts[|ts| - 1];
      if t.title.Some? then Put(RemoteDict(ts[..|ts| - 1]), t.title.value, IsCompleted(t))
      else RemoteDict(ts[..|ts| - 1])
  }

  /** The map has a key for every title of a task and for nothing else; untitled tasks are skipped. */
  lemma {:induction false} RemoteDictKeys(ts: seq<Task>, k: string)
    ensures k in RemoteDict(ts).vals <==> exists i :: 0 <= i < |ts| && ts[i].title == Some(k)
  {
    if ts != [] {
      var p := ts[..|ts| - 1];
      RemoteDictKeys(p, k);
      if exists i :: 0 <= i < |p| && p[i].title == Some(k) {
        var i :| 0 <= i < |p| && p[i].title == Some(k);
        assert ts[i] == p[i];
      }
      if exists i :: 0 <= i < |ts| && ts[i].title == Some(k) {
        var i :| 0 <= i < |ts| && ts[i].title == Some(k);
        if i < |p| {
          assert p[i] == ts[i];
        }
      }
    }
  }

  /** The value of a title is the completion of the last task carrying that title. */
  lemma {:induction false} RemoteDictLast(ts: seq<Task>, k: string, i: nat)
    requires i < |ts| && ts[i].title == Some(k)
    requires forall j :: i < j < |ts| ==> ts[j].title != Some(k)
    ensures k in RemoteDict(ts).vals && RemoteDict(ts).vals[k] == IsCompleted(ts[i])
  {
    var p := ts[..|ts| - 1];
    if i < |p| {
      assert p[i] == ts[i];
      RemoteDictLast(p, k, i);
    }
  }

  // ---------------------------------------------------------------- get_tasklist_id

  /** `next((t for t in lists if t.get("title") == name), None)`, as the index it stops at. */
  function FindList(ls: seq<TaskList>, name: string): (r: Option<nat>)
    ensures r.Some? ==> r.value < |ls| && ls[r.value].title == Some(name)
    ensures r.Some? ==> forall j :: 0 <= j < r.value ==> ls[j].title != Some(name)
    ensures r.None? ==> forall j :: 0 <= j < |ls| ==> ls[j].title != Some(name)
  {
    if ls == [] then None
    else if ls[0].title == Some(name) then Some(0)
    else
      match FindList(ls[1..], name)
      case None => None
      case Some(i) => Some(i + 1)
  }

  /** The outcome of a lookup-or-create: the id used, and the writes it took (none or one). */
  datatype Resolved = Resolved(id: nat, writes: seq<Write>)

  /** `get_tasklist_id`: the first list titled `name`, or a list created with that title. */
  function ResolveList(s: Store, name: string): (r: Resolved)
  {
    match FindList(s.lists, name)
    case Some(i) => Resolved(s.lists[i].id, [])
    case None => Resolved(s.nextId, [CreateList(name)])
  }

  /**
   * A list is created only when no list has the name; otherwise the first list with the
   * name is used. Either way the id names a list with that title and no task changes.
   */
  lemma ResolveListCreates(s: Store, name: string)
    ensures ResolveList(s, name).writes == [] <==> exists i :: 0 <= i < |s.lists| && s.lists[i].title == Some(name)
    ensures ResolveList(s, name).writes != [] ==>
      ResolveList(s, name).writes == [CreateList(name)] && ResolveList(s, name).id == s.nextId
    ensures ApplyAll(s, ResolveList(s, name).writes).tasks == s.tasks
    ensures ApplyAll(s, ResolveList(s, name).writes).nextId >= s.nextId
  {
    var r := ResolveList(s, name);
    assert r.writes != [] ==> r.writes[..0] == [];
  }

  /** Looking the same name up again finds the same list and creates nothing. */
  lemma ResolveListAgain(s: Store, name: string)
    ensures ResolveList(ApplyAll(s, ResolveList(s, name).writes), name) == Resolved(ResolveList(s, name).id, [])
  {
    var r := ResolveList(s, name);
    if r.writes != [] {
      var s' := ApplyAll(s, r.writes);
      ApplyAllOne(s, CreateList(name));
      assert s'.lists == s.lists + [TaskList(s.nextId, Some(name))];
      assert s'.lists[|s.lists|].title == Some(name);
    }
  }

  // ---------------------------------------------------------------- the service object

  /** The service object: the store it holds, and the log of every write sent to it. */
  class Service {
    var lists: seq<TaskList>
    var tasks: map<nat, seq<Task>>
    var nextId: nat
    var log: seq<Write>

    /** The store the service holds now. */
    function Contents(): Store
      reads this
    {
      Store(lists, tasks, nextId)
    }

    constructor (s: Store)
      ensures Contents() == s && log == []
    {
      lists := s.lists;
      tasks := s.tasks;
      nextId := s.nextId;
      log := [];
    }

    /** `tasklists().list().execute().get("items", [])` */
    method ListTaskLists() returns (r: seq<TaskList>)
      ensures r == lists
    {
      r := lists;
    }

    /** `tasks().list(tasklist=listId, showCompleted=True).execute().get("items", [])` */
    method ListTasks(listId: nat) returns (r: seq<Task>)
      ensures r == Tasks(Contents(), listId)
    {
      r := if listId in tasks then tasks[listId] else [];
    }

    /** Sends `w`: the store moves to `Apply` of it, and the write is logged. */
    method Send(w: Write)
      modifies this
      ensures Contents() == Apply(old(Contents()), w)
      ensures log == old(log) + [w]
    {
      var s := Apply(Contents(), w);
      lists, tasks, nextId := s.lists, s.tasks, s.nextId;
      log := log + [w];
    }

    /** `tasklists().insert(body={"title": name})`, returning the created list. */
    method InsertTaskList(name: string) returns (created: TaskList)
      modifies this
      ensures created == TaskList(old(nextId), Some(name))
      ensures Contents() == Apply(old(Contents()), CreateList(name))
      ensures log == old(log) + [CreateList(name)]
    {
      created := TaskList(nextId, Some(name));
      Send(CreateList(name));
    }

    /** `tasks().insert(tasklist=listId, parent=parent, body={...})`, returning the created task. */
    method InsertTask(listId: nat, title: string, status: Option<string>, parent: Option<nat>)
      returns (created: Task)
      modifies this
      ensures created == Created(old(Contents()), CreateTask(listId, title, status, parent))
      ensures Contents() == Apply(old(Contents()), CreateTask(listId, title, status, parent))
      ensures log == old(log) + [CreateTask(listId, title, status, parent)]
    {
      created := Created(Contents(), CreateTask(listId, title, status, parent));
      Send(CreateTask(listId, title, status, parent));
    }

    /** `tasks().update(tasklist=listId, task=t["id"], body=t)` */
    method UpdateTask(listId: nat, t: Task)
      modifies this
      ensures Contents() == Apply(old(Contents()), SetTask(listId, t))
      ensures log == old(log) + [SetTask(listId, t)]
    {
      Send(SetTask(listId, t));
    }

    /** `get_tasklist_id(service, name)` */
    method GetTasklistId(name: string) returns (id: nat)
      modifies this
      ensures id == ResolveList(old(Contents()), name).id
      ensures Contents() == ApplyAll(old(Contents()), ResolveList(old(Contents()), name).writes)
      ensures log == old(log) + ResolveList(old(Contents()), name).writes
    {
      var items := ListTaskLists();
      var found := FindList(items, name);
      if found.None? {
        var created := InsertTaskList(name);
        id := created.id;
        assert [CreateList(name)][..0] == [];
      } else {
        id := items[found.value].id;
      }
    }
  }

  /**
   * `read_google_tasks(service, listId, parent=parent)`: the tasks of the list under
   * `parent`, in list order, and the map from their titles to their completion.
   */
  method ReadGoogleTasks(service: Service, listId: nat, parent: Option<nat>)
    returns (tasks: seq<Task>, taskDict: Dict)
    ensures tasks == InScope(Tasks(service.Contents(), listId), parent)
    ensures taskDict == RemoteDict(tasks)
  {
    var items := service.ListTasks(listId);
    tasks := InScope(items, parent);
    taskDict := RemoteDict(tasks);
  }
}
