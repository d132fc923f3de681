/**
 * `update_google_tasks`: the writes one sync sends to the service once the merged map is
 * known. First, each fetched task's title is popped from the map, and the task is marked
 * completed where the merge says so. Then every title still left in the map is inserted.
 */
module WritePlan {
  import opened Wrappers
  import opened OrderedDict
  import opened Remote

  /** The fetched task with `google_task["status"] = "completed"`, as the update sends it. */
  function MarkCompleted(t: Task): (r: Task)
    ensures IsCompleted(r) && r.id == t.id && r.title == t.title && r.parent == t.parent
  {
    t.(status := Some(Completed))
  }

  /** Where the update loop stands: writes sent, the map left to pop, the title of a KeyError. */
  datatype Progress = Progress(writes: seq<Write>, rest: Dict, failed: Option<string>)

  /**
   * One iteration for the fetched task `t`: pop its title, where a missing title raises
   * KeyError. Update the task when the merged value is true and the task is not completed.
   */
  function PopStep(listId: nat, p: Progress, t: Task): (r: Progress)
    requires Valid(p.rest)
    ensures Valid(r.rest)
  {
    if p.failed.Some? then p
    else if Key(t) !in p.rest.vals then Progress(p.writes, p.rest, Some(Key(t)))
    else
      var merged := p.rest.vals[Key(t)];
      var rest := Remove(p.rest, Key(t));
      if merged && !IsCompleted(t) then Progress(p.writes + [SetTask(listId, MarkCompleted(t))], rest, None)
      else Progress(p.writes, rest, None)
  }

  /** The update loop after it has gone over `fetched`, popping from `d`. */
  function UpdatePhase(listId: nat, fetched: seq<Task>, d: Dict): (p: Progress)
    requires Valid(d)
    ensures Valid(p.rest)
  {
    if fetched == [] then Progress([], d, None)
    else PopStep(listId, UpdatePhase(listId, fetched[..|fetched| - 1], d), fetched[|fetched| - 1])
  }

  lemma UpdatePhaseNext(listId: nat, f: seq<Task>, d: Dict, i: nat)
    requires Valid(d) && i < |f|
    ensures UpdatePhase(listId, f[..i + 1], d) == PopStep(listId, UpdatePhase(listId, f[..i], d), f[i])
  {
    assert f[..i + 1][..i] == f[..i];
  }

  /** The inserts for the titles `ks` left in the map, in map order. */
  function InsertWrites(listId: nat, ks: seq<string>, vals: map<string, bool>, parent: Option<nat>)
    : (ws: seq<Write>)
    requires forall i :: 0 <= i < |ks| ==> ks[i] in vals
    ensures |ws| == |ks|
  {
    seq(|ks|, i requires 0 <= i < |ks| => CreateTask(listId, ks[i], Some(StatusOf(vals[ks[i]])), parent))
  }

  lemma InsertWritesNext(listId: nat, ks: seq<string>, vals: map<string, bool>, parent: Option<nat>, j: nat)
    requires forall i :: 0 <= i < |ks| ==> ks[i] in vals
    requires j < |ks|
    ensures InsertWrites(listId, ks[..j + 1], vals, parent) ==
      InsertWrites(listId, ks[..j], vals, parent) + [CreateTask(listId, ks[j], Some(StatusOf(vals[ks[j]])), parent)]
  {
    var a := InsertWrites(listId, ks[..j + 1], vals, parent);
    var b := InsertWrites(listId, ks[..j], vals, parent) + [CreateTask(listId, ks[j], Some(StatusOf(vals[ks[j]])), parent)];
    assert |a| == |b|;
    forall i | 0 <= i < |a|
      ensures a[i] == b[i]
    {
    }
  }

  /** All the writes `update_google_tasks` sends, and the title it raised KeyError on, if any. */
  datatype Plan = Plan(writes: seq<Write>, failed: Option<string>)

  function GooglePlan(listId: nat, fetched: seq<Task>, d: Dict, parent: Option<nat>): Plan
    requires Valid(d)
  {
    var p := UpdatePhase(listId, fetched, d);
    if p.failed.Some? then Plan(p.writes, p.failed)
    else Plan(p.writes + InsertWrites(listId, p.rest.keys, p.rest.vals, parent), None)
  }

  /** Once the loop has raised KeyError, the rest of the fetched tasks change nothing. */
  lemma {:induction false} UpdatePhaseStops(listId: nat, f: seq<Task>, d: Dict, n: nat)
    requires Valid(d) && n <= |f|
    requires UpdatePhase(listId, f[..n], d).failed.Some?
    ensures UpdatePhase(listId, f, d) == UpdatePhase(listId, f[..n], d)
    decreases |f| - n
  {
    if n < |f| {
      assert f[..|f| - 1][..n] == f[..n];
      UpdatePhaseStops(listId, f[..|f| - 1], d, n);
    } else {
      assert f[..n] == f;
    }
  }

  /** A title missing at the `i`-th pop is the KeyError the whole loop ends with. */
  lemma UpdatePhaseRaises(listId: nat, f: seq<Task>, d: Dict, i: nat)
    requires Valid(d) && i < |f|
    requires UpdatePhase(listId, f[..i], d).failed.None?
    requires Key(f[i]) !in UpdatePhase(listId, f[..i], d).rest.vals
    ensures UpdatePhase(listId, f, d) ==
      Progress(UpdatePhase(listId, f[..i], d).writes, UpdatePhase(listId, f[..i], d).rest, Some(Key(f[i])))
  {
    UpdatePhaseNext(listId, f, d, i);
    UpdatePhaseStops(listId, f, d, i + 1);
  }

  /** `update_google_tasks` on the service. */
  method UpdateGoogleTasks(service: Service, listId: nat, googleTasks: seq<Task>, taskDict: Dict,
                           parent: Option<nat>)
    returns (failed: Option<string>)
    requires Valid(taskDict)
    modifies service
    ensures failed == GooglePlan(listId, googleTasks, taskDict, parent).failed
    ensures service.Contents() ==
      ApplyAll(old(service.Contents()), GooglePlan(listId, googleTasks, taskDict, parent).writes)
    ensures service.log == old(service.log) + GooglePlan(listId, googleTasks, taskDict, parent).writes
  {
    var rest;
    rest, failed := PopFetched(service, listId, googleTasks, taskDict);
    if failed.Some? {
      return;
    }
    ghost var updates := UpdatePhase(listId, googleTasks, taskDict).writes;
    ghost var inserts := InsertWrites(listId, rest.keys, rest.vals, parent);
    InsertRemaining(service, listId, rest.keys, rest.vals, parent);
    ApplyAllAppend(old(service.Contents()), updates, inserts);
    LogAppend(old(service.log), updates, inserts);
    assert GooglePlan(listId, googleTasks, taskDict, parent) == Plan(updates + inserts, None);
  }

  /**
   * The update loop of `update_google_tasks`: pops each fetched task's title from the
   * caller's map, sending the updates, and stops at the first KeyError. Returns what is left
   * of the map.
   */
  method PopFetched(service: Service, listId: nat, googleTasks: seq<Task>, taskDict: Dict)
    returns (rest: Dict, failed: Option<string>)
    requires Valid(taskDict)
    modifies service
    ensures rest == UpdatePhase(listId, googleTasks, taskDict).rest
    ensures failed == UpdatePhase(listId, googleTasks, taskDict).failed
    ensures service.Contents() == ApplyAll(old(service.Contents()), UpdatePhase(listId, googleTasks, taskDict).writes)
    ensures service.log == old(service.log) + UpdatePhase(listId, googleTasks, taskDict).writes
  {
    rest := taskDict;
    failed := None;
    ghost var sent: seq<Write> := [];
    ghost var start := service.Contents();
    var i := 0;
    while i < |googleTasks| && failed.None?
      invariant 0 <= i <= |googleTasks|
      invariant Valid(rest)
      invariant failed.None? ==> UpdatePhase(listId, googleTasks[..i], taskDict) == Progress(sent, rest, None)
      invariant failed.Some? ==> UpdatePhase(listId, googleTasks, taskDict) == Progress(sent, rest, failed)
      invariant service.Contents() == ApplyAll(start, sent)
      invariant service.log == old(service.log) + sent
      decreases |googleTasks| - i, if failed.None? then 1 else 0
    {
      var googleTask := googleTasks[i];
      var title := Key(googleTask);
      if title !in rest.vals {
        // KeyError: the loop ends here
        failed := Some(title);
        UpdatePhaseRaises(listId, googleTasks, taskDict, i);
      } else {
        ghost var before := Progress(sent, rest, None);
        UpdatePhaseNext(listId, googleTasks, taskDict, i);
        var mergedCompleted := rest.vals[title];
        rest := Remove(rest, title);
        if mergedCompleted && !IsCompleted(googleTask) {
          var w := SetTask(listId, MarkCompleted(googleTask));
          service.UpdateTask(listId, MarkCompleted(googleTask));
          ApplyAllSnoc(start, sent, w);
          LogSnoc(old(service.log), sent, w);
          sent := sent + [w];
        }
        assert PopStep(listId, before, googleTask) == Progress(sent, rest, None);
        i := i + 1;
      }
    }
    if failed.None? {
      assert googleTasks[..i] == googleTasks;
    }
  }

  /**
   * The insert loops of `update_google_tasks`, for `parent` given or not: one insert per
   * title left in the map, in map order.
   */
  method InsertRemaining(service: Service, listId: nat, ks: seq<string>, vals: map<string, bool>,
                         parent: Option<nat>)
    requires forall i :: 0 <= i < |ks| ==> ks[i] in vals
    modifies service
    ensures service.Contents() == ApplyAll(old(service.Contents()), InsertWrites(listId, ks, vals, parent))
    ensures service.log == old(service.log) + InsertWrites(listId, ks, vals, parent)
  {
    ghost var start := service.Contents();
    for j := 0 to |ks|
      invariant service.Contents() == ApplyAll(start, InsertWrites(listId, ks[..j], vals, parent))
      invariant service.log == old(service.log) + InsertWrites(listId, ks[..j], vals, parent)
    {
      var title := ks[j];
      var completed := vals[title];
      var status := StatusOf(completed);
      var _ := service.InsertTask(listId, title, Some(status), parent);
      ghost var w := CreateTask(listId, title, Some(status), parent);
      ApplyAllSnoc(start, InsertWrites(listId, ks[..j], vals, parent), w);
      LogSnoc(old(service.log), InsertWrites(listId, ks[..j], vals, parent), w);
      InsertWritesNext(listId, ks, vals, parent, j);
    }
    assert ks[..|ks|] == ks;
  }

  // ---------------------------------------------------------------- the KeyError condition

  /** The titles the fetched tasks are popped under. */
  function KeySet(f: seq<Task>): set<string>
  {
    set i | 0 <= i < |f| :: Key(f[i])
  }

  /** Every fetched task's key is still in the map when it is popped: one task per title. */
  ghost predicate Poppable(f: seq<Task>, d: Dict)
  {
    && (forall i :: 0 <= i < |f| ==> Key(f[i]) in d.vals)
    && (forall i, j :: 0 <= i < j < |f| ==> Key(f[i]) != Key(f[j]))
  }

  lemma KeySetSnoc(f: seq<Task>)
    requires f != []
    ensures KeySet(f) == KeySet(f[..|f| - 1]) + {Key(f[|f| - 1])}
  {
    var p := f[..|f| - 1];
    forall x | x in KeySet(f)
      ensures x in KeySet(p) + {Key(f[|f| - 1])}
    {
      var j :| 0 <= j < |f| && Key(f[j]) == x;
      if j < |p| {
        assert f[j] == p[j];
      }
    }
    forall x | x in KeySet(p)
      ensures x in KeySet(f)
    {
      var j :| 0 <= j < |p| && Key(p[j]) == x;
      assert f[j] == p[j];
    }
  }

  lemma PoppableSnoc(f: seq<Task>, d: Dict)
    requires f != []
    ensures Poppable(f, d) <==>
      Poppable(f[..|f| - 1], d) && Key(f[|f| - 1]) in d.vals && Key(f[|f| - 1]) !in KeySet(f[..|f| - 1])
  {
    var n := |f| - 1;
    var p := f[..n];
    assert forall i :: 0 <= i < n ==> p[i] == f[i];
    if Key(f[n]) in KeySet(p) {
      var j :| 0 <= j < |p| && Key(p[j]) == Key(f[n]);
      assert Key(f[j]) == Key(f[n]);
    }
  }

  /**
   * The loop raises KeyError exactly when two fetched tasks share a title (untitled counts
   * as "") or a task's title is not a merged key. Otherwise it leaves the map minus the
   * fetched titles.
   */
  lemma {:induction false} UpdatePhaseOk(listId: nat, f: seq<Task>, d: Dict)
    requires Valid(d)
    ensures UpdatePhase(listId, f, d).failed.None? <==> Poppable(f, d)
    ensures UpdatePhase(listId, f, d).failed.None? ==> UpdatePhase(listId, f, d).rest == Without(d, KeySet(f))
  {
    if f == [] {
      assert KeySet(f) == {};
      assert d.vals - {} == d.vals;
      MinusNone(d.keys, {});
    } else {
      var n := |f| - 1;
      var p := f[..n];
      UpdatePhaseOk(listId, p, d);
      PoppableSnoc(f, d);
      var q := UpdatePhase(listId, p, d);
      if q.failed.None? && Key(f[n]) in q.rest.vals {
        KeySetSnoc(f);
        WithoutWithout(d, KeySet(p), {Key(f[n])});
      }
    }
  }

  /** The loop raises KeyError on a task whose title is missing or was already popped. */
  lemma {:induction false} UpdatePhaseFails(listId: nat, f: seq<Task>, d: Dict)
    requires Valid(d)
    requires UpdatePhase(listId, f, d).failed.Some?
    ensures exists i :: (0 <= i < |f| && Key(f[i]) == UpdatePhase(listId, f, d).failed.value &&
      (Key(f[i]) !in d.vals || exists j :: 0 <= j < i && Key(f[j]) == Key(f[i])))
  {
    var n := |f| - 1;
    var p := f[..n];
    var q := UpdatePhase(listId, p, d);
    if q.failed.Some? {
      UpdatePhaseFails(listId, p, d);
      var i :| 0 <= i < |p| && Key(p[i]) == q.failed.value &&
        (Key(p[i]) !in d.vals || exists j :: 0 <= j < i && Key(p[j]) == Key(p[i]));
      assert f[i] == p[i];
      if Key(p[i]) in d.vals {
        var j :| 0 <= j < i && Key(p[j]) == Key(p[i]);
        assert f[j] == p[j];
      }
    } else {
      UpdatePhaseOk(listId, p, d);
      if Key(f[n]) in d.vals {
        assert Key(f[n]) in KeySet(p);
        var j :| 0 <= j < |p| && Key(p[j]) == Key(f[n]);
        assert f[j] == p[j];
      }
    }
  }

  // ---------------------------------------------------------------- the updates

  /** No update ever sets a task incomplete: each one marks a fetched, unfinished task completed. */
  lemma {:induction false} UpdatesComplete(listId: nat, f: seq<Task>, d: Dict, w: Write)
    requires Valid(d)
    requires w in UpdatePhase(listId, f, d).writes
    ensures w.SetTask? && w.listId == listId && IsCompleted(w.task)
    ensures exists i :: 0 <= i < |f| && w.task == MarkCompleted(f[i]) && !IsCompleted(f[i])
  {
    var n := |f| - 1;
    var q := UpdatePhase(listId, f[..n], d);
    if w in q.writes {
      UpdatesComplete(listId, f[..n], d, w);
      var i :| 0 <= i < n && w.task == MarkCompleted(f[..n][i]) && !IsCompleted(f[..n][i]);
      assert f[..n][i] == f[i];
    } else {
      assert w.task == MarkCompleted(f[n]);
    }
  }

  /** The last fetched task of a finished loop is popped with its merged value. */
  lemma UpdatePhaseSnoc(listId: nat, f: seq<Task>, d: Dict)
    requires Valid(d) && f != []
    requires UpdatePhase(listId, f, d).failed.None?
    ensures UpdatePhase(listId, f[..|f| - 1], d).failed.None?
    ensures Poppable(f, d) && Key(f[|f| - 1]) in d.vals
    ensures forall j :: 0 <= j < |f| - 1 ==> Key(f[j]) != Key(f[|f| - 1])
    ensures UpdatePhase(listId, f, d).writes == UpdatePhase(listId, f[..|f| - 1], d).writes +
      if d.vals[Key(f[|f| - 1])] && !IsCompleted(f[|f| - 1]) then [SetTask(listId, MarkCompleted(f[|f| - 1]))]
      else []
  {
    var n := |f| - 1;
    var p := f[..n];
    var q := UpdatePhase(listId, p, d);
    UpdatePhaseOk(listId, f, d);
    PoppableSnoc(f, d);
    UpdatePhaseOk(listId, p, d);
    var k := Key(f[n]);
    assert k in q.rest.vals && q.rest.vals[k] == d.vals[k];
  }

  /**
   * The updates of a finished loop as a filter over the fetched tasks, in fetched order:
   * one for each task whose merged value is true and that is not completed.
   */
  function Updates(listId: nat, f: seq<Task>, d: Dict): (ws: seq<Write>)
    ensures |ws| <= |f|
  {
    if f == [] then []
    else
      var t := f[|f| - 1];
      Updates(listId, f[..|f| - 1], d) +
        if Key(t) in d.vals && d.vals[Key(t)] && !IsCompleted(t) then [SetTask(listId, MarkCompleted(t))] else []
  }

  /** The loop that raises no KeyError sends exactly the filtered updates. */
  lemma {:induction false} UpdatePhaseWrites(listId: nat, f: seq<Task>, d: Dict)
    requires Valid(d) && UpdatePhase(listId, f, d).failed.None?
    ensures UpdatePhase(listId, f, d).writes == Updates(listId, f, d)
  {
    if f != [] {
      UpdatePhaseSnoc(listId, f, d);
      UpdatePhaseWrites(listId, f[..|f| - 1], d);
    }
  }

  /** A task whose title no fetched task carries has no update among the filtered ones. */
  lemma {:induction false} UpdatesNone(listId: nat, f: seq<Task>, d: Dict, t: Task)
    requires forall j :: 0 <= j < |f| ==> Key(f[j]) != Key(t)
    ensures SetTask(listId, MarkCompleted(t)) !in Updates(listId, f, d)
  {
    if f != [] {
      var p := f[..|f| - 1];
      assert forall j :: 0 <= j < |p| ==> p[j] == f[j];
      UpdatesNone(listId, p, d, t);
    }
  }

  /** With distinct titles, a fetched task is updated iff it is merged-true and open. */
  lemma {:induction false} UpdatesAt(listId: nat, f: seq<Task>, d: Dict, i: nat)
    requires i < |f|
    requires forall a, b :: 0 <= a < b < |f| ==> Key(f[a]) != Key(f[b])
    ensures SetTask(listId, MarkCompleted(f[i])) in Updates(listId, f, d) <==>
      Key(f[i]) in d.vals && d.vals[Key(f[i])] && !IsCompleted(f[i])
  {
    var n := |f| - 1;
    var p := f[..n];
    assert forall j :: 0 <= j < n ==> p[j] == f[j];
    if i < n {
      UpdatesAt(listId, p, d, i);
      assert Key(f[i]) != Key(f[n]);
    } else {
      UpdatesNone(listId, p, d, f[n]);
    }
  }

  /** The updates the loop sends when it finishes: a task is updated iff merged-true and open. */
  lemma UpdatesExactly(listId: nat, f: seq<Task>, d: Dict, i: nat)
    requires Valid(d) && i < |f|
    requires UpdatePhase(listId, f, d).failed.None?
    ensures Key(f[i]) in d.vals
    ensures SetTask(listId, MarkCompleted(f[i])) in UpdatePhase(listId, f, d).writes <==>
      d.vals[Key(f[i])] && !IsCompleted(f[i])
  {
    UpdatePhaseOk(listId, f, d);
    UpdatePhaseWrites(listId, f, d);
    UpdatesAt(listId, f, d, i);
  }

  // ---------------------------------------------------------------- the inserts

  /**
   * A finished loop inserts every merged title that no fetched task carries. It inserts
   * each one once, in map order, with the merged status and with the parent given.
   */
  lemma GooglePlanInserts(listId: nat, f: seq<Task>, d: Dict, parent: Option<nat>)
    requires Valid(d)
    requires GooglePlan(listId, f, d, parent).failed.None?
    ensures var missing := Minus(d.keys, KeySet(f));
      && Distinct(missing)
      && (forall k :: k in missing <==> k in d.vals && k !in KeySet(f))
      && GooglePlan(listId, f, d, parent).writes ==
           UpdatePhase(listId, f, d).writes + InsertWrites(listId, missing, d.vals, parent)
  {
    UpdatePhaseOk(listId, f, d);
    var rest := UpdatePhase(listId, f, d).rest;
    MinusDistinct(d.keys, KeySet(f));
    assert InsertWrites(listId, rest.keys, rest.vals, parent) ==
      InsertWrites(listId, Minus(d.keys, KeySet(f)), d.vals, parent);
  }

  /** The insert for the `i`-th missing title. */
  lemma InsertWritesAt(listId: nat, ks: seq<string>, vals: map<string, bool>, parent: Option<nat>, i: nat)
    requires forall j :: 0 <= j < |ks| ==> ks[j] in vals
    requires i < |ks|
    ensures InsertWrites(listId, ks, vals, parent)[i] ==
      CreateTask(listId, ks[i], Some(if vals[ks[i]] then Completed else NeedsAction), parent)
  {
  }

  // ---------------------------------------------------------------- effect on the store

  /** The fetched tasks whose update the loop sends, by id. */
  function Promoted(f: seq<Task>, d: Dict): set<nat>
  {
    if f == [] then {}
    else
      var t := f[|f| - 1];
      Promoted(f[..|f| - 1], d) +
        if Key(t) in d.vals && d.vals[Key(t)] && !IsCompleted(t) then {t.id} else {}
  }

  /** The tasks of a list with those of the given ids marked completed. */
  function MarkIds(ts: seq<Task>, ids: set<nat>): seq<Task>
  {
    seq(|ts|, i requires 0 <= i < |ts| => if ts[i].id in ids then MarkCompleted(ts[i]) else ts[i])
  }

  lemma {:induction false} PromotedAt(f: seq<Task>, d: Dict, id: nat)
    ensures id in Promoted(f, d) <==>
      exists i :: 0 <= i < |f| && f[i].id == id && Key(f[i]) in d.vals && d.vals[Key(f[i])] && !IsCompleted(f[i])
  {
    if f != [] {
      var n := |f| - 1;
      PromotedAt(f[..n], d, id);
      if id in Promoted(f[..n], d) {
        var i :| 0 <= i < n && f[..n][i].id == id && Key(f[..n][i]) in d.vals && d.vals[Key(f[..n][i])] &&
          !IsCompleted(f[..n][i]);
        assert f[i] == f[..n][i];
      }
      if exists i :: 0 <= i < |f| && f[i].id == id && Key(f[i]) in d.vals && d.vals[Key(f[i])] && !IsCompleted(f[i]) {
        var i :| 0 <= i < |f| && f[i].id == id && Key(f[i]) in d.vals && d.vals[Key(f[i])] && !IsCompleted(f[i]);
        if i < n {
          assert f[..n][i] == f[i];
        }
      }
    }
  }

  /** One more update, on a task of the list, marks one more id. */
  lemma ReplaceMarks(ts: seq<Task>, ids: set<nat>, t: Task)
    requires DistinctIds(ts) && t in ts
    ensures Replace(MarkIds(ts, ids), MarkCompleted(t)) == MarkIds(ts, ids + {t.id})
  {
    var a := Replace(MarkIds(ts, ids), MarkCompleted(t));
    var b := MarkIds(ts, ids + {t.id});
    var k :| 0 <= k < |ts| && ts[k] == t;
    forall i | 0 <= i < |ts|
      ensures a[i] == b[i]
    {
      if ts[i].id == t.id {
        assert i == k;
      }
    }
  }

  /** One update of a task of the list, on top of earlier marks, marks its id too. */
  lemma ApplyMark(s: Store, a: Store, listId: nat, ids: set<nat>, t: Task)
    requires DistinctIds(Tasks(s, listId)) && t in Tasks(s, listId)
    requires a.lists == s.lists && a.nextId == s.nextId
    requires Tasks(a, listId) == MarkIds(Tasks(s, listId), ids)
    requires forall l :: l != listId ==> Tasks(a, l) == Tasks(s, l)
    ensures var b := Apply(a, SetTask(listId, MarkCompleted(t)));
      && b.lists == s.lists && b.nextId == s.nextId
      && Tasks(b, listId) == MarkIds(Tasks(s, listId), ids + {t.id})
      && forall l :: l != listId ==> Tasks(b, l) == Tasks(s, l)
  {
    assert |Tasks(a, listId)| > 0;
    ReplaceMarks(Tasks(s, listId), ids, t);
  }

  /**
   * With ids distinct in the list and every fetched task taken from it, the updates of a
   * finished loop mark exactly the promoted tasks completed. They change nothing else.
   */
  lemma ApplyUpdates(s: Store, listId: nat, f: seq<Task>, d: Dict)
    requires Valid(d) && DistinctIds(Tasks(s, listId))
    requires forall i :: 0 <= i < |f| ==> f[i] in Tasks(s, listId)
    requires UpdatePhase(listId, f, d).failed.None?
    ensures var a := ApplyAll(s, UpdatePhase(listId, f, d).writes);
      && a.lists == s.lists && a.nextId == s.nextId
      && Tasks(a, listId) == MarkIds(Tasks(s, listId), Promoted(f, d))
      && forall l :: l != listId ==> Tasks(a, l) == Tasks(s, l)
  {
    UpdatePhaseWrites(listId, f, d);
    ApplyMarks(s, listId, f, d);
  }

  /** Sending the filtered updates marks exactly the promoted tasks and touches no other list. */
  lemma {:induction false} ApplyMarks(s: Store, listId: nat, f: seq<Task>, d: Dict)
    requires DistinctIds(Tasks(s, listId))
    requires forall i :: 0 <= i < |f| ==> f[i] in Tasks(s, listId)
    ensures var a := ApplyAll(s, Updates(listId, f, d));
      && a.lists == s.lists && a.nextId == s.nextId
      && Tasks(a, listId) == MarkIds(Tasks(s, listId), Promoted(f, d))
      && forall l :: l != listId ==> Tasks(a, l) == Tasks(s, l)
  {
    var ts := Tasks(s, listId);
    if f == [] {
      assert MarkIds(ts, {}) == ts;
    } else {
      var n := |f| - 1;
      var p := f[..n];
      var t := f[n];
      var w := SetTask(listId, MarkCompleted(t));
      assert forall i :: 0 <= i < |p| ==> p[i] in ts by {
        assert forall i :: 0 <= i < |p| ==> p[i] == f[i];
      }
      ApplyMarks(s, listId, p, d);
      if Key(t) in d.vals && d.vals[Key(t)] && !IsCompleted(t) {
        assert Updates(listId, f, d) == Updates(listId, p, d) + [w];
        ApplyAllSnoc(s, Updates(listId, p, d), w);
        ApplyMark(s, ApplyAll(s, Updates(listId, p, d)), listId, Promoted(p, d), t);
        assert Promoted(f, d) == Promoted(p, d) + {t.id};
      } else {
        assert Updates(listId, f, d) == Updates(listId, p, d);
        assert Promoted(f, d) == Promoted(p, d);
      }
    }
  }

  function NewTasks(n: nat, ks: seq<string>, vals: map<string, bool>, parent: Option<nat>): (ts: seq<Task>)
    requires forall i :: 0 <= i < |ks| ==> ks[i] in vals
    ensures |ts| == |ks|
  {
    seq(|ks|, i requires 0 <= i < |ks| => Task(n + i, Some(ks[i]), Some(StatusOf(vals[ks[i]])), parent))
  }

  lemma NewTasksSnoc(n: nat, ks: seq<string>, vals: map<string, bool>, parent: Option<nat>)
    requires forall i :: 0 <= i < |ks| ==> ks[i] in vals
    requires ks != []
    ensures NewTasks(n, ks, vals, parent) == NewTasks(n, ks[..|ks| - 1], vals, parent) +
      [Task(n + |ks| - 1, Some(ks[|ks| - 1]), Some(StatusOf(vals[ks[|ks| - 1]])), parent)]
  {
  }

  /** The inserts append their new tasks to the list, in order, with fresh ids. */
  lemma {:induction false} ApplyInserts(s: Store, listId: nat, ks: seq<string>, vals: map<string, bool>,
                                        parent: Option<nat>)
    requires forall i :: 0 <= i < |ks| ==> ks[i] in vals
    ensures var a := ApplyAll(s, InsertWrites(listId, ks, vals, parent));
      && a.lists == s.lists && a.nextId == s.nextId + |ks|
      && Tasks(a, listId) == Tasks(s, listId) + NewTasks(s.nextId, ks, vals, parent)
      && forall l :: l != listId ==> Tasks(a, l) == Tasks(s, l)
  {
    if ks != [] {
      var n := |ks| - 1;
      var p := ks[..n];
      var w := CreateTask(listId, ks[n], Some(StatusOf(vals[ks[n]])), parent);
      ApplyInserts(s, listId, p, vals, parent);
      assert InsertWrites(listId, ks, vals, parent) == InsertWrites(listId, p, vals, parent) + [w] by {
        InsertWritesNext(listId, ks, vals, parent, n);
        assert ks[..n + 1] == ks;
      }
      ApplyAllSnoc(s, InsertWrites(listId, p, vals, parent), w);
      NewTasksSnoc(s.nextId, ks, vals, parent);
      assert Tasks(s, listId) + NewTasks(s.nextId, ks, vals, parent) ==
        (Tasks(s, listId) + NewTasks(s.nextId, p, vals, parent)) + [Created(ApplyAll(s, InsertWrites(listId, p, vals, parent)), w)];
    }
  }
}
