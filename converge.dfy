/**
 * A second sync straight after a successful one changes nothing: the file comes back the
 * same, the merged map is the same, and no write is sent. The first sync leaves every fetched
 * task agreeing with the merged map and every merged title present remotely. It also leaves
 * the file in the canonical form the write-back produces.
 */
module Converge {
  import opened Wrappers
  import opened OrderedDict
  import opened Checklist
  import opened Merge
  import opened Remote
  import opened WritePlan
  import opened Sync

  /** Every titled task has a title that a checklist line carries back unchanged. */
  ghost predicate CleanTasks(ts: seq<Task>)
  {
    forall t :: t in ts && t.title.Some? ==> CleanTitle(t.title.value)
  }

  /** The titles of all tasks of all lists are clean. */
  ghost predicate CleanStore(s: Store)
  {
    forall l :: CleanTasks(Tasks(s, l))
  }

  /** The remote map of clean tasks has clean keys only. */
  lemma RemoteClean(f: seq<Task>)
    requires CleanTasks(f)
    ensures forall k :: k in RemoteDict(f).vals ==> CleanTitle(k)
  {
    forall k | k in RemoteDict(f).vals
      ensures CleanTitle(k)
    {
      RemoteDictKeys(f, k);
      var i :| 0 <= i < |f| && f[i].title == Some(k);
      assert f[i] in f;
    }
  }

  lemma CleanScope(s: Store, listId: nat, parent: Option<nat>)
    requires CleanStore(s)
    ensures CleanTasks(InScope(Tasks(s, listId), parent))
  {
    assert CleanTasks(Tasks(s, listId));
    forall t | t in InScope(Tasks(s, listId), parent)
      ensures t in Tasks(s, listId)
    {
      InScopeMember(Tasks(s, listId), parent, t);
    }
  }

  /**
   * The file written back holds exactly the merged map: parsing it gives the merged keys in
   * merged order with the merged values.
   */
  lemma LocalRoundTrip(lines: seq<string>, remote: Dict)
    requires WellFormedFile(lines) && DistinctTitles(lines) && Valid(remote)
    requires forall k :: k in remote.vals ==> CleanTitle(k)
    ensures var m := Merged(Parse(lines), remote);
      && Parse(WriteBack(lines, m)) == m
      && Canonical(WriteBack(lines, m)) && DistinctTitles(WriteBack(lines, m))
  {
    var local := Parse(lines);
    var m := Merged(local, remote);
    var lk := TaskTitles(lines);
    ParseKeys(lines);
    ParseClean(lines);
    forall k | k in m.vals
      ensures CleanTitle(k)
    {
      MergeValues(local, remote, k);
    }
    forall k | k in lk
      ensures k in m.vals
    {
      MergeValues(local, remote, k);
    }
    RoundTrip(lines, m);
    MergeOrder(local, remote);
    var extra := Minus(remote.keys, lk);
    MinusAppend(local.keys, extra, lk);
    MinusAll(local.keys, lk);
    MinusNone(extra, lk);
    assert Leftover(lines, m) == extra;
  }

  // ---------------------------------------------------------------- lemmas on the task sequences

  lemma MarkIdsAppend(a: seq<Task>, b: seq<Task>, ids: set<nat>)
    ensures MarkIds(a + b, ids) == MarkIds(a, ids) + MarkIds(b, ids)
  {
  }

  /** Marking commutes with the scope filter: marking keeps every parent. */
  lemma {:induction false} InScopeMarkIds(ts: seq<Task>, ids: set<nat>, parent: Option<nat>)
    ensures InScope(MarkIds(ts, ids), parent) == MarkIds(InScope(ts, parent), ids)
  {
    if ts != [] {
      var n := |ts| - 1;
      var p := ts[..n];
      assert ts == p + [ts[n]];
      MarkIdsAppend(p, [ts[n]], ids);
      InScopeMarkIds(p, ids, parent);
      var m := MarkIds(ts, ids);
      assert m[..n] == MarkIds(p, ids);
      MarkIdsAppend(InScope(p, parent), [ts[n]], ids);
    }
  }

  /** Marking tasks of another scope leaves a scope as it was. */
  lemma {:induction false} InScopeMarkOther(ts: seq<Task>, ids: set<nat>, q: Option<nat>)
    requires forall i :: 0 <= i < |ts| && ts[i].parent == q ==> ts[i].id !in ids
    ensures InScope(MarkIds(ts, ids), q) == InScope(ts, q)
  {
    if ts != [] {
      var n := |ts| - 1;
      var p := ts[..n];
      assert ts == p + [ts[n]];
      MarkIdsAppend(p, [ts[n]], ids);
      InScopeMarkOther(p, ids, q);
      var m := MarkIds(ts, ids);
      assert m[..n] == MarkIds(p, ids);
    }
  }

  lemma {:induction false} InScopeKeeps(ts: seq<Task>, parent: Option<nat>)
    requires forall i :: 0 <= i < |ts| ==> ts[i].parent == parent
    ensures InScope(ts, parent) == ts
  {
    if ts != [] {
      InScopeKeeps(ts[..|ts| - 1], parent);
    }
  }

  lemma {:induction false} InScopeNone(ts: seq<Task>, q: Option<nat>)
    requires forall i :: 0 <= i < |ts| ==> ts[i].parent != q
    ensures InScope(ts, q) == []
  {
    if ts != [] {
      InScopeNone(ts[..|ts| - 1], q);
    }
  }

  /** No task is merged-true and open: the filter keeps nothing. */
  lemma {:induction false} UpdatesEmpty(listId: nat, f: seq<Task>, d: Dict)
    requires forall i :: 0 <= i < |f| && Key(f[i]) in d.vals && d.vals[Key(f[i])] ==> IsCompleted(f[i])
    ensures Updates(listId, f, d) == []
  {
    if f != [] {
      var p := f[..|f| - 1];
      assert forall i :: 0 <= i < |p| ==> p[i] == f[i];
      UpdatesEmpty(listId, p, d);
    }
  }

  /** With no update due for any task, a finished loop sends nothing at all. */
  lemma NoUpdates(listId: nat, f: seq<Task>, d: Dict)
    requires Valid(d) && Poppable(f, d)
    requires forall i :: 0 <= i < |f| ==> d.vals[Key(f[i])] ==> IsCompleted(f[i])
    ensures UpdatePhase(listId, f, d).writes == []
  {
    UpdatePhaseOk(listId, f, d);
    UpdatePhaseWrites(listId, f, d);
    UpdatesEmpty(listId, f, d);
  }

  // ---------------------------------------------------------------- the state after one exchange

  /**
   * The tasks agree with the merged map: every key is a merged title, no task is open where
   * the map says completed, and no titled task is completed where the map says open.
   */
  ghost predicate Settled(f: seq<Task>, m: Dict)
  {
    forall i :: 0 <= i < |f| ==>
      && Key(f[i]) in m.vals
      && (m.vals[Key(f[i])] ==> IsCompleted(f[i]))
      && (f[i].title.Some? && IsCompleted(f[i]) ==> m.vals[Key(f[i])])
  }

  /** A completed remote task makes its title completed in the merge, when titles are distinct. */
  lemma RemoteNoDowngrade(f: seq<Task>, local: Dict)
    requires Valid(local)
    requires forall i, j :: 0 <= i < j < |f| ==> Key(f[i]) != Key(f[j])
    ensures forall i :: 0 <= i < |f| && f[i].title.Some? && IsCompleted(f[i]) ==>
      Key(f[i]) in Merged(local, RemoteDict(f)).vals && Merged(local, RemoteDict(f)).vals[Key(f[i])]
  {
    forall i | 0 <= i < |f| && f[i].title.Some? && IsCompleted(f[i])
      ensures Key(f[i]) in Merged(local, RemoteDict(f)).vals && Merged(local, RemoteDict(f)).vals[Key(f[i])]
    {
      var k := f[i].title.value;
      forall j | i < j < |f|
        ensures f[j].title != Some(k)
      {
        assert Key(f[i]) != Key(f[j]);
      }
      RemoteDictLast(f, k, i);
      MergeNoDowngrade(local, RemoteDict(f), k);
    }
  }

  /** After the updates, every fetched task agrees with the merged map. */
  lemma SettledMarked(f: seq<Task>, m: Dict)
    requires Valid(m) && Poppable(f, m) && DistinctIds(f)
    requires forall i :: 0 <= i < |f| && f[i].title.Some? && IsCompleted(f[i]) ==> m.vals[Key(f[i])]
    ensures Settled(MarkIds(f, Promoted(f, m)), m)
    ensures Poppable(MarkIds(f, Promoted(f, m)), m)
    ensures KeySet(MarkIds(f, Promoted(f, m))) == KeySet(f)
  {
    var x := Promoted(f, m);
    var g := MarkIds(f, x);
    forall i | 0 <= i < |g|
      ensures Key(g[i]) == Key(f[i])
      ensures (m.vals[Key(g[i])] ==> IsCompleted(g[i]))
      ensures (g[i].title.Some? && IsCompleted(g[i]) ==> m.vals[Key(g[i])])
    {
      PromotedAt(f, m, f[i].id);
      if f[i].id in x {
        var j :| 0 <= j < |f| && f[j].id == f[i].id && Key(f[j]) in m.vals && m.vals[Key(f[j])] &&
          !IsCompleted(f[j]);
        assert j == i;
      }
    }
    forall k | k in KeySet(f)
      ensures k in KeySet(g)
    {
      var i :| 0 <= i < |f| && Key(f[i]) == k;
      assert Key(g[i]) == k;
    }
  }

  /**
   * The tasks after the inserts: the updated fetched tasks, then one new task per missing
   * title. Together they agree with the map, carry each merged title once, and cover it.
   */
  lemma SettledJoin(f: seq<Task>, m: Dict, n: nat, ks: seq<string>, parent: Option<nat>)
    requires Valid(m) && Poppable(f, m) && Settled(f, m)
    requires Distinct(ks) && forall k :: k in ks <==> k in m.vals && k !in KeySet(f)
    ensures Settled(f + NewTasks(n, ks, m.vals, parent), m)
    ensures Poppable(f + NewTasks(n, ks, m.vals, parent), m)
    ensures forall k :: k in m.vals ==> k in KeySet(f + NewTasks(n, ks, m.vals, parent))
  {
    var b := NewTasks(n, ks, m.vals, parent);
    var g := f + b;
    forall i | |f| <= i < |g|
      ensures Key(g[i]) == ks[i - |f|] && Key(g[i]) in m.vals && Key(g[i]) !in KeySet(f)
      ensures m.vals[Key(g[i])] <==> IsCompleted(g[i])
    {
      assert g[i] == b[i - |f|];
      assert ks[i - |f|] in ks;
    }
    forall i | 0 <= i < |f|
      ensures Key(g[i]) in KeySet(f)
    {
      assert g[i] == f[i];
    }
    forall k | k in m.vals
      ensures k in KeySet(g)
    {
      if k in KeySet(f) {
        var i :| 0 <= i < |f| && Key(f[i]) == k;
        assert Key(g[i]) == k;
      } else {
        var j :| 0 <= j < |ks| && ks[j] == k;
        assert Key(g[|f| + j]) == k;
      }
    }
  }

  /** One exchange that raises no KeyError leaves the list's tasks as follows. */
  lemma ExchangeStore(s: Store, lines: seq<string>, listId: nat, parent: Option<nat>)
    requires ValidStore(s) && Exchange(s, lines, listId, parent).failed.None?
    ensures var f := InScope(Tasks(s, listId), parent);
      var m := Exchange(s, lines, listId, parent).merged;
      var a := ApplyAll(s, Exchange(s, lines, listId, parent).writes);
      && a.lists == s.lists
      && Tasks(a, listId) ==
           MarkIds(Tasks(s, listId), Promoted(f, m)) + NewTasks(s.nextId, Minus(m.keys, KeySet(f)), m.vals, parent)
      && forall l :: l != listId ==> Tasks(a, l) == Tasks(s, l)
  {
    var ts := Tasks(s, listId);
    var f := InScope(ts, parent);
    var m := Exchange(s, lines, listId, parent).merged;
    var ks := Minus(m.keys, KeySet(f));
    GooglePlanInserts(listId, f, m, parent);
    var u := UpdatePhase(listId, f, m).writes;
    ApplyAllAppend(s, u, InsertWrites(listId, ks, m.vals, parent));
    forall i | 0 <= i < |f|
      ensures f[i] in ts
    {
      InScopeMember(ts, parent, f[i]);
    }
    ApplyUpdates(s, listId, f, m);
    ApplyInserts(ApplyAll(s, u), listId, ks, m.vals, parent);
  }

  /**
   * The tasks of a list after the updates and inserts planned for one scope of it: in that
   * scope they agree with the map, carry each merged title once, and cover the map.
   */
  lemma PlanSettles(ts: seq<Task>, listId: nat, parent: Option<nat>, m: Dict, n: nat)
    requires Valid(m) && DistinctIds(ts)
    requires UpdatePhase(listId, InScope(ts, parent), m).failed.None?
    requires forall i :: (0 <= i < |InScope(ts, parent)| && InScope(ts, parent)[i].title.Some? &&
      IsCompleted(InScope(ts, parent)[i])) ==>
        Key(InScope(ts, parent)[i]) in m.vals && m.vals[Key(InScope(ts, parent)[i])]
    ensures var f := InScope(ts, parent);
      var f2 := InScope(MarkIds(ts, Promoted(f, m)) + NewTasks(n, Minus(m.keys, KeySet(f)), m.vals, parent), parent);
      && Poppable(f2, m) && Settled(f2, m)
      && forall k :: k in m.vals ==> k in KeySet(f2)
  {
    var f := InScope(ts, parent);
    var x := Promoted(f, m);
    var ks := Minus(m.keys, KeySet(f));
    var b := NewTasks(n, ks, m.vals, parent);
    InScopeAppend(MarkIds(ts, x), b, parent);
    InScopeMarkIds(ts, x, parent);
    InScopeKeeps(b, parent);
    UpdatePhaseOk(listId, f, m);
    InScopeDistinct(ts, parent);
    SettledMarked(f, m);
    MinusDistinct(m.keys, KeySet(f));
    SettledJoin(MarkIds(f, x), m, n, ks, parent);
  }

  /** After one successful exchange, the tasks of the scope agree with the merged map. */
  lemma ExchangeSettles(s: Store, lines: seq<string>, listId: nat, parent: Option<nat>)
    requires ValidStore(s) && Exchange(s, lines, listId, parent).failed.None?
    ensures var m := Exchange(s, lines, listId, parent).merged;
      var f2 := InScope(Tasks(ApplyAll(s, Exchange(s, lines, listId, parent).writes), listId), parent);
      && Poppable(f2, m) && Settled(f2, m)
      && forall k :: k in m.vals ==> k in KeySet(f2)
  {
    var ts := Tasks(s, listId);
    var f := InScope(ts, parent);
    var m := Exchange(s, lines, listId, parent).merged;
    ExchangeStore(s, lines, listId, parent);
    UpdatePhaseOk(listId, f, m);
    RemoteNoDowngrade(f, Parse(lines));
    assert DistinctIds(ts);
    PlanSettles(ts, listId, parent, m, s.nextId);
  }

  /** Tasks that agree with `m` have a remote map that `m` absorbs. */
  lemma SettledAbsorbs(f: seq<Task>, m: Dict)
    requires Valid(m) && Poppable(f, m) && Settled(f, m)
    ensures Merged(m, RemoteDict(f)) == m
  {
    var r := RemoteDict(f);
    forall k | k in r.vals
      ensures k in m.vals && r.vals[k] == m.vals[k]
    {
      RemoteDictKeys(f, k);
      var i :| 0 <= i < |f| && f[i].title == Some(k);
      forall j | i < j < |f|
        ensures f[j].title != Some(k)
      {
        assert Key(f[i]) != Key(f[j]);
      }
      RemoteDictLast(f, k, i);
    }
    MergeAbsorbs(m, r);
  }

  /** Tasks that agree with `m` and cover it need no update and no insert. */
  lemma SettledPlan(listId: nat, f: seq<Task>, m: Dict, parent: Option<nat>)
    requires Valid(m) && Poppable(f, m) && Settled(f, m)
    requires forall k :: k in m.vals ==> k in KeySet(f)
    ensures GooglePlan(listId, f, m, parent) == Plan([], None)
  {
    NoUpdates(listId, f, m);
    UpdatePhaseOk(listId, f, m);
    MinusAll(m.keys, KeySet(f));
    assert InsertWrites(listId, [], m.vals, parent) == [];
  }

  /**
   * A file in canonical form that holds `m`, against tasks that agree with `m` and cover
   * it: nothing to write either way.
   */
  lemma SettledExchange(s: Store, w: seq<string>, listId: nat, parent: Option<nat>, m: Dict)
    requires Valid(m) && Canonical(w) && DistinctTitles(w) && Parse(w) == m
    requires Poppable(InScope(Tasks(s, listId), parent), m)
    requires Settled(InScope(Tasks(s, listId), parent), m)
    requires forall k :: k in m.vals ==> k in KeySet(InScope(Tasks(s, listId), parent))
    ensures Exchange(s, w, listId, parent) == Outcome(w, m, [], None)
  {
    var f := InScope(Tasks(s, listId), parent);
    SettledAbsorbs(f, m);
    SettledPlan(listId, f, m, parent);
    WriteBackFixpoint(w, m);
  }

  /**
   * Idempotence of one exchange: running it again on the file and the service it produced
   * gives the same file and the same merged map, and sends no write.
   */
  lemma ExchangeAgain(s: Store, lines: seq<string>, listId: nat, parent: Option<nat>)
    requires ValidStore(s) && WellFormedFile(lines) && DistinctTitles(lines)
    requires CleanTasks(InScope(Tasks(s, listId), parent))
    requires Exchange(s, lines, listId, parent).failed.None?
    ensures var o := Exchange(s, lines, listId, parent);
      Exchange(ApplyAll(s, o.writes), o.lines, listId, parent) == Outcome(o.lines, o.merged, [], None)
  {
    var o := Exchange(s, lines, listId, parent);
    var f := InScope(Tasks(s, listId), parent);
    RemoteClean(f);
    LocalRoundTrip(lines, RemoteDict(f));
    ExchangeSettles(s, lines, listId, parent);
    SettledExchange(ApplyAll(s, o.writes), o.lines, listId, parent, o.merged);
  }

  /** Only tasks of the scope get marked: the promoted ids belong to tasks under `parent`. */
  lemma PromotedInScope(ts: seq<Task>, parent: Option<nat>, m: Dict)
    requires DistinctIds(ts)
    ensures forall i :: 0 <= i < |ts| && ts[i].id in Promoted(InScope(ts, parent), m) ==> ts[i].parent == parent
  {
    var f := InScope(ts, parent);
    forall i | 0 <= i < |ts| && ts[i].id in Promoted(f, m)
      ensures ts[i].parent == parent
    {
      PromotedAt(f, m, ts[i].id);
      var j :| 0 <= j < |f| && f[j].id == ts[i].id && Key(f[j]) in m.vals && m.vals[Key(f[j])] &&
        !IsCompleted(f[j]);
      InScopeMember(ts, parent, f[j]);
      var k :| 0 <= k < |ts| && ts[k] == f[j];
      assert k == i;
    }
  }

  /** An exchange changes no task outside its own scope, and no list. */
  lemma ExchangeOtherScope(s: Store, lines: seq<string>, listId: nat, parent: Option<nat>, q: Option<nat>)
    requires ValidStore(s) && Exchange(s, lines, listId, parent).failed.None? && q != parent
    ensures var a := ApplyAll(s, Exchange(s, lines, listId, parent).writes);
      a.lists == s.lists && InScope(Tasks(a, listId), q) == InScope(Tasks(s, listId), q)
  {
    var ts := Tasks(s, listId);
    var f := InScope(ts, parent);
    var m := Exchange(s, lines, listId, parent).merged;
    var x := Promoted(f, m);
    var b := NewTasks(s.nextId, Minus(m.keys, KeySet(f)), m.vals, parent);
    ExchangeStore(s, lines, listId, parent);
    InScopeAppend(MarkIds(ts, x), b, q);
    InScopeNone(b, q);
    assert DistinctIds(ts);
    PromotedInScope(ts, parent, m);
    InScopeMarkOther(ts, x, q);
  }

  // ---------------------------------------------------------------- the two syncs, again

  /** A lookup that found its list finds it again in a service with the same lists. */
  lemma ResolveListSame(s: Store, s': Store, name: string)
    requires s.lists == s'.lists && ResolveList(s, name).writes == []
    ensures ResolveList(s', name) == ResolveList(s, name)
  {
  }

  /** A lookup that found the day's task finds it again where the top level is the same. */
  lemma ResolveParentSame(s: Store, s': Store, listId: nat, stem: string)
    requires InScope(Tasks(s, listId), None) == InScope(Tasks(s', listId), None)
    requires ResolveParent(s, listId, stem).writes == []
    ensures ResolveParent(s', listId, stem) == ResolveParent(s, listId, stem)
  {
  }

  /**
   * Idempotence of `sync_tasks`: a second run on the file and the service the first run left
   * sends nothing and leaves the file as it is.
   */
  lemma SyncPassAgain(s: Store, lines: seq<string>, stem: string)
    requires ValidStore(s) && CleanStore(s) && WellFormedFile(lines) && DistinctTitles(lines)
    requires SyncPass(s, lines, stem).failed.None?
    ensures var o := SyncPass(s, lines, stem);
      SyncPass(ApplyAll(s, o.writes), o.lines, stem) == Outcome(o.lines, o.merged, [], None)
  {
    var r := ResolveList(s, stem);
    var s1 := ApplyAll(s, r.writes);
    var o := Exchange(s1, lines, r.id, None);
    ApplyAllValid(s, r.writes);
    ResolveListCreates(s, stem);
    assert Tasks(s1, r.id) == Tasks(s, r.id);
    CleanScope(s, r.id, None);
    ExchangeAgain(s1, lines, r.id, None);
    ApplyAllAppend(s, r.writes, o.writes);
    var a := ApplyAll(s1, o.writes);
    ExchangeOtherScope(s1, lines, r.id, None, Some(0));
    ResolveListAgain(s, stem);
    ResolveListSame(s1, a, stem);
  }

  /** The scope of the day's subtasks is clean after the lookup of the day's task. */
  lemma DailyScopeClean(s1: Store, listId: nat, stem: string, pid: nat)
    requires CleanTasks(InScope(Tasks(s1, listId), Some(pid)))
    ensures CleanTasks(InScope(Tasks(ApplyAll(s1, ResolveParent(s1, listId, stem).writes), listId), Some(pid)))
  {
    var q := ResolveParent(s1, listId, stem);
    if q.writes != [] {
      var w := CreateTask(listId, stem, None, None);
      var s2 := ApplyAll(s1, q.writes);
      ApplyAllOne(s1, w);
      assert Tasks(s2, listId) == Tasks(s1, listId) + [Created(s1, w)];
      InScopeAppend(Tasks(s1, listId), [Created(s1, w)], Some(pid));
      assert InScope([Created(s1, w)], Some(pid)) == [];
    }
  }

  /**
   * The lookups of a daily pass: the service they leave finds the same list and the same
   * day's task again, and the scope of the day's subtasks is still clean.
   */
  lemma DailyLookups(s: Store, stem: string)
    requires ValidStore(s) && CleanStore(s)
    ensures var r := ResolveList(s, DailyList);
      var s1 := ApplyAll(s, r.writes);
      var q := ResolveParent(s1, r.id, stem);
      var s2 := ApplyAll(s1, q.writes);
      && ValidStore(s2) && CleanTasks(InScope(Tasks(s2, r.id), Some(q.id)))
      && ResolveList(s2, DailyList) == Resolved(r.id, [])
      && ResolveParent(s2, r.id, stem) == Resolved(q.id, [])
  {
    var r := ResolveList(s, DailyList);
    var s1 := ApplyAll(s, r.writes);
    var q := ResolveParent(s1, r.id, stem);
    var s2 := ApplyAll(s1, q.writes);
    ApplyAllValid(s, r.writes);
    ApplyAllValid(s1, q.writes);
    ResolveListCreates(s, DailyList);
    assert Tasks(s1, r.id) == Tasks(s, r.id);
    CleanScope(s, r.id, Some(q.id));
    DailyScopeClean(s1, r.id, stem, q.id);
    ResolveParentCreates(s1, r.id, stem);
    assert s2.lists == s1.lists by {
      if q.writes != [] {
        ApplyAllOne(s1, CreateTask(r.id, stem, None, None));
      }
    }
    ResolveListAgain(s, DailyList);
    ResolveListSame(s1, s2, DailyList);
    ResolveParentAgain(s1, r.id, stem);
  }

  /** Once the list and the day's task are both found, a daily pass is its exchange alone. */
  lemma DailyPassFound(a: Store, lines: seq<string>, stem: string, id: nat, pid: nat)
    requires ResolveList(a, DailyList) == Resolved(id, [])
    requires ResolveParent(a, id, stem) == Resolved(pid, [])
    ensures DailyPass(a, lines, stem) == Exchange(a, lines, id, Some(pid))
  {
    assert ApplyAll(a, []) == a;
  }

  /** The writes of a daily pass take the service to its exchange's writes after the lookups. */
  lemma DailyPassStore(s: Store, lines: seq<string>, stem: string)
    ensures var r := ResolveList(s, DailyList);
      var s1 := ApplyAll(s, r.writes);
      var q := ResolveParent(s1, r.id, stem);
      var s2 := ApplyAll(s1, q.writes);
      && ApplyAll(s, DailyPass(s, lines, stem).writes) ==
           ApplyAll(s2, Exchange(s2, lines, r.id, Some(q.id)).writes)
      && DailyPass(s, lines, stem).failed == Exchange(s2, lines, r.id, Some(q.id)).failed
      && DailyPass(s, lines, stem).lines == Exchange(s2, lines, r.id, Some(q.id)).lines
      && DailyPass(s, lines, stem).merged == Exchange(s2, lines, r.id, Some(q.id)).merged
  {
    var r := ResolveList(s, DailyList);
    var s1 := ApplyAll(s, r.writes);
    var q := ResolveParent(s1, r.id, stem);
    var s2 := ApplyAll(s1, q.writes);
    var o := Exchange(s2, lines, r.id, Some(q.id));
    ApplyAllAppend(s, r.writes, q.writes);
    ApplyAllAppend(s, r.writes + q.writes, o.writes);
    ApplyAllAppend(s1, q.writes, o.writes);
  }

  /**
   * Idempotence of `sync_daily_tasks`: a second run finds the same list and the same day's
   * task, sends nothing and leaves the file as it is.
   */
  lemma DailyPassAgain(s: Store, lines: seq<string>, stem: string)
    requires ValidStore(s) && CleanStore(s) && WellFormedFile(lines) && DistinctTitles(lines)
    requires DailyPass(s, lines, stem).failed.None?
    ensures var o := DailyPass(s, lines, stem);
      DailyPass(ApplyAll(s, o.writes), o.lines, stem) == Outcome(o.lines, o.merged, [], None)
  {
    var r := ResolveList(s, DailyList);
    var s1 := ApplyAll(s, r.writes);
    var q := ResolveParent(s1, r.id, stem);
    var s2 := ApplyAll(s1, q.writes);
    var o := Exchange(s2, lines, r.id, Some(q.id));
    var a := ApplyAll(s2, o.writes);
    DailyLookups(s, stem);
    DailyPassStore(s, lines, stem);
    ExchangeAgain(s2, lines, r.id, Some(q.id));
    ExchangeOtherScope(s2, lines, r.id, Some(q.id), None);
    ResolveListSame(s2, a, DailyList);
    ResolveParentSame(s2, a, r.id, stem);
    DailyPassFound(a, o.lines, stem, r.id, q.id);
  }
}
