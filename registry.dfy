/**
 * The task registry (`Manager`) and the state changes the REST endpoints
 * make to it: start with its admission limit, status lookup, pause, cancel,
 * resume and the two clearing operations.
 */
module Registry {
  import opened Wrappers
  import opened Tasks
  import YtdlpOutput

  /** MAX_TASKS: the most pending or downloading tasks a start admits. */
  const MaxTasks: nat := 20

  /** The HTTP errors the endpoints raise. */
  datatype ApiError = TooManyActive | NotFound
  {
    function Code(): (c: int)
      ensures c == 404 || c == 429
    {
      match this
      case TooManyActive => 429
      case NotFound => 404
    }
  }

  predicate Distinct(ids: seq<string>)
  {
    forall i, j :: 0 <= i < j < |ids| ==> ids[i] != ids[j]
  }

  /** The registry invariant: `order` lists every key of `tasks` exactly
      once, and every task is stored under its own id. */
  ghost predicate Consistent(tasks: map<string, Task>, order: seq<string>)
  {
    && (forall k :: k in tasks <==> k in order)
    && Distinct(order)
    && (forall k :: k in tasks ==> tasks[k].id == k && Sound(tasks[k]))
  }

  lemma RemovalKeepsConsistent(tasks: map<string, Task>, order: seq<string>, gone: set<string>)
    requires Consistent(tasks, order)
    ensures Consistent(tasks - gone, Without(order, gone))
  {
  }

  /** 1 when task `x` exists and takes an admission slot. */
  function Slot(x: string, tasks: map<string, Task>): nat
  {
    if x in tasks && tasks[x].status.IsActive() then 1 else 0
  }

  /** The number of tasks listed in `ids` that are pending or downloading. */
  function ActiveCount(ids: seq<string>, tasks: map<string, Task>): (n: nat)
    ensures n <= |ids|
  {
    if ids == [] then 0 else Slot(ids[0], tasks) + ActiveCount(ids[1..], tasks)
  }

  /** The listed ids whose task is pending or downloading. */
  function ActiveIn(ids: seq<string>, tasks: map<string, Task>): set<string>
  {
    set k | k in ids && k in tasks && tasks[k].status.IsActive()
  }

  /** Splitting off the first id splits off its slot. */
  lemma ActiveInCons(ids: seq<string>, tasks: map<string, Task>)
    requires ids != []
    ensures ActiveIn(ids, tasks)
      == (if Slot(ids[0], tasks) == 1 then {ids[0]} else {}) + ActiveIn(ids[1..], tasks)
  {
    assert forall k :: k in ids <==> k == ids[0] || k in ids[1..];
  }

  /** The tail of a list of distinct ids is distinct and lacks the head. */
  lemma DistinctTail(ids: seq<string>)
    requires ids != [] && Distinct(ids)
    ensures Distinct(ids[1..]) && ids[0] !in ids[1..]
  {
    var rest := ids[1..];
    forall j | 0 <= j < |rest| ensures rest[j] != ids[0] {
      assert rest[j] == ids[1 + j];
    }
  }

  /** Over distinct ids, the count is the number of listed active tasks. */
  lemma {:induction false} ActiveCountCountsIds(ids: seq<string>, tasks: map<string, Task>)
    requires Distinct(ids)
    ensures ActiveCount(ids, tasks) == |ActiveIn(ids, tasks)|
  {
    if ids == [] {
      assert ActiveIn(ids, tasks) == {};
    } else {
      var x, rest := ids[0], ids[1..];
      DistinctTail(ids);
      ActiveCountCountsIds(rest, tasks);
      ActiveInCons(ids, tasks);
      var here: set<string> := if Slot(x, tasks) == 1 then {x} else {};
      assert here !! ActiveIn(rest, tasks);
      assert |here| == Slot(x, tasks);
    }
  }

  /** The admission check of start counts, like the source's list of
      pending or downloading tasks, every such task of the registry. */
  lemma ActiveCountCountsActive(tasks: map<string, Task>, order: seq<string>)
    requires Consistent(tasks, order)
    ensures ActiveCount(order, tasks) == |set k | k in tasks && tasks[k].status.IsActive()|
  {
    ActiveCountCountsIds(order, tasks);
    assert ActiveIn(order, tasks) == set k | k in tasks && tasks[k].status.IsActive();
  }

  /** The count depends only on the slots of the listed ids. */
  lemma {:induction false} ActiveCountFrame(ids: seq<string>, tasks: map<string, Task>, tasks': map<string, Task>)
    requires forall i :: 0 <= i < |ids| ==> Slot(ids[i], tasks) == Slot(ids[i], tasks')
    ensures ActiveCount(ids, tasks) == ActiveCount(ids, tasks')
  {
    if ids != [] {
      ActiveCountFrame(ids[1..], tasks, tasks');
    }
  }

  lemma {:induction false} ActiveCountConcat(a: seq<string>, b: seq<string>, tasks: map<string, Task>)
    ensures ActiveCount(a + b, tasks) == ActiveCount(a, tasks) + ActiveCount(b, tasks)
  {
    if a != [] {
      assert (a + b)[1..] == a[1..] + b;
      ActiveCountConcat(a[1..], b, tasks);
    } else {
      assert a + b == b;
    }
  }

  /** Adding a task under a new id adds its own slot and nothing else. */
  lemma ActiveCountInsert(ids: seq<string>, tasks: map<string, Task>, tid: string, t: Task)
    requires tid !in ids
    ensures ActiveCount(ids + [tid], tasks[tid := t]) == ActiveCount(ids, tasks) + (if t.status.IsActive() then 1 else 0)
  {
    ActiveCountFrame(ids, tasks, tasks[tid := t]);
    ActiveCountConcat(ids, [tid], tasks[tid := t]);
    assert [tid][1..] == [];
  }

  /** Replacing one listed task changes the count by the change of its slot. */
  lemma {:induction false} ActiveCountUpdate(ids: seq<string>, tasks: map<string, Task>, tid: string, t: Task)
    requires Distinct(ids) && tid in ids && tid in tasks
    ensures ActiveCount(ids, tasks[tid := t]) + Slot(tid, tasks)
         == ActiveCount(ids, tasks) + Slot(tid, tasks[tid := t])
  {
    if ids[0] == tid {
      assert tid !in ids[1..] by {
        forall j | 0 <= j < |ids[1..]| ensures ids[1..][j] != tid {
          assert ids[1 + j] != ids[0];
        }
      }
      ActiveCountFrame(ids[1..], tasks, tasks[tid := t]);
    } else {
      assert tid in ids[1..] by {
        var k :| 0 <= k < |ids| && ids[k] == tid;
        assert ids[1..][k - 1] == tid;
      }
      ActiveCountUpdate(ids[1..], tasks, tid, t);
    }
  }

  lemma UpdateTwice(m: map<string, Task>, k: string, a: Task, b: Task)
    ensures m[k := a][k := b] == m[k := b]
  {
  }

  /** Python's list comprehension `[tid for tid, t in tasks.items() if t.status == s]`. */
  function IdsWithStatus(ids: seq<string>, tasks: map<string, Task>, s: Status): (r: seq<string>)
    ensures forall x :: x in r <==> x in ids && x in tasks && tasks[x].status == s
    ensures Distinct(ids) ==> Distinct(r)
  {
    if ids == [] then []
    else
      var rest := IdsWithStatus(ids[1..], tasks, s);
      assert Distinct(ids) ==> ids[0] !in ids[1..] && Distinct(ids[1..]) by {
        if Distinct(ids) {
          forall j | 0 <= j < |ids[1..]| ensures ids[1..][j] != ids[0] {
            assert ids[1 + j] != ids[0];
          }
        }
      }
      if ids[0] in tasks && tasks[ids[0]].status == s then [ids[0]] + rest else rest
  }

  /** `ids` with every member of `gone` removed, order kept. */
  function Without(ids: seq<string>, gone: set<string>): (r: seq<string>)
    ensures forall x :: x in r <==> x in ids && x !in gone
    ensures |r| <= |ids|
    ensures Distinct(ids) ==> Distinct(r)
  {
    if ids == [] then []
    else
      var rest := Without(ids[1..], gone);
      assert Distinct(ids) ==> ids[0] !in ids[1..] && Distinct(ids[1..]) by {
        if Distinct(ids) {
          forall j | 0 <= j < |ids[1..]| ensures ids[1..][j] != ids[0] {
            assert ids[1 + j] != ids[0];
          }
        }
      }
      if ids[0] in gone then rest else [ids[0]] + rest
  }

  /** `a` occurs in `ids` before an occurrence of `b`. */
  predicate Before(ids: seq<string>, a: string, b: string)
  {
    exists p, q :: 0 <= p < q < |ids| && ids[p] == a && ids[q] == b
  }

  /** Any two entries of `r` appear in the same order in `ids`. */
  predicate InOrderOf(r: seq<string>, ids: seq<string>)
  {
    forall i, j :: 0 <= i < j < |r| ==> Before(ids, r[i], r[j])
  }

  /** Removal keeps the order of the ids that stay. */
  lemma {:induction false} WithoutKeepsOrder(ids: seq<string>, gone: set<string>)
    ensures InOrderOf(Without(ids, gone), ids)
  {
    if ids != [] {
      var x, tail, rest := ids[0], ids[1..], Without(ids[1..], gone);
      WithoutKeepsOrder(tail, gone);
      assert ids == [x] + tail;
      if x in gone {
        assert Without(ids, gone) == rest;
        InOrderUnderHead(rest, tail, x);
      } else {
        assert Without(ids, gone) == [x] + rest;
        InOrderBothHeads(rest, tail, x);
      }
    }
  }

  /** Order within `tail` is order within `[x] + tail`. */
  lemma InOrderUnderHead(r: seq<string>, tail: seq<string>, x: string)
    requires InOrderOf(r, tail)
    ensures InOrderOf(r, [x] + tail)
  {
    var ids := [x] + tail;
    forall i, j | 0 <= i < j < |r| ensures Before(ids, r[i], r[j]) {
      assert Before(tail, r[i], r[j]);
      var p, q :| 0 <= p < q < |tail| && tail[p] == r[i] && tail[q] == r[j];
      assert ids[p + 1] == r[i] && ids[q + 1] == r[j];
    }
    assert InOrderOf(r, ids);
  }

  /** A common head keeps the order, when the rest of `r` lies in `tail`. */
  lemma InOrderBothHeads(r: seq<string>, tail: seq<string>, x: string)
    requires InOrderOf(r, tail) && forall y :: y in r ==> y in tail
    ensures InOrderOf([x] + r, [x] + tail)
  {
    var r', ids := [x] + r, [x] + tail;
    forall i, j | 0 <= i < j < |r'| ensures Before(ids, r'[i], r'[j]) {
      assert r'[j] == r[j - 1];
      if i == 0 {
        assert r[j - 1] in tail;
        var q :| 0 <= q < |tail| && tail[q] == r[j - 1];
        assert ids[0] == r'[0] && ids[q + 1] == r'[j];
      } else {
        assert r'[i] == r[i - 1] && Before(tail, r[i - 1], r[j - 1]);
        var p, q :| 0 <= p < q < |tail| && tail[p] == r[i - 1] && tail[q] == r[j - 1];
        assert ids[p + 1] == r'[i] && ids[q + 1] == r'[j];
      }
    }
    assert InOrderOf(r', ids);
  }

  lemma {:induction false} WithoutStep(ids: seq<string>, gone: set<string>, x: string)
    ensures Without(Without(ids, gone), {x}) == Without(ids, gone + {x})
  {
    if ids != [] {
      WithoutStep(ids[1..], gone, x);
    }
  }

  lemma {:induction false} WithoutNothing(ids: seq<string>)
    ensures Without(ids, {}) == ids
  {
    if ids != [] {
      WithoutNothing(ids[1..]);
    }
  }

  lemma MapRemoveStep(m: map<string, Task>, gone: set<string>, x: string)
    ensures (m - gone) - {x} == m - (gone + {x})
  {
  }

  /** The ids of a prefix grow by one id per step. */
  lemma PrefixIdsStep(ids: seq<string>, i: nat, j: nat)
    requires j == i + 1 && j <= |ids|
    ensures (set x | x in ids[..j]) == (set x | x in ids[..i]) + {ids[i]}
  {
    assert ids[..j] == ids[..i] + [ids[i]];
  }

  /** The ids whose task has status `s`. */
  function HavingStatus(tasks: map<string, Task>, s: Status): set<string>
  {
    set k | k in tasks && tasks[k].status == s
  }

  /** Clearing tasks of a status that holds no admission slot leaves the
      active count as it was. */
  lemma {:induction false} ClearKeepsActiveCount(ids: seq<string>, tasks: map<string, Task>, s: Status)
    requires !s.IsActive()
    ensures ActiveCount(Without(ids, HavingStatus(tasks, s)), tasks - HavingStatus(tasks, s))
         == ActiveCount(ids, tasks)
  {
    if ids != [] {
      ClearKeepsActiveCount(ids[1..], tasks, s);
      var gone := HavingStatus(tasks, s);
      if ids[0] in gone {
        assert Slot(ids[0], tasks) == 0;
      } else {
        assert Slot(ids[0], tasks - gone) == Slot(ids[0], tasks);
      }
    }
  }

  /** The status views of the listed tasks, in order. */
  function Statuses(ids: seq<string>, tasks: map<string, Task>): (r: seq<TaskStatus>)
    requires forall i :: 0 <= i < |ids| ==> ids[i] in tasks
    ensures |r| == |ids|
    ensures forall i :: 0 <= i < |ids| ==> r[i] == ToStatus(tasks[ids[i]])
  {
    if ids == [] then [] else [ToStatus(tasks[ids[0]])] + Statuses(ids[1..], tasks)
  }

  /** A task with the fetched page title recorded, when there is one. */
  function WithTitle(t: Task, title: Option<string>): (r: Task)
    ensures r == t || (title.Some? && title.value != [] && r == t.(title := title))
    ensures title.Some? && title.value != [] ==> r.title == title
  {
    if title.Some? && title.value != [] then t.(title := title) else t
  }

  /** The worker a started or resumed task gets. */
  datatype Runner = YtDlpRunner | ImageRunner | RejectUnsupported | NoRunner

  /** The `runner` closures of start and resume: video and audio go to
      yt-dlp, images to the plain HTTP download; any other category is marked
      as an error on start and left alone on resume. */
  function RunnerFor(category: string, resuming: bool): (r: Runner)
    ensures r == YtDlpRunner <==> category == "video" || category == "audio"
    ensures r == ImageRunner <==> category == "image"
    ensures r == RejectUnsupported <==> !resuming && category != "video" && category != "audio" && category != "image"
    ensures r == NoRunner <==> resuming && category != "video" && category != "audio" && category != "image"
  {
    if category == "video" || category == "audio" then YtDlpRunner
    else if category == "image" then ImageRunner
    else if resuming then NoRunner
    else RejectUnsupported
  }

  /** The message the start runner stores for an unsupported category. */
  const UnsupportedMessage: string := "Unsupported category"

  /**
   * The registry: Python's `dict[str, Task]` as the map `tasks`, with the
   * dictionary's insertion order as `order`.
   */
  class Manager {
    var tasks: map<string, Task>
    var order: seq<string>

    ghost predicate Valid()
      reads this
    {
      Consistent(tasks, order)
    }

    constructor ()
      ensures Valid() && tasks == map[] && order == []
    {
      tasks := map[];
      order := [];
    }

    /** The number of tasks that currently hold an admission slot. */
    function Active(): nat
      reads this
    {
      ActiveCount(order, tasks)
    }

    /** `Manager.get`: the task under `tid`, or None for the KeyError. */
    function Get(tid: string): (r: Option<Task>)
      reads this
      requires Valid()
      ensures r.Some? <==> tid in tasks
      ensures r.Some? ==> r.value == tasks[tid] && r.value.id == tid
    {
      if tid in tasks then Some(tasks[tid]) else None
    }

    /** `Manager.all`: one status per task, in insertion order. */
    function All(): (r: seq<TaskStatus>)
      reads this
      requires Valid()
      ensures |r| == |order|
      ensures forall i :: 0 <= i < |order| ==> r[i] == ToStatus(tasks[order[i]]) && r[i].id == order[i]
    {
      Statuses(order, tasks)
    }

    /** GET /api/download/{tid}/status. */
    function GetStatus(tid: string): (r: Result<TaskStatus, ApiError>)
      reads this
      requires Valid()
      ensures r.Failure? <==> tid !in tasks
      ensures r.Failure? ==> r.error == NotFound
      ensures r.Success? ==> r.value == ToStatus(tasks[tid]) && r.value.id == tid
    {
      match Get(tid)
      case None => Failure(NotFound)
      case Some(t) => Success(ToStatus(t))
    }

    /**
     * POST /api/download/start, up to the point where the worker thread is
     * started: the admission check, the new pending task under the fresh id
     * `tid` (uuid4 in the source), and the page title `fetchedTitle` that
     * yt-dlp reported for the url.
     */
    method Start(req: StartRequest, tid: string, fetchedTitle: Option<string>) returns (r: Result<TaskStatus, ApiError>)
      requires Valid()
      requires tid !in tasks
      modifies this
      ensures Valid()
      ensures old(Active()) >= MaxTasks ==>
        r == Failure(TooManyActive) && tasks == old(tasks) && order == old(order)
      ensures old(Active()) < MaxTasks ==>
        && order == old(order) + [tid]
        && tasks == old(tasks)[tid := WithTitle(NewTask(tid, req), fetchedTitle)]
        && r == Success(ToStatus(tasks[tid]))
        && Active() == old(Active()) + 1
      ensures old(Active()) <= MaxTasks ==> Active() <= MaxTasks
    {
      if ActiveCount(order, tasks) >= MaxTasks {
        return Failure(TooManyActive);
      }
      var task := WithTitle(NewTask(tid, req), fetchedTitle);
      ActiveCountInsert(order, tasks, tid, task);
      assert Distinct(order + [tid]) by {
        assert forall i :: 0 <= i < |order| ==> (order + [tid])[i] == order[i];
      }
      tasks := tasks[tid := task];
      order := order + [tid];
      r := Success(ToStatus(task));
    }

    /** The common part of pause, cancel and resume: overwrite the control
        flag and the status of one task. */
    method SetControl(tid: string, c: Control, s: Status) returns (r: Result<TaskStatus, ApiError>)
      requires Valid()
      modifies this
      ensures Valid() && order == old(order)
      ensures tid !in old(tasks) ==> r == Failure(NotFound) && tasks == old(tasks)
      ensures tid in old(tasks) ==>
        && tasks == old(tasks)[tid := old(tasks)[tid].(control := c, status := s)]
        && r == Success(ToStatus(tasks[tid]))
        && Active() + Slot(tid, old(tasks)) == old(Active()) + (if s.IsActive() then 1 else 0)
    {
      match Get(tid)
      case None =>
        r := Failure(NotFound);
      case Some(t) =>
        var t' := t.(control := c, status := s);
        Put(tid, t');
        r := Success(ToStatus(t'));
    }

    /** Store `t` as the task `tid`, as the source's in-place writes to the
        task object do: only that entry changes, and the active count moves
        by the change of its slot. */
    method Put(tid: string, t: Task)
      requires Valid() && tid in tasks && t.id == tid && Sound(t)
      modifies this
      ensures Valid() && order == old(order) && tasks == old(tasks)[tid := t]
      ensures Active() + Slot(tid, old(tasks)) == old(Active()) + Slot(tid, tasks)
    {
      ActiveCountUpdate(order, tasks, tid, t);
      tasks := tasks[tid := t];
    }

    /** POST /api/download/{tid}/pause. */
    method Pause(tid: string) returns (r: Result<TaskStatus, ApiError>)
      requires Valid()
      modifies this
      ensures Valid() && order == old(order)
      ensures tid !in old(tasks) ==> r == Failure(NotFound) && tasks == old(tasks)
      ensures tid in old(tasks) ==>
        && tasks == old(tasks)[tid := old(tasks)[tid].(control := PauseRequested, status := Paused)]
        && r == Success(ToStatus(tasks[tid]))
        && Active() == old(Active()) - Slot(tid, old(tasks))
    {
      r := SetControl(tid, PauseRequested, Paused);
    }

    /** POST /api/download/{tid}/cancel. */
    method Cancel(tid: string) returns (r: Result<TaskStatus, ApiError>)
      requires Valid()
      modifies this
      ensures Valid() && order == old(order)
      ensures tid !in old(tasks) ==> r == Failure(NotFound) && tasks == old(tasks)
      ensures tid in old(tasks) ==>
        && tasks == old(tasks)[tid := old(tasks)[tid].(control := CancelRequested, status := Canceled)]
        && r == Success(ToStatus(tasks[tid]))
        && Active() == old(Active()) - Slot(tid, old(tasks))
    {
      r := SetControl(tid, CancelRequested, Canceled);
    }

    /** POST /api/download/{tid}/resume, before its worker thread starts.
        Resume does not consult the admission limit. */
    method Resume(tid: string) returns (r: Result<TaskStatus, ApiError>)
      requires Valid()
      modifies this
      ensures Valid() && order == old(order)
      ensures tid !in old(tasks) ==> r == Failure(NotFound) && tasks == old(tasks)
      ensures tid in old(tasks) ==>
        && tasks == old(tasks)[tid := old(tasks)[tid].(control := NoControl, status := Downloading)]
        && r == Success(ToStatus(tasks[tid]))
        && Active() == old(Active()) + 1 - Slot(tid, old(tasks))
    {
      r := SetControl(tid, NoControl, Downloading);
    }

    /** The `runner` closure that start (`resuming` false) and resume hand
        to the worker thread: the worker the task's category selects; on
        start, an unsupported category marks the task as an error instead. */
    method Dispatch(tid: string, resuming: bool) returns (r: Runner)
      requires Valid() && tid in tasks
      modifies this
      ensures Valid() && order == old(order)
      ensures r == RunnerFor(old(tasks)[tid].category, resuming)
      ensures r == RejectUnsupported ==>
        && tasks == old(tasks)[tid := old(tasks)[tid].(status := Error, message := Some(UnsupportedMessage))]
        && Active() == old(Active()) - Slot(tid, old(tasks))
      ensures r != RejectUnsupported ==> tasks == old(tasks)
    {
      var t := tasks[tid];
      r := RunnerFor(t.category, resuming);
      if r == RejectUnsupported {
        Put(tid, t.(status := Error, message := Some(UnsupportedMessage)));
      }
    }

    /** The first block of `run_ytdlp`: the task starts downloading from 0. */
    method BeginRun(tid: string)
      requires Valid() && tid in tasks
      modifies this
      ensures Valid() && order == old(order)
      ensures tasks == old(tasks)[tid := YtdlpOutput.Begin(old(tasks)[tid])]
      ensures Active() == old(Active()) + 1 - Slot(tid, old(tasks))
    {
      Put(tid, YtdlpOutput.Begin(tasks[tid]));
    }

    /** The `except` block of a worker: the task becomes an error carrying
        the exception's text `msg`. */
    method FailRun(tid: string, msg: string)
      requires Valid() && tid in tasks
      modifies this
      ensures Valid() && order == old(order)
      ensures tasks == old(tasks)[tid := old(tasks)[tid].(status := Error, message := Some(msg))]
      ensures Active() == old(Active()) - Slot(tid, old(tasks))
    {
      Put(tid, tasks[tid].(status := Error, message := Some(msg)));
    }

    /** One pass of the output loop on the registry's task: the line's
        progress, speed, ETA and file name are stored, then the control flag,
        which pause and cancel may have set since the last line, is checked;
        `stopped` says whether the worker returns. */
    method ReadLine(tid: string, raw: string) returns (stopped: bool)
      requires Valid() && tid in tasks
      modifies this
      ensures Valid() && order == old(order)
      ensures var t1 := YtdlpOutput.ApplyLine(old(tasks)[tid], raw);
        && (stopped <==> t1.control != NoControl)
        && tasks == old(tasks)[tid := if stopped then YtdlpOutput.ControlStop(t1).value else t1]
      ensures Active() + Slot(tid, old(tasks)) == old(Active()) + Slot(tid, tasks)
    {
      var t1 := YtdlpOutput.ApplyLine(tasks[tid], raw);
      var stop := YtdlpOutput.ControlStop(t1);
      stopped := stop.Some?;
      Put(tid, if stopped then stop.value else t1);
    }

    /** The end of `run_ytdlp` after the output: the glob fallback and the
        final completed-or-error block. The task no longer holds a slot. */
    method SettleRun(tid: string, candidates: seq<string>, now: string)
      requires Valid() && tid in tasks
      modifies this
      ensures Valid() && order == old(order)
      ensures tasks == old(tasks)[tid := YtdlpOutput.Finalise(YtdlpOutput.Fallback(old(tasks)[tid], candidates), now)]
      ensures Active() == old(Active()) - Slot(tid, old(tasks))
    {
      Put(tid, YtdlpOutput.Finalise(YtdlpOutput.Fallback(tasks[tid], candidates), now));
    }

    /** The `for raw_line in process.stdout` loop on the registry's task,
        when no endpoint runs between two lines: the stored task and
        `stopped` are what `Consume` computes. */
    method FollowLines(tid: string, lines: seq<string>) returns (stopped: bool)
      requires Valid() && tid in tasks
      modifies this
      ensures Valid() && order == old(order)
      ensures tasks == old(tasks)[tid := YtdlpOutput.Consume(old(tasks)[tid], lines).0]
      ensures stopped == YtdlpOutput.Consume(old(tasks)[tid], lines).1
      ensures Active() + Slot(tid, old(tasks)) == old(Active()) + Slot(tid, tasks)
    {
      ghost var run := YtdlpOutput.Consume(tasks[tid], lines);
      ghost var cur := tasks[tid];
      assert tasks == old(tasks)[tid := cur];
      assert lines[0..] == lines;
      stopped := false;
      var i := 0;
      while i < |lines|
        invariant 0 <= i <= |lines|
        invariant Valid() && order == old(order)
        invariant tasks == old(tasks)[tid := cur]
        invariant run == YtdlpOutput.Consume(cur, lines[i..])
        invariant Active() + Slot(tid, old(tasks)) == old(Active()) + Slot(tid, tasks)
      {
        YtdlpOutput.ConsumeStep(cur, lines[i..]);
        assert lines[i..][0] == lines[i] && lines[i..][1..] == lines[i + 1..];
        stopped := ReadLine(tid, lines[i]);
        UpdateTwice(old(tasks), tid, cur, tasks[tid]);
        cur := tasks[tid];
        if stopped {
          assert run == (cur, true);
          return;
        }
        i := i + 1;
      }
      assert run == (cur, false);
    }

    /** A whole `run_ytdlp` on the registry's task when no endpoint runs
        between its steps: the stored task is what `RunOutcome` computes, and
        the run gives its admission slot back. */
    method RunWorker(tid: string, spawnError: Option<string>, lines: seq<string>,
                     candidates: seq<string>, now: string)
      requires Valid() && tid in tasks
      modifies this
      ensures Valid() && order == old(order)
      ensures tasks == old(tasks)[tid := YtdlpOutput.RunOutcome(old(tasks)[tid], spawnError, lines, candidates, now)]
      ensures Active() == old(Active()) - Slot(tid, old(tasks))
    {
      ghost var t0 := tasks[tid];
      ghost var r := YtdlpOutput.RunOutcome(t0, spawnError, lines, candidates, now);
      YtdlpOutput.RunOutcomeCases(t0, spawnError, lines, candidates, now);
      YtdlpOutput.RunSettles(t0, spawnError, lines, candidates, now);
      assert !r.status.IsActive();
      BeginRun(tid);
      ghost var a := tasks[tid];
      if spawnError.Some? {
        FailRun(tid, spawnError.value);
        UpdateTwice(old(tasks), tid, a, tasks[tid]);
      } else {
        var stopped := FollowLines(tid, lines);
        ghost var b := tasks[tid];
        UpdateTwice(old(tasks), tid, a, b);
        if !stopped {
          SettleRun(tid, candidates, now);
          UpdateTwice(old(tasks), tid, b, tasks[tid]);
        }
      }
      assert tasks[tid] == r;
    }

    /** Delete, in place, every task whose status is `s`. */
    method ClearStatus(s: Status)
      requires Valid()
      modifies this
      ensures Valid()
      ensures tasks == old(tasks) - HavingStatus(old(tasks), s)
      ensures order == Without(old(order), HavingStatus(old(tasks), s))
    {
      var toDelete := IdsWithStatus(order, tasks, s);
      assert (set x | x in toDelete) == HavingStatus(tasks, s);
      RemovalKeepsConsistent(tasks, order, HavingStatus(tasks, s));
      DeleteAll(toDelete);
    }

    /** The `for tid in to_delete: del self.tasks[tid]` loop. */
    method DeleteAll(toDelete: seq<string>)
      modifies this
      ensures tasks == old(tasks) - (set x | x in toDelete)
      ensures order == Without(old(order), set x | x in toDelete)
    {
      ghost var gone: set<string> := {};
      WithoutNothing(order);
      assert tasks == old(tasks) - gone;
      var i := 0;
      while i < |toDelete|
        invariant 0 <= i <= |toDelete|
        invariant gone == set x | x in toDelete[..i]
        invariant tasks == old(tasks) - gone
        invariant order == Without(old(order), gone)
      {
        var tid := toDelete[i];
        WithoutStep(old(order), gone, tid);
        MapRemoveStep(old(tasks), gone, tid);
        PrefixIdsStep(toDelete, i, i + 1);
        tasks := tasks - {tid};
        order := Without(order, {tid});
        gone := gone + {tid};
        i := i + 1;
      }
      assert toDelete[..i] == toDelete;
    }

    /** `Manager.clear_completed`. */
    method ClearCompleted()
      requires Valid()
      modifies this
      ensures Valid()
      ensures tasks == old(tasks) - HavingStatus(old(tasks), Completed)
      ensures order == Without(old(order), HavingStatus(old(tasks), Completed))
      ensures Active() == old(Active())
    {
      ClearStatus(Completed);
      ClearKeepsActiveCount(old(order), old(tasks), Completed);
    }

    /** `Manager.clear_canceled`. */
    method ClearCanceled()
      requires Valid()
      modifies this
      ensures Valid()
      ensures tasks == old(tasks) - HavingStatus(old(tasks), Canceled)
      ensures order == Without(old(order), HavingStatus(old(tasks), Canceled))
      ensures Active() == old(Active())
    {
      ClearStatus(Canceled);
      ClearKeepsActiveCount(old(order), old(tasks), Canceled);
    }
  }
}
