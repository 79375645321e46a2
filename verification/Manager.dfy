/**
 * Who owns a spawned sync worker. Every `start`, `stop` and `stop_all` is cut at its awaits, and the pieces of
 * concurrent calls interleave freely with the workers themselves.
 */
module Manager {
  import opened Prelude

  /** An account and a folder name. */
  datatype Key = Key(account: nat, folder: string)

  datatype Task = Task(key: Key, finished: bool, cancelled: bool, aborted: bool, abandoned: bool)

  /** A `stop` or `stop_all` in progress: its handles, how many it has cancelled and how many it has joined. */
  datatype Stop = Stop(handles: seq<nat>, cancelled: nat, joined: nat)

  /** `starting` is the key whose `start` holds the lock while it publishes. */
  datatype State = State(tasks: seq<Task>, registry: map<Key, nat>, starting: Option<Key>, stops: map<nat, Stop>)

  datatype Step =
    | StartBegin(key: Key)
    | StartSpawn
    | StartDropped
    | Finish(task: nat)
    | StopBegin(sid: nat, key: Key)
    | StopAllBegin(sid: nat, handles: seq<nat>)
    | CancelNext(sid: nat)
    | JoinNext(sid: nat)
    | JoinTimeout(sid: nat)
    | StopEnd(sid: nat)
    | StopDropped(sid: nat)

  const Initial := State([], map[], None, map[])

  predicate Live(s: State, w: nat) { w < |s.tasks| && !s.tasks[w].finished }

  predicate Distinct(h: seq<nat>) { forall i, j | 0 <= i < j < |h| :: h[i] != h[j] }

  /** The handles are the registry's, each once, in any order. */
  predicate Drains(s: State, h: seq<nat>)
  {
    && Distinct(h)
    && (forall w | w in h :: w < |s.tasks| && s.tasks[w].key in s.registry && s.registry[s.tasks[w].key] == w)
    && (forall k | k in s.registry :: s.registry[k] in h)
  }

  predicate Cancelling(s: State, sid: nat) { sid in s.stops && s.stops[sid].cancelled < |s.stops[sid].handles| }

  /** All cancelled, and some handle still to join: the only await of a stop that already owns its handles. */
  predicate Joining(s: State, sid: nat)
  {
    && sid in s.stops && s.stops[sid].cancelled >= |s.stops[sid].handles|
    && s.stops[sid].joined < |s.stops[sid].handles| && s.stops[sid].handles[s.stops[sid].joined] < |s.tasks|
  }

  predicate Enabled(s: State, step: Step)
  {
    match step
    case StartBegin(_) => s.starting.None?
    case StartSpawn => s.starting.Some?
    case StartDropped => s.starting.Some?
    case Finish(w) => Live(s, w)
    case StopBegin(sid, _) => s.starting.None? && sid !in s.stops
    case StopAllBegin(sid, h) => s.starting.None? && sid !in s.stops && Drains(s, h)
    case CancelNext(sid) => Cancelling(s, sid) && s.stops[sid].handles[s.stops[sid].cancelled] < |s.tasks|
    case JoinNext(sid) => Joining(s, sid) && s.tasks[s.stops[sid].handles[s.stops[sid].joined]].finished
    case JoinTimeout(sid) => Joining(s, sid)
    case StopEnd(sid) => sid in s.stops && s.stops[sid].cancelled == |s.stops[sid].handles| == s.stops[sid].joined
    case StopDropped(sid) => Joining(s, sid)
  }

  function Abandon(tasks: seq<Task>, h: seq<nat>): (r: seq<Task>)
    ensures |r| == |tasks|
  {
    seq(|tasks|, w requires 0 <= w < |tasks| => if w in h then tasks[w].(abandoned := true) else tasks[w])
  }

  function Apply(s: State, step: Step): State
    requires Enabled(s, step)
  {
    match step
    case StartBegin(key) =>
      if key in s.registry && Live(s, s.registry[key]) then s
      else s.(registry := s.registry - {key}, starting := Some(key))
    case StartSpawn =>
      s.(tasks := s.tasks + [Task(s.starting.value, false, false, false, false)],
         registry := s.registry[s.starting.value := |s.tasks|], starting := None)
    case StartDropped => s.(starting := None)
    case Finish(w) => s.(tasks := s.tasks[w := s.tasks[w].(finished := true)])
    case StopBegin(sid, key) =>
      if key in s.registry then s.(registry := s.registry - {key}, stops := s.stops[sid := Stop([s.registry[key]], 0, 0)]) else s
    case StopAllBegin(sid, h) => s.(registry := map[], stops := s.stops[sid := Stop(h, 0, 0)])
    case CancelNext(sid) =>
      var p := s.stops[sid];
      var w := p.handles[p.cancelled];
      s.(tasks := s.tasks[w := s.tasks[w].(cancelled := true)], stops := s.stops[sid := p.(cancelled := p.cancelled + 1)])
    case JoinNext(sid) => s.(stops := s.stops[sid := s.stops[sid].(joined := s.stops[sid].joined + 1)])
    case JoinTimeout(sid) =>
      var p := s.stops[sid];
      var w := p.handles[p.joined];
      s.(tasks := s.tasks[w := s.tasks[w].(aborted := true)], stops := s.stops[sid := p.(joined := p.joined + 1)])
    case StopEnd(sid) => s.(stops := s.stops - {sid})
    case StopDropped(sid) =>
      s.(tasks := Abandon(s.tasks, s.stops[sid].handles[s.stops[sid].joined..]), stops := s.stops - {sid})
  }

  ghost predicate Run(states: seq<State>, steps: seq<Step>)
  {
    && |states| == |steps| + 1 && states[0] == Initial
    && forall i {:trigger steps[i]} | 0 <= i < |steps| :: Enabled(states[i], steps[i]) && states[i + 1] == Apply(states[i], steps[i])
  }

  // ----- the invariant

  ghost predicate Registered(s: State, w: nat)
  {
    w < |s.tasks| && s.tasks[w].key in s.registry && s.registry[s.tasks[w].key] == w
  }

  ghost predicate HeldBy(s: State, sid: nat, w: nat) { sid in s.stops && w in s.stops[sid].handles }

  ghost predicate Held(s: State, w: nat) { exists sid :: HeldBy(s, sid, w) }

  /** A task nobody owns any more is over, or was cancelled and then aborted or left to notice by itself. */
  predicate Gone(t: Task) { t.finished || (t.cancelled && (t.aborted || t.abandoned)) }

  /** The registry names existing tasks under their own key, none of which was told to stop. */
  ghost predicate RegistryOk(s: State)
  {
    && (forall k | k in s.registry ::
          s.registry[k] < |s.tasks| && s.tasks[s.registry[k]].key == k
          && !s.tasks[s.registry[k]].cancelled && !s.tasks[s.registry[k]].aborted && !s.tasks[s.registry[k]].abandoned)
    && (s.starting.Some? ==> s.starting.value !in s.registry)
  }

  /** A stop in progress has cancelled and joined a prefix of its handles, cancelling them all before joining any. */
  ghost predicate StopOk(tasks: seq<Task>, p: Stop)
  {
    && p.joined <= p.cancelled <= |p.handles| && (p.joined > 0 ==> p.cancelled == |p.handles|)
    && Distinct(p.handles)
    && (forall i | 0 <= i < |p.handles| :: p.handles[i] < |tasks|)
    && (forall i | 0 <= i < p.cancelled :: tasks[p.handles[i]].cancelled)
    && (forall i | 0 <= i < p.joined :: tasks[p.handles[i]].finished || tasks[p.handles[i]].aborted)
  }

  ghost predicate StopsOk(s: State) { forall sid | sid in s.stops :: StopOk(s.tasks, s.stops[sid]) }

  /** Nothing is owned twice. */
  ghost predicate Disjoint(s: State)
  {
    && (forall sid, w | HeldBy(s, sid, w) :: !Registered(s, w))
    && (forall sid, sid', w | HeldBy(s, sid, w) && HeldBy(s, sid', w) :: sid == sid')
  }

  ghost predicate NoneLost(s: State)
  {
    forall w | 0 <= w < |s.tasks| :: Registered(s, w) || Held(s, w) || Gone(s.tasks[w])
  }

  ghost predicate Inv(s: State) { RegistryOk(s) && StopsOk(s) && Disjoint(s) && NoneLost(s) }

  // ----- every step keeps it

  /** Ownership carries over when no task changes hands and tasks only move towards their end. */
  ghost predicate Ages(t: Task, t': Task)
  {
    && t'.key == t.key && (t.finished ==> t'.finished) && (t.cancelled ==> t'.cancelled)
    && (t.aborted ==> t'.aborted) && (t.abandoned ==> t'.abandoned)
  }

  ghost predicate AllAge(ts: seq<Task>, ts': seq<Task>)
  {
    |ts| <= |ts'| && forall w | 0 <= w < |ts| :: Ages(ts[w], ts'[w])
  }

  lemma StopKept(ts: seq<Task>, ts': seq<Task>, p: Stop)
    requires StopOk(ts, p) && AllAge(ts, ts')
    ensures StopOk(ts', p)
  {
    forall i | 0 <= i < |p.handles|
      ensures Ages(ts[p.handles[i]], ts'[p.handles[i]])
    {
    }
  }

  lemma StopsKept(s: State, s': State, sid: nat)
    requires StopsOk(s) && AllAge(s.tasks, s'.tasks)
    requires forall x | x in s'.stops && x != sid :: x in s.stops && s.stops[x] == s'.stops[x]
    requires sid in s'.stops ==> StopOk(s'.tasks, s'.stops[sid])
    ensures StopsOk(s')
  {
    forall x | x in s'.stops
      ensures StopOk(s'.tasks, s'.stops[x])
    {
      if x != sid {
        StopKept(s.tasks, s'.tasks, s.stops[x]);
      }
    }
  }

  /** Same owners, tasks that only age: nothing is lost or owned twice. */
  lemma OwnersKept(s: State, s': State)
    requires Disjoint(s) && NoneLost(s) && AllAge(s.tasks, s'.tasks) && |s'.tasks| == |s.tasks|
    requires s'.registry == s.registry
    requires forall sid, w :: HeldBy(s, sid, w) <==> HeldBy(s', sid, w)
    ensures Disjoint(s') && NoneLost(s')
  {
    forall w | 0 <= w < |s.tasks|
      ensures Registered(s, w) <==> Registered(s', w)
      ensures Held(s, w) ==> Held(s', w)
      ensures Gone(s.tasks[w]) ==> Gone(s'.tasks[w])
    {
      assert Ages(s.tasks[w], s'.tasks[w]);
      if Held(s, w) {
        var sid :| HeldBy(s, sid, w);
        assert HeldBy(s', sid, w);
      }
    }
  }

  lemma FinishKeeps(s: State, w: nat)
    requires Inv(s) && Enabled(s, Finish(w))
    ensures Inv(Apply(s, Finish(w)))
  {
    var s' := Apply(s, Finish(w));
    StopsKept(s, s', 0) by {
      if 0 in s.stops {
        StopKept(s.tasks, s'.tasks, s.stops[0]);
      }
    }
    OwnersKept(s, s');
  }

  /** A stop changes only tasks it holds, so the registry's tasks stay as they were. */
  lemma RegistryKept(s: State, s': State, sid: nat)
    requires RegistryOk(s) && Disjoint(s) && sid in s.stops && AllAge(s.tasks, s'.tasks)
    requires s'.registry == s.registry && s'.starting == s.starting
    requires forall w | 0 <= w < |s.tasks| && w !in s.stops[sid].handles :: s'.tasks[w] == s.tasks[w]
    ensures RegistryOk(s')
  {
    forall k | k in s.registry
      ensures s'.tasks[s.registry[k]] == s.tasks[s.registry[k]]
    {
      assert Registered(s, s.registry[k]) && !HeldBy(s, sid, s.registry[k]);
    }
  }

  /** A stop that moves on while it keeps its handles. */
  lemma ProgressKeeps(s: State, s': State, sid: nat, p': Stop)
    requires Inv(s) && sid in s.stops && AllAge(s.tasks, s'.tasks) && |s'.tasks| == |s.tasks|
    requires p'.handles == s.stops[sid].handles && StopOk(s'.tasks, p')
    requires s'.stops == s.stops[sid := p'] && s'.registry == s.registry && s'.starting == s.starting
    requires forall w | 0 <= w < |s.tasks| && w !in p'.handles :: s'.tasks[w] == s.tasks[w]
    ensures Inv(s')
  {
    RegistryKept(s, s', sid);
    StopsKept(s, s', sid);
    OwnersKept(s, s');
  }

  lemma CancelStopOk(ts: seq<Task>, p: Stop)
    requires StopOk(ts, p) && p.cancelled < |p.handles|
    ensures var w := p.handles[p.cancelled];
            var ts' := ts[w := ts[w].(cancelled := true)];
            AllAge(ts, ts') && StopOk(ts', p.(cancelled := p.cancelled + 1))
  {
    var w := p.handles[p.cancelled];
    StopKept(ts, ts[w := ts[w].(cancelled := true)], p);
  }

  lemma CancelKeeps(s: State, sid: nat)
    requires Inv(s) && Enabled(s, CancelNext(sid))
    ensures Inv(Apply(s, CancelNext(sid)))
  {
    var s', p := Apply(s, CancelNext(sid)), s.stops[sid];
    CancelStopOk(s.tasks, p);
    ProgressKeeps(s, s', sid, p.(cancelled := p.cancelled + 1));
  }

  lemma JoinKeeps(s: State, sid: nat)
    requires Inv(s) && Enabled(s, JoinNext(sid))
    ensures Inv(Apply(s, JoinNext(sid)))
  {
    var s', p := Apply(s, JoinNext(sid)), s.stops[sid];
    ProgressKeeps(s, s', sid, p.(joined := p.joined + 1));
  }

  lemma TimeoutStopOk(ts: seq<Task>, p: Stop)
    requires StopOk(ts, p) && p.cancelled == |p.handles| && p.joined < |p.handles|
    ensures var w := p.handles[p.joined];
            var ts' := ts[w := ts[w].(aborted := true)];
            AllAge(ts, ts') && StopOk(ts', p.(joined := p.joined + 1))
  {
    var w := p.handles[p.joined];
    StopKept(ts, ts[w := ts[w].(aborted := true)], p);
  }

  lemma TimeoutKeeps(s: State, sid: nat)
    requires Inv(s) && Enabled(s, JoinTimeout(sid))
    ensures Inv(Apply(s, JoinTimeout(sid)))
  {
    var s', p := Apply(s, JoinTimeout(sid)), s.stops[sid];
    TimeoutStopOk(s.tasks, p);
    ProgressKeeps(s, s', sid, p.(joined := p.joined + 1));
  }

  /** A stop lets go: what it held is gone, everything else keeps its owner. */
  lemma LettingGoKeeps(s: State, s': State, sid: nat)
    requires Disjoint(s) && NoneLost(s) && AllAge(s.tasks, s'.tasks) && |s'.tasks| == |s.tasks|
    requires sid in s.stops && s'.registry == s.registry && s'.stops == s.stops - {sid}
    requires forall w | w in s.stops[sid].handles && w < |s.tasks| :: Gone(s'.tasks[w])
    ensures Disjoint(s') && NoneLost(s')
  {
    forall x, w | HeldBy(s', x, w)
      ensures HeldBy(s, x, w)
    {
    }
    forall w | 0 <= w < |s.tasks|
      ensures Registered(s, w) <==> Registered(s', w)
      ensures Registered(s', w) || Held(s', w) || Gone(s'.tasks[w])
    {
      assert Ages(s.tasks[w], s'.tasks[w]);
      if Held(s, w) {
        var x :| HeldBy(s, x, w);
        if x != sid {
          assert HeldBy(s', x, w);
        }
      }
    }
  }

  lemma EndKeeps(s: State, sid: nat)
    requires Inv(s) && Enabled(s, StopEnd(sid))
    ensures Inv(Apply(s, StopEnd(sid)))
  {
    var s' := Apply(s, StopEnd(sid));
    StopsKept(s, s', sid);
    LettingGoKeeps(s, s', sid);
  }

  lemma AbandonedAreGone(ts: seq<Task>, p: Stop)
    requires StopOk(ts, p) && p.cancelled == |p.handles|
    ensures var ts' := Abandon(ts, p.handles[p.joined..]);
            && AllAge(ts, ts')
            && (forall w | w in p.handles :: w < |ts| && Gone(ts'[w]))
            && (forall w | 0 <= w < |ts| && w !in p.handles :: ts'[w] == ts[w])
  {
    forall w | w in p.handles
      ensures w < |ts| && Gone(Abandon(ts, p.handles[p.joined..])[w])
    {
      var i :| 0 <= i < |p.handles| && p.handles[i] == w;
      if i >= p.joined {
        assert w == p.handles[p.joined..][i - p.joined];
      }
    }
  }

  lemma DropKeeps(s: State, sid: nat)
    requires Inv(s) && Enabled(s, StopDropped(sid))
    ensures Inv(Apply(s, StopDropped(sid)))
  {
    var s' := Apply(s, StopDropped(sid));
    AbandonedAreGone(s.tasks, s.stops[sid]);
    RegistryKept(s, s', sid);
    StopsKept(s, s', sid);
    LettingGoKeeps(s, s', sid);
  }

  lemma BeginKeeps(s: State, key: Key)
    requires Inv(s) && Enabled(s, StartBegin(key))
    ensures Inv(Apply(s, StartBegin(key)))
  {
    var s' := Apply(s, StartBegin(key));
    assert forall sid, w :: HeldBy(s, sid, w) <==> HeldBy(s', sid, w);
    forall w | 0 <= w < |s.tasks|
      ensures Registered(s', w) || Held(s', w) || Gone(s'.tasks[w])
    {
      if Held(s, w) {
        var sid :| HeldBy(s, sid, w);
        assert HeldBy(s', sid, w);
      }
    }
  }

  lemma SpawnKeeps(s: State)
    requires Inv(s) && Enabled(s, StartSpawn)
    ensures Inv(Apply(s, StartSpawn))
  {
    var s' := Apply(s, StartSpawn);
    assert forall sid, w :: HeldBy(s, sid, w) <==> HeldBy(s', sid, w);
    StopsKept(s, s', 0) by {
      if 0 in s.stops {
        StopKept(s.tasks, s'.tasks, s.stops[0]);
      }
    }
    forall sid: nat, w: nat | HeldBy(s, sid, w)
      ensures w < |s.tasks| && !Registered(s', w)
    {
      assert StopOk(s.tasks, s.stops[sid]);
      var i :| 0 <= i < |s.stops[sid].handles| && s.stops[sid].handles[i] == w;
      assert !Registered(s, w);
    }
    forall w | 0 <= w < |s'.tasks|
      ensures Registered(s', w) || Held(s', w) || Gone(s'.tasks[w])
    {
      if w < |s.tasks| {
        assert Registered(s, w) ==> Registered(s', w);
        if Held(s, w) {
          var sid :| HeldBy(s, sid, w);
          assert HeldBy(s', sid, w);
        }
      }
    }
  }

  /** Handing registered tasks over to a new stop. */
  lemma HandOverKeeps(s: State, s': State, sid: nat, h: seq<nat>)
    requires Inv(s) && s.starting.None? && sid !in s.stops && Distinct(h)
    requires forall w | w in h :: Registered(s, w)
    requires s'.tasks == s.tasks && s'.starting.None? && s'.stops == s.stops[sid := Stop(h, 0, 0)]
    requires forall k :: k in s'.registry <==> k in s.registry && s.registry[k] !in h
    requires forall k | k in s'.registry :: s'.registry[k] == s.registry[k]
    ensures Inv(s')
  {
    StopsKept(s, s', sid) by {
      assert forall i | 0 <= i < |h| :: h[i] in h;
    }
    forall x, w | HeldBy(s', x, w)
      ensures if x == sid then w in h && Registered(s, w) else HeldBy(s, x, w)
    {
    }
    forall w | 0 <= w < |s.tasks|
      ensures Registered(s', w) <==> Registered(s, w) && w !in h
      ensures Registered(s', w) || Held(s', w) || Gone(s'.tasks[w])
    {
      if w in h {
        assert HeldBy(s', sid, w);
      } else if Held(s, w) {
        var x :| HeldBy(s, x, w);
        assert HeldBy(s', x, w);
      }
    }
  }

  lemma StopBeginKeeps(s: State, sid: nat, key: Key)
    requires Inv(s) && Enabled(s, StopBegin(sid, key))
    ensures Inv(Apply(s, StopBegin(sid, key)))
  {
    if key in s.registry {
      var h := [s.registry[key]];
      HandOverKeeps(s, Apply(s, StopBegin(sid, key)), sid, h);
    }
  }

  lemma StopAllKeeps(s: State, sid: nat, h: seq<nat>)
    requires Inv(s) && Enabled(s, StopAllBegin(sid, h))
    ensures Inv(Apply(s, StopAllBegin(sid, h)))
  {
    HandOverKeeps(s, Apply(s, StopAllBegin(sid, h)), sid, h);
  }

  lemma StartDroppedKeeps(s: State)
    requires Inv(s) && Enabled(s, StartDropped)
    ensures Inv(Apply(s, StartDropped))
  {
    OwnersKept(s, Apply(s, StartDropped));
  }

  lemma StepKeeps(s: State, step: Step)
    requires Inv(s) && Enabled(s, step)
    ensures Inv(Apply(s, step))
  {
    match step
    case StartBegin(key) => BeginKeeps(s, key);
    case StartSpawn => SpawnKeeps(s);
    case StartDropped => StartDroppedKeeps(s);
    case Finish(w) => FinishKeeps(s, w);
    case StopBegin(sid, key) => StopBeginKeeps(s, sid, key);
    case StopAllBegin(sid, h) => StopAllKeeps(s, sid, h);
    case CancelNext(sid) => CancelKeeps(s, sid);
    case JoinNext(sid) => JoinKeeps(s, sid);
    case JoinTimeout(sid) => TimeoutKeeps(s, sid);
    case StopEnd(sid) => EndKeeps(s, sid);
    case StopDropped(sid) => DropKeeps(s, sid);
  }

  lemma {:induction false} RunKeeps(states: seq<State>, steps: seq<Step>, n: nat)
    requires Run(states, steps) && n < |states|
    ensures Inv(states[n])
  {
    if n > 0 {
      RunKeeps(states, steps, n - 1);
      assert Enabled(states[n - 1], steps[n - 1]);
      StepKeeps(states[n - 1], steps[n - 1]);
    }
  }

  // ----- theorems over every run

  /** No orphans: every spawned worker is over, registered, held by a stop, or was cancelled and then aborted or let go. */
  lemma NoOrphans(states: seq<State>, steps: seq<Step>, n: nat, w: nat)
    requires Run(states, steps) && n < |states| && w < |states[n].tasks|
    ensures var s := states[n];
            var t := s.tasks[w];
            t.finished || Registered(s, w) || Held(s, w) || (t.cancelled && (t.aborted || t.abandoned))
  {
    RunKeeps(states, steps, n);
  }

  /** Ownership is exclusive: one registered worker a key, never told to stop, and one owner a worker. */
  lemma OneOwner(states: seq<State>, steps: seq<Step>, n: nat, w: nat, w': nat)
    requires Run(states, steps) && n < |states| && w < |states[n].tasks| && w' < |states[n].tasks|
    ensures var s := states[n];
            && (Registered(s, w) && Registered(s, w') && s.tasks[w].key == s.tasks[w'].key ==> w == w')
            && (Registered(s, w) ==> !Held(s, w) && !s.tasks[w].cancelled)
            && (forall sid, sid' | HeldBy(s, sid, w) && HeldBy(s, sid', w) :: sid == sid')
  {
    RunKeeps(states, steps, n);
  }

  lemma AbandonOnlyByDrop(s: State, step: Step)
    requires Enabled(s, step) && !step.StopDropped? && forall w | 0 <= w < |s.tasks| :: !s.tasks[w].abandoned
    ensures forall w | 0 <= w < |Apply(s, step).tasks| :: !Apply(s, step).tasks[w].abandoned
  {
  }

  /** If no stopping call is dropped in the middle, every worker that lost its owner is over or was aborted after its cancellation. */
  lemma {:induction false} NothingAbandoned(states: seq<State>, steps: seq<Step>, n: nat)
    requires Run(states, steps) && n < |states|
    requires forall i | 0 <= i < n :: !steps[i].StopDropped?
    ensures forall w | 0 <= w < |states[n].tasks| :: !states[n].tasks[w].abandoned
    ensures forall w | 0 <= w < |states[n].tasks| && !Registered(states[n], w) && !Held(states[n], w) ::
              states[n].tasks[w].finished || (states[n].tasks[w].cancelled && states[n].tasks[w].aborted)
  {
    RunKeeps(states, steps, n);
    if n > 0 {
      NothingAbandoned(states, steps, n - 1);
      assert Enabled(states[n - 1], steps[n - 1]) && !steps[n - 1].StopDropped?;
      AbandonOnlyByDrop(states[n - 1], steps[n - 1]);
    }
  }

  /** A live registered worker leaves the registry only into the hands of a stop. */
  lemma OnlyStopsUnregister(s: State, step: Step, w: nat)
    requires Inv(s) && Enabled(s, step) && Registered(s, w) && Live(s, w)
    ensures var s' := Apply(s, step);
            Registered(s', w) || ((step.StopBegin? || step.StopAllBegin?) && HeldBy(s', step.sid, w))
  {
  }

  // ----- a stop always reaches its end on its own

  /** The next step of the stopping call; a join that does not return runs into its timeout. */
  function OwnStep(s: State, sid: nat): Step
    requires sid in s.stops
  {
    var p := s.stops[sid];
    if p.cancelled < |p.handles| then CancelNext(sid)
    else if p.joined < |p.handles| then JoinTimeout(sid)
    else StopEnd(sid)
  }

  lemma OwnStepEnabled(s: State, sid: nat)
    requires Inv(s) && sid in s.stops
    ensures Enabled(s, OwnStep(s, sid))
  {
    assert StopOk(s.tasks, s.stops[sid]);
  }

  /** Steps the call still needs. */
  function Remaining(p: Stop): int { 2 * |p.handles| - p.cancelled - p.joined }

  /** The state after the call has run to its end by itself. */
  ghost function Drive(s: State, sid: nat): State
    requires Inv(s) && sid in s.stops
    decreases Remaining(s.stops[sid])
  {
    OwnStepEnabled(s, sid);
    StepKeeps(s, OwnStep(s, sid));
    OwnStepEffect(s, sid);
    assert StopOk(s.tasks, s.stops[sid]);
    var s' := Apply(s, OwnStep(s, sid));
    if sid in s'.stops then Drive(s', sid) else s'
  }

  ghost predicate AllStopped(tasks: seq<Task>, h: seq<nat>)
  {
    forall w | w in h :: w < |tasks| && tasks[w].cancelled && (tasks[w].finished || tasks[w].aborted)
  }

  lemma OwnStepEffect(s: State, sid: nat)
    requires Inv(s) && sid in s.stops && Enabled(s, OwnStep(s, sid))
    ensures var s' := Apply(s, OwnStep(s, sid));
            && s'.stops - {sid} == s.stops - {sid} && s'.registry == s.registry && AllAge(s.tasks, s'.tasks)
            && (if sid in s'.stops then
                  s'.stops[sid].handles == s.stops[sid].handles && Remaining(s'.stops[sid]) < Remaining(s.stops[sid])
                else AllStopped(s'.tasks, s.stops[sid].handles))
  {
    assert StopOk(s.tasks, s.stops[sid]);
  }

  lemma AgesOn(a: seq<Task>, b: seq<Task>, c: seq<Task>)
    requires AllAge(a, b) && AllAge(b, c)
    ensures AllAge(a, c)
  {
    forall w | 0 <= w < |a|
      ensures Ages(a[w], c[w])
    {
      assert Ages(a[w], b[w]) && Ages(b[w], c[w]);
    }
  }

  /** Whatever state a stop is in, it can end without help, and then each worker it held is cancelled and over or aborted. */
  lemma {:induction false} StopCompletes(s: State, sid: nat)
    requires Inv(s) && sid in s.stops
    ensures var e := Drive(s, sid);
            && Inv(e) && e.stops == s.stops - {sid} && e.registry == s.registry && AllAge(s.tasks, e.tasks)
            && AllStopped(e.tasks, s.stops[sid].handles)
    decreases Remaining(s.stops[sid])
  {
    OwnStepEnabled(s, sid);
    StepKeeps(s, OwnStep(s, sid));
    OwnStepEffect(s, sid);
    var s' := Apply(s, OwnStep(s, sid));
    if sid in s'.stops {
      StopCompletes(s', sid);
      AgesOn(s.tasks, s'.tasks, Drive(s', sid).tasks);
    } else {
      assert s'.stops == s'.stops - {sid};
    }
  }

  /** A worker being stopped may still be alive while its successor under the same key already runs. */
  lemma StopOverlapsStart(key: Key) returns (states: seq<State>, steps: seq<Step>)
    ensures Run(states, steps) && |states| > 0
    ensures var s := states[|states| - 1];
            Live(s, 0) && Live(s, 1) && s.tasks[0].key == s.tasks[1].key == key && Held(s, 0) && Registered(s, 1)
  {
    var t := Task(key, false, false, false, false);
    steps := [StartBegin(key), StartSpawn, StopBegin(0, key), StartBegin(key), StartSpawn];
    var s1 := State([], map[], Some(key), map[]);
    var s2 := State([t], map[key := 0], None, map[]);
    var s3 := State([t], map[], None, map[0 := Stop([0], 0, 0)]);
    var s4 := s3.(starting := Some(key));
    var s5 := State([t, t], map[key := 1], None, s3.stops);
    states := [Initial, s1, s2, s3, s4, s5];
    assert map[key := 0] - {key} == map[];
    assert Apply(s2, steps[2]) == s3;
    assert HeldBy(s5, 0, 0);
  }

  // ----- the calls themselves, each piece one step of the protocol

  /** The handles of the registry, in the order the map gives them. */
  method Handles(s: State) returns (handles: seq<nat>)
    requires RegistryOk(s)
    ensures Drains(s, handles)
  {
    var left := s.registry;
    handles := [];
    while left != map[]
      invariant left.Keys <= s.registry.Keys && forall k | k in left :: left[k] == s.registry[k]
      invariant Distinct(handles) && forall w | w in handles :: Registered(s, w) && s.tasks[w].key !in left
      invariant forall k | k in s.registry && k !in left :: s.registry[k] in handles
      decreases |left|
    {
      var k :| k in left;
      handles := handles + [left[k]];
      left := left - {k};
    }
  }

  // Other calls and the workers themselves go on while a stopping call awaits.

  /** The step is not taken by the stopping call `sid`. */
  predicate Foreign(step: Step, sid: nat)
  {
    match step
    case CancelNext(x) => x != sid
    case JoinNext(x) => x != sid
    case JoinTimeout(x) => x != sid
    case StopEnd(x) => x != sid
    case StopDropped(x) => x != sid
    case _ => true
  }

  /** Nothing but newly spawned workers has entered the registry. */
  ghost predicate OnlyNew(s: State, s': State)
  {
    |s.tasks| <= |s'.tasks| && forall k | k in s'.registry :: s'.registry[k] >= |s.tasks| || (k in s.registry && s'.registry[k] == s.registry[k])
  }

  lemma StepEffect(s: State, step: Step)
    requires Enabled(s, step)
    ensures AllAge(s.tasks, Apply(s, step).tasks) && OnlyNew(s, Apply(s, step))
  {
    StepAges(s, step);
    StepRegisters(s, step);
  }

  lemma StepAges(s: State, step: Step)
    requires Enabled(s, step)
    ensures AllAge(s.tasks, Apply(s, step).tasks)
  {
  }

  lemma StepRegisters(s: State, step: Step)
    requires Enabled(s, step)
    ensures OnlyNew(s, Apply(s, step))
  {
  }

  lemma ForeignLeavesStop(s: State, step: Step, sid: nat)
    requires Enabled(s, step) && Foreign(step, sid) && sid in s.stops
    ensures sid in Apply(s, step).stops && Apply(s, step).stops[sid] == s.stops[sid]
  {
  }

  /** While a `start` holds the lock no other step touches the registry or spawns a worker. */
  lemma LockHolds(s: State, step: Step)
    requires s.starting.Some? && Enabled(s, step) && !step.StartSpawn? && !step.StartDropped?
    ensures Apply(s, step).registry == s.registry && Apply(s, step).starting == s.starting && |Apply(s, step).tasks| == |s.tasks|
  {
  }

  lemma OnlyNewOn(a: State, b: State, c: State)
    requires OnlyNew(a, b) && OnlyNew(b, c)
    ensures OnlyNew(a, c)
  {
  }

  /** What happens elsewhere at each of the call's awaits; steps that are not possible do not happen. */
  type World = nat -> seq<Step>

  ghost predicate Quiet(world: World) { forall i: nat :: world(i) == [] }

  class WorkerManager {
    var s: State

    constructor ()
      ensures s == Initial
    {
      s := Initial;
    }

    /** Workers end and stopping calls go on while `start` publishes; the lock keeps everybody else off the registry. */
    method InterfereLocked(steps: seq<Step>)
      requires Inv(s) && s.starting.Some?
      modifies this
      ensures Inv(s) && s.starting == old(s.starting) && s.registry == old(s.registry)
      ensures |s.tasks| == |old(s.tasks)| && AllAge(old(s.tasks), s.tasks)
      ensures steps == [] ==> s == old(s)
    {
      for i := 0 to |steps|
        invariant Inv(s) && s.starting == old(s.starting) && s.registry == old(s.registry)
        invariant |s.tasks| == |old(s.tasks)| && AllAge(old(s.tasks), s.tasks)
        invariant i == 0 ==> s == old(s)
      {
        if Enabled(s, steps[i]) && !steps[i].StartSpawn? && !steps[i].StartDropped? {
          ghost var before := s;
          StepKeeps(s, steps[i]);
          StepAges(s, steps[i]);
          LockHolds(s, steps[i]);
          s := Apply(s, steps[i]);
          AgesOn(old(s.tasks), before.tasks, s.tasks);
        }
      }
    }

    /**
     * Returns false exactly when a live worker is registered under the key; nothing changes then. Otherwise one new
     * worker is registered in the place of a finished one, if any, whatever goes on while the call publishes.
     */
    method Start(key: Key, meanwhile: seq<Step>) returns (started: bool)
      requires Inv(s) && s.starting.None?
      modifies this
      ensures Inv(s) && s.starting.None?
      ensures started <==> !(key in old(s.registry) && Live(old(s), old(s.registry)[key]))
      ensures !started ==> s == old(s)
      ensures started ==>
                && |s.tasks| == |old(s.tasks)| + 1 && AllAge(old(s.tasks), s.tasks)
                && s.tasks[|old(s.tasks)|] == Task(key, false, false, false, false)
                && s.registry == old(s.registry)[key := |old(s.tasks)|]
      ensures started && meanwhile == [] ==>
                s.stops == old(s.stops) && s.tasks == old(s.tasks) + [Task(key, false, false, false, false)]
    {
      started := Claim(key);
      if started {
        InterfereLocked(meanwhile);
        ghost var mid := s;
        Spawn();
        AgesOn(old(s.tasks), mid.tasks, s.tasks);
      }
    }

    /** Spawn the worker, register it and give the lock back. */
    method Spawn()
      requires Inv(s) && s.starting.Some?
      modifies this
      ensures Inv(s) && s.starting.None? && s.stops == old(s.stops)
      ensures s.tasks == old(s.tasks) + [Task(old(s.starting).value, false, false, false, false)]
      ensures s.registry == old(s.registry)[old(s.starting).value := |old(s.tasks)|] && AllAge(old(s.tasks), s.tasks)
    {
      StepKeeps(s, StartSpawn);
      StepAges(s, StartSpawn);
      s := Apply(s, StartSpawn);
    }

    /** Take the lock, refuse if a live worker is registered, and forget a finished one. */
    method Claim(key: Key) returns (claimed: bool)
      requires Inv(s) && s.starting.None?
      modifies this
      ensures Inv(s) && s.tasks == old(s.tasks) && s.stops == old(s.stops)
      ensures claimed <==> !(key in old(s.registry) && Live(old(s), old(s.registry)[key]))
      ensures claimed ==> s.starting == Some(key) && s.registry == old(s.registry) - {key}
      ensures !claimed ==> s == old(s)
    {
      StepKeeps(s, StartBegin(key));
      s := Apply(s, StartBegin(key));
      claimed := s.starting.Some?;
    }

    /** Take every handle out of the registry. */
    method Drain(sid: nat)
      requires Inv(s) && s.starting.None? && sid !in s.stops
      modifies this
      ensures Inv(s) && s.starting.None? && s.registry == map[] && s.tasks == old(s.tasks)
      ensures sid in s.stops && s.stops - {sid} == old(s.stops)
      ensures s.stops[sid].cancelled == s.stops[sid].joined == 0
      ensures forall w: nat :: Registered(old(s), w) <==> w in s.stops[sid].handles
    {
      var handles := Handles(s);
      StepKeeps(s, StopAllBegin(sid, handles));
      s := Apply(s, StopAllBegin(sid, handles));
      assert s.stops - {sid} == old(s.stops);
    }

    /** The rest of the system moves on. */
    method Interfere(sid: nat, steps: seq<Step>)
      requires Inv(s) && sid in s.stops
      modifies this
      ensures Inv(s) && sid in s.stops && s.stops[sid] == old(s.stops[sid])
      ensures AllAge(old(s.tasks), s.tasks) && OnlyNew(old(s), s)
      ensures steps == [] ==> s == old(s)
    {
      for i := 0 to |steps|
        invariant Inv(s) && sid in s.stops && s.stops[sid] == old(s.stops[sid])
        invariant AllAge(old(s.tasks), s.tasks) && OnlyNew(old(s), s)
        invariant i == 0 ==> s == old(s)
      {
        if Enabled(s, steps[i]) && Foreign(steps[i], sid) {
          ghost var before := s;
          StepKeeps(s, steps[i]);
          StepEffect(s, steps[i]);
          ForeignLeavesStop(s, steps[i], sid);
          s := Apply(s, steps[i]);
          AgesOn(old(s.tasks), before.tasks, s.tasks);
          OnlyNewOn(old(s), before, s);
        }
      }
    }

    /** One step of the stopping call itself. */
    method Advance(sid: nat, step: Step)
      requires Inv(s) && sid in s.stops && (step == OwnStep(s, sid) || (step == JoinNext(sid) && Enabled(s, step)))
      modifies this
      ensures Inv(s) && s == Apply(old(s), step)
      ensures s.registry == old(s.registry) && AllAge(old(s.tasks), s.tasks) && OnlyNew(old(s), s)
      ensures s.stops - {sid} == old(s.stops) - {sid}
    {
      OwnStepEnabled(s, sid);
      StepKeeps(s, step);
      OwnStepEffect(s, sid);
      StepEffect(s, step);
      s := Apply(s, step);
    }

    /** A piece of foreign work, then one step of the call. */
    method AwaitThenStep(sid: nat, steps: seq<Step>, joining: bool)
      requires Inv(s) && sid in s.stops && s.stops[sid].joined < |s.stops[sid].handles|
      requires joining <==> s.stops[sid].cancelled == |s.stops[sid].handles|
      modifies this
      ensures Inv(s) && sid in s.stops
      ensures s.stops[sid] == if joining then old(s.stops[sid]).(joined := old(s.stops[sid]).joined + 1)
                              else old(s.stops[sid]).(cancelled := old(s.stops[sid]).cancelled + 1)
      ensures AllAge(old(s.tasks), s.tasks) && OnlyNew(old(s), s)
      ensures steps == [] ==> s.registry == old(s.registry) && s.stops - {sid} == old(s.stops) - {sid}
    {
      Interfere(sid, steps);
      ghost var mid := s;
      assert StopOk(s.tasks, s.stops[sid]);
      if joining && s.tasks[s.stops[sid].handles[s.stops[sid].joined]].finished {
        Advance(sid, JoinNext(sid));
      } else {
        Advance(sid, OwnStep(s, sid));
      }
      AgesOn(old(s.tasks), mid.tasks, s.tasks);
      OnlyNewOn(old(s), mid, s);
    }

    /** Cancel all handles of a stopping call. */
    method CancelAll(sid: nat, world: World)
      requires Inv(s) && sid in s.stops && s.stops[sid].joined == 0
      modifies this
      ensures Inv(s) && sid in s.stops && s.stops[sid].handles == old(s.stops[sid].handles)
      ensures s.stops[sid].cancelled == |s.stops[sid].handles| && s.stops[sid].joined == 0
      ensures AllAge(old(s.tasks), s.tasks) && OnlyNew(old(s), s)
      ensures Quiet(world) ==> s.registry == old(s.registry) && s.stops - {sid} == old(s.stops) - {sid}
    {
      while s.stops[sid].cancelled < |s.stops[sid].handles|
        invariant Inv(s) && sid in s.stops && s.stops[sid].handles == old(s.stops[sid].handles) && s.stops[sid].joined == 0
        invariant AllAge(old(s.tasks), s.tasks) && OnlyNew(old(s), s)
        invariant Quiet(world) ==> s.registry == old(s.registry) && s.stops - {sid} == old(s.stops) - {sid}
        decreases |s.stops[sid].handles| - s.stops[sid].cancelled
      {
        ghost var before := s;
        AwaitThenStep(sid, world(s.stops[sid].cancelled), false);
        AgesOn(old(s.tasks), before.tasks, s.tasks);
        OnlyNewOn(old(s), before, s);
      }
      assert StopOk(s.tasks, s.stops[sid]);
    }

    /** Join each worker in turn; one that is not over in time is aborted. Workers may end while they are waited for. */
    method JoinAll(sid: nat, world: World)
      requires Inv(s) && sid in s.stops && s.stops[sid].cancelled == |s.stops[sid].handles|
      modifies this
      ensures Inv(s) && sid !in s.stops && AllAge(old(s.tasks), s.tasks) && OnlyNew(old(s), s)
      ensures AllStopped(s.tasks, old(s.stops[sid].handles))
      ensures Quiet(world) ==> s.registry == old(s.registry) && s.stops == old(s.stops) - {sid}
    {
      ghost var handles := s.stops[sid].handles;
      while s.stops[sid].joined < |s.stops[sid].handles|
        invariant Inv(s) && sid in s.stops && s.stops[sid].handles == handles && s.stops[sid].cancelled == |handles|
        invariant AllAge(old(s.tasks), s.tasks) && OnlyNew(old(s), s)
        invariant Quiet(world) ==> s.registry == old(s.registry) && s.stops - {sid} == old(s.stops) - {sid}
        decreases |s.stops[sid].handles| - s.stops[sid].joined
      {
        ghost var before := s;
        AwaitThenStep(sid, world(s.stops[sid].joined), true);
        AgesOn(old(s.tasks), before.tasks, s.tasks);
        OnlyNewOn(old(s), before, s);
      }
      EndStop(sid);
    }

    method EndStop(sid: nat)
      requires Inv(s) && sid in s.stops && s.stops[sid].cancelled == |s.stops[sid].handles| == s.stops[sid].joined
      modifies this
      ensures Inv(s) && s.tasks == old(s.tasks) && s.registry == old(s.registry) && s.stops == old(s.stops) - {sid}
      ensures AllStopped(s.tasks, old(s.stops[sid].handles))
    {
      assert StopOk(s.tasks, s.stops[sid]);
      StepKeeps(s, StopEnd(sid));
      s := Apply(s, StopEnd(sid));
    }

    /** Cancel and join what a stopping call has taken over, whatever else goes on. */
    method Finish(sid: nat, cancelling: World, joining: World)
      requires Inv(s) && sid in s.stops && s.stops[sid].joined == 0
      modifies this
      ensures Inv(s) && sid !in s.stops && AllAge(old(s.tasks), s.tasks) && OnlyNew(old(s), s)
      ensures AllStopped(s.tasks, old(s.stops[sid].handles))
      ensures Quiet(cancelling) && Quiet(joining) ==> s.registry == old(s.registry) && s.stops == old(s.stops) - {sid}
    {
      CancelAll(sid, cancelling);
      ghost var mid := s;
      JoinAll(sid, joining);
      AgesOn(old(s.tasks), mid.tasks, s.tasks);
      OnlyNewOn(old(s), mid, s);
    }

    /**
     * Afterwards every worker that was registered is cancelled, and over or aborted, and the manager holds none but
     * workers started meanwhile; if nothing else went on, it is empty.
     */
    method StopAll(sid: nat, cancelling: World, joining: World)
      requires Inv(s) && s.starting.None? && sid !in s.stops
      modifies this
      ensures Inv(s) && sid !in s.stops && AllAge(old(s.tasks), s.tasks)
      ensures forall w: nat | Registered(old(s), w) ::
                w < |s.tasks| && s.tasks[w].cancelled && (s.tasks[w].finished || s.tasks[w].aborted)
      ensures forall k | k in s.registry :: s.registry[k] >= |old(s.tasks)|
      ensures Quiet(cancelling) && Quiet(joining) ==> s.registry == map[] && s.stops == old(s.stops)
    {
      Drain(sid);
      Finish(sid, cancelling, joining);
    }

    /** Take one handle out of the registry. */
    method TakeOver(sid: nat, key: Key)
      requires Inv(s) && s.starting.None? && sid !in s.stops && key in s.registry
      modifies this
      ensures Inv(s) && s.tasks == old(s.tasks) && s.registry == old(s.registry) - {key}
      ensures sid in s.stops && s.stops - {sid} == old(s.stops) && s.stops[sid] == Stop([old(s.registry)[key]], 0, 0)
    {
      StepKeeps(s, StopBegin(sid, key));
      s := Apply(s, StopBegin(sid, key));
      assert s.stops - {sid} == old(s.stops);
    }

    /** Returns false exactly when nothing is registered under the key; nothing changes then. */
    method StopKey(sid: nat, key: Key, cancelling: World, joining: World) returns (found: bool)
      requires Inv(s) && s.starting.None? && sid !in s.stops
      modifies this
      ensures Inv(s) && sid !in s.stops && AllAge(old(s.tasks), s.tasks)
      ensures found <==> key in old(s.registry)
      ensures !found ==> s == old(s)
      ensures found ==>
                && AllStopped(s.tasks, [old(s.registry)[key]])
                && (key in s.registry ==> s.registry[key] >= |old(s.tasks)|)
      ensures found && Quiet(cancelling) && Quiet(joining) ==> s.registry == old(s.registry) - {key} && s.stops == old(s.stops)
    {
      found := key in s.registry;
      if found {
        TakeOver(sid, key);
        Finish(sid, cancelling, joining);
      }
    }
  }
}
