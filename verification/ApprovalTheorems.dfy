/** What the approval protocol guarantees over every run. */
module ApprovalTheorems {
  import opened Prelude
  import opened Json
  import opened Gates
  import opened ApprovalStore
  import opened Broadcast
  import opened ApprovalProtocol
  import opened ApprovalInvariant

  ghost predicate Announced(s: State, id: ApprovalId)
  {
    exists i :: 0 <= i < |s.announced| && s.announced[i].id == id
  }

  /** The call waits, its connection is up, and nothing is left between the hub and the call. */
  ghost predicate WaitsWithNothingInFlight(s: State, c: CallId)
  {
    && AtWithRow(s, c, Waiting)
    && c in s.subs && s.subs[c].open && Drained(s.subs[c].stages)
    && s.channel.Some? && s.subs[c].cursor == s.channel.value.Tail()
  }

  /** With every queue drained, a waiting call's row is decided exactly when that decision is yet to be published or never will be. */
  lemma NoLostDecision(k: Config, states: seq<State>, steps: seq<Step>, n: nat, c: CallId)
    requires Run(k, states, steps) && n < |states| && WaitsWithNothingInFlight(states[n], c)
    ensures var s := states[n];
            var id := s.calls[c].approval.value;
            && !Announced(s, id)
            && (s.rows[id].state != Pending <==> id in s.deciding + s.abandoned)
  {
    var s := states[n];
    RunInv(k, states, steps, n);
    QuiescentRowIsUndecided(k, s, c);
  }

  lemma QuiescentRowIsUndecided(k: Config, s: State, c: CallId)
    requires Inv(k, s) && WaitsWithNothingInFlight(s, c)
    ensures !Announced(s, s.calls[c].approval.value)
    ensures RowOf(s, c).state != Pending <==> s.calls[c].approval.value in s.deciding + s.abandoned
  {
    assert Covered(s, c) && SubInv(k, s, c);
  }

  lemma RunStepEvolves(k: Config, states: seq<State>, steps: seq<Step>, i: nat)
    requires Run(k, states, steps) && i < |steps|
    ensures Evolves(states[i].rows, states[i + 1].rows)
    ensures states[i].announced <= states[i + 1].announced
  {
    StepsEvolveRows(k, states[i], states[i + 1], steps[i]);
  }

  /** Rows only ever leave pending, and only once: a decided row reads the same for the rest of the run. */
  lemma {:induction false} DecidedOnce(k: Config, states: seq<State>, steps: seq<Step>, i: nat, j: nat)
    requires Run(k, states, steps) && i <= j < |states|
    ensures Evolves(states[i].rows, states[j].rows)
    ensures states[i].announced <= states[j].announced
    decreases j
  {
    if i < j {
      DecidedOnce(k, states, steps, i, j - 1);
      RunStepEvolves(k, states, steps, j - 1);
    }
  }

  /** At most one decided event per approval is ever published, and it carries the stored final state. */
  lemma AnnouncedOnce(k: Config, states: seq<State>, steps: seq<Step>, n: nat, i: nat, j: nat)
    requires Run(k, states, steps) && n < |states|
    requires i < |states[n].announced| && j < |states[n].announced|
    ensures var p := states[n].announced[i];
            p.id in states[n].rows && states[n].rows[p.id].state == p.state != Pending
    ensures states[n].announced[i].id == states[n].announced[j].id ==> i == j
  {
    RunInv(k, states, steps, n);
  }

  /**
   * Whatever a wait returns is the stored decision, now and for the rest of the run; the caller's
   * error for a state still pending is unreachable.
   */
  lemma WaitersAgreeWithTheTable(k: Config, states: seq<State>, steps: seq<Step>, n: nat, m: nat, c: CallId)
    requires Run(k, states, steps) && n <= m < |states| && c in states[n].calls
    ensures var call := states[n].calls[c];
            && (call.phase.Resolved? || call.phase in {Finished(ApprovalDenied), Finished(ApprovalExpired)} ==>
                  call.approval.Some? && call.approval.value in states[m].rows)
            && (call.phase.Resolved? ==> states[m].rows[call.approval.value].state == call.phase.state != Pending)
            && (call.phase == Finished(ApprovalDenied) ==> states[m].rows[call.approval.value].state == Denied)
            && (call.phase == Finished(ApprovalExpired) ==> states[m].rows[call.approval.value].state == Expired)
            && call.phase != Finished(ApprovalTimeout)
  {
    RunInv(k, states, steps, n);
    assert CallShape(states[n], c);
    DecidedOnce(k, states, steps, n, m);
  }

  /**
   * A request reaches the daemon at most once per call. A dangerous one does so only if, when the call looked, the first
   * gate of its tool in the table that matched auto-allowed it, or the row this very call created is allowed, and with
   * the approved arguments plus the actor.
   */
  lemma ForwardedOnlyWhenAllowed(k: Config, states: seq<State>, steps: seq<Step>, n: nat, i: nat)
    requires Run(k, states, steps) && n < |states| && i < |states[n].forwarded|
    ensures var s, f := states[n], states[n].forwarded[i];
            && f.call in s.calls
            && f.op == s.calls[f.call].tool.op
            && (forall j | 0 <= j < |s.forwarded| && s.forwarded[j].call == f.call :: j == i)
            && (s.calls[f.call].tool.dangerous ==> AllowedForward(states, steps, n, f))
            && (!s.calls[f.call].tool.dangerous ==> f.args == s.calls[f.call].args)
  {
    var s, f := states[n], states[n].forwarded[i];
    RunInv(k, states, steps, n);
    assert Justified(s, f);
    var call := s.calls[f.call];
    if call.tool.dangerous {
      ActorOnlyAdded(call.tool, call.args);
      if call.approval.None? {
        SeenGatesWereInTheTable(k, states, steps, n, f.call);
        AutoAllowedByTable(states, steps, n, f.call);
      }
    }
  }

  /** The two licences for a dangerous request, and what it carries. */
  ghost predicate AllowedForward(states: seq<State>, steps: seq<Step>, n: nat, f: Forward)
    requires n <= |steps| && n < |states| && f.call in states[n].calls
  {
    var s, call := states[n], states[n].calls[f.call];
    && (if call.args.Object?
        then f.args.Object? && SameButActor(call.tool, call.args.fields, f.args.fields)
        else f.args == call.args)
    && (|| (exists m :: 0 <= m < n && steps[m] == EvaluateGatesStep(f.call)
                     && FirstMatchAllows(states[m].gates, call.tool.name, call.args))
        || (&& call.approval.Some? && call.approval.value in s.rows
            && s.rows[call.approval.value] == Approval(call.tool.name, call.args, Allowed)
            && forall d | d in s.calls && d != f.call :: s.calls[d].approval != call.approval))
  }

  /** In the gate table, the first gate of the tool that matches the arguments auto-allows. */
  ghost predicate FirstMatchAllows(gates: seq<Gate>, tool: string, args: Value)
  {
    exists i :: AllowsAt(gates, tool, args, i)
  }

  /** It is the gate at `i`. */
  ghost predicate AllowsAt(gates: seq<Gate>, tool: string, args: Value, i: nat)
  {
    FirstAt(gates, tool, args, i) && gates[i].action == AutoAllow
  }

  /** The gate at `i` is the first of the tool in the table that matches the arguments. */
  ghost predicate FirstAt(gates: seq<Gate>, tool: string, args: Value, i: nat)
  {
    && i < |gates| && gates[i].tool == tool && GateMatches(gates[i], args)
    && forall j | 0 <= j < i && gates[j].tool == tool :: !GateMatches(gates[j], args)
  }

  /** Picking out the tool's gates keeps their order, so the first match among them is the first in the table. */
  lemma ToolGatesDecide(gates: seq<Gate>, tool: string, args: Value)
    ensures Decide(GatesForTool(gates, tool), args).action == AutoAllow <==> FirstMatchAllows(gates, tool, args)
    ensures forall i: nat | FirstAt(gates, tool, args, i) :: Decide(GatesForTool(gates, tool), args).action == gates[i].action
    ensures (forall i: nat :: !FirstAt(gates, tool, args, i)) ==> Decide(GatesForTool(gates, tool), args).action == Require
  {
    var i := TableVerdict(gates, tool, args);
    if i < |gates| {
      assert forall j: nat | FirstAt(gates, tool, args, j) :: i == j;
      if gates[i].action == AutoAllow {
        assert AllowsAt(gates, tool, args, i);
      }
    }
  }

  /** The place of the first match in the table, or its length when there is none, and the decision taken. */
  lemma {:induction false} TableVerdict(gates: seq<Gate>, tool: string, args: Value) returns (i: nat)
    ensures i < |gates| ==> FirstAt(gates, tool, args, i) && Decide(GatesForTool(gates, tool), args).action == gates[i].action
    ensures i >= |gates| ==> (forall j | 0 <= j < |gates| && gates[j].tool == tool :: !GateMatches(gates[j], args))
                             && Decide(GatesForTool(gates, tool), args).action == Require
  {
    if gates == [] {
      i := 0;
    } else {
      var rest, picked := gates[1..], GatesForTool(gates, tool);
      if gates[0].tool == tool {
        assert picked[0] == gates[0] && picked[1..] == GatesForTool(rest, tool);
      } else {
        assert picked == GatesForTool(rest, tool);
      }
      if gates[0].tool == tool && GateMatches(gates[0], args) {
        i := 0;
      } else {
        var j := TableVerdict(rest, tool, args);
        i := j + 1;
        assert forall x | 0 < x < |gates| :: gates[x] == rest[x - 1];
      }
    }
  }

  /** The gates a call saw are those of its tool, in the table as it was when the call evaluated them. */
  ghost predicate SeenInTable(states: seq<State>, steps: seq<Step>, n: nat, c: CallId)
    requires n <= |steps| && n < |states| && c in states[n].calls
  {
    exists m :: 0 <= m < n && steps[m] == EvaluateGatesStep(c)
             && states[n].calls[c].seen == GatesForTool(states[m].gates, states[n].calls[c].tool.name)
  }

  lemma {:induction false} SeenGatesWereInTheTable(k: Config, states: seq<State>, steps: seq<Step>, n: nat, c: CallId)
    requires Run(k, states, steps) && n < |states| && c in states[n].calls
    ensures states[n].calls[c].seen != [] ==> SeenInTable(states, steps, n, c)
  {
    if n > 0 {
      var s, t, step := states[n - 1], states[n], steps[n - 1];
      assert Next(k, s, t, step);
      RequestStays(k, s, t, step, c);
      if step == EvaluateGatesStep(c) {
        VerdictTaken(k, s, t, c);
        SeenNow(states, steps, n, c);
      } else if c in s.calls && t.calls[c].seen != [] {
        SeenGatesWereInTheTable(k, states, steps, n - 1, c);
        SeenStillInTable(states, steps, n, c);
      }
    }
  }

  lemma SeenNow(states: seq<State>, steps: seq<Step>, n: nat, c: CallId)
    requires 0 < n <= |steps| && n < |states| && c in states[n].calls && steps[n - 1] == EvaluateGatesStep(c)
    requires states[n].calls[c].seen == GatesForTool(states[n - 1].gates, states[n].calls[c].tool.name)
    ensures SeenInTable(states, steps, n, c)
  {
  }

  lemma SeenStillInTable(states: seq<State>, steps: seq<Step>, n: nat, c: CallId)
    requires 0 < n <= |steps| && n < |states| && c in states[n].calls && c in states[n - 1].calls
    requires states[n].calls[c].seen == states[n - 1].calls[c].seen && states[n].calls[c].tool == states[n - 1].calls[c].tool
    requires SeenInTable(states, steps, n - 1, c)
    ensures SeenInTable(states, steps, n, c)
  {
    var m :| 0 <= m < n - 1 && steps[m] == EvaluateGatesStep(c)
             && states[n - 1].calls[c].seen == GatesForTool(states[m].gates, states[n - 1].calls[c].tool.name);
    assert m < n;
  }

  /** The call and its gates right after they were evaluated, told from the table. */
  lemma VerdictTaken(k: Config, s: State, t: State, c: CallId)
    requires EvaluateGates(s, t, c)
    ensures var call := s.calls[c];
            && c in t.calls && t.calls[c].approval == call.approval
            && t.calls[c].tool == call.tool && t.calls[c].args == call.args && t.calls[c].seen == GatesForTool(s.gates, call.tool.name)
            && (forall i: nat | FirstAt(s.gates, call.tool.name, call.args, i) ::
                  t.calls[c].phase == match s.gates[i].action
                                      case AutoAllow => AutoAllowed
                                      case Deny => Finished(GateDenied)
                                      case Require => Creating)
            && ((forall i: nat :: !FirstAt(s.gates, call.tool.name, call.args, i)) ==> t.calls[c].phase == Creating)
  {
    ToolGatesDecide(s.gates, s.calls[c].tool.name, s.calls[c].args);
  }

  /** A denied call is over for good: it never gets an approval row and nothing is ever forwarded for it. */
  lemma DeniedStaysDenied(k: Config, states: seq<State>, steps: seq<Step>, m: nat, n: nat, c: CallId, i: nat)
    requires Run(k, states, steps) && m < n < |states| && steps[m] == EvaluateGatesStep(c) && c in states[m].calls
    requires var call := states[m].calls[c];
             FirstAt(states[m].gates, call.tool.name, call.args, i) && states[m].gates[i].action == Deny
    ensures c in states[n].calls && states[n].calls[c].phase == Finished(GateDenied) && states[n].calls[c].approval.None?
    ensures forall j | 0 <= j < |states[n].forwarded| :: states[n].forwarded[j].call != c
  {
    RunInv(k, states, steps, m);
    assert Next(k, states[m], states[m + 1], steps[m]);
    VerdictTaken(k, states[m], states[m + 1], c);
    assert CallShape(states[m], c);
    FinishedForGood(k, states, steps, m + 1, n, c);
    RunInv(k, states, steps, n);
    forall j | 0 <= j < |states[n].forwarded|
      ensures states[n].forwarded[j].call != c
    {
      assert Justified(states[n], states[n].forwarded[j]);
    }
  }

  lemma {:induction false} FinishedForGood(k: Config, states: seq<State>, steps: seq<Step>, m: nat, n: nat, c: CallId)
    requires Run(k, states, steps) && m <= n < |states| && c in states[m].calls && states[m].calls[c].phase.Finished?
    ensures c in states[n].calls && states[n].calls[c] == states[m].calls[c]
    decreases n
  {
    if m < n {
      FinishedForGood(k, states, steps, m, n - 1, c);
      assert Next(k, states[n - 1], states[n], steps[n - 1]);
      Locality(k, states[n - 1], states[n], steps[n - 1]);
    }
  }

  /** A call evaluates its gates once, so what it saw then is what it goes by. */
  lemma {:induction false} VerdictStands(k: Config, states: seq<State>, steps: seq<Step>, m: nat, n: nat, c: CallId)
    requires Run(k, states, steps) && m < n < |states| && steps[m] == EvaluateGatesStep(c) && c in states[m].calls
    ensures c in states[n].calls && states[n].calls[c].phase != Gating
    ensures states[n].calls[c].tool == states[m].calls[c].tool && states[n].calls[c].args == states[m].calls[c].args
    ensures states[n].calls[c].seen == GatesForTool(states[m].gates, states[m].calls[c].tool.name)
    ensures states[m + 1].calls[c].phase == AutoAllowed ==>
              states[n].calls[c].phase in {AutoAllowed, Finished(Forwarded), Finished(Failed)}
    decreases n
  {
    var s, t, step := states[n - 1], states[n], steps[n - 1];
    assert Next(k, s, t, step);
    if n == m + 1 {
      VerdictTaken(k, s, t, c);
      assert EvaluateGates(s, t, c);
    } else {
      VerdictStands(k, states, steps, m, n - 1, c);
      StepGoesOnward(k, s, t, step, c);
      RequestStays(k, s, t, step, c);
      assert step != EvaluateGatesStep(c);
      FinishedStays(k, s, t, step, c);
    }
  }

  lemma FinishedStays(k: Config, s: State, t: State, step: Step, c: CallId)
    requires Next(k, s, t, step) && c in s.calls
    ensures c in t.calls && (s.calls[c].phase.Finished? ==> t.calls[c] == s.calls[c])
  {
    Locality(k, s, t, step);
  }

  /** Unless the first matching gate auto-allows, a dangerous call is forwarded only over its own allowed approval row. */
  lemma UnallowedNeedsApproval(k: Config, states: seq<State>, steps: seq<Step>, m: nat, n: nat, c: CallId, j: nat)
    requires Run(k, states, steps) && m < n < |states| && steps[m] == EvaluateGatesStep(c) && c in states[m].calls
    requires !FirstMatchAllows(states[m].gates, states[m].calls[c].tool.name, states[m].calls[c].args)
    requires j < |states[n].forwarded| && states[n].forwarded[j].call == c
    ensures c in states[n].calls
    ensures var call := states[n].calls[c];
            && call.approval.Some? && call.approval.value in states[n].rows
            && states[n].rows[call.approval.value] == Approval(call.tool.name, call.args, Allowed)
  {
    RunInv(k, states, steps, n);
    assert Justified(states[n], states[n].forwarded[j]);
    VerdictStands(k, states, steps, m, n, c);
    ToolGatesDecide(states[m].gates, states[m].calls[c].tool.name, states[m].calls[c].args);
    EvaluatedIsDangerous(k, states, steps, m, n, c);
  }

  lemma EvaluatedIsDangerous(k: Config, states: seq<State>, steps: seq<Step>, m: nat, n: nat, c: CallId)
    requires Run(k, states, steps) && m < n < |states| && steps[m] == EvaluateGatesStep(c) && c in states[m].calls
    ensures states[m].calls[c].tool.dangerous
  {
    assert Next(k, states[m], states[m + 1], steps[m]);
    assert EvaluateGates(states[m], states[m + 1], c);
  }

  /** An auto-allowed call asks nobody: it never has an approval row, and ends forwarded or failed. */
  lemma {:induction false} AutoAllowedAsksNobody(k: Config, states: seq<State>, steps: seq<Step>, m: nat, n: nat, c: CallId)
    requires Run(k, states, steps) && m < n < |states| && steps[m] == EvaluateGatesStep(c) && c in states[m].calls
    requires FirstMatchAllows(states[m].gates, states[m].calls[c].tool.name, states[m].calls[c].args)
    ensures c in states[n].calls && states[n].calls[c].phase in {AutoAllowed, Finished(Forwarded), Finished(Failed)}
    ensures states[n].calls[c].approval.None?
    decreases n
  {
    AutoAllowedStays(k, states, steps, m, n, c);
    if n == m + 1 {
      EvaluatedHasNoRow(k, states, steps, m, c);
    } else {
      AutoAllowedAsksNobody(k, states, steps, m, n - 1, c);
      assert Next(k, states[n - 1], states[n], steps[n - 1]);
      NoRowWithoutCreating(k, states[n - 1], states[n], steps[n - 1], c);
    }
  }

  lemma EvaluatedHasNoRow(k: Config, states: seq<State>, steps: seq<Step>, m: nat, c: CallId)
    requires Run(k, states, steps) && m < |steps| && steps[m] == EvaluateGatesStep(c) && c in states[m].calls
    ensures c in states[m + 1].calls && states[m + 1].calls[c].approval.None?
  {
    RunInv(k, states, steps, m);
    assert CallShape(states[m], c) && Next(k, states[m], states[m + 1], steps[m]);
    assert EvaluateGates(states[m], states[m + 1], c);
  }

  lemma NoRowWithoutCreating(k: Config, s: State, t: State, step: Step, c: CallId)
    requires Next(k, s, t, step) && c in s.calls && s.calls[c].phase != Creating
    ensures c in t.calls && t.calls[c].approval == s.calls[c].approval
  {
    Locality(k, s, t, step);
    if step.CreateRowStep? {
      assert CreateRow(s, t, step.c, step.id);
    } else {
      ApprovalsStay(k, s, t, step);
    }
  }

  lemma AutoAllowedStays(k: Config, states: seq<State>, steps: seq<Step>, m: nat, n: nat, c: CallId)
    requires Run(k, states, steps) && m < n < |states| && steps[m] == EvaluateGatesStep(c) && c in states[m].calls
    requires FirstMatchAllows(states[m].gates, states[m].calls[c].tool.name, states[m].calls[c].args)
    ensures c in states[n].calls && states[n].calls[c].phase in {AutoAllowed, Finished(Forwarded), Finished(Failed)}
  {
    assert Next(k, states[m], states[m + 1], steps[m]);
    assert EvaluateGates(states[m], states[m + 1], c);
    VerdictTaken(k, states[m], states[m + 1], c);
    var i: nat :| AllowsAt(states[m].gates, states[m].calls[c].tool.name, states[m].calls[c].args, i);
    assert FirstAt(states[m].gates, states[m].calls[c].tool.name, states[m].calls[c].args, i);
    VerdictStands(k, states, steps, m, n, c);
  }

  lemma AutoAllowedByTable(states: seq<State>, steps: seq<Step>, n: nat, c: CallId)
    requires n <= |steps| && n < |states| && c in states[n].calls
    requires Decide(states[n].calls[c].seen, states[n].calls[c].args).action == AutoAllow
    requires states[n].calls[c].seen != [] ==> SeenInTable(states, steps, n, c)
    ensures exists m :: 0 <= m < n && steps[m] == EvaluateGatesStep(c)
                     && FirstMatchAllows(states[m].gates, states[n].calls[c].tool.name, states[n].calls[c].args)
  {
    var call := states[n].calls[c];
    var m :| 0 <= m < n && steps[m] == EvaluateGatesStep(c) && call.seen == GatesForTool(states[m].gates, call.tool.name);
    ToolGatesDecide(states[m].gates, call.tool.name, call.args);
  }

  ghost predicate SameButActor(tool: Tool, approved: seq<Field>, sent: seq<Field>)
  {
    && Lookup(sent, "_actor") == Some(Str("mcp:" + tool.name))
    && forall key | key != "_actor" :: Lookup(sent, key) == Lookup(approved, key)
  }

  lemma ActorOnlyAdded(tool: Tool, args: Value)
    ensures args.Object? ==>
              WithActor(tool, args).Object? && SameButActor(tool, args.fields, WithActor(tool, args).fields)
  {
    if args.Object? {
      forall key | key != "_actor"
        ensures Lookup(WithActor(tool, args).fields, key) == Lookup(args.fields, key)
      {
        InsertKeepsOthers(args.fields, "_actor", Str("mcp:" + tool.name), key);
      }
    }
  }

  // ----- delivery

  function Total(stages: seq<seq<Event>>): nat
  {
    if stages == [] then 0 else Total(stages[..|stages| - 1]) + |stages[|stages| - 1]|
  }

  /** Each queued event counted once per queue it still has to leave. */
  function Hops(stages: seq<seq<Event>>): nat
  {
    if stages == [] then 0 else Total(stages) + Hops(stages[..|stages| - 1])
  }

  lemma {:induction false} TotalAfterHop(stages: seq<seq<Event>>, i: nat)
    requires i + 1 < |stages| && stages[i] != []
    ensures Total(Hopped(stages, i)) == Total(stages)
    ensures Hops(Hopped(stages, i)) < Hops(stages)
  {
    var n := |stages|;
    var after := Hopped(stages, i);
    if i + 2 < n {
      assert after[..n - 1] == Hopped(stages[..n - 1], i);
      TotalAfterHop(stages[..n - 1], i);
    } else {
      var rest, restAfter := stages[..n - 1], after[..n - 1];
      assert restAfter[..n - 2] == rest[..n - 2];
      assert restAfter[n - 2] == stages[i][1..];
      assert after[n - 1] == stages[n - 1] + [stages[i][0]];
    }
  }

  lemma TotalAfterPop(stages: seq<seq<Event>>)
    requires 0 < |stages| && stages[|stages| - 1] != []
    ensures Hops(stages[|stages| - 1 := stages[|stages| - 1][1..]]) < Hops(stages)
  {
    var n := |stages|;
    var after := stages[n - 1 := stages[n - 1][1..]];
    assert after[..n - 1] == stages[..n - 1];
  }

  /** `steps` leads from `s` to `t`, and every step is taken by call `c` or its own connection. */
  ghost predicate PathOf(k: Config, c: CallId, s: State, t: State, steps: seq<Step>)
    decreases |steps|
  {
    if steps == [] then s == t
    else Actor(steps[0]) == Some(c) && exists m :: Next(k, s, m, steps[0]) && PathOf(k, c, m, t, steps[1..])
  }

  /** The call has been handed the decision stored for its row. */
  ghost predicate Delivered(s: State, t: State, c: CallId)
    requires AtWithRow(s, c, Waiting)
  {
    && t.rows == s.rows && c in t.calls
    && t.calls[c].approval == s.calls[c].approval
    && t.calls[c].phase == Resolved(RowOf(s, c).state)
  }

  /** The call waits, and the decision about its row has been published. */
  ghost predicate Due(k: Config, s: State, c: CallId)
  {
    && Inv(k, s) && AtWithRow(s, c, Waiting) && Announced(s, s.calls[c].approval.value)
    && c in s.subs && s.subs[c].cursor <= |s.sent|
  }

  /** `m` is one step further: the same wait on the same row, with less left to deliver. */
  ghost predicate Closer(s: State, m: State, c: CallId)
    requires AtWithRow(s, c, Waiting) && c in s.subs && s.subs[c].cursor <= |s.sent|
  {
    && AtWithRow(m, c, Waiting) && c in m.subs && m.subs[c].cursor <= |m.sent|
    && m.rows == s.rows && m.calls[c].approval == s.calls[c].approval && m.announced == s.announced
    && |m.sent| - m.subs[c].cursor <= |s.sent| - s.subs[c].cursor
    && (|m.sent| - m.subs[c].cursor == |s.sent| - s.subs[c].cursor ==>
          Hops(m.subs[c].stages) < Hops(s.subs[c].stages))
  }

  /**
   * Once a decision has been published, a waiting call can always be driven to return it by its own
   * connection alone: no queue can block it, and no further event, timeout or decider is needed.
   */
  lemma PublishedDecisionIsDelivered(k: Config, s: State, c: CallId) returns (t: State, steps: seq<Step>)
    requires Due(k, s, c)
    ensures PathOf(k, c, s, t, steps) && Delivered(s, t, c)
    decreases |s.sent| - s.subs[c].cursor, Hops(s.subs[c].stages)
  {
    var m, step, done := Advance(k, s, c);
    if done {
      t, steps := FinishDelivery(k, s, m, c, step);
    } else {
      var rest;
      t, rest := PublishedDecisionIsDelivered(k, m, c);
      steps := Prepend(k, c, s, m, t, step, rest);
    }
  }

  /** The read that follows a lag notice or the end of the subscription, if one is needed. */
  lemma FinishDelivery(k: Config, s: State, m: State, c: CallId, step: Step) returns (t: State, steps: seq<Step>)
    requires AtWithRow(s, c, Waiting) && RowOf(s, c).state != Pending
    requires Actor(step) == Some(c) && Next(k, s, m, step) && Arriving(s, m, c)
    ensures PathOf(k, c, s, t, steps) && Delivered(s, t, c)
  {
    var phase := m.calls[c].phase;
    if phase.Resolved? {
      t := m;
      steps := Prepend(k, c, s, m, t, step, []);
    } else {
      t := WithPhase(m, c, Resolved(RowOf(s, c).state));
      assert Next(k, m, t, ReadRowStep(c, phase));
      steps := Prepend(k, c, m, t, t, ReadRowStep(c, phase), []);
      steps := Prepend(k, c, s, m, t, step, steps);
    }
  }

  /** The call was handed the stored decision, or is about to read it. */
  ghost predicate Arriving(s: State, m: State, c: CallId)
    requires AtWithRow(s, c, Waiting)
  {
    && m.rows == s.rows && c in m.calls && m.calls[c].approval == s.calls[c].approval
    && m.calls[c].phase in {Resolved(RowOf(s, c).state), Rereading, LastRead}
  }

  /** Some step of the call's own connection is always enabled, and it brings the decision closer. */
  lemma Advance(k: Config, s: State, c: CallId) returns (m: State, step: Step, done: bool)
    requires Due(k, s, c)
    ensures RowOf(s, c).state != Pending
    ensures Actor(step) == Some(c) && Next(k, s, m, step)
    ensures done ==> Arriving(s, m, c)
    ensures !done ==> Due(k, m, c) && Closer(s, m, c)
  {
    assert CallShape(s, c) && SubInv(k, s, c);
    var sub := s.subs[c];
    if sub.stages[|sub.stages| - 1] != [] {
      m, done := AdvanceByConsuming(k, s, c);
      step := ConsumeStep(c);
    } else if !Drained(sub.stages) {
      var i := LastBusyStage(sub.stages);
      m := AdvanceByHop(k, s, c, i);
      step, done := HopStep(c, i), false;
    } else if sub.open {
      m := AdvanceByPull(k, s, c);
      step, done := PullStep(c), false;
    } else {
      m, step, done := WithPhase(s, c, LastRead), SubscriptionEndedStep(c), true;
    }
  }

  lemma AdvanceByHop(k: Config, s: State, c: CallId, i: nat) returns (m: State)
    requires Due(k, s, c)
    requires i + 1 < |s.subs[c].stages| && s.subs[c].stages[i] != [] && s.subs[c].stages[i + 1] == []
    ensures Next(k, s, m, HopStep(c, i)) && Due(k, m, c) && Closer(s, m, c)
  {
    assert SubInv(k, s, c);
    var sub := s.subs[c];
    m := s.(subs := s.subs[c := sub.(stages := Hopped(sub.stages, i))]);
    assert Hop(k, s, m, c, i);
    StepInv(k, s, m, HopStep(c, i));
    TotalAfterHop(sub.stages, i);
  }

  lemma AdvanceByPull(k: Config, s: State, c: CallId) returns (m: State)
    requires Due(k, s, c) && s.subs[c].open && Drained(s.subs[c].stages)
    ensures Next(k, s, m, PullStep(c)) && Due(k, m, c) && Closer(s, m, c)
  {
    assert SubInv(k, s, c);
    var sub := s.subs[c];
    assert sub.cursor < s.channel.value.Tail() by {
      if sub.cursor == s.channel.value.Tail() {
        QuiescentRowIsUndecided(k, s, c);
      }
    }
    m := s.(subs := s.subs[c := Pulled(s.channel.value, sub)]);
    assert Pull(k, s, m, c);
    StepInv(k, s, m, PullStep(c));
    ReceiveAccountsForEveryEntry(s.channel.value, s.sent, sub.cursor);
  }

  lemma AdvanceByConsuming(k: Config, s: State, c: CallId) returns (m: State, done: bool)
    requires Due(k, s, c) && CanConsume(s, c)
    ensures Next(k, s, m, ConsumeStep(c))
    ensures done ==> Arriving(s, m, c)
    ensures !done ==> Due(k, m, c) && Closer(s, m, c)
  {
    m := Consumed(s, c);
    done := m.calls[c].phase != Waiting;
    assert Consume(s, m, c);
    if done {
      var n := |s.subs[c].stages|;
      if s.subs[c].stages[n - 1][0].DecidedEvent? {
        EventsTellTheTruth(k, s, c, n - 1, 0);
      }
      ConsumeArrives(s, c);
    } else {
      ConsumeIsCloser(s, c);
      StepInv(k, s, m, ConsumeStep(c));
    }
  }

  lemma ConsumeArrives(s: State, c: CallId)
    requires CanConsume(s, c) && Consumed(s, c).calls[c].phase != Waiting
    requires var e := s.subs[c].stages[|s.subs[c].stages| - 1][0];
             e.DecidedEvent? && e.payload.id in s.rows ==> s.rows[e.payload.id].state == e.payload.state
    ensures Arriving(s, Consumed(s, c), c)
  {
  }

  lemma ConsumeIsCloser(s: State, c: CallId)
    requires CanConsume(s, c) && s.subs[c].cursor <= |s.sent| && Consumed(s, c).calls[c].phase == Waiting
    ensures Closer(s, Consumed(s, c), c)
  {
    TotalAfterPop(s.subs[c].stages);
  }

  lemma Prepend(k: Config, c: CallId, s: State, m: State, t: State, step: Step, rest: seq<Step>) returns (steps: seq<Step>)
    requires Actor(step) == Some(c) && Next(k, s, m, step) && PathOf(k, c, m, t, rest)
    ensures steps == [step] + rest && PathOf(k, c, s, t, steps)
  {
    steps := [step] + rest;
    assert steps[1..] == rest;
  }

  /** A busy queue whose successors are all empty. */
  lemma {:induction false} LastBusyStage(stages: seq<seq<Event>>) returns (i: nat)
    requires !Drained(stages) && 0 < |stages| && stages[|stages| - 1] == []
    ensures i + 1 < |stages| && stages[i] != [] && stages[i + 1] == []
    decreases |stages|
  {
    var n := |stages|;
    if stages[n - 2] != [] {
      i := n - 2;
    } else {
      i := LastBusyStage(stages[..n - 1]);
    }
  }

  // ----- why the publication has to happen

  /** Even a decision that is never published reaches the call: at the latest its timeout finds it in the table. */
  lemma TimeoutFindsDecision(k: Config, s: State, c: CallId) returns (t: State, steps: seq<Step>)
    requires AtWithRow(s, c, Waiting) && RowOf(s, c).state != Pending
    ensures PathOf(k, c, s, t, steps) && Delivered(s, t, c)
    ensures steps == [TimeoutStep(c), ExpireSwapStep(c), ExpireAnsweredStep(c, false), ReadRowStep(c, ReadBack)]
  {
    var s1 := WithPhase(s, c, Expiring);
    var s2, s3 := WithPhase(s1, c, ExpireReply(false)), WithPhase(s1, c, ReadBack);
    t := WithPhase(s3, c, Resolved(RowOf(s, c).state));
    TimesOut(k, s, c);
    LosesTheSwap(k, s1, c);
    ReadsBack(k, s3, c);
    var last := TwoSteps(k, c, s2, s3, t, t, ExpireAnsweredStep(c, false), ReadRowStep(c, ReadBack), []);
    steps := TwoSteps(k, c, s, s1, s2, t, TimeoutStep(c), ExpireSwapStep(c), last);
  }

  /** What an expiry swap on a pending row leaves behind. */
  ghost predicate ExpiryTaken(s: State, t: State, c: CallId)
    requires AtWithRow(s, c, Waiting)
  {
    var id := s.calls[c].approval.value;
    && At(t, c, ExpireReply(true)) && id in t.deciding
    && t.rows == s.rows[id := s.rows[id].(state := Expired)]
  }

  /** A call that times out on a pending row expires it. */
  lemma TimeoutExpires(k: Config, s: State, c: CallId) returns (t: State, steps: seq<Step>)
    requires AtWithRow(s, c, Waiting) && RowOf(s, c).state == Pending
    ensures PathOf(k, c, s, t, steps) && steps == [TimeoutStep(c), ExpireSwapStep(c)] && ExpiryTaken(s, t, c)
  {
    var s1 := WithPhase(s, c, Expiring);
    TimesOut(k, s, c);
    t := WinsTheSwap(k, s1, c);
    steps := TwoSteps(k, c, s, s1, t, t, TimeoutStep(c), ExpireSwapStep(c), []);
  }

  /** A call whose subscription has ended does not wait for its timeout: it reads the row once and, if still pending, expires it. */
  lemma EndedSubscriptionExpires(k: Config, s: State, c: CallId) returns (t: State, steps: seq<Step>)
    requires AtWithRow(s, c, Waiting) && RowOf(s, c).state == Pending
    requires c in s.subs && !s.subs[c].open && Drained(s.subs[c].stages)
    ensures PathOf(k, c, s, t, steps) && ExpiryTaken(s, t, c)
    ensures steps == [SubscriptionEndedStep(c), ReadRowStep(c, LastRead), ExpireSwapStep(c)]
  {
    var s1, s2 := WithPhase(s, c, LastRead), WithPhase(s, c, Expiring);
    assert SubscriptionEnded(s, s1, c);
    assert WithPhase(s1, c, Expiring) == s2;
    assert ReadRow(s1, s2, c, LastRead);
    t := WinsTheSwap(k, s2, c);
    steps := Prepend(k, c, s2, t, t, ExpireSwapStep(c), []);
    steps := TwoSteps(k, c, s, s1, s2, t, SubscriptionEndedStep(c), ReadRowStep(c, LastRead), steps);
  }

  lemma WinsTheSwap(k: Config, s: State, c: CallId) returns (t: State)
    requires AtWithRow(s, c, Expiring) && RowOf(s, c).state == Pending
    ensures Next(k, s, t, ExpireSwapStep(c))
    ensures var id := s.calls[c].approval.value;
            At(t, c, ExpireReply(true)) && id in t.deciding && t.rows == s.rows[id := s.rows[id].(state := Expired)]
  {
    var id := s.calls[c].approval.value;
    t := WithPhase(s, c, ExpireReply(true)).(rows := Swapped(s.rows, id, Expired), deciding := s.deciding + {id});
    assert ExpireSwap(s, t, c);
  }

  lemma TwoSteps(k: Config, c: CallId, s: State, m: State, m': State, t: State, a: Step, b: Step, rest: seq<Step>)
    returns (steps: seq<Step>)
    requires Actor(a) == Some(c) && Actor(b) == Some(c) && Next(k, s, m, a) && Next(k, m, m', b) && PathOf(k, c, m', t, rest)
    ensures steps == [a, b] + rest && PathOf(k, c, s, t, steps)
  {
    steps := Prepend(k, c, m, m', t, b, rest);
    steps := Prepend(k, c, s, m, t, a, steps);
  }

  lemma TimesOut(k: Config, s: State, c: CallId)
    requires AtWithRow(s, c, Waiting)
    ensures Next(k, s, WithPhase(s, c, Expiring), TimeoutStep(c))
    ensures AtWithRow(WithPhase(s, c, Expiring), c, Expiring)
  {
  }

  lemma LosesTheSwap(k: Config, s: State, c: CallId)
    requires AtWithRow(s, c, Expiring) && RowOf(s, c).state != Pending
    ensures var asked := WithPhase(s, c, ExpireReply(false));
            && Next(k, s, asked, ExpireSwapStep(c))
            && Next(k, asked, WithPhase(s, c, ReadBack), ExpireAnsweredStep(c, false))
  {
    var asked := WithPhase(s, c, ExpireReply(false));
    assert ExpireSwap(s, asked, c);
    assert WithPhase(asked, c, ReadBack) == WithPhase(s, c, ReadBack);
    assert ExpireAnswered(asked, WithPhase(s, c, ReadBack), c, false);
  }

  lemma ReadsBack(k: Config, s: State, c: CallId)
    requires AtWithRow(s, c, ReadBack)
    ensures Next(k, s, WithPhase(s, c, Resolved(RowOf(s, c).state)), ReadRowStep(c, ReadBack))
  {
    assert ReadRow(s, WithPhase(s, c, Resolved(RowOf(s, c).state)), c, ReadBack);
  }

  /**
   * If the deciding handler is cancelled between the swap and the publication, the call keeps
   * waiting on an allowed row with every queue empty; only its timeout will find out.
   */
  lemma CancelledDeciderLeavesWaiter(k: Config) returns (states: seq<State>, steps: seq<Step>)
    requires k.Valid()
    ensures Run(k, states, steps)
    ensures var s := states[|states| - 1];
            WaitsWithNothingInFlight(s, 0) && RowOf(s, 0).state == Allowed
  {
    states := [Scene(k, 0), Scene(k, 1), Scene(k, 2), Scene(k, 3), Scene(k, 4), Scene(k, 5), Scene(k, 6), Scene(k, 7)];
    steps := [SceneStep(0), SceneStep(1), SceneStep(2), SceneStep(3), SceneStep(4), SceneStep(5), SceneStep(6)];
    forall i | 0 <= i < |steps|
      ensures Next(k, states[i], states[i + 1], steps[i])
    {
      SceneFollows(k, i);
      assert states[i] == Scene(k, i) && states[i + 1] == Scene(k, i + 1) && steps[i] == SceneStep(i);
    }
  }

  const SceneTool := Tool("t", "op", true)

  function SceneCall(phase: Phase): Call
  {
    Call(SceneTool, Object([]), [], if phase in {Gating, Creating} then None else Some(7), phase)
  }

  function Scene(k: Config, i: nat): State
  {
    if i == 0 then State(map[], [], None, {}, {}, map[], map[], [], [], [])
    else if i <= 2 then Scene(k, 0).(calls := map[0 := SceneCall(if i == 1 then Gating else Creating)])
    else
      var subscribed := 4 <= i;
      var state := if i < 6 then Pending else Allowed;
      State(map[7 := Approval("t", Object([]), state)], [],
            if subscribed then Some(Channel(k.channelCapacity, 0, [])) else None,
            if i == 6 then {7} else {}, if i == 7 then {7} else {},
            map[0 := SceneCall(if i == 3 then Subscribing else if i == 4 then FirstRead else Waiting)],
            if subscribed then map[0 := Subscription(0, 0, EmptyStages(|k.stageCapacities|), true)] else map[],
            [], [], [])
  }

  function SceneStep(i: nat): Step
  {
    match i
    case 0 => NewCallStep(0, SceneTool, Object([]))
    case 1 => EvaluateGatesStep(0)
    case 2 => CreateRowStep(0, 7)
    case 3 => SubscribeStep(0)
    case 4 => ReadRowStep(0, FirstRead)
    case 5 => DecideRowStep(7, Allowed)
    case _ => AbandonStep(7)
  }

  lemma SceneFollows(k: Config, i: nat)
    requires k.Valid() && i < 7
    ensures Next(k, Scene(k, i), Scene(k, i + 1), SceneStep(i))
  {
    if i < 3 {
      SceneOpens(k, i);
    } else if i == 3 {
      assert Subscribe(k, Scene(k, 3), Scene(k, 4), 0);
    } else {
      SceneCloses(k, i);
    }
  }

  lemma SceneOpens(k: Config, i: nat)
    requires i < 3
    ensures Next(k, Scene(k, i), Scene(k, i + 1), SceneStep(i))
  {
    if i == 0 {
      assert NewCall(Scene(k, 0), Scene(k, 1), 0, SceneTool, Object([]));
    } else if i == 1 {
      assert EvaluateGates(Scene(k, 1), Scene(k, 2), 0);
    } else {
      assert CreateRow(Scene(k, 2), Scene(k, 3), 0, 7);
    }
  }

  lemma SceneCloses(k: Config, i: nat)
    requires 4 <= i < 7
    ensures Next(k, Scene(k, i), Scene(k, i + 1), SceneStep(i))
  {
    if i == 4 {
      assert ReadRow(Scene(k, 4), Scene(k, 5), 0, FirstRead);
    } else if i == 5 {
      assert DecideRow(Scene(k, 5), Scene(k, 6), 7, Allowed);
    } else {
      assert Abandon(Scene(k, 6), Scene(k, 7), 7);
    }
  }

  // ----- no call is stuck

  /** An allowed call can be forwarded at once, with its own operation and its arguments plus the actor. */
  lemma AllowedCanForward(k: Config, s: State, c: CallId) returns (t: State)
    requires c in s.calls && (s.calls[c].phase == AutoAllowed || s.calls[c].phase == Resolved(Allowed))
    ensures Next(k, s, t, ForwardDangerousStep(c))
    ensures |t.forwarded| == |s.forwarded| + 1 && t.forwarded[..|s.forwarded|] == s.forwarded
    ensures var f, call := t.forwarded[|s.forwarded|], s.calls[c];
            && f.call == c && f.op == call.tool.op
            && (if call.args.Object? then f.args.Object? && SameButActor(call.tool, call.args.fields, f.args.fields)
                else f.args == call.args)
  {
    var call := s.calls[c];
    t := WithPhase(s, c, Finished(Forwarded)).(forwarded := s.forwarded + [Forward(c, call.tool.op, WithActor(call.tool, call.args))]);
    assert ForwardDangerous(s, t, c);
    ActorOnlyAdded(call.tool, call.args);
  }

  /** The answer to the call's own expiry swap waits for that decision to be published. */
  ghost predicate AwaitsPublication(s: State, c: CallId)
    requires c in s.calls
  {
    && s.calls[c].phase == ExpireReply(true) && s.calls[c].approval.Some?
    && s.calls[c].approval.value in s.deciding + s.abandoned
  }

  /** Every unfinished call can go on by itself, without failing, unless it awaits the publication of its own expiry. */
  lemma NeverStuck(k: Config, s: State, c: CallId) returns (t: State, step: Step)
    requires Inv(k, s) && c in s.calls && !s.calls[c].phase.Finished? && !AwaitsPublication(s, c)
    ensures Actor(step) == Some(c) && !step.CallFailsStep? && Next(k, s, t, step)
  {
    assert CallShape(s, c);
    var phase := s.calls[c].phase;
    if phase in {Gating, AutoAllowed, Creating, Subscribing} {
      t, step := BeforeTheWait(k, s, c);
    } else if phase in {FirstRead, Rereading, LastRead, ReadBack} {
      step := ReadRowStep(c, phase);
      t := WithPhase(s, c, PhaseAfterRead(phase, RowOf(s, c).state));
      assert ReadRow(s, t, c, phase);
    } else {
      t, step := EndOfTheWait(k, s, c);
    }
  }

  lemma BeforeTheWait(k: Config, s: State, c: CallId) returns (t: State, step: Step)
    requires c in s.calls && s.calls[c].phase in {Gating, AutoAllowed, Creating, Subscribing}
    ensures Actor(step) == Some(c) && !step.CallFailsStep? && Next(k, s, t, step)
  {
    var call := s.calls[c];
    if call.phase == Gating && call.tool.dangerous {
      step := EvaluateGatesStep(c);
      var seen := GatesForTool(s.gates, call.tool.name);
      var verdict := match Decide(seen, call.args).action
                     case AutoAllow => AutoAllowed
                     case Deny => Finished(GateDenied)
                     case Require => Creating;
      t := s.(calls := s.calls[c := call.(seen := seen, phase := verdict)]);
      assert EvaluateGates(s, t, c);
    } else if call.phase == Gating {
      step := ForwardPlainStep(c);
      t := WithPhase(s, c, Finished(Forwarded)).(forwarded := s.forwarded + [Forward(c, call.tool.op, call.args)]);
      assert ForwardPlain(s, t, c);
    } else if call.phase == AutoAllowed {
      step := ForwardDangerousStep(c);
      t := AllowedCanForward(k, s, c);
    } else if call.phase == Creating {
      var id := FreshId(s.rows);
      step := CreateRowStep(c, id);
      t := s.(rows := s.rows[id := Approval(call.tool.name, call.args, Pending)],
              calls := s.calls[c := call.(approval := Some(id), phase := Subscribing)]);
      assert CreateRow(s, t, c, id);
    } else {
      step := SubscribeStep(c);
      var channel := if s.channel.Some? then s.channel.value else Channel(k.channelCapacity, 0, []);
      var sub := Subscription(channel.Tail(), channel.Tail(), EmptyStages(|k.stageCapacities|), true);
      t := WithPhase(s, c, FirstRead).(channel := Some(channel), subs := s.subs[c := sub]);
      assert Subscribe(k, s, t, c);
    }
  }

  lemma EndOfTheWait(k: Config, s: State, c: CallId) returns (t: State, step: Step)
    requires c in s.calls && CallShape(s, c) && !AwaitsPublication(s, c)
    requires s.calls[c].phase in {Waiting, Expiring} || s.calls[c].phase.ExpireReply? || s.calls[c].phase.Resolved?
    ensures Actor(step) == Some(c) && !step.CallFailsStep? && Next(k, s, t, step)
  {
    var phase := s.calls[c].phase;
    if phase == Waiting {
      t, step := WithPhase(s, c, Expiring), TimeoutStep(c);
      assert Timeout(s, t, c);
    } else if phase == Expiring {
      var id := s.calls[c].approval.value;
      step := ExpireSwapStep(c);
      t := WithPhase(s, c, ExpireReply(IsPending(s.rows, id))).(
             rows := Swapped(s.rows, id, Expired), deciding := if IsPending(s.rows, id) then s.deciding + {id} else s.deciding);
      assert ExpireSwap(s, t, c);
    } else if phase.ExpireReply? {
      step := ExpireAnsweredStep(c, phase.decided);
      t := WithPhase(s, c, if phase.decided then Resolved(Expired) else ReadBack);
      assert ExpireAnswered(s, t, c, phase.decided);
    } else if phase == Resolved(Allowed) {
      step := ForwardDangerousStep(c);
      t := AllowedCanForward(k, s, c);
    } else {
      step := ConcludeStep(c, phase.state);
      t := WithPhase(s, c, Finished(match phase.state
                                    case Denied => ApprovalDenied
                                    case Expired => ApprovalExpired
                                    case _ => ApprovalTimeout));
      assert Conclude(s, t, c, phase.state);
    }
  }

  lemma FreshId(rows: Table) returns (id: ApprovalId)
    ensures id !in rows
  {
    id := AboveAll(rows.Keys);
  }

  lemma {:induction false} AboveAll(ids: set<ApprovalId>) returns (n: nat)
    ensures forall i | i in ids :: i < n
    decreases |ids|
  {
    if ids == {} {
      n := 0;
    } else {
      var i :| i in ids;
      var m := AboveAll(ids - {i});
      n := if m <= i then i + 1 else m;
      assert forall j | j in ids :: j == i || j in ids - {i};
    }
  }
}
