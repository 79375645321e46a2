/** Inductive invariant of the approval protocol. */
module ApprovalInvariant {
  import opened Prelude
  import opened Gates
  import opened ApprovalStore
  import opened Broadcast
  import opened ApprovalProtocol

  /** An event that makes the waiting call look at its row, or tells it the state. */
  predicate Wakes(e: Event, id: ApprovalId)
  {
    EventIsLagged(e) || MatchDecidedEvent(id, e).Some?
  }

  ghost predicate HasWaking(stages: seq<seq<Event>>, id: ApprovalId)
  {
    exists i, j :: 0 <= i < |stages| && 0 <= j < |stages[i]| && Wakes(stages[i][j], id)
  }

  /** Every decided row is being published, was abandoned, or was announced once with its final state. */
  ghost predicate DecisionInv(s: State)
  {
    && s.deciding !! s.abandoned
    && (forall id | id in s.deciding + s.abandoned :: id in s.rows && s.rows[id].state != Pending)
    && (forall i | 0 <= i < |s.announced| ::
          var p := s.announced[i];
          && p.id in s.rows && s.rows[p.id].state == p.state != Pending
          && p.id !in s.deciding + s.abandoned)
    && (forall i, j | 0 <= i < j < |s.announced| :: s.announced[i].id != s.announced[j].id)
    && (forall id | id in s.rows && s.rows[id].state != Pending && id !in s.deciding + s.abandoned ::
          exists i :: 0 <= i < |s.announced| && s.announced[i].id == id)
  }

  ghost predicate ChannelInv(k: Config, s: State)
  {
    && (s.channel.None? ==> s.sent == [] && s.subs == map[])
    && (s.channel.Some? ==> Holds(s.channel.value, s.sent))
    && (forall i | 0 <= i < |s.sent| :: s.sent[i] in s.announced)
  }

  ghost predicate SubInv(k: Config, s: State, c: CallId)
    requires c in s.subs
  {
    var sub := s.subs[c];
    && c in s.calls && s.calls[c].approval.Some?
    && sub.start <= sub.cursor <= |s.sent|
    && |sub.stages| == |k.stageCapacities|
    && (forall i, j | 0 <= i < |sub.stages| && 0 <= j < |sub.stages[i]| && sub.stages[i][j].DecidedEvent? ::
          sub.stages[i][j].payload in s.announced)
  }

  /** The parts of a call's invariant that only the call itself can break. */
  ghost predicate CallShape(s: State, c: CallId)
    requires c in s.calls
  {
    var call := s.calls[c];
    && (call.phase in {Gating, AutoAllowed, Creating} ==> call.approval.None?)
    && (call.phase == AutoAllowed ==> call.tool.dangerous && Decide(call.seen, call.args).action == AutoAllow)
    && (call.phase == Creating ==> call.tool.dangerous)
    && (call.approval.Some? ==>
          && call.tool.dangerous
          && call.approval.value in s.rows
          && RowOf(s, c).tool == call.tool.name
          && RowOf(s, c).args == call.args)
    && (!call.phase.Finished? && call.phase !in {Gating, AutoAllowed, Creating} ==> call.approval.Some?)
    && (call.phase == Subscribing ==> c !in s.subs)
    && (call.phase in {FirstRead, Waiting, Rereading, LastRead} ==> c in s.subs)
    && (call.phase.Resolved? ==> RowOf(s, c).state == call.phase.state != Pending)
    && (call.phase.ExpireReply? ==>
          RowOf(s, c).state != Pending && (call.phase.decided ==> RowOf(s, c).state == Expired))
    && (call.phase == ReadBack ==> RowOf(s, c).state != Pending)
    && call.phase != Finished(ApprovalTimeout)
    && (call.phase == Finished(ApprovalDenied) ==> call.approval.Some? && RowOf(s, c).state == Denied)
    && (call.phase == Finished(ApprovalExpired) ==> call.approval.Some? && RowOf(s, c).state == Expired)
  }

  /** A decision about a waiting call's row is on its way to the call, or will never be published. */
  ghost predicate Covered(s: State, c: CallId)
  {
    AtWithRow(s, c, Waiting) && c in s.subs && s.subs[c].open ==>
      var id, sub := s.calls[c].approval.value, s.subs[c];
      && (s.rows[id].state != Pending && id !in s.deciding + s.abandoned ==>
            exists p :: sub.start <= p < |s.sent| && s.sent[p].id == id)
      && (forall p | sub.start <= p < sub.cursor <= |s.sent| && s.sent[p].id == id :: HasWaking(sub.stages, id))
  }

  /** Distinct calls own distinct approval rows. */
  ghost predicate OwnRows(s: State)
  {
    forall c, d | c in s.calls && d in s.calls && c != d && s.calls[c].approval.Some? ::
      s.calls[c].approval != s.calls[d].approval
  }

  /** Why a forwarded request was allowed. */
  ghost predicate Justified(s: State, f: Forward)
  {
    && f.call in s.calls
    && var call := s.calls[f.call];
       && call.phase == Finished(Forwarded)
       && f.op == call.tool.op
       && if !call.tool.dangerous then f.args == call.args
          else
            && f.args == WithActor(call.tool, call.args)
            && (|| (call.approval.None? && Decide(call.seen, call.args).action == AutoAllow)
                || (&& call.approval.Some?
                    && call.approval.value in s.rows
                    && RowOf(s, f.call) == Approval(call.tool.name, call.args, Allowed)))
  }

  ghost predicate ForwardInv(s: State)
  {
    && (forall i | 0 <= i < |s.forwarded| :: Justified(s, s.forwarded[i]))
    && (forall i, j | 0 <= i < j < |s.forwarded| :: s.forwarded[i].call != s.forwarded[j].call)
  }

  ghost predicate Inv(k: Config, s: State)
  {
    && k.Valid()
    && DecisionInv(s)
    && ChannelInv(k, s)
    && (forall c | c in s.subs :: SubInv(k, s, c))
    && (forall c | c in s.calls :: CallShape(s, c))
    && (forall c | c in s.calls :: Covered(s, c))
    && OwnRows(s)
    && ForwardInv(s)
  }

  // ----- what a step may touch

  /** The one call whose record or subscription a step may change. */
  function Actor(step: Step): Option<CallId>
  {
    match step
    case EditGatesStep(_) => None
    case DecideRowStep(_, _) => None
    case PublishStep(_) => None
    case AbandonStep(_) => None
    case _ => Some(step.c)
  }

  /** The steps of a call up to its first look at the row. */
  predicate Early(step: Step)
  {
    || step.NewCallStep? || step.ForwardPlainStep? || step.EvaluateGatesStep? || step.CreateRowStep?
    || step.SubscribeStep? || step.ReadRowStep? || step.TimeoutStep?
  }

  /** The steps of the event path between the hub and a call. */
  predicate OnPath(step: Step) { step.PullStep? || step.HopStep? || step.DisconnectStep? }

  /** What a step of call `c` leaves alone: other calls, other subscriptions, finished calls and the call's row. */
  ghost predicate CallForm(s: State, t: State, c: CallId, creates: bool)
  {
    && c in t.calls && t.calls == s.calls[c := t.calls[c]]
    && (t.subs == s.subs || (c in t.subs && t.subs == s.subs[c := t.subs[c]]))
    && (c in s.calls ==> !s.calls[c].phase.Finished?)
    && (!creates ==> t.calls[c].approval == if c in s.calls then s.calls[c].approval else None)
  }

  lemma EarlyForm(k: Config, s: State, t: State, step: Step)
    requires Next(k, s, t, step) && Early(step)
    ensures CallForm(s, t, step.c, step.CreateRowStep?)
  {
  }

  lemma LateForm(k: Config, s: State, t: State, step: Step)
    requires Next(k, s, t, step) && Actor(step).Some? && !Early(step) && !OnPath(step)
    ensures CallForm(s, t, step.c, false)
  {
  }

  lemma PathForm(k: Config, s: State, t: State, step: Step)
    requires Next(k, s, t, step) && OnPath(step)
    ensures t.calls == s.calls && step.c in t.subs && step.c in s.subs && t.subs == s.subs[step.c := t.subs[step.c]]
  {
  }

  lemma OthersForm(k: Config, s: State, t: State, step: Step)
    requires Next(k, s, t, step) && Actor(step).None?
    ensures t.calls == s.calls && t.subs == s.subs
  {
  }

  /** The form of every step. */
  ghost predicate Formed(s: State, t: State, step: Step)
  {
    if Actor(step).None? then t.calls == s.calls && t.subs == s.subs
    else if OnPath(step) then t.calls == s.calls && step.c in t.subs && step.c in s.subs && t.subs == s.subs[step.c := t.subs[step.c]]
    else CallForm(s, t, step.c, step.CreateRowStep?)
  }

  lemma StepForm(k: Config, s: State, t: State, step: Step)
    requires Next(k, s, t, step)
    ensures Formed(s, t, step)
  {
    if Actor(step).None? {
      OthersForm(k, s, t, step);
    } else if OnPath(step) {
      PathForm(k, s, t, step);
    } else if Early(step) {
      EarlyForm(k, s, t, step);
    } else {
      LateForm(k, s, t, step);
    }
  }

  ghost predicate Local(s: State, t: State, step: Step)
  {
    && (forall c | c in t.calls && Actor(step) != Some(c) :: c in s.calls && t.calls[c] == s.calls[c])
    && (forall c | c in s.calls :: c in t.calls)
    && (forall c | c in t.subs && Actor(step) != Some(c) :: c in s.subs && t.subs[c] == s.subs[c])
    && (forall c | c in s.subs :: c in t.subs)
    && (forall c | c in s.calls && s.calls[c].phase.Finished? :: t.calls[c] == s.calls[c])
  }

  lemma FormedIsLocal(s: State, t: State, step: Step)
    requires Formed(s, t, step)
    ensures Local(s, t, step)
    ensures !step.CreateRowStep? ==>
              forall c | c in t.calls :: t.calls[c].approval == if c in s.calls then s.calls[c].approval else None
  {
  }

  lemma Locality(k: Config, s: State, t: State, step: Step)
    requires Next(k, s, t, step)
    ensures Local(s, t, step)
  {
    StepForm(k, s, t, step);
    FormedIsLocal(s, t, step);
  }

  lemma ApprovalsStay(k: Config, s: State, t: State, step: Step)
    requires Next(k, s, t, step) && !step.CreateRowStep?
    ensures forall c | c in t.calls :: t.calls[c].approval == if c in s.calls then s.calls[c].approval else None
  {
    StepForm(k, s, t, step);
    FormedIsLocal(s, t, step);
  }

  // ----- where a call's gates come from

  /** A call keeps its tool and arguments, and the gates it saw unless it evaluates them now. */
  ghost predicate SameRequest(s: State, t: State, c: CallId, evaluates: bool)
  {
    c in t.calls &&
    if c !in s.calls then t.calls[c].seen == []
    else
      && t.calls[c].tool == s.calls[c].tool && t.calls[c].args == s.calls[c].args
      && (!evaluates ==> t.calls[c].seen == s.calls[c].seen)
  }

  lemma EarlyRequest(k: Config, s: State, t: State, step: Step)
    requires Next(k, s, t, step) && Early(step)
    ensures SameRequest(s, t, step.c, step.EvaluateGatesStep?)
  {
  }

  lemma LateRequest(k: Config, s: State, t: State, step: Step)
    requires Next(k, s, t, step) && Actor(step).Some? && !Early(step) && !OnPath(step)
    ensures SameRequest(s, t, step.c, false)
  {
  }

  lemma RequestStays(k: Config, s: State, t: State, step: Step, c: CallId)
    requires Next(k, s, t, step) && c in t.calls
    ensures SameRequest(s, t, c, step == EvaluateGatesStep(c))
  {
    StepForm(k, s, t, step);
    if Actor(step) == Some(c) && !OnPath(step) {
      if Early(step) {
        EarlyRequest(k, s, t, step);
      } else {
        LateRequest(k, s, t, step);
      }
    }
  }

  // ----- what becomes of a verdict

  /** Where a call may be after its gates were evaluated: never back before that, and past an auto-allow only at its end. */
  ghost predicate Onward(before: Phase, after: Phase)
  {
    && after != Gating
    && (before == AutoAllowed ==> after in {AutoAllowed, Finished(Forwarded), Finished(Failed)})
  }

  lemma EarlyOnward(k: Config, s: State, t: State, step: Step)
    requires Next(k, s, t, step) && Early(step) && step.c in s.calls && s.calls[step.c].phase != Gating
    ensures step.c in t.calls && Onward(s.calls[step.c].phase, t.calls[step.c].phase)
  {
  }

  lemma LateOnward(k: Config, s: State, t: State, step: Step)
    requires Next(k, s, t, step) && Actor(step).Some? && !Early(step) && !OnPath(step)
    requires step.c in s.calls && s.calls[step.c].phase != Gating
    ensures step.c in t.calls && Onward(s.calls[step.c].phase, t.calls[step.c].phase)
  {
  }

  lemma StepGoesOnward(k: Config, s: State, t: State, step: Step, c: CallId)
    requires Next(k, s, t, step) && c in s.calls && s.calls[c].phase != Gating
    ensures c in t.calls && Onward(s.calls[c].phase, t.calls[c].phase)
  {
    StepForm(k, s, t, step);
    if Actor(step) == Some(c) && !OnPath(step) {
      if Early(step) {
        EarlyOnward(k, s, t, step);
      } else {
        LateOnward(k, s, t, step);
      }
    }
  }

  // ----- the table and the publication histories

  lemma StepsEvolveRows(k: Config, s: State, t: State, step: Step)
    requires Next(k, s, t, step)
    ensures Evolves(s.rows, t.rows)
    ensures s.sent <= t.sent
    ensures s.announced <= t.announced
  {
    if step.PublishStep? {
      assert Publish(s, t, step.id);
    } else {
      if !step.SubscribeStep? {
        ChannelUntouched(k, s, t, step);
      }
      if step.DecideRowStep? {
        assert DecideRow(s, t, step.id, step.state);
      } else if step.ExpireSwapStep? {
        assert ExpireSwap(s, t, step.c);
      } else if step.CreateRowStep? {
        assert CreateRow(s, t, step.c, step.id);
      } else if !step.AbandonStep? {
        DecisionsUntouched(k, s, t, step);
      }
    }
  }

  lemma DecisionStep(k: Config, s: State, t: State, step: Step)
    requires DecisionInv(s) && Next(k, s, t, step)
    ensures DecisionInv(t)
  {
    if step.DecideRowStep? {
      SwapKeepsDecisions(s, t, step.id, step.state);
    } else if step.ExpireSwapStep? {
      SwapKeepsDecisions(s, t, s.calls[step.c].approval.value, Expired);
    } else if step.PublishStep? {
      PublishKeepsDecisions(s, t, step.id);
    } else if step.CreateRowStep? {
      CreateKeepsDecisions(s, t, step.c, step.id);
    } else if !step.AbandonStep? {
      DecisionsUntouched(k, s, t, step);
    }
  }

  lemma DecisionsUntouched(k: Config, s: State, t: State, step: Step)
    requires Next(k, s, t, step)
    requires !step.DecideRowStep? && !step.ExpireSwapStep? && !step.PublishStep? && !step.CreateRowStep? && !step.AbandonStep?
    ensures t.rows == s.rows && t.deciding == s.deciding && t.abandoned == s.abandoned && t.announced == s.announced
  {
  }

  lemma CreateKeepsDecisions(s: State, t: State, c: CallId, id: ApprovalId)
    requires DecisionInv(s) && CreateRow(s, t, c, id)
    ensures DecisionInv(t)
  {
  }

  lemma SwapKeepsDecisions(s: State, t: State, id: ApprovalId, state: ApprovalState)
    requires DecisionInv(s) && state != Pending
    requires t.rows == Swapped(s.rows, id, state)
    requires t.deciding == if IsPending(s.rows, id) then s.deciding + {id} else s.deciding
    requires t.abandoned == s.abandoned && t.announced == s.announced
    ensures DecisionInv(t)
  {
  }

  lemma PublishKeepsDecisions(s: State, t: State, id: ApprovalId)
    requires DecisionInv(s) && id in s.deciding && id in s.rows
    requires t.rows == s.rows && t.deciding == s.deciding - {id} && t.abandoned == s.abandoned
    requires t.announced == s.announced + [Payload(id, s.rows[id].state)]
    ensures DecisionInv(t)
  {
    var n := |s.announced|;
    assert t.announced[n].id == id;
    forall x | x in t.rows && t.rows[x].state != Pending && x !in t.deciding + t.abandoned
      ensures exists i :: 0 <= i < |t.announced| && t.announced[i].id == x
    {
      if x != id {
        var i :| 0 <= i < n && s.announced[i].id == x;
        assert t.announced[i].id == x;
      }
    }
  }

  lemma ChannelStep(k: Config, s: State, t: State, step: Step)
    requires DecisionInv(s) && ChannelInv(k, s) && k.Valid() && Next(k, s, t, step)
    ensures ChannelInv(k, t)
  {
    if step.PublishStep? {
      PublishKeepsChannel(k, s, t, step.id);
    } else if step.SubscribeStep? {
    } else {
      ChannelUntouched(k, s, t, step);
    }
  }

  lemma ChannelUntouched(k: Config, s: State, t: State, step: Step)
    requires Next(k, s, t, step) && !step.PublishStep? && !step.SubscribeStep?
    ensures t.channel == s.channel && t.sent == s.sent && t.announced == s.announced
    ensures s.subs == map[] ==> t.subs == map[]
  {
  }

  lemma PublishKeepsChannel(k: Config, s: State, t: State, id: ApprovalId)
    requires ChannelInv(k, s) && Publish(s, t, id)
    ensures ChannelInv(k, t)
  {
    var payload := Payload(id, s.rows[id].state);
    assert t.announced[|s.announced|] == payload;
    if s.channel.Some? {
      SendExtendsHistory(s.channel.value, s.sent, payload);
    }
    forall i | 0 <= i < |t.sent|
      ensures t.sent[i] in t.announced
    {
      assert i < |s.sent| ==> s.sent[i] in s.announced;
    }
  }

  // ----- subscriptions

  /** A subscription that did not change keeps its invariant while histories grow. */
  lemma SubFrame(k: Config, s: State, t: State, c: CallId)
    requires c in s.subs && SubInv(k, s, c)
    requires c in t.subs && t.subs[c] == s.subs[c]
    requires c in t.calls && t.calls[c].approval == s.calls[c].approval
    requires s.sent <= t.sent && s.announced <= t.announced
    ensures SubInv(k, t, c)
  {
    assert forall p | p in s.announced :: p in t.announced;
  }

  lemma PullKeepsSub(k: Config, s: State, t: State, c: CallId)
    requires Inv(k, s) && Pull(k, s, t, c)
    ensures SubInv(k, t, c)
  {
    var sub := s.subs[c];
    assert SubInv(k, s, c);
    ReceiveAccountsForEveryEntry(s.channel.value, s.sent, sub.cursor);
    var after := t.subs[c];
    forall i, j | 0 <= i < |after.stages| && 0 <= j < |after.stages[i]| && after.stages[i][j].DecidedEvent?
      ensures after.stages[i][j].payload in t.announced
    {
      if i == 0 && j == |sub.stages[0]| {
        assert s.sent[sub.cursor] in s.announced;
      }
    }
  }

  lemma HopKeepsSub(k: Config, s: State, t: State, c: CallId, i: nat)
    requires c in s.subs && SubInv(k, s, c) && Hop(k, s, t, c, i)
    ensures SubInv(k, t, c)
  {
    var before, after := s.subs[c].stages, t.subs[c].stages;
    assert after == Hopped(before, i);
    HopKeepsEvents(before, i);
  }

  /** Moving an event on brings no new event in. */
  lemma HopKeepsEvents(stages: seq<seq<Event>>, i: nat)
    requires i + 1 < |stages| && stages[i] != []
    ensures forall x, j | 0 <= x < |stages| && 0 <= j < |Hopped(stages, i)[x]| ::
              exists y, l :: 0 <= y < |stages| && 0 <= l < |stages[y]| && stages[y][l] == Hopped(stages, i)[x][j]
  {
    var after := Hopped(stages, i);
    forall x, j | 0 <= x < |stages| && 0 <= j < |after[x]|
      ensures exists y, l :: 0 <= y < |stages| && 0 <= l < |stages[y]| && stages[y][l] == after[x][j]
    {
      if x == i {
        assert after[x][j] == stages[x][j + 1];
      } else if x == i + 1 && j == |stages[x]| {
        assert after[x][j] == stages[i][0];
      } else {
        assert after[x][j] == stages[x][j];
      }
    }
  }

  lemma SubscribeKeepsSub(k: Config, s: State, t: State, c: CallId)
    requires Inv(k, s) && Subscribe(k, s, t, c)
    ensures SubInv(k, t, c)
  {
    assert CallShape(s, c);
  }

  lemma SubStep(k: Config, s: State, t: State, step: Step)
    requires Inv(k, s) && Next(k, s, t, step)
    ensures forall c | c in t.subs :: SubInv(k, t, c)
  {
    StepsEvolveRows(k, s, t, step);
    Locality(k, s, t, step);
    forall c | c in t.subs
      ensures SubInv(k, t, c)
    {
      if Actor(step) == Some(c) {
        ActorSubStep(k, s, t, step);
      } else {
        assert SubInv(k, s, c);
        SubFrame(k, s, t, c);
      }
    }
  }

  lemma ActorSubStep(k: Config, s: State, t: State, step: Step)
    requires Inv(k, s) && Next(k, s, t, step) && Actor(step).Some?
    ensures step.c in t.subs ==> SubInv(k, t, step.c)
  {
    if step.c in s.subs {
      assert SubInv(k, s, step.c);
    }
    if step.SubscribeStep? {
      SubscribeKeepsSub(k, s, t, step.c);
    } else if step.PullStep? {
      PullKeepsSub(k, s, t, step.c);
    } else if step.c in s.subs {
      if step.c in s.calls {
        assert CallShape(s, step.c);
      }
      OwnSubStep(k, s, t, step);
    } else {
      SubsUntouched(k, s, t, step);
    }
  }

  lemma OwnSubStep(k: Config, s: State, t: State, step: Step)
    requires Next(k, s, t, step) && Actor(step).Some? && !step.SubscribeStep? && !step.PullStep?
    requires step.c in s.subs && SubInv(k, s, step.c) && step.c in s.calls && CallShape(s, step.c)
    ensures step.c in t.subs && SubInv(k, t, step.c)
  {
    if step.ConsumeStep? {
      ConsumeKeepsSub(k, s, t, step.c);
    } else if step.HopStep? {
      HopKeepsSub(k, s, t, step.c, step.i);
    } else if step.DisconnectStep? {
      DisconnectKeepsSub(k, s, t, step.c, step.cut);
    } else {
      SubsUntouched(k, s, t, step);
      StepsEvolveRows(k, s, t, step);
      SubFrame(k, s, t, step.c);
    }
  }

  lemma SubsUntouched(k: Config, s: State, t: State, step: Step)
    requires Next(k, s, t, step) && Actor(step).Some?
    requires !step.SubscribeStep? && !step.ConsumeStep? && !step.PullStep? && !step.HopStep? && !step.DisconnectStep?
    ensures t.subs == s.subs && step.c in t.calls
    ensures step.c in s.calls && s.calls[step.c].phase != Creating ==> t.calls[step.c].approval == s.calls[step.c].approval
  {
  }

  lemma ConsumeKeepsSub(k: Config, s: State, t: State, c: CallId)
    requires c in s.subs && SubInv(k, s, c) && Consume(s, t, c)
    ensures SubInv(k, t, c)
  {
    var sub, after := s.subs[c], t.subs[c];
    var n := |sub.stages|;
    forall i, j | 0 <= i < |after.stages| && 0 <= j < |after.stages[i]| && after.stages[i][j].DecidedEvent?
      ensures after.stages[i][j].payload in t.announced
    {
      assert after.stages[i][j] == if i == n - 1 then sub.stages[i][j + 1] else sub.stages[i][j];
    }
  }

  lemma DisconnectKeepsSub(k: Config, s: State, t: State, c: CallId, cut: nat)
    requires c in s.subs && SubInv(k, s, c) && Disconnect(s, t, c, cut)
    ensures SubInv(k, t, c)
  {
    var sub, after := s.subs[c], t.subs[c];
    forall i, j | 0 <= i < |after.stages| && 0 <= j < |after.stages[i]| && after.stages[i][j].DecidedEvent?
      ensures after.stages[i][j].payload in t.announced
    {
      assert i >= cut && after.stages[i] == sub.stages[i];
    }
  }

  // ----- calls

  lemma ShapeFrame(s: State, t: State, c: CallId)
    requires c in s.calls && CallShape(s, c)
    requires c in t.calls && t.calls[c] == s.calls[c]
    requires c in t.subs <==> c in s.subs
    requires Evolves(s.rows, t.rows)
    ensures CallShape(t, c)
  {
  }

  /** The state carried by a decided event is the stored state. */
  lemma EventsTellTheTruth(k: Config, s: State, c: CallId, i: nat, j: nat)
    requires Inv(k, s) && c in s.subs
    requires i < |s.subs[c].stages| && j < |s.subs[c].stages[i]| && s.subs[c].stages[i][j].DecidedEvent?
    ensures var p := s.subs[c].stages[i][j].payload;
            p.id in s.rows && s.rows[p.id].state == p.state != Pending
  {
    assert SubInv(k, s, c);
    var p := s.subs[c].stages[i][j].payload;
    var x :| 0 <= x < |s.announced| && s.announced[x] == p;
  }

  lemma ShapeStep(k: Config, s: State, t: State, step: Step)
    requires Inv(k, s) && Next(k, s, t, step)
    ensures forall c | c in t.calls :: CallShape(t, c)
  {
    StepsEvolveRows(k, s, t, step);
    Locality(k, s, t, step);
    forall c | c in t.calls
      ensures CallShape(t, c)
    {
      if Actor(step) == Some(c) {
        if c in s.calls {
          assert CallShape(s, c);
        }
        if c in s.subs {
          assert SubInv(k, s, c);
        }
        if step.ConsumeStep? {
          ConsumeKeepsShape(k, s, t, c);
        } else {
          ActorShapeStep(k, s, t, step, c);
        }
      } else {
        assert CallShape(s, c);
        ShapeFrame(s, t, c);
      }
    }
  }

  lemma ActorShapeStep(k: Config, s: State, t: State, step: Step, c: CallId)
    requires Next(k, s, t, step) && Actor(step) == Some(c) && !step.ConsumeStep?
    requires c in s.calls ==> CallShape(s, c)
    requires c in s.subs ==> c in s.calls && s.calls[c].approval.Some?
    requires c in t.calls
    ensures CallShape(t, c)
  {
    if step.PullStep? || step.HopStep? || step.DisconnectStep? {
      StepsEvolveRows(k, s, t, step);
      ShapeFrame(s, t, c);
    } else if step.NewCallStep? || step.EvaluateGatesStep? || step.CreateRowStep? || step.SubscribeStep? {
      SetupShape(k, s, t, step, c);
    } else {
      PhaseShape(k, s, t, step, c);
    }
  }

  lemma SetupShape(k: Config, s: State, t: State, step: Step, c: CallId)
    requires step.NewCallStep? || step.EvaluateGatesStep? || step.CreateRowStep? || step.SubscribeStep?
    requires Next(k, s, t, step) && Actor(step) == Some(c)
    requires c in s.calls ==> CallShape(s, c)
    requires c in s.subs ==> c in s.calls && s.calls[c].approval.Some?
    ensures c in t.calls && CallShape(t, c)
  {
  }

  lemma PhaseShape(k: Config, s: State, t: State, step: Step, c: CallId)
    requires !step.NewCallStep? && !step.EvaluateGatesStep? && !step.CreateRowStep? && !step.SubscribeStep?
    requires !step.PullStep? && !step.HopStep? && !step.DisconnectStep? && !step.ConsumeStep?
    requires Next(k, s, t, step) && Actor(step) == Some(c)
    requires c in s.calls && CallShape(s, c)
    ensures c in t.calls && CallShape(t, c)
  {
    if step.ReadRowStep? {
      ReadShape(s, t, c, step.phase);
    } else if step.ExpireSwapStep? {
      assert ExpireSwap(s, t, c);
    } else {
      OnwardShape(k, s, t, step, c);
    }
  }

  lemma ReadShape(s: State, t: State, c: CallId, phase: Phase)
    requires ReadRow(s, t, c, phase) && CallShape(s, c)
    ensures CallShape(t, c)
  {
  }

  lemma OnwardShape(k: Config, s: State, t: State, step: Step, c: CallId)
    requires step.ForwardPlainStep? || step.ForwardDangerousStep? || step.TimeoutStep? || step.SubscriptionEndedStep?
          || step.ExpireAnsweredStep? || step.CallFailsStep? || step.ConcludeStep?
    requires Next(k, s, t, step) && step.c == c && c in s.calls && CallShape(s, c)
    ensures c in t.calls && CallShape(t, c)
  {
  }

  lemma ConsumeKeepsShape(k: Config, s: State, t: State, c: CallId)
    requires Inv(k, s) && Consume(s, t, c)
    ensures CallShape(t, c)
  {
    assert CallShape(s, c);
    assert SubInv(k, s, c);
    var n := |s.subs[c].stages|;
    if s.subs[c].stages[n - 1][0].DecidedEvent? {
      EventsTellTheTruth(k, s, c, n - 1, 0);
    }
  }

  // ----- coverage

  lemma CoveredFrame(s: State, t: State, c: CallId)
    requires c in s.calls && Covered(s, c)
    requires c in t.calls && t.calls[c] == s.calls[c]
    requires c in t.subs ==> c in s.subs && t.subs[c] == s.subs[c]
    requires t.rows == s.rows && s.deciding + s.abandoned == t.deciding + t.abandoned
    requires t.sent == s.sent
    ensures Covered(t, c)
  {
  }

  /** A swap puts the row among the decisions still to be published. */
  lemma CoveredSwap(k: Config, s: State, t: State, c: CallId, id: ApprovalId, state: ApprovalState)
    requires Inv(k, s) && c in s.calls && Covered(s, c)
    requires c in t.calls && (t.calls[c] == s.calls[c] || t.calls[c].phase != Waiting)
    requires t.subs == s.subs && t.sent == s.sent && t.abandoned == s.abandoned
    requires t.rows == Swapped(s.rows, id, state)
    requires t.deciding == if IsPending(s.rows, id) then s.deciding + {id} else s.deciding
    ensures Covered(t, c)
  {
  }

  lemma CoveredPublish(k: Config, s: State, t: State, c: CallId, id: ApprovalId)
    requires Covered(s, c) && ChannelInv(k, s) && (c in s.subs ==> SubInv(k, s, c))
    requires c in s.calls && Publish(s, t, id)
    ensures Covered(t, c)
  {
    if AtWithRow(t, c, Waiting) && c in t.subs && t.subs[c].open {
      var sub := s.subs[c];
      assert HasListener(s);
      assert t.sent[|s.sent|].id == id;
      var own := s.calls[c].approval.value;
      if t.rows[own].state != Pending && own !in t.deciding + t.abandoned {
        if own != id {
          var p :| sub.start <= p < |s.sent| && s.sent[p].id == own;
          assert t.sent[p].id == own;
        }
      }
      forall p | sub.start <= p < sub.cursor <= |t.sent| && t.sent[p].id == own
        ensures HasWaking(sub.stages, own)
      {
        assert s.sent[p].id == own;
      }
    }
  }

  lemma CoveredPull(k: Config, s: State, t: State, c: CallId)
    requires Inv(k, s) && Pull(k, s, t, c)
    ensures Covered(t, c)
  {
    assert SubInv(k, s, c);
    assert Covered(s, c);
    if AtWithRow(s, c, Waiting) {
      ReceiveAccountsForEveryEntry(s.channel.value, s.sent, s.subs[c].cursor);
      forall p | s.subs[c].start <= p < t.subs[c].cursor && s.sent[p].id == s.calls[c].approval.value
        ensures HasWaking(t.subs[c].stages, s.calls[c].approval.value)
      {
        PullKeepsWaking(s.channel.value, s.sent, s.subs[c], s.calls[c].approval.value, p);
      }
    }
  }

  /** The entry at `p` is represented in the queues after the pull, by itself or by a lag notice. */
  lemma PullKeepsWaking(ch: Channel<Payload>, sent: seq<Payload>, sub: Subscription, id: ApprovalId, p: nat)
    requires Holds(ch, sent) && 0 < |sub.stages| && sub.cursor < ch.Tail()
    requires p < Pulled(ch, sub).cursor && p < |sent| && sent[p].id == id
    requires p < sub.cursor ==> HasWaking(sub.stages, id)
    ensures HasWaking(Pulled(ch, sub).stages, id)
  {
    var after := Pulled(ch, sub).stages;
    if p < sub.cursor {
      var i, j :| 0 <= i < |sub.stages| && 0 <= j < |sub.stages[i]| && Wakes(sub.stages[i][j], id);
      assert Wakes(after[i][j], id);
    } else {
      assert Wakes(after[0][|sub.stages[0]|], id);
    }
  }

  lemma HopKeepsWaking(stages: seq<seq<Event>>, i: nat, id: ApprovalId)
    requires i + 1 < |stages| && stages[i] != []
    requires HasWaking(stages, id)
    ensures HasWaking(Hopped(stages, i), id)
  {
    var x, j :| 0 <= x < |stages| && 0 <= j < |stages[x]| && Wakes(stages[x][j], id);
    var after := Hopped(stages, i);
    if x != i {
      assert Wakes(after[x][j], id);
    } else if j > 0 {
      assert Wakes(after[x][j - 1], id);
    } else {
      assert Wakes(after[i + 1][|stages[i + 1]|], id);
    }
  }

  /** Consuming an event that does not wake the call keeps every event that does. */
  lemma ConsumeKeepsWaking(stages: seq<seq<Event>>, id: ApprovalId)
    requires 0 < |stages| && stages[|stages| - 1] != []
    requires HasWaking(stages, id) && !Wakes(stages[|stages| - 1][0], id)
    ensures HasWaking(stages[|stages| - 1 := stages[|stages| - 1][1..]], id)
  {
    var n := |stages|;
    var x, j :| 0 <= x < n && 0 <= j < |stages[x]| && Wakes(stages[x][j], id);
    var after := stages[n - 1 := stages[n - 1][1..]];
    if x == n - 1 {
      assert Wakes(after[x][j - 1], id);
    } else {
      assert Wakes(after[x][j], id);
    }
  }

  lemma CoveredStep(k: Config, s: State, t: State, step: Step)
    requires Inv(k, s) && Next(k, s, t, step)
    ensures forall c | c in t.calls :: Covered(t, c)
  {
    Locality(k, s, t, step);
    forall c | c in t.calls
      ensures Covered(t, c)
    {
      if c !in s.calls {
        OnlyNewCallsAppear(k, s, t, step);
      } else if Actor(step) == Some(c) {
        assert Covered(s, c) && CallShape(s, c);
        CoveredByActor(k, s, t, step, c);
      } else {
        CoveredByOthers(k, s, t, step, c);
      }
    }
  }

  lemma OnlyNewCallsAppear(k: Config, s: State, t: State, step: Step)
    requires Next(k, s, t, step)
    ensures forall c | c in t.calls && c !in s.calls :: t.calls[c].phase == Gating
  {
    StepForm(k, s, t, step);
    if Actor(step).Some? && step.c !in s.calls && !OnPath(step) {
      assert step.NewCallStep?;
    }
  }

  lemma CoveredByOthers(k: Config, s: State, t: State, step: Step, c: CallId)
    requires Inv(k, s) && Next(k, s, t, step) && Local(s, t, step) && c in s.calls && Actor(step) != Some(c)
    ensures c in t.calls && Covered(t, c)
  {
    assert Covered(s, c) && CallShape(s, c);
    if step.DecideRowStep? {
      CoveredSwap(k, s, t, c, step.id, step.state);
    } else if step.ExpireSwapStep? {
      CoveredSwap(k, s, t, c, s.calls[step.c].approval.value, Expired);
    } else if step.PublishStep? {
      if c in s.subs {
        assert SubInv(k, s, c);
      }
      CoveredPublish(k, s, t, c, step.id);
    } else {
      CoveredAside(k, s, t, step, c);
    }
  }

  lemma CoveredAside(k: Config, s: State, t: State, step: Step, c: CallId)
    requires Next(k, s, t, step) && Local(s, t, step) && c in s.calls && Actor(step) != Some(c)
    requires !step.DecideRowStep? && !step.ExpireSwapStep? && !step.PublishStep? && Covered(s, c) && CallShape(s, c)
    ensures c in t.calls && Covered(t, c)
  {
    if step.CreateRowStep? {
      CoveredCreate(s, t, c, step.c, step.id);
    } else {
      QuietStep(k, s, t, step);
      CoveredFrame(s, t, c);
    }
  }

  lemma QuietStep(k: Config, s: State, t: State, step: Step)
    requires Next(k, s, t, step)
    requires !step.DecideRowStep? && !step.ExpireSwapStep? && !step.PublishStep? && !step.CreateRowStep?
    ensures t.rows == s.rows && s.deciding + s.abandoned == t.deciding + t.abandoned && t.sent == s.sent
  {
  }

  lemma CoveredByActor(k: Config, s: State, t: State, step: Step, c: CallId)
    requires Inv(k, s) && Next(k, s, t, step) && Actor(step) == Some(c) && c in s.calls
    ensures c in t.calls && Covered(t, c)
  {
    if step.PullStep? {
      CoveredPull(k, s, t, c);
    } else if step.ReadRowStep? {
      CoveredRead(k, s, t, c, step.phase);
    } else {
      assert Covered(s, c);
      CoveredOnward(k, s, t, step, c);
    }
  }

  lemma CoveredOnward(k: Config, s: State, t: State, step: Step, c: CallId)
    requires Next(k, s, t, step) && Actor(step) == Some(c) && c in s.calls && Covered(s, c)
    requires !step.PullStep? && !step.ReadRowStep?
    ensures c in t.calls && Covered(t, c)
  {
    if step.HopStep? {
      CoveredHop(k, s, t, c, step.i);
    } else if step.ConsumeStep? {
      CoveredConsume(s, t, c);
    } else if step.DisconnectStep? {
      assert Disconnect(s, t, c, step.cut);
    } else {
      LeavesWaiting(k, s, t, step);
    }
  }

  /** Steps of a call after which it does not wait. */
  lemma LeavesWaiting(k: Config, s: State, t: State, step: Step)
    requires Next(k, s, t, step) && Actor(step).Some? && !OnPath(step) && !step.ConsumeStep? && !step.ReadRowStep?
    ensures step.c in t.calls && t.calls[step.c].phase != Waiting
  {
  }

  lemma CoveredCreate(s: State, t: State, c: CallId, d: CallId, id: ApprovalId)
    requires c in s.calls && c != d && CreateRow(s, t, d, id) && Covered(s, c) && CallShape(s, c)
    ensures Covered(t, c)
  {
  }

  lemma CoveredHop(k: Config, s: State, t: State, c: CallId, i: nat)
    requires c in s.calls && Covered(s, c) && Hop(k, s, t, c, i)
    ensures Covered(t, c)
  {
    if AtWithRow(t, c, Waiting) && HasWaking(s.subs[c].stages, s.calls[c].approval.value) {
      HopKeepsWaking(s.subs[c].stages, i, s.calls[c].approval.value);
    }
  }

  lemma CoveredConsume(s: State, t: State, c: CallId)
    requires Covered(s, c) && Consume(s, t, c)
    ensures Covered(t, c)
  {
    var id, stages := s.calls[c].approval.value, s.subs[c].stages;
    if t.calls[c].phase == Waiting && HasWaking(stages, id) {
      ConsumeKeepsWaking(stages, id);
    }
  }

  /** A call goes back to waiting only after seeing its row pending, and then no decision about it was ever sent. */
  lemma CoveredRead(k: Config, s: State, t: State, c: CallId, phase: Phase)
    requires Inv(k, s) && ReadRow(s, t, c, phase)
    ensures Covered(t, c)
  {
    if t.calls[c].phase == Waiting {
      PendingRowsWereNeverSent(k, s, s.calls[c].approval.value);
    }
  }

  lemma PendingRowsWereNeverSent(k: Config, s: State, id: ApprovalId)
    requires Inv(k, s) && IsPending(s.rows, id)
    ensures forall p | 0 <= p < |s.sent| :: s.sent[p].id != id
  {
    forall p | 0 <= p < |s.sent|
      ensures s.sent[p].id != id
    {
      assert s.sent[p] in s.announced;
      var x :| 0 <= x < |s.announced| && s.announced[x] == s.sent[p];
    }
  }

  // ----- ownership and forwarding

  lemma OwnRowsStep(k: Config, s: State, t: State, step: Step)
    requires Inv(k, s) && Next(k, s, t, step)
    ensures OwnRows(t)
  {
    if step.CreateRowStep? {
      forall d | d in s.calls
        ensures s.calls[d].approval != Some(step.id)
      {
        assert CallShape(s, d);
      }
      CreateOwnsRow(s, t, step.c, step.id);
    } else {
      ApprovalsStay(k, s, t, step);
      OwnRowsFrame(s, t);
    }
  }

  lemma CreateOwnsRow(s: State, t: State, c: CallId, id: ApprovalId)
    requires OwnRows(s) && CreateRow(s, t, c, id) && forall d | d in s.calls :: s.calls[d].approval != Some(id)
    ensures OwnRows(t)
  {
  }

  lemma OwnRowsFrame(s: State, t: State)
    requires OwnRows(s)
    requires forall c | c in t.calls :: t.calls[c].approval == if c in s.calls then s.calls[c].approval else None
    ensures OwnRows(t)
  {
  }

  lemma JustifiedFrame(s: State, t: State, f: Forward)
    requires Justified(s, f) && Evolves(s.rows, t.rows)
    requires f.call in t.calls && t.calls[f.call] == s.calls[f.call]
    ensures Justified(t, f)
  {
  }

  lemma ForwardStep(k: Config, s: State, t: State, step: Step)
    requires Inv(k, s) && Next(k, s, t, step)
    ensures ForwardInv(t)
  {
    OldForwardsStay(k, s, t, step);
    if step.ForwardPlainStep? || step.ForwardDangerousStep? {
      assert CallShape(s, step.c);
      NewForward(k, s, t, step);
      JoinForwards(s, t);
    } else {
      NoForward(k, s, t, step);
    }
  }

  lemma NoForward(k: Config, s: State, t: State, step: Step)
    requires Next(k, s, t, step) && !step.ForwardPlainStep? && !step.ForwardDangerousStep?
    ensures t.forwarded == s.forwarded
  {
  }

  ghost predicate OneMore(s: State, t: State)
  {
    && |t.forwarded| == |s.forwarded| + 1
    && t.forwarded[..|s.forwarded|] == s.forwarded
    && Justified(t, t.forwarded[|s.forwarded|])
    && forall i | 0 <= i < |s.forwarded| :: s.forwarded[i].call != t.forwarded[|s.forwarded|].call
  }

  lemma JoinForwards(s: State, t: State)
    requires ForwardInv(s) && OneMore(s, t)
    requires forall i | 0 <= i < |s.forwarded| :: Justified(t, s.forwarded[i])
    ensures ForwardInv(t)
  {
    assert forall i | 0 <= i < |s.forwarded| :: t.forwarded[i] == s.forwarded[i];
  }

  lemma OldForwardsStay(k: Config, s: State, t: State, step: Step)
    requires ForwardInv(s) && Next(k, s, t, step)
    ensures forall i | 0 <= i < |s.forwarded| :: Justified(t, s.forwarded[i])
  {
    StepsEvolveRows(k, s, t, step);
    Locality(k, s, t, step);
    forall i | 0 <= i < |s.forwarded|
      ensures Justified(t, s.forwarded[i])
    {
      assert Justified(s, s.forwarded[i]);
      JustifiedFrame(s, t, s.forwarded[i]);
    }
  }

  /** A forwarding step sends one request, for a call that had not finished. */
  lemma NewForward(k: Config, s: State, t: State, step: Step)
    requires ForwardInv(s) && Next(k, s, t, step) && (step.ForwardPlainStep? || step.ForwardDangerousStep?)
    requires step.c in s.calls && CallShape(s, step.c)
    ensures OneMore(s, t)
  {
    forall i | 0 <= i < |s.forwarded|
      ensures s.forwarded[i].call != step.c
    {
      assert Justified(s, s.forwarded[i]);
    }
  }

  // ----- induction

  lemma InitInv(k: Config, s: State)
    requires k.Valid() && Init(s)
    ensures Inv(k, s)
  {
  }

  lemma StepInv(k: Config, s: State, t: State, step: Step)
    requires Inv(k, s) && Next(k, s, t, step)
    ensures Inv(k, t)
  {
    DecisionStep(k, s, t, step);
    ChannelStep(k, s, t, step);
    SubStep(k, s, t, step);
    ShapeStep(k, s, t, step);
    CoveredStep(k, s, t, step);
    OwnRowsStep(k, s, t, step);
    ForwardStep(k, s, t, step);
  }

  /** Every state of every run satisfies the invariant. */
  lemma {:induction false} RunInv(k: Config, states: seq<State>, steps: seq<Step>, n: nat)
    requires Run(k, states, steps) && n < |states|
    ensures Inv(k, states[n])
  {
    if n == 0 {
      InitInv(k, states[0]);
    } else {
      RunInv(k, states, steps, n - 1);
      StepInv(k, states[n - 1], states[n], steps[n - 1]);
    }
  }
}
