/**
 * The approval protocol as a transition system: MCP calls waiting for a decision, deciders and
 * timeouts racing on the same rows, and the lossy event path from the hub to each waiting call.
 */
module ApprovalProtocol {
  import opened Prelude
  import opened Json
  import opened Gates
  import opened ApprovalStore
  import opened Broadcast

  type CallId = nat

  /** Payload of `mcp.approval_decided`. */
  datatype Payload = Payload(id: ApprovalId, state: ApprovalState)

  /** What the IPC layer delivers on the subscription. */
  datatype Event = DecidedEvent(payload: Payload) | LaggedEvent(missed: nat)

  /** The decided state, when the event is about this approval. */
  function MatchDecidedEvent(id: ApprovalId, e: Event): Option<ApprovalState>
  {
    if e.DecidedEvent? && e.payload.id == id then Some(e.payload.state) else None
  }

  predicate EventIsLagged(e: Event) { e.LaggedEvent? }

  /**
   * One call's subscription. `cursor` is the forwarder's position in the broadcast channel;
   * `stages` are the FIFO queues from the forwarder (first) to the waiting call (last);
   * `start` remembers the position at which the subscription was made.
   */
  datatype Subscription = Subscription(start: nat, cursor: nat, stages: seq<seq<Event>>, open: bool)

  datatype Tool = Tool(name: string, op: string, dangerous: bool)

  datatype Outcome = Forwarded | GateDenied | ApprovalDenied | ApprovalExpired | ApprovalTimeout | Failed

  datatype Phase =
    | Gating                              // about to evaluate the gates
    | AutoAllowed                         // a gate allowed the call
    | Creating                            // about to create the approval row
    | Subscribing                         // row created, not yet subscribed
    | FirstRead                           // subscribed, about to read the row
    | Waiting                             // in the select loop
    | Rereading                           // a lag notice arrived, about to read the row
    | LastRead                            // the subscription ended, about to read the row
    | Expiring                            // about to ask for the expiry swap
    | ExpireReply(decided: bool)          // the expiry swap ran; its answer is on the way
    | ReadBack                            // lost the expiry race, about to read the row
    | Resolved(state: ApprovalState)      // wait_for_approval returned this state
    | Finished(outcome: Outcome)

  datatype Call = Call(tool: Tool, args: Value, seen: seq<Gate>, approval: Option<ApprovalId>, phase: Phase)

  /** A request sent to the daemon on behalf of a call. */
  datatype Forward = Forward(call: CallId, op: string, args: Value)

  datatype Config = Config(channelCapacity: nat, stageCapacities: seq<nat>)
  {
    ghost predicate Valid()
    {
      && 0 < channelCapacity
      && 0 < |stageCapacities|
      && forall i | 0 <= i < |stageCapacities| :: 0 < stageCapacities[i]
    }
  }

  /**
   * `deciding` are decisions swapped into the table and not yet published; `abandoned` are those whose
   * handler was cancelled or failed in between. `sent` and `announced` are histories: every entry the
   * broadcast channel accepted, and every payload handed to the hub.
   */
  datatype State = State(
    rows: Table,
    gates: seq<Gate>,
    channel: Option<Channel<Payload>>,
    deciding: set<ApprovalId>,
    abandoned: set<ApprovalId>,
    calls: map<CallId, Call>,
    subs: map<CallId, Subscription>,
    forwarded: seq<Forward>,
    sent: seq<Payload>,
    announced: seq<Payload>)

  predicate Init(s: State)
  {
    s == State(map[], s.gates, None, {}, {}, map[], map[], [], [], [])
  }

  // ----- helpers on states

  function WithPhase(s: State, c: CallId, phase: Phase): State
    requires c in s.calls
  {
    s.(calls := s.calls[c := s.calls[c].(phase := phase)])
  }

  predicate At(s: State, c: CallId, phase: Phase)
  {
    c in s.calls && s.calls[c].phase == phase
  }

  /** The call is at `phase` and its approval row exists. */
  predicate AtWithRow(s: State, c: CallId, phase: Phase)
  {
    At(s, c, phase) && s.calls[c].approval.Some? && s.calls[c].approval.value in s.rows
  }

  function RowOf(s: State, c: CallId): Approval
    requires c in s.calls && s.calls[c].approval.Some? && s.calls[c].approval.value in s.rows
  {
    s.rows[s.calls[c].approval.value]
  }

  function GatesForTool(gates: seq<Gate>, tool: string): seq<Gate>
  {
    if gates == [] then []
    else (if gates[0].tool == tool then [gates[0]] else []) + GatesForTool(gates[1..], tool)
  }

  /** `forward_dangerous_tool` stamps the actor into object arguments. */
  function WithActor(tool: Tool, args: Value): Value
  {
    if args.Object? then Object(Insert(args.fields, "_actor", Str("mcp:" + tool.name))) else args
  }

  function EmptyStages(n: nat): seq<seq<Event>> { seq(n, i => []) }

  predicate Drained(stages: seq<seq<Event>>)
  {
    forall i | 0 <= i < |stages| :: stages[i] == []
  }

  predicate HasListener(s: State)
  {
    exists c :: c in s.subs && s.subs[c].open
  }

  // ----- steps of a call

  predicate NewCall(s: State, t: State, c: CallId, tool: Tool, args: Value)
  {
    c !in s.calls && t == s.(calls := s.calls[c := Call(tool, args, [], None, Gating)])
  }

  /** Harmless tools go straight to the daemon. */
  predicate ForwardPlain(s: State, t: State, c: CallId)
  {
    && At(s, c, Gating)
    && !s.calls[c].tool.dangerous
    && t == WithPhase(s, c, Finished(Forwarded)).(
              forwarded := s.forwarded + [Forward(c, s.calls[c].tool.op, s.calls[c].args)])
  }

  predicate EvaluateGates(s: State, t: State, c: CallId)
  {
    && At(s, c, Gating)
    && s.calls[c].tool.dangerous
    && var call := s.calls[c];
       var seen := GatesForTool(s.gates, call.tool.name);
       var phase := match Decide(seen, call.args).action
                    case AutoAllow => AutoAllowed
                    case Deny => Finished(GateDenied)
                    case Require => Creating;
       t == s.(calls := s.calls[c := call.(seen := seen, phase := phase)])
  }

  predicate CreateRow(s: State, t: State, c: CallId, id: ApprovalId)
  {
    && At(s, c, Creating)
    && id !in s.rows
    && var call := s.calls[c];
       t == s.(rows := s.rows[id := Approval(call.tool.name, call.args, Pending)],
               calls := s.calls[c := call.(approval := Some(id), phase := Subscribing)])
  }

  predicate Subscribe(k: Config, s: State, t: State, c: CallId)
  {
    && At(s, c, Subscribing)
    && var channel := if s.channel.Some? then s.channel.value else Channel(k.channelCapacity, 0, []);
       var sub := Subscription(channel.Tail(), channel.Tail(), EmptyStages(|k.stageCapacities|), true);
       t == WithPhase(s, c, FirstRead).(channel := Some(channel), subs := s.subs[c := sub])
  }

  /** The four places where the row is read, and where each read leads. */
  function PhaseAfterRead(phase: Phase, state: ApprovalState): Phase
    requires phase in {FirstRead, Rereading, LastRead, ReadBack}
  {
    match phase
    case FirstRead => if state != Pending then Resolved(state) else Waiting
    case Rereading => if state != Pending then Resolved(state) else Waiting
    case LastRead => if state == Pending then Expiring else Resolved(state)
    case ReadBack => Resolved(state)
  }

  predicate ReadRow(s: State, t: State, c: CallId, phase: Phase)
  {
    && phase in {FirstRead, Rereading, LastRead, ReadBack}
    && AtWithRow(s, c, phase)
    && t == WithPhase(s, c, PhaseAfterRead(phase, RowOf(s, c).state))
  }

  predicate Timeout(s: State, t: State, c: CallId)
  {
    At(s, c, Waiting) && t == WithPhase(s, c, Expiring)
  }

  /** The waiting call takes the next event from its last queue. */
  predicate Consume(s: State, t: State, c: CallId)
  {
    CanConsume(s, c) && t == Consumed(s, c)
  }

  predicate CanConsume(s: State, c: CallId)
  {
    && AtWithRow(s, c, Waiting)
    && c in s.subs
    && 0 < |s.subs[c].stages|
    && s.subs[c].stages[|s.subs[c].stages| - 1] != []
  }

  function Consumed(s: State, c: CallId): State
    requires CanConsume(s, c)
  {
    var sub := s.subs[c];
    var n := |sub.stages|;
    WithPhase(s, c, PhaseAfterEvent(s.calls[c].approval.value, sub.stages[n - 1][0])).(
      subs := s.subs[c := sub.(stages := sub.stages[n - 1 := sub.stages[n - 1][1..]])])
  }

  /** Our own decision ends the wait; a lag notice forces a re-read; anything else is ignored. */
  function PhaseAfterEvent(id: ApprovalId, e: Event): Phase
  {
    var told := MatchDecidedEvent(id, e);
    if told.Some? then Resolved(told.value)
    else if EventIsLagged(e) then Rereading
    else Waiting
  }

  /** The subscription ended and everything it had delivered was consumed. */
  predicate SubscriptionEnded(s: State, t: State, c: CallId)
  {
    && At(s, c, Waiting)
    && c in s.subs
    && !s.subs[c].open
    && Drained(s.subs[c].stages)
    && t == WithPhase(s, c, LastRead)
  }

  /** The daemon runs the expiry swap for a timed-out call. */
  predicate ExpireSwap(s: State, t: State, c: CallId)
  {
    && AtWithRow(s, c, Expiring)
    && var id := s.calls[c].approval.value;
       var decided := IsPending(s.rows, id);
       t == WithPhase(s, c, ExpireReply(decided)).(
              rows := Swapped(s.rows, id, Expired),
              deciding := if decided then s.deciding + {id} else s.deciding)
  }

  /** The answer comes back only after the handler has published. */
  predicate ExpireAnswered(s: State, t: State, c: CallId, decided: bool)
  {
    && AtWithRow(s, c, ExpireReply(decided))
    && (decided ==> s.calls[c].approval.value !in s.deciding + s.abandoned)
    && t == WithPhase(s, c, if decided then Resolved(Expired) else ReadBack)
  }

  /** A request to the daemon failed; the call ends with an error. */
  predicate CallFails(s: State, t: State, c: CallId)
  {
    c in s.calls && !s.calls[c].phase.Finished? && t == WithPhase(s, c, Finished(Failed))
  }

  predicate Conclude(s: State, t: State, c: CallId, state: ApprovalState)
  {
    && At(s, c, Resolved(state))
    && state != Allowed
    && t == WithPhase(s, c, Finished(match state
                                     case Denied => ApprovalDenied
                                     case Expired => ApprovalExpired
                                     case _ => ApprovalTimeout))
  }

  predicate ForwardDangerous(s: State, t: State, c: CallId)
  {
    && c in s.calls
    && (s.calls[c].phase == AutoAllowed || s.calls[c].phase == Resolved(Allowed))
    && t == WithPhase(s, c, Finished(Forwarded)).(
              forwarded := s.forwarded + [Forward(c, s.calls[c].tool.op, WithActor(s.calls[c].tool, s.calls[c].args))])
  }

  // ----- steps of deciders and the event path

  predicate EditGates(s: State, t: State, gates: seq<Gate>)
  {
    t == s.(gates := gates)
  }

  /** `mcp.approval.decide` from the user interface, for any id, known or not. */
  predicate DecideRow(s: State, t: State, id: ApprovalId, state: ApprovalState)
  {
    && state != Pending
    && t == s.(rows := Swapped(s.rows, id, state),
               deciding := if IsPending(s.rows, id) then s.deciding + {id} else s.deciding)
  }

  /** After a successful swap the handler re-reads the row and publishes its state. */
  predicate Publish(s: State, t: State, id: ApprovalId)
  {
    && id in s.deciding
    && id in s.rows
    && var payload := Payload(id, s.rows[id].state);
       var s1 := s.(deciding := s.deciding - {id}, announced := s.announced + [payload]);
       if s.channel.Some? && s.channel.value.Valid() && HasListener(s)
       then t == s1.(channel := Some(s.channel.value.Send(payload)), sent := s.sent + [payload])
       else t == s1
  }

  /** The handler is cancelled or fails between the swap and the publication. */
  predicate Abandon(s: State, t: State, id: ApprovalId)
  {
    id in s.deciding && t == s.(deciding := s.deciding - {id}, abandoned := s.abandoned + {id})
  }

  /** The forwarder receives from the channel and queues the entry, or a lag notice in its place. */
  predicate Pull(k: Config, s: State, t: State, c: CallId)
  {
    && c in s.subs && s.subs[c].open
    && s.channel.Some?
    && var sub := s.subs[c];
       && 0 < |sub.stages| == |k.stageCapacities|
       && |sub.stages[0]| < k.stageCapacities[0]
       && sub.cursor < s.channel.value.Tail()
       && t == s.(subs := s.subs[c := Pulled(s.channel.value, sub)])
  }

  function Pulled(ch: Channel<Payload>, sub: Subscription): Subscription
    requires 0 < |sub.stages| && sub.cursor < ch.Tail()
  {
    var e := match ch.Receive(sub.cursor)
             case Item(p) => DecidedEvent(p)
             case Lagged(n) => LaggedEvent(n)
             case Nothing => LaggedEvent(0);
    sub.(cursor := ch.CursorAfter(sub.cursor), stages := sub.stages[0 := sub.stages[0] + [e]])
  }

  /** An event moves from one queue to the next one that has room. */
  predicate Hop(k: Config, s: State, t: State, c: CallId, i: nat)
  {
    && c in s.subs
    && var sub := s.subs[c];
       && i + 1 < |sub.stages| == |k.stageCapacities|
       && sub.stages[i] != []
       && |sub.stages[i + 1]| < k.stageCapacities[i + 1]
       && t == s.(subs := s.subs[c := sub.(stages := Hopped(sub.stages, i))])
  }

  function Hopped(stages: seq<seq<Event>>, i: nat): seq<seq<Event>>
    requires i + 1 < |stages| && stages[i] != []
  {
    stages[i := stages[i][1..]][i + 1 := stages[i + 1] + [stages[i][0]]]
  }

  /** The connection closes: the forwarder dies and whatever sat in the first `cut` queues is lost. */
  predicate Disconnect(s: State, t: State, c: CallId, cut: nat)
  {
    && c in s.subs && s.subs[c].open
    && cut <= |s.subs[c].stages|
    && var sub := s.subs[c];
       t == s.(subs := s.subs[c := sub.(open := false, stages := EmptyStages(cut) + sub.stages[cut..])])
  }

  // ----- runs

  datatype Step =
    | NewCallStep(c: CallId, tool: Tool, args: Value)
    | ForwardPlainStep(c: CallId)
    | EvaluateGatesStep(c: CallId)
    | CreateRowStep(c: CallId, id: ApprovalId)
    | SubscribeStep(c: CallId)
    | ReadRowStep(c: CallId, phase: Phase)
    | TimeoutStep(c: CallId)
    | ConsumeStep(c: CallId)
    | SubscriptionEndedStep(c: CallId)
    | ExpireSwapStep(c: CallId)
    | ExpireAnsweredStep(c: CallId, decided: bool)
    | CallFailsStep(c: CallId)
    | ConcludeStep(c: CallId, state: ApprovalState)
    | ForwardDangerousStep(c: CallId)
    | EditGatesStep(gates: seq<Gate>)
    | DecideRowStep(id: ApprovalId, state: ApprovalState)
    | PublishStep(id: ApprovalId)
    | AbandonStep(id: ApprovalId)
    | PullStep(c: CallId)
    | HopStep(c: CallId, i: nat)
    | DisconnectStep(c: CallId, cut: nat)

  predicate Next(k: Config, s: State, t: State, step: Step)
  {
    match step
    case NewCallStep(c, tool, args) => NewCall(s, t, c, tool, args)
    case ForwardPlainStep(c) => ForwardPlain(s, t, c)
    case EvaluateGatesStep(c) => EvaluateGates(s, t, c)
    case CreateRowStep(c, id) => CreateRow(s, t, c, id)
    case SubscribeStep(c) => Subscribe(k, s, t, c)
    case ReadRowStep(c, phase) => ReadRow(s, t, c, phase)
    case TimeoutStep(c) => Timeout(s, t, c)
    case ConsumeStep(c) => Consume(s, t, c)
    case SubscriptionEndedStep(c) => SubscriptionEnded(s, t, c)
    case ExpireSwapStep(c) => ExpireSwap(s, t, c)
    case ExpireAnsweredStep(c, decided) => ExpireAnswered(s, t, c, decided)
    case CallFailsStep(c) => CallFails(s, t, c)
    case ConcludeStep(c, state) => Conclude(s, t, c, state)
    case ForwardDangerousStep(c) => ForwardDangerous(s, t, c)
    case EditGatesStep(gates) => EditGates(s, t, gates)
    case DecideRowStep(id, state) => DecideRow(s, t, id, state)
    case PublishStep(id) => Publish(s, t, id)
    case AbandonStep(id) => Abandon(s, t, id)
    case PullStep(c) => Pull(k, s, t, c)
    case HopStep(c, i) => Hop(k, s, t, c, i)
    case DisconnectStep(c, cut) => Disconnect(s, t, c, cut)
  }

  /** A run: one state more than steps, each step a transition of the system. */
  ghost predicate Run(k: Config, states: seq<State>, steps: seq<Step>)
  {
    && k.Valid()
    && |states| == |steps| + 1
    && Init(states[0])
    && forall i {:trigger steps[i]} | 0 <= i < |steps| :: Next(k, states[i], states[i + 1], steps[i])
  }
}
