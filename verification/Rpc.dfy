/** Request/response matching on one IPC connection: pipelining client, concurrent handlers, demultiplexing reader. */
module Rpc {
  type RequestId = nat

  datatype Request = Request(id: RequestId, op: string, args: string)

  /** `origin` records which request the handler that built the response was dispatching. */
  datatype Response = Response(id: RequestId, data: string, origin: Request)

  /** How a request ended on the client's side. */
  datatype Ending =
    | Delivered(response: Response)     // handed to the `request` call waiting for it
    | Queued(response: Response)        // put in the queue `next_response` reads
    | Discarded(request: Request)       // its caller had gone
    | Lost(request: Request)            // its write failed or its handler was cancelled
  {
    function Subject(): Request { if Delivered? || Queued? then response.origin else request }
  }

  /** Handlers a connection runs at once before it stops reading frames. */
  const MAX_INFLIGHT_REQUESTS: nat := 128

  /**
   * One connection. `up` and `down` are the two directions of the stream with their mailboxes, `running`
   * the in-flight handlers, `pending` the client's table of ids awaiting a response, `waiting` those whose
   * caller still listens, `queue` what `next_response` will read. `taken`, `endings`, `sent` and `asked`
   * (the ids used by `request`) are histories.
   */
  datatype Connection = Connection(
    open: bool,
    nextId: RequestId,
    pending: set<RequestId>,
    waiting: set<RequestId>,
    up: seq<Request>,
    running: seq<Request>,
    down: seq<Response>,
    queue: seq<Response>,
    taken: seq<Response>,
    endings: seq<Ending>,
    sent: seq<Request>,
    asked: set<RequestId>)

  const Fresh := Connection(true, 1, {}, {}, [], [], [], [], [], [], [], {})

  datatype Step =
    | Send(op: string, args: string, awaited: bool, written: bool)   // `request` (awaited) or `send_request`
    | DropCaller(id: RequestId)             // the future awaiting the response is dropped
    | Accept                                // the server reads a frame and spawns its handler
    | Reply(handler: nat, data: string)     // some handler finishes; any of them may be next
    | CancelHandler(handler: nat)
    | Demux                                 // the client's reader task handles one frame
    | TakeNext                              // `next_response`
    | Close                                 // the reader exits: pending callers are woken with an error

  predicate Enabled(c: Connection, step: Step)
  {
    match step
    case Send(_, _, _, written) => written ==> c.open
    case DropCaller(id) => id in c.waiting
    case Accept => c.open && c.up != [] && |c.running| < MAX_INFLIGHT_REQUESTS
    case Reply(i, _) => c.open && i < |c.running|
    case CancelHandler(i) => i < |c.running|
    case Demux => c.open && c.down != []
    case TakeNext => c.queue != []
    case Close => c.open
  }

  function Without<T>(s: seq<T>, i: nat): seq<T>
    requires i < |s|
  {
    s[..i] + s[i + 1..]
  }

  /** A `request` registers its id before writing and removes it again when the write fails. */
  function Sent(c: Connection, r: Request, awaited: bool, written: bool): Connection
  {
    var d := c.(nextId := c.nextId + 1, sent := c.sent + [r], asked := if awaited then c.asked + {r.id} else c.asked);
    if !written then d.(endings := c.endings + [Lost(r)])
    else if !awaited then d.(up := c.up + [r])
    else d.(up := c.up + [r], pending := c.pending + {r.id}, waiting := c.waiting + {r.id})
  }

  /** The reader removes the id from the table and wakes its caller; an id not in the table goes to the shared queue. */
  function Demuxed(c: Connection, r: Response): Connection
  {
    if r.id !in c.pending then c.(queue := c.queue + [r], endings := c.endings + [Queued(r)])
    else if r.id in c.waiting then
      c.(pending := c.pending - {r.id}, waiting := c.waiting - {r.id}, endings := c.endings + [Delivered(r)])
    else c.(pending := c.pending - {r.id}, endings := c.endings + [Discarded(r.origin)])
  }

  function Next(c: Connection, step: Step): Connection
    requires Enabled(c, step)
  {
    match step
    case Send(op, args, awaited, written) => Sent(c, Request(c.nextId, op, args), awaited, written)
    case DropCaller(id) => c.(waiting := c.waiting - {id})
    case Accept => c.(up := c.up[1..], running := c.running + [c.up[0]])
    case Reply(i, data) =>
      c.(running := Without(c.running, i), down := c.down + [Response(c.running[i].id, data, c.running[i])])
    case CancelHandler(i) => c.(running := Without(c.running, i), endings := c.endings + [Lost(c.running[i])])
    case Demux => Demuxed(c, c.down[0]).(down := c.down[1..])
    case TakeNext => c.(queue := c.queue[1..], taken := c.taken + [c.queue[0]])
    case Close => c.(open := false, pending := {}, waiting := {})
  }

  // ----- where every request is

  function Origins(responses: seq<Response>): seq<Request>
  {
    seq(|responses|, i requires 0 <= i < |responses| => responses[i].origin)
  }

  function Subjects(endings: seq<Ending>): seq<Request>
  {
    seq(|endings|, i requires 0 <= i < |endings| => endings[i].Subject())
  }

  /** Every request the connection knows about, wherever it is: going up, in a handler, coming down, or ended. */
  function Everywhere(c: Connection): multiset<Request>
  {
    multiset(c.up) + multiset(c.running) + multiset(Origins(c.down)) + multiset(Subjects(c.endings))
  }

  function QueuedOf(endings: seq<Ending>): seq<Response>
  {
    if endings == [] then []
    else
      var last := endings[|endings| - 1];
      QueuedOf(endings[..|endings| - 1]) + if last.Queued? then [last.response] else []
  }

  // ----- invariant

  /** Conservation: each request sent is in exactly one place. */
  ghost predicate Conserved(c: Connection)
  {
    Everywhere(c) == multiset(c.sent)
  }

  ghost predicate Numbered(c: Connection)
  {
    && c.nextId == |c.sent| + 1
    && (forall i | 0 <= i < |c.sent| :: c.sent[i].id == i + 1)
  }

  /** Responses carry the id of their request, and each ended where its kind of call looks for it. */
  ghost predicate Sorted(c: Connection)
  {
    && (forall i | 0 <= i < |c.down| :: c.down[i].id == c.down[i].origin.id)
    && (forall i | 0 <= i < |c.endings| :: WellEnded(c, c.endings[i]))
    && c.taken + c.queue == QueuedOf(c.endings)
    && c.waiting <= c.pending <= c.asked
    && (forall id | id in c.asked :: 1 <= id < c.nextId)
  }

  ghost predicate WellEnded(c: Connection, e: Ending)
  {
    && e.Subject().id < c.nextId
    && (e.Delivered? ==> e.response.id == e.response.origin.id && e.response.id in c.asked)
    && (e.Queued? ==> e.response.id == e.response.origin.id && e.response.id !in c.asked)
    && (e.Discarded? ==> e.request.id in c.asked)
  }

  /** While the connection is up, an awaited request that left the table has ended. */
  ghost predicate TableComplete(c: Connection)
  {
    c.open ==> forall r | r in c.sent && r.id in c.asked && r.id !in c.pending :: r in Subjects(c.endings)
  }

  ghost predicate Inv(c: Connection)
  {
    Conserved(c) && Numbered(c) && Sorted(c) && TableComplete(c)
  }

  // ----- conservation

  lemma OriginsAppend(a: seq<Response>, r: Response)
    ensures Origins(a + [r]) == Origins(a) + [r.origin]
  {
  }

  lemma SubjectsAppend(a: seq<Ending>, e: Ending)
    ensures Subjects(a + [e]) == Subjects(a) + [e.Subject()]
  {
  }

  lemma WithoutOne<T>(s: seq<T>, i: nat)
    requires i < |s|
    ensures multiset(s) == multiset(Without(s, i)) + multiset{s[i]}
  {
    assert s == s[..i] + [s[i]] + s[i + 1..];
  }

  lemma HeadOff<T>(s: seq<T>)
    requires s != []
    ensures multiset(s) == multiset{s[0]} + multiset(s[1..])
  {
    assert s == [s[0]] + s[1..];
  }

  lemma ConservedStep(c: Connection, step: Step)
    requires Conserved(c) && Enabled(c, step)
    ensures Conserved(Next(c, step))
  {
    match step
    case Send(op, args, awaited, written) => SendConserves(c, Request(c.nextId, op, args), awaited, written);
    case DropCaller(_) =>
    case Accept => HeadOff(c.up);
    case Reply(i, data) => ReplyConserves(c, i, data);
    case CancelHandler(i) => CancelConserves(c, i);
    case Demux => DemuxConserves(c);
    case TakeNext =>
    case Close =>
  }

  lemma SendConserves(c: Connection, r: Request, awaited: bool, written: bool)
    requires Conserved(c)
    ensures Conserved(Sent(c, r, awaited, written))
  {
    SubjectsAppend(c.endings, Lost(r));
  }

  lemma ReplyConserves(c: Connection, i: nat, data: string)
    requires Conserved(c) && Enabled(c, Reply(i, data))
    ensures Conserved(Next(c, Reply(i, data)))
  {
    WithoutOne(c.running, i);
    OriginsAppend(c.down, Response(c.running[i].id, data, c.running[i]));
  }

  lemma CancelConserves(c: Connection, i: nat)
    requires Conserved(c) && i < |c.running|
    ensures Conserved(Next(c, CancelHandler(i)))
  {
    WithoutOne(c.running, i);
    SubjectsAppend(c.endings, Lost(c.running[i]));
  }

  lemma DemuxConserves(c: Connection)
    requires Conserved(c) && Enabled(c, Demux)
    ensures Conserved(Next(c, Demux))
  {
    var d := Next(c, Demux);
    DemuxEnds(c, c.down[0]);
    HeadOff(Origins(c.down));
    assert Origins(c.down)[1..] == Origins(c.down[1..]);
    assert multiset(Subjects(d.endings)) == multiset(Subjects(c.endings)) + multiset{c.down[0].origin};
  }

  lemma DemuxEnds(c: Connection, r: Response)
    ensures var d := Demuxed(c, r);
            && d.up == c.up && d.running == c.running && d.sent == c.sent && d.down == c.down
            && |d.endings| == |c.endings| + 1 && d.endings[..|c.endings|] == c.endings
            && d.endings[|c.endings|].Subject() == r.origin
            && Subjects(d.endings) == Subjects(c.endings) + [r.origin]
  {
  }

  // ----- numbering: ids are never reused

  lemma NumberedStep(c: Connection, step: Step)
    requires Numbered(c) && Enabled(c, step)
    ensures Numbered(Next(c, step))
  {
    match step
    case Send(_, _, _, _) =>
    case _ =>
  }

  lemma {:induction false} PrefixOnce(c: Connection, n: nat, r: Request)
    requires Numbered(c) && n <= |c.sent|
    ensures multiset(c.sent[..n])[r] <= if 1 <= r.id <= n then 1 else 0
  {
    if n > 0 {
      PrefixOnce(c, n - 1, r);
      assert c.sent[..n] == c.sent[..n - 1] + [c.sent[n - 1]];
    }
  }

  lemma SentOnce(c: Connection, r: Request)
    requires Numbered(c) && Conserved(c)
    ensures Everywhere(c)[r] <= 1
    ensures r in Everywhere(c) ==> r in c.sent
  {
    PrefixOnce(c, |c.sent|, r);
    assert c.sent[..|c.sent|] == c.sent;
  }

  /** A response still on its way down has not ended before. */
  lemma DownHasNotEnded(c: Connection)
    requires Inv(c) && c.down != []
    ensures c.down[0].origin in c.sent && c.down[0].origin !in Subjects(c.endings)
  {
    var r := c.down[0].origin;
    assert Origins(c.down)[0] == r;
    assert r in multiset(Origins(c.down));
    SentOnce(c, r);
    assert r in Subjects(c.endings) ==> r in multiset(Subjects(c.endings));
  }

  lemma SameIdSameRequest(c: Connection, a: Request, b: Request)
    requires Numbered(c) && a in c.sent && b in c.sent && a.id == b.id
    ensures a == b
  {
  }

  // ----- routing

  /** An ending stays well placed while ids only grow. */
  lemma EndedStays(c: Connection, d: Connection)
    requires forall i | 0 <= i < |c.endings| :: WellEnded(c, c.endings[i])
    requires c.nextId <= d.nextId && c.asked <= d.asked && forall id | id in d.asked && id !in c.asked :: id >= c.nextId
    ensures forall i | 0 <= i < |c.endings| :: WellEnded(d, c.endings[i])
  {
  }

  lemma SortedStep(c: Connection, step: Step)
    requires Inv(c) && Enabled(c, step)
    ensures Sorted(Next(c, step))
  {
    match step
    case Send(op, args, awaited, written) => SendSorts(c, Request(c.nextId, op, args), awaited, written);
    case DropCaller(_) =>
    case Accept =>
    case Reply(_, _) =>
    case CancelHandler(i) => CancelSorts(c, i);
    case Demux => DemuxSorts(c);
    case TakeNext => assert c.taken + c.queue == (c.taken + [c.queue[0]]) + c.queue[1..];
    case Close =>
  }

  lemma SendSorts(c: Connection, r: Request, awaited: bool, written: bool)
    requires Sorted(c) && Numbered(c) && r.id == c.nextId
    ensures Sorted(Sent(c, r, awaited, written))
  {
    var d := Sent(c, r, awaited, written);
    EndedStays(c, d);
    if !written {
      assert d.endings[..|c.endings|] == c.endings;
    }
  }

  lemma CancelSorts(c: Connection, i: nat)
    requires Inv(c) && i < |c.running|
    ensures Sorted(Next(c, CancelHandler(i)))
  {
    var d := Next(c, CancelHandler(i));
    assert c.running[i] in multiset(c.running);
    SentOnce(c, c.running[i]);
    assert d.endings[..|c.endings|] == c.endings;
  }

  lemma DemuxSorts(c: Connection)
    requires Inv(c) && Enabled(c, Demux)
    ensures Sorted(Next(c, Demux))
  {
    var r := c.down[0];
    DownHasNotEnded(c);
    assert r.id in c.asked ==> r.id in c.pending;
    DemuxedSorts(c, r);
  }

  lemma DemuxedSorts(c: Connection, r: Response)
    requires Sorted(c) && r.id == r.origin.id < c.nextId && (r.id in c.asked <==> r.id in c.pending)
    ensures Sorted(Demuxed(c, r))
  {
    var d := Demuxed(c, r);
    assert d.endings[..|c.endings|] == c.endings;
    assert c.taken + (c.queue + [r]) == (c.taken + c.queue) + [r];
  }

  lemma TableStep(c: Connection, step: Step)
    requires Inv(c) && Enabled(c, step)
    ensures TableComplete(Next(c, step))
  {
    var d := Next(c, step);
    if d.open {
      forall q | q in d.sent && q.id in d.asked && q.id !in d.pending
        ensures q in Subjects(d.endings)
      {
        if q in c.sent && q.id in c.asked && q.id !in c.pending {
          EndingsGrow(c, step, q);
        } else if step.Demux? {
          DemuxedHasEnded(c, q);
        } else if step.Send? {
          assert q == Request(c.nextId, step.op, step.args) && d.endings == c.endings + [Lost(q)];
          SubjectsAppend(c.endings, Lost(q));
        }
      }
    }
  }

  lemma EndingsGrow(c: Connection, step: Step, q: Request)
    requires Enabled(c, step) && q in Subjects(c.endings)
    ensures q in Subjects(Next(c, step).endings)
  {
    var d := Next(c, step);
    var i :| 0 <= i < |c.endings| && c.endings[i].Subject() == q;
    assert d.endings[i] == c.endings[i];
    assert Subjects(d.endings)[i] == q;
  }

  lemma DemuxedHasEnded(c: Connection, q: Request)
    requires Inv(c) && Enabled(c, Demux) && q in c.sent && q.id in c.pending && q.id !in Next(c, Demux).pending
    ensures q in Subjects(Next(c, Demux).endings)
  {
    DownHasNotEnded(c);
    SameIdSameRequest(c, q, c.down[0].origin);
    DemuxEnds(c, c.down[0]);
  }

  // ----- every run

  ghost predicate Run(states: seq<Connection>, steps: seq<Step>)
  {
    && |states| == |steps| + 1
    && states[0] == Fresh
    && forall i {:trigger steps[i]} | 0 <= i < |steps| :: Enabled(states[i], steps[i]) && states[i + 1] == Next(states[i], steps[i])
  }

  lemma {:induction false} RunInv(states: seq<Connection>, steps: seq<Step>, n: nat)
    requires Run(states, steps) && n < |states|
    ensures Inv(states[n])
  {
    if n > 0 {
      RunInv(states, steps, n - 1);
      assert Enabled(states[n - 1], steps[n - 1]) && states[n] == Next(states[n - 1], steps[n - 1]);
      StepInv(states[n - 1], steps[n - 1]);
    }
  }

  /** Every step keeps conservation, numbering, routing and the table. */
  lemma StepInv(c: Connection, step: Step)
    requires Inv(c) && Enabled(c, step)
    ensures Inv(Next(c, step))
  {
    ConservedStep(c, step);
    NumberedStep(c, step);
    SortedStep(c, step);
    TableStep(c, step);
  }

  /** The one request with a given id. */
  ghost predicate IsRequest(c: Connection, id: RequestId, r: Request)
  {
    1 <= id <= |c.sent| && c.sent[id - 1] == r && r.id == id
  }

  /**
   * What a `request` caller receives was built by the handler of its own request; a response to a
   * pipelined request is never handed to such a caller, nor the other way round, and `next_response`
   * yields the pipelined responses in the order they arrived.
   */
  lemma ResponsesMatchRequests(states: seq<Connection>, steps: seq<Step>, n: nat, e: Ending)
    requires Run(states, steps) && n < |states| && e in states[n].endings
    ensures var c := states[n];
            && IsRequest(c, e.Subject().id, e.Subject())
            && (e.Delivered? ==> e.response.id == e.response.origin.id && e.response.id in c.asked)
            && (e.Queued? ==> e.response.id == e.response.origin.id && e.response.id !in c.asked)
    ensures states[n].taken + states[n].queue == QueuedOf(states[n].endings)
  {
    var c := states[n];
    RunInv(states, steps, n);
    var i :| 0 <= i < |c.endings| && c.endings[i] == e;
    assert Subjects(c.endings)[i] == e.Subject();
    assert e.Subject() in multiset(Subjects(c.endings));
    SentOnce(c, e.Subject());
  }

  /** No request is answered, delivered or counted lost twice. */
  lemma EndsAtMostOnce(states: seq<Connection>, steps: seq<Step>, n: nat, i: nat, j: nat)
    requires Run(states, steps) && n < |states| && i < j < |states[n].endings|
    ensures states[n].endings[i].Subject() != states[n].endings[j].Subject()
  {
    var c := states[n];
    RunInv(states, steps, n);
    var subjects := Subjects(c.endings);
    SentOnce(c, subjects[i]);
    assert multiset(subjects)[subjects[i]] <= 1;
    OccursTwice(subjects, i, j);
  }

  lemma OccursTwice<T>(s: seq<T>, i: nat, j: nat)
    requires i < j < |s|
    ensures s[i] == s[j] ==> multiset(s)[s[i]] >= 2
  {
    WithoutOne(s, j);
    assert Without(s, j)[i] == s[i];
  }

  // ----- why a request goes without a response

  /** The step in which the write of `r` fails or its handler is cancelled. */
  predicate Loses(c: Connection, step: Step, r: Request)
  {
    match step
    case Send(op, args, _, written) => !written && r == Request(c.nextId, op, args)
    case CancelHandler(i) => i < |c.running| && c.running[i] == r
    case _ => false
  }

  ghost predicate WasLost(states: seq<Connection>, steps: seq<Step>, n: nat, r: Request)
    requires n <= |steps| && n < |states|
  {
    exists i :: 0 <= i < n && Loses(states[i], steps[i], r)
  }

  ghost predicate WasDropped(steps: seq<Step>, n: nat, id: RequestId)
    requires n <= |steps|
  {
    exists i :: 0 <= i < n && steps[i] == DropCaller(id)
  }

  lemma {:induction false} LostForAReason(states: seq<Connection>, steps: seq<Step>, n: nat, r: Request)
    requires Run(states, steps) && n < |states| && Lost(r) in states[n].endings
    ensures WasLost(states, steps, n, r)
  {
    var before, step := states[n - 1], steps[n - 1];
    assert Enabled(before, step) && states[n] == Next(before, step);
    if Lost(r) in before.endings {
      LostForAReason(states, steps, n - 1, r);
      var i :| 0 <= i < n - 1 && Loses(states[i], steps[i], r);
      assert i < n;
    } else {
      assert Loses(before, step, r);
    }
  }

  /** A caller in the table that no longer listens was dropped. */
  lemma {:induction false} DeafWasDropped(states: seq<Connection>, steps: seq<Step>, n: nat, id: RequestId)
    requires Run(states, steps) && n < |states| && id in states[n].pending && id !in states[n].waiting
    ensures WasDropped(steps, n, id)
  {
    var before, step := states[n - 1], steps[n - 1];
    assert Enabled(before, step) && states[n] == Next(before, step);
    if step == DropCaller(id) {
      assert steps[n - 1] == DropCaller(id);
    } else {
      DeafWasDropped(states, steps, n - 1, id);
      var i :| 0 <= i < n - 1 && steps[i] == DropCaller(id);
      assert i < n;
    }
  }

  lemma DiscardMeansDeaf(c: Connection, step: Step, r: Request)
    requires Sorted(c) && Enabled(c, step) && Discarded(r) in Next(c, step).endings && Discarded(r) !in c.endings
    ensures r.id in c.pending && r.id !in c.waiting
  {
    if step.Demux? {
      assert c.down[0].id == c.down[0].origin.id;
    }
  }

  lemma {:induction false} DiscardedForAReason(states: seq<Connection>, steps: seq<Step>, n: nat, r: Request)
    requires Run(states, steps) && n < |states| && Discarded(r) in states[n].endings
    ensures WasDropped(steps, n, r.id)
  {
    var before, step := states[n - 1], steps[n - 1];
    assert Enabled(before, step) && states[n] == Next(before, step);
    if Discarded(r) in before.endings {
      DiscardedForAReason(states, steps, n - 1, r);
    } else {
      RunInv(states, steps, n - 1);
      DiscardMeansDeaf(before, step, r);
      DeafWasDropped(states, steps, n - 1, r.id);
    }
    var i :| 0 <= i < n - 1 && steps[i] == DropCaller(r.id);
    assert i < n;
  }

  /** Where the ending of `r` is found, and why if that is not with its caller. */
  ghost predicate EndedRightly(states: seq<Connection>, steps: seq<Step>, n: nat, e: Ending)
    requires n <= |steps| && n < |states|
  {
    match e
    case Delivered(p) => p.origin.id in states[n].asked
    case Queued(p) => p.origin.id !in states[n].asked
    case Discarded(r) => r.id in states[n].asked && WasDropped(steps, n, r.id)
    case Lost(r) => WasLost(states, steps, n, r)
  }

  /**
   * With nothing in flight every request sent has ended: answered where its call looks for it, discarded because its
   * caller was dropped, or lost because its write failed or its handler was cancelled.
   */
  lemma QuietMeansAnswered(states: seq<Connection>, steps: seq<Step>, n: nat, r: Request)
    requires Run(states, steps) && n < |states| && r in states[n].sent
    requires states[n].up == [] && states[n].running == [] && states[n].down == []
    ensures exists e :: e in states[n].endings && e.Subject() == r && EndedRightly(states, steps, n, e)
  {
    var c := states[n];
    RunInv(states, steps, n);
    assert r in multiset(c.sent);
    assert Origins(c.down) == [];
    assert r in multiset(Subjects(c.endings));
    assert r in Subjects(c.endings);
    var i :| 0 <= i < |c.endings| && Subjects(c.endings)[i] == r;
    var e := c.endings[i];
    assert e in c.endings && WellEnded(c, e);
    if e.Lost? {
      LostForAReason(states, steps, n, r);
    } else if e.Discarded? {
      DiscardedForAReason(states, steps, n, r);
    }
  }

  /**
   * A request that was written, whose handler was not cancelled and whose caller was not dropped gets its own response,
   * exactly once: handed to its caller, or put in the shared queue if it was pipelined.
   */
  lemma UndisturbedIsAnswered(states: seq<Connection>, steps: seq<Step>, n: nat, r: Request)
    requires Run(states, steps) && n < |states| && r in states[n].sent
    requires states[n].up == [] && states[n].running == [] && states[n].down == []
    requires !WasLost(states, steps, n, r) && !WasDropped(steps, n, r.id)
    ensures exists i :: 0 <= i < |states[n].endings|
              && (states[n].endings[i].Delivered? || states[n].endings[i].Queued?)
              && states[n].endings[i].response.origin == r && states[n].endings[i].response.id == r.id
              && (states[n].endings[i].Delivered? <==> r.id in states[n].asked)
              && forall j | 0 <= j < |states[n].endings| && j != i :: states[n].endings[j].Subject() != r
  {
    QuietMeansAnswered(states, steps, n, r);
    var e :| e in states[n].endings && e.Subject() == r && EndedRightly(states, steps, n, e);
    ResponsesMatchRequests(states, steps, n, e);
    var i :| 0 <= i < |states[n].endings| && states[n].endings[i] == e;
    forall j | 0 <= j < |states[n].endings| && j != i
      ensures states[n].endings[j].Subject() != r
    {
      EndsAtMostOnce(states, steps, n, if i < j then i else j, if i < j then j else i);
    }
  }

  // ----- a connection always gets quiet

  /** The steps lead from `c` to `d`. */
  ghost predicate Path(c: Connection, steps: seq<Step>, d: Connection)
    decreases |steps|
  {
    if steps == [] then c == d else Enabled(c, steps[0]) && Path(Next(c, steps[0]), steps[1..], d)
  }

  predicate Settling(step: Step) { step.Accept? || step.Reply? || step.Demux? }

  /** While anything is in flight on an open connection, the server or the reader can move it on. */
  function MoveOn(c: Connection): (step: Step)
    requires c.open && (c.up != [] || c.running != [] || c.down != [])
    ensures Enabled(c, step) && Settling(step)
  {
    if c.down != [] then Demux else if c.running != [] then Reply(0, "") else Accept
  }

  /** From any open state, accepting, answering and delivering alone empty the connection; no new call is needed. */
  lemma {:induction false} ReachesQuiet(c: Connection) returns (steps: seq<Step>, d: Connection)
    requires c.open
    ensures Path(c, steps, d) && forall i | 0 <= i < |steps| :: Settling(steps[i])
    ensures d.open && d.up == [] && d.running == [] && d.down == [] && d.sent == c.sent
    decreases 3 * |c.up| + 2 * |c.running| + |c.down|
  {
    if c.up == [] && c.running == [] && c.down == [] {
      steps, d := [], c;
    } else {
      var step := MoveOn(c);
      var rest;
      rest, d := ReachesQuiet(Next(c, step));
      steps := [step] + rest;
      assert steps[1..] == rest;
    }
  }
}
