/**
 * The life of one sync worker. The world answers each wait of a cycle; the worker leaves a trace of what it
 * published, started and slept. What the loops promise is a grammar of traces, from which the theorems follow.
 */
module Worker {
  import opened Prelude

  /** Nanoseconds of the largest duration: 2^64 - 1 seconds and 999999999 nanoseconds. */
  const DURATION_MAX: nat := 18446744073709551615 * 1000000000 + 999999999

  type Duration = d: nat | d <= DURATION_MAX

  datatype Config = Config(pollInterval: Duration, initialBackoff: Duration, maxBackoff: Duration)

  datatype SyncState = Idle | Polling | Syncing | Error

  datatype SyncStatus = StatusIdle | StatusSyncing | StatusError

  /** `Auth` covers rejected and missing credentials, `Fatal` an unusable port; a `Transient` failure is retried. */
  datatype FailureKind = Auth | Fatal | Transient

  datatype Event =
    | Published(state: SyncState)
    | ReconcileStart
    | Reconciled
    | IdleDone
    | Failed(kind: FailureKind)
    | Backoff(delay: Duration)
    | PollWait(delay: Duration)

  // ----- what the world answers in one cycle

  datatype Answer = Granted | Refused | Broken | Interrupted

  /** A cancellation can strike after the reconcile has already recorded its success. */
  datatype ReconcileAnswer = Finished | AuthFailed | OtherFailed | CancelledBefore | CancelledAfter

  datatype AccountAnswer = Account(validPort: bool) | NoAccount | LookupFailed

  datatype IdleAnswer = Woken | IdleCancelled | Unsupported | IdleAuthFailed | IdleFailed

  datatype Cycle = Cycle(cancelledAtTop: bool, credential: Answer, reconcile: ReconcileAnswer,
                         account: AccountAnswer, idle: IdleAnswer, cancelledInSleep: bool)

  // ----- backoff

  function NextBackoff(current: Duration, max: Duration): Duration
  {
    Min(Min(current * 2, DURATION_MAX), max)
  }

  function Pow2(k: nat): (r: nat)
    ensures r >= 1
  {
    if k == 0 then 1 else 2 * Pow2(k - 1)
  }

  /** How long the failure after `k` earlier consecutive ones waits. */
  function Delay(conf: Config, k: nat): Duration
  {
    if k == 0 then conf.initialBackoff else Min(conf.initialBackoff * Pow2(k), conf.maxBackoff)
  }

  lemma NextDelay(conf: Config, k: nat)
    ensures NextBackoff(Delay(conf, k), conf.maxBackoff) == Delay(conf, k + 1)
  {
    var p := conf.initialBackoff * Pow2(k);
    assert conf.initialBackoff * Pow2(k + 1) == 2 * p;
  }

  /** The textbook law `min(initial * 2^k, max)` holds for every failure exactly when the first wait respects the maximum. */
  lemma BackoffLaw(conf: Config)
    ensures (forall k: nat :: Delay(conf, k) == Min(conf.initialBackoff * Pow2(k), conf.maxBackoff))
            <==> conf.initialBackoff <= conf.maxBackoff
  {
    assert Delay(conf, 0) == conf.initialBackoff && Pow2(0) == 1;
  }

  // ----- traces

  /** Failures since the last success. */
  function Failures(t: seq<Event>): nat
  {
    if t == [] then 0
    else match t[|t| - 1]
      case Reconciled | IdleDone => 0
      case Failed(_) => Failures(t[..|t| - 1]) + 1
      case _ => Failures(t[..|t| - 1])
  }

  /** The stored status after a trace. */
  function StatusAfter(before: SyncStatus, t: seq<Event>): SyncStatus
  {
    if t == [] then before
    else match t[|t| - 1]
      case Reconciled => StatusIdle
      case Failed(_) => StatusError
      case _ => StatusAfter(before, t[..|t| - 1])
  }

  predicate EndsCycle(t: seq<Event>)
  {
    t != [] &&
    match t[|t| - 1]
    case Backoff(_) | PollWait(_) | IdleDone => true
    case Published(Polling) | Published(Idle) => |t| < 2 || t[|t| - 2] != Reconciled
    case _ => false
  }

  predicate StartsCycle(e: Event) { e == Published(Syncing) || e == Failed(Auth) || e == Failed(Transient) }

  /** What may come next: the grammar of worker traces. */
  predicate Follows(conf: Config, t: seq<Event>, e: Event)
  {
    if t == [] then e == Published(Idle) || e == Published(Polling)
    else if EndsCycle(t) then StartsCycle(e)
    else match t[|t| - 1]
      case Published(Syncing) => e == ReconcileStart
      case Published(Error) => |t| >= 2 && t[|t| - 2] == Failed(Transient) && Failures(t) > 0 && e == Backoff(Delay(conf, Failures(t) - 1))
      case Published(Polling) => e == PollWait(conf.pollInterval)
      case Published(Idle) => e == IdleDone || e == Failed(Auth) || e == Failed(Transient) || e == Published(Polling)
      case ReconcileStart => e == Reconciled || e == Failed(Auth) || e == Failed(Transient)
      case Reconciled =>
        if Polls(t) then e == Published(Polling)
        else e == Published(Idle) || e == Failed(Fatal) || e == Failed(Transient)
      case Failed(_) => e == Published(Error)
      case _ => false
  }

  ghost predicate Lawful(conf: Config, t: seq<Event>)
  {
    forall i | 0 <= i < |t| :: LawfulAt(conf, t, i)
  }

  predicate LawfulAt(conf: Config, t: seq<Event>, i: nat)
    requires i < |t|
  {
    Follows(conf, t[..i], t[i])
  }

  lemma Extend(conf: Config, before: SyncStatus, t: seq<Event>, e: Event)
    requires Lawful(conf, t) && Follows(conf, t, e)
    ensures Lawful(conf, t + [e])
    ensures Failures(t + [e]) == if e == Reconciled || e == IdleDone then 0 else if e.Failed? then Failures(t) + 1 else Failures(t)
    ensures StatusAfter(before, t + [e]) ==
            if e == Reconciled then StatusIdle else if e.Failed? then StatusError else StatusAfter(before, t)
  {
    assert (t + [e])[..|t|] == t;
    forall i | 0 <= i < |t + [e]|
      ensures LawfulAt(conf, t + [e], i)
    {
      if i < |t| {
        assert LawfulAt(conf, t, i);
        assert (t + [e])[..i] == t[..i];
      }
    }
  }

  // ----- the worker

  /** Writes the account's stored status and publishes state changes. */
  class StateReporter {
    const conf: Config
    ghost const before: SyncStatus
    var status: SyncStatus
    var trace: seq<Event>

    constructor (conf: Config, status: SyncStatus)
      ensures this.conf == conf && before == status && this.status == status && trace == [] && Valid()
    {
      this.conf, this.before, this.status, this.trace := conf, status, status, [];
    }

    /** The trace is one the grammar allows, and the stored status is the one it calls for. */
    ghost predicate Valid()
      reads this
    {
      Lawful(conf, trace) && status == StatusAfter(before, trace)
    }

    method Record(e: Event)
      requires Valid() && Follows(conf, trace, e) && !e.Failed? && e != Reconciled
      modifies this
      ensures Valid() && trace == old(trace) + [e] && status == old(status)
      ensures Failures(trace) == if e == IdleDone then 0 else Failures(old(trace))
      ensures old(trace) != [] && (e == Published(Polling) ==> Polls(old(trace))) ==> Continues(old(trace), trace)
    {
      Extend(conf, before, trace, e);
      trace := trace + [e];
    }

    /** The reconcile clears an earlier error from the stored status before it returns. */
    method RecordSuccess()
      requires Valid() && Follows(conf, trace, Reconciled)
      modifies this
      ensures Valid() && trace == old(trace) + [Reconciled] && status == StatusIdle && Failures(trace) == 0
      ensures Continues(old(trace), trace)
    {
      Extend(conf, before, trace, Reconciled);
      status := StatusIdle;
      trace := trace + [Reconciled];
    }

    /** Report a failure: the status is stored first, then the state is published. */
    method Fail(kind: FailureKind)
      requires Valid() && Follows(conf, trace, Failed(kind))
      modifies this
      ensures Valid() && trace == old(trace) + [Failed(kind), Published(Error)] && status == StatusError
      ensures Failures(trace) == Failures(old(trace)) + 1
      ensures Continues(old(trace), trace)
    {
      Extend(conf, before, trace, Failed(kind));
      trace := trace + [Failed(kind)];
      status := StatusError;
      Extend(conf, before, trace, Published(Error));
      trace := trace + [Published(Error)];
      assert trace == old(trace) + [Failed(kind), Published(Error)];
    }

    /** A failure that ends the worker. */
    method GiveUp(kind: FailureKind)
      requires Valid() && Follows(conf, trace, Failed(kind)) && kind != Transient
      modifies this
      ensures Valid() && trace == old(trace) + FailureEvents(conf, kind, Failures(old(trace))) && status == StatusError
      ensures Failures(trace) == Failures(old(trace)) + 1
      ensures Continues(old(trace), trace)
    {
      Fail(kind);
      assert FailureEvents(conf, kind, Failures(old(trace))) == [Failed(kind), Published(Error)];
    }

    /** Report a failure and sleep; after the sleep the backoff has grown. */
    method Retry(backoff: Duration) returns (next: Duration)
      requires Valid() && Follows(conf, trace, Failed(Transient))
      requires backoff == Delay(conf, Failures(trace))
      modifies this
      ensures Valid() && trace == old(trace) + FailureEvents(conf, Transient, Failures(old(trace))) && status == StatusError
      ensures next == Delay(conf, Failures(trace)) && EndsCycle(trace)
      ensures Failures(trace) == Failures(old(trace)) + 1
      ensures Continues(old(trace), trace)
    {
      Fail(Transient);
      assert trace[|trace| - 1] == Published(Error) && trace[|trace| - 2] == Failed(Transient);
      Record(Backoff(backoff));
      assert trace == old(trace) + FailureEvents(conf, Transient, Failures(old(trace)));
      NextDelay(conf, Failures(old(trace)));
      next := NextBackoff(backoff, conf.maxBackoff);
    }
  }

  // ----- what becomes of a worker

  /** Whether the worker is over once the account or its idle wait has answered. */
  predicate IdleStops(c: Cycle)
  {
    match c.account
    case NoAccount => true
    case LookupFailed => c.cancelledInSleep
    case Account(validPort) =>
      !validPort || c.idle == IdleCancelled || c.idle == IdleAuthFailed || (c.idle == IdleFailed && c.cancelledInSleep)
  }

  predicate IdleUnsupported(c: Cycle) { c.account == Account(true) && c.idle == Unsupported }

  /** The cycle reaches its reconcile and the reconcile returns success. */
  predicate Reconciles(c: Cycle) { !c.cancelledAtTop && c.credential == Granted && c.reconcile == Finished }

  /** A worker ends only by cancellation, for lack of authentication, or because the account is gone or unusable. */
  predicate Stops(idle: bool, c: Cycle)
  {
    || c.cancelledAtTop
    || c.credential == Interrupted || c.credential == Refused || (c.credential == Broken && c.cancelledInSleep)
    || (c.credential == Granted &&
        match c.reconcile
        case CancelledBefore | CancelledAfter | AuthFailed => true
        case OtherFailed => c.cancelledInSleep
        case Finished => if idle then IdleStops(c) else c.cancelledInSleep)
  }

  /** Failures in a row after a cycle that began with `k`. */
  function FailuresAfter(idle: bool, c: Cycle, k: nat): nat
  {
    if c.cancelledAtTop || c.credential == Interrupted then k
    else if c.credential != Granted then k + 1
    else match c.reconcile
      case CancelledBefore => k
      case CancelledAfter => 0
      case AuthFailed | OtherFailed => k + 1
      case Finished => if idle && IdleFails(c) then 1 else 0
  }

  predicate IdleFails(c: Cycle)
  {
    match c.account
    case NoAccount => false
    case LookupFailed => true
    case Account(validPort) => !validPort || c.idle == IdleAuthFailed || c.idle == IdleFailed
  }

  /** How many cycles the worker completes, and how many failures in a row it then has. */
  datatype Fate = Fate(lived: nat, failures: nat)

  function FateOf(idle: bool, k: nat, script: seq<Cycle>): Fate
    decreases |script|
  {
    if script == [] then Fate(0, k)
    else
      var c, k' := script[0], FailuresAfter(idle, script[0], k);
      if Stops(idle, c) then Fate(0, k')
      else
        var rest := FateOf(idle && !(Reconciles(c) && IdleUnsupported(c)), k', script[1..]);
        Fate(rest.lived + 1, rest.failures)
  }

  /** The fate of the whole script is that of the cycles left, once `n` are over. */
  ghost predicate Ahead(idle: bool, script: seq<Cycle>, n: nat, mode: bool, k: nat)
    requires n <= |script|
  {
    var rest := FateOf(mode, k, script[n..]);
    FateOf(idle, 0, script) == Fate(n + rest.lived, rest.failures)
  }

  lemma CycleAhead(idle: bool, script: seq<Cycle>, n: nat, mode: bool, k: nat)
    requires n < |script| && Ahead(idle, script, n, mode, k)
    ensures Stops(mode, script[n]) ==> FateOf(idle, 0, script) == Fate(n, FailuresAfter(mode, script[n], k))
    ensures !Stops(mode, script[n]) ==>
              Ahead(idle, script, n + 1, mode && !(Reconciles(script[n]) && IdleUnsupported(script[n])), FailuresAfter(mode, script[n], k))
  {
    assert script[n..][1..] == script[n + 1..];
  }

  // ----- what a worker does, told from the answers alone

  /** A failure is reported; a transient one then sleeps. */
  function FailureEvents(conf: Config, kind: FailureKind, k: nat): seq<Event>
  {
    [Failed(kind), Published(Error)] + if kind == Transient then [Backoff(Delay(conf, k))] else []
  }

  function CredentialEvents(conf: Config, k: nat, c: Cycle): seq<Event>
  {
    match c.credential
    case Granted | Interrupted => []
    case Refused => FailureEvents(conf, Auth, k)
    case Broken => FailureEvents(conf, Transient, k)
  }

  function OutcomeEvents(conf: Config, k: nat, c: Cycle): seq<Event>
  {
    match c.reconcile
    case CancelledBefore => []
    case CancelledAfter | Finished => [Reconciled]
    case AuthFailed => FailureEvents(conf, Auth, k)
    case OtherFailed => FailureEvents(conf, Transient, k)
  }

  function ReconcileEvents(conf: Config, k: nat, c: Cycle): seq<Event>
  {
    [Published(Syncing), ReconcileStart] + OutcomeEvents(conf, k, c)
  }

  function WaitEvents(conf: Config, c: Cycle): seq<Event>
  {
    match c.idle
    case IdleCancelled | Unsupported => []
    case Woken => [IdleDone]
    case IdleAuthFailed => FailureEvents(conf, Auth, 0)
    case IdleFailed => FailureEvents(conf, Transient, 0)
  }

  function IdleEvents(conf: Config, c: Cycle): seq<Event>
  {
    match c.account
    case NoAccount => []
    case LookupFailed => FailureEvents(conf, Transient, 0)
    case Account(validPort) => if validPort then [Published(Idle)] + WaitEvents(conf, c) else FailureEvents(conf, Fatal, 0)
  }

  function PollEvents(conf: Config): seq<Event> { [Published(Polling), PollWait(conf.pollInterval)] }

  /** One cycle that begins with `k` failures in a row. */
  function CycleEvents(conf: Config, idle: bool, k: nat, c: Cycle): seq<Event>
  {
    if c.cancelledAtTop then []
    else if c.credential != Granted then CredentialEvents(conf, k, c)
    else ReconcileEvents(conf, k, c) + if c.reconcile != Finished then [] else if idle then IdleEvents(conf, c) else PollEvents(conf)
  }

  /** All cycles of a script, until one of them stops the worker. */
  function RunEvents(conf: Config, idle: bool, k: nat, script: seq<Cycle>): seq<Event>
    decreases |script|, 0
  {
    if script == [] then []
    else
      var c := script[0];
      CycleEvents(conf, idle, k, c) + if Stops(idle, c) then [] else LaterEvents(conf, idle, FailuresAfter(idle, c, k), c, script[1..])
  }

  /** What follows a cycle that did not stop the worker; a server that cannot idle makes it poll. */
  function LaterEvents(conf: Config, idle: bool, k: nat, c: Cycle, rest: seq<Cycle>): seq<Event>
    decreases |rest|, 1
  {
    if idle && Reconciles(c) && IdleUnsupported(c) then [Published(Polling)] + RunEvents(conf, false, k, rest)
    else RunEvents(conf, idle, k, rest)
  }

  /** The trace so far, and what the cycles left will add, make up the trace of the whole run. */
  ghost predicate Leads(conf: Config, whole: seq<Event>, t: seq<Event>, idle: bool, k: nat, rest: seq<Cycle>)
  {
    whole == t + RunEvents(conf, idle, k, rest)
  }

  lemma CycleLeads(conf: Config, whole: seq<Event>, t: seq<Event>, idle: bool, k: nat, script: seq<Cycle>, n: nat)
    requires n < |script| && Leads(conf, whole, t, idle, k, script[n..])
    ensures Stops(idle, script[n]) ==> whole == t + CycleEvents(conf, idle, k, script[n])
    ensures !Stops(idle, script[n]) ==>
              whole == t + CycleEvents(conf, idle, k, script[n])
                       + LaterEvents(conf, idle, FailuresAfter(idle, script[n], k), script[n], script[n + 1..])
  {
    assert script[n..][1..] == script[n + 1..];
  }

  datatype CredentialCycle = Ready | Again | Stop

  /** The same first event, and the same mode. */
  ghost predicate Continues(before: seq<Event>, after: seq<Event>)
  {
    && before != [] && after != [] && after[0] == before[0]
    && (Polls(before) <==> Polls(after))
  }

  /** Whether the worker has gone over to polling. */
  predicate Polls(t: seq<Event>) { Published(Polling) in t }

  method CredentialForCycle(r: StateReporter, c: Cycle, backoff: Duration) returns (cycle: CredentialCycle, next: Duration)
    requires r.Valid() && EndsCycle(r.trace) && backoff == Delay(r.conf, Failures(r.trace))
    modifies r
    ensures r.Valid() && Continues(old(r.trace), r.trace)
    ensures cycle.Ready? <==> c.credential == Granted
    ensures r.trace == old(r.trace) + CredentialEvents(r.conf, Failures(old(r.trace)), c)
    ensures cycle.Stop? <==> c.credential == Interrupted || c.credential == Refused || (c.credential == Broken && c.cancelledInSleep)
    ensures Failures(r.trace) == Failures(old(r.trace)) + if c.credential == Refused || c.credential == Broken then 1 else 0
    ensures cycle != Stop ==> EndsCycle(r.trace) && next == Delay(r.conf, Failures(r.trace))
  {
    next := backoff;
    match c.credential {
      case Interrupted => cycle := Stop;
      case Granted => cycle := Ready;
      case Refused =>
        r.GiveUp(Auth);
        cycle := Stop;
      case Broken =>
        next := r.Retry(backoff);
        cycle := if c.cancelledInSleep then Stop else Again;
    }
  }

  ghost predicate EndsWith(t: seq<Event>, e: Event) { t != [] && t[|t| - 1] == e }

  /** Announce the reconcile and start it. */
  method BeginReconcile(r: StateReporter)
    requires r.Valid() && EndsCycle(r.trace)
    modifies r
    ensures r.Valid() && Continues(old(r.trace), r.trace)
    ensures r.trace == old(r.trace) + [Published(Syncing), ReconcileStart] && Failures(r.trace) == Failures(old(r.trace))
  {
    r.Record(Published(Syncing));
    r.Record(ReconcileStart);
  }

  /** What the reconcile came to. `done` says that the worker stops; `ok` that it reconciled. */
  method ReconcileCycle(r: StateReporter, c: Cycle, backoff: Duration) returns (done: bool, ok: bool, next: Duration)
    requires r.Valid() && EndsCycle(r.trace) && backoff == Delay(r.conf, Failures(r.trace))
    modifies r
    ensures r.Valid() && Continues(old(r.trace), r.trace)
    ensures r.trace == old(r.trace) + ReconcileEvents(r.conf, Failures(old(r.trace)), c)
    ensures ok <==> c.reconcile == Finished
    ensures done <==> !ok && (c.reconcile == OtherFailed ==> c.cancelledInSleep)
    ensures Failures(r.trace) == match c.reconcile
                                 case CancelledBefore => Failures(old(r.trace))
                                 case AuthFailed | OtherFailed => Failures(old(r.trace)) + 1
                                 case Finished | CancelledAfter => 0
    ensures !done && ok ==> EndsWith(r.trace, Reconciled)
    ensures !done && !ok ==> EndsCycle(r.trace)
    ensures !done ==> next == Delay(r.conf, Failures(r.trace))
  {
    next, done, ok := backoff, true, false;
    BeginReconcile(r);
    match c.reconcile {
      case CancelledBefore =>
      case CancelledAfter => r.RecordSuccess();
      case Finished =>
        r.RecordSuccess();
        next, done, ok := r.conf.initialBackoff, false, true;
      case AuthFailed => r.GiveUp(Auth);
      case OtherFailed =>
        next := r.Retry(backoff);
        done := c.cancelledInSleep;
    }
  }

  /** Back to waiting for the next poll. */
  method WaitForPoll(r: StateReporter)
    requires r.Valid() && EndsWith(r.trace, Reconciled) && Polls(r.trace)
    modifies r
    ensures r.Valid() && Continues(old(r.trace), r.trace) && EndsCycle(r.trace)
    ensures r.trace == old(r.trace) + PollEvents(r.conf) && Failures(r.trace) == Failures(old(r.trace))
  {
    PollWaitFollows(r.conf, r.trace);
    r.Record(Published(Polling));
    r.Record(PollWait(r.conf.pollInterval));
  }

  /** After a success the polling worker says that it polls, and waits. */
  lemma PollWaitFollows(conf: Config, t: seq<Event>)
    requires EndsWith(t, Reconciled) && Polls(t)
    ensures Follows(conf, t, Published(Polling))
    ensures Follows(conf, t + [Published(Polling)], PollWait(conf.pollInterval))
    ensures EndsCycle(t + [Published(Polling)] + [PollWait(conf.pollInterval)])
  {
    var u := t + [Published(Polling)];
    assert u[|u| - 1] == Published(Polling) && u[|u| - 2] == Reconciled;
  }

  /** One pass of the polling loop. */
  method PollCycle(r: StateReporter, c: Cycle, backoff: Duration) returns (done: bool, next: Duration)
    requires r.Valid() && EndsCycle(r.trace) && Polls(r.trace) && backoff == Delay(r.conf, Failures(r.trace))
    requires !c.cancelledAtTop
    modifies r
    ensures r.Valid() && Continues(old(r.trace), r.trace)
    ensures r.trace == old(r.trace) + CycleEvents(r.conf, false, Failures(old(r.trace)), c)
    ensures done == Stops(false, c) && Failures(r.trace) == FailuresAfter(false, c, Failures(old(r.trace)))
    ensures !done ==> EndsCycle(r.trace) && next == Delay(r.conf, Failures(r.trace))
  {
    var credential;
    credential, next := CredentialForCycle(r, c, backoff);
    done := credential.Stop?;
    if credential.Ready? {
      assert r.trace == old(r.trace);
      done, next := PollGranted(r, c, next);
    }
  }

  method PollGranted(r: StateReporter, c: Cycle, backoff: Duration) returns (done: bool, next: Duration)
    requires r.Valid() && EndsCycle(r.trace) && Polls(r.trace) && backoff == Delay(r.conf, Failures(r.trace))
    requires !c.cancelledAtTop && c.credential == Granted
    modifies r
    ensures r.Valid() && Continues(old(r.trace), r.trace)
    ensures r.trace == old(r.trace) + CycleEvents(r.conf, false, Failures(old(r.trace)), c)
    ensures done == Stops(false, c) && Failures(r.trace) == FailuresAfter(false, c, Failures(old(r.trace)))
    ensures !done ==> EndsCycle(r.trace) && next == Delay(r.conf, Failures(r.trace))
  {
    var ok;
    done, ok, next := ReconcileCycle(r, c, backoff);
    if ok {
      WaitForPoll(r);
      done := c.cancelledInSleep;
      Regroup(old(r.trace), ReconcileEvents(r.conf, Failures(old(r.trace)), c), PollEvents(r.conf));
    }
  }

  lemma Regroup(a: seq<Event>, b: seq<Event>, c: seq<Event>)
    ensures a + b + c == a + (b + c)
  {
  }

  /** The cycles of the script, unless the worker stops earlier. */
  method RunPollingWorker(r: StateReporter, script: seq<Cycle>) returns (lived: nat)
    requires r.Valid() && Follows(r.conf, r.trace, Published(Polling)) && Failures(r.trace) == 0
    requires r.trace == [] || r.trace[|r.trace| - 1] == Published(Idle)
    modifies r
    ensures r.Valid() && Polls(r.trace) && Fate(lived, Failures(r.trace)) == FateOf(false, 0, script)
    ensures r.trace == old(r.trace) + [Published(Polling)] + RunEvents(r.conf, false, 0, script)
  {
    var backoff := r.conf.initialBackoff;
    r.Record(Published(Polling));
    ghost var start, whole := r.trace, r.trace + RunEvents(r.conf, false, 0, script);
    assert script[0..] == script;
    for n := 0 to |script|
      invariant r.Valid() && EndsCycle(r.trace) && Continues(start, r.trace)
      invariant backoff == Delay(r.conf, Failures(r.trace)) && Ahead(false, script, n, false, Failures(r.trace))
      invariant Leads(r.conf, whole, r.trace, false, Failures(r.trace), script[n..])
    {
      CycleAhead(false, script, n, false, Failures(r.trace));
      CycleLeads(r.conf, whole, r.trace, false, Failures(r.trace), script, n);
      if script[n].cancelledAtTop {
        return n;
      }
      var done;
      done, backoff := PollCycle(r, script[n], backoff);
      if done {
        return n;
      }
    }
    return |script|;
  }

  /** One pass of the idling loop; `fallBack` says that the server cannot idle. */
  method SyncCycle(r: StateReporter, c: Cycle, backoff: Duration) returns (done: bool, fallBack: bool, next: Duration)
    requires r.Valid() && EndsCycle(r.trace) && !Polls(r.trace) && backoff == Delay(r.conf, Failures(r.trace))
    requires !c.cancelledAtTop
    modifies r
    ensures r.Valid() && Continues(old(r.trace), r.trace)
    ensures r.trace == old(r.trace) + CycleEvents(r.conf, true, Failures(old(r.trace)), c)
    ensures done == Stops(true, c) && Failures(r.trace) == FailuresAfter(true, c, Failures(old(r.trace)))
    ensures fallBack == (Reconciles(c) && IdleUnsupported(c))
    ensures !done && fallBack ==> FallsBack(r.conf, r.trace)
    ensures !done && !fallBack ==> EndsCycle(r.trace) && next == Delay(r.conf, Failures(r.trace))
  {
    var credential;
    fallBack := false;
    credential, next := CredentialForCycle(r, c, backoff);
    done := credential.Stop?;
    if credential.Ready? {
      assert r.trace == old(r.trace);
      done, fallBack, next := SyncGranted(r, c, next);
    }
  }

  method SyncGranted(r: StateReporter, c: Cycle, backoff: Duration) returns (done: bool, fallBack: bool, next: Duration)
    requires r.Valid() && EndsCycle(r.trace) && !Polls(r.trace) && backoff == Delay(r.conf, Failures(r.trace))
    requires !c.cancelledAtTop && c.credential == Granted
    modifies r
    ensures r.Valid() && Continues(old(r.trace), r.trace)
    ensures r.trace == old(r.trace) + CycleEvents(r.conf, true, Failures(old(r.trace)), c)
    ensures done == Stops(true, c) && Failures(r.trace) == FailuresAfter(true, c, Failures(old(r.trace)))
    ensures fallBack == (Reconciles(c) && IdleUnsupported(c))
    ensures !done && fallBack ==> FallsBack(r.conf, r.trace)
    ensures !done && !fallBack ==> EndsCycle(r.trace) && next == Delay(r.conf, Failures(r.trace))
  {
    var ok;
    fallBack := false;
    done, ok, next := ReconcileCycle(r, c, backoff);
    if ok {
      done, fallBack, next := IdleCycle(r, c, next);
      Regroup(old(r.trace), ReconcileEvents(r.conf, Failures(old(r.trace)), c), IdleEvents(r.conf, c));
    }
  }

  /** The server turned out not to support idling. */
  ghost predicate FallsBack(conf: Config, t: seq<Event>)
  {
    Follows(conf, t, Published(Polling)) && Failures(t) == 0 && EndsWith(t, Published(Idle))
  }

  method RunSyncWorker(r: StateReporter, idleSupported: bool, script: seq<Cycle>) returns (lived: nat)
    requires r.Valid() && r.trace == []
    modifies r
    ensures r.Valid() && r.trace == [Published(if idleSupported then Idle else Polling)] + RunEvents(r.conf, idleSupported, 0, script)
    ensures Fate(lived, Failures(r.trace)) == FateOf(idleSupported, 0, script)
  {
    if !idleSupported {
      lived := RunPollingWorker(r, script);
      return;
    }
    var backoff := r.conf.initialBackoff;
    r.Record(Published(Idle));
    ghost var start, whole := r.trace, r.trace + RunEvents(r.conf, true, 0, script);
    assert script[0..] == script;
    for n := 0 to |script|
      invariant r.Valid() && EndsCycle(r.trace) && Continues(start, r.trace)
      invariant backoff == Delay(r.conf, Failures(r.trace)) && Ahead(true, script, n, true, Failures(r.trace))
      invariant Leads(r.conf, whole, r.trace, true, Failures(r.trace), script[n..])
    {
      CycleAhead(true, script, n, true, Failures(r.trace));
      CycleLeads(r.conf, whole, r.trace, true, Failures(r.trace), script, n);
      if script[n].cancelledAtTop {
        return n;
      }
      var done, fallBack;
      done, fallBack, backoff := SyncCycle(r, script[n], backoff);
      if done {
        return n;
      }
      if fallBack {
        Regroup(r.trace, [Published(Polling)], RunEvents(r.conf, false, 0, script[n + 1..]));
        lived := RunPollingWorker(r, script[n + 1..]);
        return n + 1 + lived;
      }
    }
    return |script|;
  }

  /** After a reconcile: look the account up, then wait for the server to announce news. */
  method IdleCycle(r: StateReporter, c: Cycle, backoff: Duration) returns (done: bool, fallBack: bool, next: Duration)
    requires r.Valid() && EndsWith(r.trace, Reconciled) && !Polls(r.trace)
    requires backoff == Delay(r.conf, Failures(r.trace))
    modifies r
    ensures r.Valid() && Continues(old(r.trace), r.trace)
    ensures r.trace == old(r.trace) + IdleEvents(r.conf, c)
    ensures done == IdleStops(c) && fallBack == IdleUnsupported(c) && Failures(r.trace) == if IdleFails(c) then 1 else 0
    ensures !done && fallBack ==> FallsBack(r.conf, r.trace)
    ensures !done && !fallBack ==> EndsCycle(r.trace) && next == Delay(r.conf, Failures(r.trace))
  {
    next, done, fallBack := backoff, true, false;
    match c.account {
      case NoAccount =>
      case LookupFailed =>
        next := r.Retry(backoff);
        done := c.cancelledInSleep;
      case Account(validPort) =>
        if validPort {
          BeginIdle(r);
          done, fallBack, next := IdleOnce(r, c, backoff);
        } else {
          r.GiveUp(Fatal);
        }
    }
  }

  /** The folder has just been reconciled and the worker has said that it idles. */
  ghost predicate MayIdle(t: seq<Event>)
  {
    |t| >= 2 && t[|t| - 1] == Published(Idle) && t[|t| - 2] == Reconciled && Failures(t) == 0
  }

  method BeginIdle(r: StateReporter)
    requires r.Valid() && EndsWith(r.trace, Reconciled) && !Polls(r.trace)
    modifies r
    ensures r.Valid() && Continues(old(r.trace), r.trace) && MayIdle(r.trace) && r.trace == old(r.trace) + [Published(Idle)]
  {
    assert Failures(r.trace) == 0;
    r.Record(Published(Idle));
  }

  method IdleOnce(r: StateReporter, c: Cycle, backoff: Duration) returns (done: bool, fallBack: bool, next: Duration)
    requires c.account == Account(true)
    requires r.Valid() && MayIdle(r.trace) && backoff == r.conf.initialBackoff
    modifies r
    ensures r.Valid() && Continues(old(r.trace), r.trace)
    ensures r.trace == old(r.trace) + WaitEvents(r.conf, c)
    ensures done == IdleStops(c) && fallBack == IdleUnsupported(c) && Failures(r.trace) == if IdleFails(c) then 1 else 0
    ensures !done && fallBack ==> FallsBack(r.conf, r.trace)
    ensures !done && !fallBack ==> EndsCycle(r.trace) && next == Delay(r.conf, Failures(r.trace))
  {
    next, done, fallBack := backoff, true, false;
    match c.idle {
      case IdleCancelled =>
      case Woken =>
        r.Record(IdleDone);
        next, done := r.conf.initialBackoff, false;
      case Unsupported => done, fallBack := false, true;
      case IdleAuthFailed => r.GiveUp(Auth);
      case IdleFailed =>
        next := r.Retry(backoff);
        done := c.cancelledInSleep;
    }
  }

  // ----- what every trace of the worker obeys

  /** Every reconcile is announced immediately before it starts. */
  lemma ReconcileFollowsSyncing(conf: Config, t: seq<Event>, i: nat)
    requires Lawful(conf, t) && i < |t| && t[i] == ReconcileStart
    ensures i > 0 && t[i - 1] == Published(Syncing)
  {
    assert LawfulAt(conf, t, i);
  }

  /** A failure is published next, and then only a transient one goes on: it sleeps for its delay. */
  lemma FailureIsFollowedUp(conf: Config, t: seq<Event>, i: nat)
    requires Lawful(conf, t) && i < |t| && t[i].Failed?
    ensures i + 1 < |t| ==> t[i + 1] == Published(Error)
    ensures i + 2 < |t| ==> t[i].kind == Transient && t[i + 2] == Backoff(Delay(conf, Failures(t[..i])))
  {
    if i + 1 < |t| {
      assert LawfulAt(conf, t, i + 1);
      assert t[..i + 1][i] == t[i];
    }
    if i + 2 < |t| {
      var u := t[..i + 2];
      assert LawfulAt(conf, t, i + 2);
      assert u[i + 1] == t[i + 1] && u[i] == t[i];
      assert u[..i + 1] == t[..i + 1] && t[..i + 1][..i] == t[..i];
      assert Failures(t[..i + 1]) == Failures(t[..i]) + 1;
    }
  }

  /** Each sleep between retries belongs to one failure, the one just published. */
  lemma BackoffHasItsFailure(conf: Config, t: seq<Event>, j: nat)
    requires Lawful(conf, t) && j < |t| && t[j].Backoff?
    ensures j >= 2 && t[j - 2] == Failed(Transient) && t[j - 1] == Published(Error)
    ensures t[j].delay == Delay(conf, Failures(t[..j - 2]))
  {
    assert LawfulAt(conf, t, j);
    FailureIsFollowedUp(conf, t, j - 2);
  }

  /** `Failures` counts the failures of a stretch without success. */
  lemma {:induction false} FailuresCount(t: seq<Event>, s: nat)
    requires s <= |t| && forall i | s <= i < |t| :: t[i] != Reconciled && t[i] != IdleDone
    ensures Failures(t) == Failures(t[..s]) + |FailurePlaces(t, s)|
  {
    if s == |t| {
      assert t[..s] == t;
      assert FailurePlaces(t, s) == {};
    } else {
      var u := t[..|t| - 1];
      FailuresCount(u, s);
      assert u[..s] == t[..s];
      LastPlace(t, s);
    }
  }

  lemma LastPlace(t: seq<Event>, s: nat)
    requires s < |t|
    ensures |FailurePlaces(t, s)| == |FailurePlaces(t[..|t| - 1], s)| + if t[|t| - 1].Failed? then 1 else 0
  {
    var before := FailurePlaces(t[..|t| - 1], s);
    assert FailurePlaces(t, s) == before + if t[|t| - 1].Failed? then {|t| - 1} else {};
  }

  /** The positions from `s` on that hold a failure. */
  function FailurePlaces(t: seq<Event>, s: nat): set<nat>
  {
    set i: nat | s <= i < |t| && t[i].Failed?
  }

  /**
   * Exponential backoff over a whole run: after a success at `s` (or from the start), the failure that `k` others
   * have preceded sleeps `min(initial * 2^k, max)`.
   */
  lemma ConsecutiveFailuresBackOff(conf: Config, t: seq<Event>, s: nat, i: nat)
    requires Lawful(conf, t) && s <= i && i + 2 < |t| && t[i].Failed?
    requires s == 0 || t[s - 1] == Reconciled || t[s - 1] == IdleDone
    requires forall j | s <= j < i :: t[j] != Reconciled && t[j] != IdleDone
    requires conf.initialBackoff <= conf.maxBackoff
    ensures var k := |FailurePlaces(t[..i], s)|;
            t[i + 2].Backoff? && t[i + 2].delay == Min(conf.initialBackoff * Pow2(k), conf.maxBackoff)
  {
    FailureIsFollowedUp(conf, t, i);
    FailuresSinceSuccess(t[..i], s);
    assert t[i + 2] == Backoff(Delay(conf, |FailurePlaces(t[..i], s)|));
    BackoffLaw(conf);
  }

  lemma FailuresSinceSuccess(t: seq<Event>, s: nat)
    requires s <= |t| && (s == 0 || t[s - 1] == Reconciled || t[s - 1] == IdleDone)
    requires forall i | s <= i < |t| :: t[i] != Reconciled && t[i] != IdleDone
    ensures Failures(t) == |FailurePlaces(t, s)|
  {
    FailuresCount(t, s);
    if s > 0 {
      assert t[..s][s - 1] == t[s - 1];
    }
  }

  /** Nothing but its own report comes after a failed authentication; in particular no reconcile starts. */
  lemma NothingAfterAuthFailure(conf: Config, t: seq<Event>, i: nat, j: nat)
    requires Lawful(conf, t) && i < j < |t| && t[i] == Failed(Auth)
    ensures j == i + 1 && t[j] == Published(Error)
  {
    FailureIsFollowedUp(conf, t, i);
  }

  /** A worker that has gone over to polling never idles again. */
  lemma PollingIsForGood(conf: Config, t: seq<Event>, i: nat, j: nat)
    requires Lawful(conf, t) && i < j < |t| && t[i] == Published(Polling)
    ensures t[j] != Published(Idle) && t[j] != IdleDone
  {
    var u := t[..j];
    assert LawfulAt(conf, t, j);
    assert u[i] in u;
    if j - 1 > i {
      assert LawfulAt(conf, t, j - 1) && t[..j - 1][i] in t[..j - 1];
    }
  }

  predicate Settles(e: Event) { e.Failed? || e == Reconciled || e == IdleDone }

  lemma PrefixIsLawful(conf: Config, t: seq<Event>, n: nat)
    requires Lawful(conf, t) && n <= |t|
    ensures Lawful(conf, t[..n])
  {
    forall i | 0 <= i < n
      ensures LawfulAt(conf, t[..n], i)
    {
      assert LawfulAt(conf, t, i);
      assert t[..n][..i] == t[..i] && t[..n][i] == t[i];
    }
  }

  /** The status stays what it was while nothing settles. */
  lemma {:induction false} StatusKept(before: SyncStatus, t: seq<Event>, s: nat)
    requires s <= |t| && forall j | s <= j < |t| :: !Settles(t[j])
    ensures StatusAfter(before, t) == StatusAfter(before, t[..s])
  {
    if s == |t| {
      assert t[..s] == t;
    } else {
      var u := t[..|t| - 1];
      StatusKept(before, u, s);
      assert u[..s] == t[..s];
    }
  }

  /** An idle wait can only succeed on a reconciled folder, so it finds no stored error. */
  lemma IdleFindsNoError(conf: Config, before: SyncStatus, t: seq<Event>)
    requires Lawful(conf, t) && EndsWith(t, IdleDone)
    ensures StatusAfter(before, t) == StatusIdle
  {
    var n := |t| - 1;
    var u := t[..n];
    assert LawfulAt(conf, t, n);
    assert u[n - 1] == Published(Idle) && u[n - 2] == Reconciled;
    StatusKept(before, u, n - 1);
    assert u[..n - 1][n - 2] == Reconciled;
    assert StatusAfter(before, u[..n - 1]) == StatusIdle;
    assert StatusAfter(before, t) == StatusAfter(before, u);
  }

  /** The stored status is an error exactly when the latest settled outcome, at `i`, was a failure. */
  lemma ErrorMeansLastFailed(conf: Config, before: SyncStatus, t: seq<Event>, i: nat)
    requires Lawful(conf, t) && i < |t| && Settles(t[i])
    requires forall j | i < j < |t| :: !Settles(t[j])
    ensures StatusAfter(before, t) == if t[i].Failed? then StatusError else StatusIdle
  {
    StatusKept(before, t, i + 1);
    var u := t[..i + 1];
    assert u[i] == t[i];
    if t[i] == IdleDone {
      PrefixIsLawful(conf, t, i + 1);
      IdleFindsNoError(conf, before, u);
    }
  }

  /** Before anything has settled the status is the one the worker found. */
  lemma StatusUntouched(before: SyncStatus, t: seq<Event>)
    requires forall j | 0 <= j < |t| :: !Settles(t[j])
    ensures StatusAfter(before, t) == before
  {
    StatusKept(before, t, 0);
  }

  // ----- how often a run reconciles, and when it ends

  function CountOf(t: seq<Event>, e: Event): nat
  {
    if t == [] then 0 else (if t[0] == e then 1 else 0) + CountOf(t[1..], e)
  }

  lemma {:induction false} CountConcat(a: seq<Event>, b: seq<Event>, e: Event)
    ensures CountOf(a + b, e) == CountOf(a, e) + CountOf(b, e)
  {
    if a == [] {
      assert a + b == b;
    } else {
      assert (a + b)[1..] == a[1..] + b;
      CountConcat(a[1..], b, e);
    }
  }

  lemma CountNone(t: seq<Event>, e: Event)
    requires forall i | 0 <= i < |t| :: t[i] != e
    ensures CountOf(t, e) == 0
  {
  }

  function CountCycles(cs: seq<Cycle>, p: Cycle -> bool): nat
  {
    if cs == [] then 0 else (if p(cs[0]) then 1 else 0) + CountCycles(cs[1..], p)
  }

  /** The cycles the worker gets to, the one that stops it included. */
  function Reached(idle: bool, k: nat, script: seq<Cycle>): seq<Cycle>
  {
    var n := FateOf(idle, k, script).lived;
    if n < |script| then script[..n + 1] else script
  }

  predicate GotCredential(c: Cycle) { !c.cancelledAtTop && c.credential == Granted }

  predicate Succeeds(c: Cycle) { GotCredential(c) && (c.reconcile == Finished || c.reconcile == CancelledAfter) }

  /** A cycle starts one reconcile if it got its credential, and records one success if the reconcile made it. */
  lemma CycleReconcilesOnce(conf: Config, idle: bool, k: nat, c: Cycle)
    ensures CountOf(CycleEvents(conf, idle, k, c), ReconcileStart) == if GotCredential(c) then 1 else 0
    ensures CountOf(CycleEvents(conf, idle, k, c), Reconciled) == if Succeeds(c) then 1 else 0
  {
    if GotCredential(c) {
      var wait := if c.reconcile != Finished then [] else if idle then IdleEvents(conf, c) else PollEvents(conf);
      ReconcileCounts(conf, k, c, wait, ReconcileStart);
      ReconcileCounts(conf, k, c, wait, Reconciled);
    } else {
      CountNone(CycleEvents(conf, idle, k, c), ReconcileStart);
      CountNone(CycleEvents(conf, idle, k, c), Reconciled);
    }
  }

  lemma ReconcileCounts(conf: Config, k: nat, c: Cycle, wait: seq<Event>, e: Event)
    requires forall i | 0 <= i < |wait| :: wait[i] != ReconcileStart && wait[i] != Reconciled
    requires e == ReconcileStart || e == Reconciled
    ensures CountOf(ReconcileEvents(conf, k, c) + wait, e)
            == if e == ReconcileStart || c.reconcile == Finished || c.reconcile == CancelledAfter then 1 else 0
  {
    var start, outcome := [Published(Syncing), ReconcileStart], OutcomeEvents(conf, k, c);
    CountConcat(start + outcome, wait, e);
    CountConcat(start, outcome, e);
    CountNone(wait, e);
    assert start[1..] == [ReconcileStart] && [ReconcileStart][1..] == [];
    if outcome == [Reconciled] {
      assert outcome[1..] == [];
    } else {
      CountNone(outcome, e);
    }
  }

  /** Over a whole run: as many reconciles as cycles reached that got a credential, as many successes as succeeded. */
  lemma {:induction false} OneReconcilePerCredential(conf: Config, idle: bool, k: nat, script: seq<Cycle>)
    ensures CountOf(RunEvents(conf, idle, k, script), ReconcileStart) == CountCycles(Reached(idle, k, script), GotCredential)
    ensures CountOf(RunEvents(conf, idle, k, script), Reconciled) == CountCycles(Reached(idle, k, script), Succeeds)
    decreases |script|
  {
    if script != [] {
      var c, rest, k' := script[0], script[1..], FailuresAfter(idle, script[0], k);
      var mode := idle && !(Reconciles(c) && IdleUnsupported(c));
      CycleReconcilesOnce(conf, idle, k, c);
      ReachedStep(idle, k, script);
      if !Stops(idle, c) {
        OneReconcilePerCredential(conf, mode, k', rest);
        LaterCounts(conf, idle, k', c, rest, ReconcileStart);
        LaterCounts(conf, idle, k', c, rest, Reconciled);
        CountConcat(CycleEvents(conf, idle, k, c), LaterEvents(conf, idle, k', c, rest), ReconcileStart);
        CountConcat(CycleEvents(conf, idle, k, c), LaterEvents(conf, idle, k', c, rest), Reconciled);
      } else {
        assert RunEvents(conf, idle, k, script) == CycleEvents(conf, idle, k, c);
      }
    }
  }

  lemma LaterCounts(conf: Config, idle: bool, k: nat, c: Cycle, rest: seq<Cycle>, e: Event)
    requires e != Published(Polling)
    ensures CountOf(LaterEvents(conf, idle, k, c, rest), e)
            == CountOf(RunEvents(conf, idle && !(Reconciles(c) && IdleUnsupported(c)), k, rest), e)
  {
    if idle && Reconciles(c) && IdleUnsupported(c) {
      CountNone([Published(Polling)], e);
      CountConcat([Published(Polling)], RunEvents(conf, false, k, rest), e);
    }
  }

  lemma ReachedStep(idle: bool, k: nat, script: seq<Cycle>)
    requires script != []
    ensures Reached(idle, k, script) != [] && Reached(idle, k, script)[0] == script[0]
    ensures Reached(idle, k, script)[1..] == if Stops(idle, script[0]) then []
            else Reached(idle && !(Reconciles(script[0]) && IdleUnsupported(script[0])), FailuresAfter(idle, script[0], k), script[1..])
  {
  }

  /** Whether the worker still idles when it gets to cycle `i`. */
  predicate IdlesAt(idle: bool, script: seq<Cycle>, i: nat)
    requires i <= |script|
  {
    idle && forall j | 0 <= j < i :: !(Reconciles(script[j]) && IdleUnsupported(script[j]))
  }

  /** A worker completes every cycle before the first that stops it, and none from there on. */
  lemma {:induction false} LivesUntilStopped(idle: bool, k: nat, script: seq<Cycle>)
    ensures var n := FateOf(idle, k, script).lived;
            && n <= |script|
            && (forall i | 0 <= i < n :: !Stops(IdlesAt(idle, script, i), script[i]))
            && (n < |script| ==> Stops(IdlesAt(idle, script, n), script[n]))
    decreases |script|
  {
    if script != [] && !Stops(idle, script[0]) {
      var c, rest := script[0], script[1..];
      var mode := idle && !(Reconciles(c) && IdleUnsupported(c));
      LivesUntilStopped(mode, FailuresAfter(idle, c, k), rest);
      forall i | 0 <= i <= |rest|
        ensures IdlesAt(idle, script, i + 1) == IdlesAt(mode, rest, i)
      {
        IdlesShifts(idle, script, i);
      }
      var n := FateOf(idle, k, script).lived;
      forall i | 0 <= i < n
        ensures !Stops(IdlesAt(idle, script, i), script[i])
      {
        if i > 0 {
          assert IdlesAt(idle, script, i - 1 + 1) == IdlesAt(mode, rest, i - 1);
        }
      }
    }
  }

  lemma IdlesShifts(idle: bool, script: seq<Cycle>, i: nat)
    requires script != [] && i < |script|
    ensures IdlesAt(idle, script, i + 1) == IdlesAt(idle && !(Reconciles(script[0]) && IdleUnsupported(script[0])), script[1..], i)
  {
    var rest := script[1..];
    assert forall j | 0 <= j < |rest| :: rest[j] == script[j + 1];
    if IdlesAt(idle && !(Reconciles(script[0]) && IdleUnsupported(script[0])), rest, i) {
      forall j | 0 <= j < i + 1
        ensures !(Reconciles(script[j]) && IdleUnsupported(script[j]))
      {
        if j > 0 {
          assert rest[j - 1] == script[j];
        }
      }
    }
  }

  /** The cycle gets as far as waiting for the server's news. */
  predicate Idles(idle: bool, c: Cycle) { idle && Reconciles(c) && c.account == Account(true) }

  /** The cycle ends in a sleep, before a retry or the next poll. */
  predicate Sleeps(conf: Config, idle: bool, k: nat, c: Cycle)
  {
    var t := CycleEvents(conf, idle, k, c);
    t != [] && (t[|t| - 1].Backoff? || t[|t| - 1].PollWait?)
  }

  predicate Cancelled(conf: Config, idle: bool, k: nat, c: Cycle)
  {
    || c.cancelledAtTop || c.credential == Interrupted
    || (GotCredential(c) && (c.reconcile == CancelledBefore || c.reconcile == CancelledAfter))
    || (Idles(idle, c) && c.idle == IdleCancelled)
    || (Sleeps(conf, idle, k, c) && c.cancelledInSleep)
  }

  predicate Unauthenticated(idle: bool, c: Cycle)
  {
    || (!c.cancelledAtTop && c.credential == Refused)
    || (GotCredential(c) && c.reconcile == AuthFailed)
    || (Idles(idle, c) && c.idle == IdleAuthFailed)
  }

  /** A worker stops in a cycle exactly when it is cancelled at a wait it gets to, is refused, or finds its account gone or unusable. */
  lemma WhyAWorkerStops(conf: Config, idle: bool, k: nat, c: Cycle)
    ensures Stops(idle, c) <==>
              || Cancelled(conf, idle, k, c)
              || Unauthenticated(idle, c)
              || (idle && Reconciles(c) && (c.account == NoAccount || c.account == Account(false)))
  {
  }
}
