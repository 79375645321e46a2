/** Reconciling one IMAP folder with its local rows: resync decision, window loop and UID bookkeeping. */
module Reconciler {
  import opened Prelude
  import opened ImapWindow

  /** UID bookkeeping of the folder row. */
  datatype Folder = Folder(validity: Option<int>, uidNext: Option<int>, lastSeen: Option<int>)

  /** Stored messages of the folder; `UNIQUE (folder_id, uid)` makes them a map. */
  type Rows = map<int, Mail>

  datatype Store = Store(folder: Folder, rows: Rows)

  /** What one `sync_folder` call meets: a failure, or the folder as it is at that moment. */
  datatype Reply = Down | Answer(box: Mailbox)

  /** The i-th reply of the server during one reconcile. */
  type Network = nat -> Reply

  /** How ingesting one message ends: stored, failed without a row, or failed after the row was written. */
  datatype Fate = Stored | RolledBack | StoredThenFailed

  /**
   * How the local side fares in one reconcile: the checks before the first fetch (credentials, account, folder, port),
   * the wipe, the thread lookups, each window's UID lookup, each message, and the two closing writes.
   */
  datatype Fates = Fates(
    setup: Option<SyncError>, wipe: bool, threads: bool, lookup: nat -> bool, message: (nat, nat) -> Fate,
    uidState: bool, status: bool)

  datatype Report = Report(inserted: nat, wiped: nat, validity: Option<int>, uidNext: Option<int>, lastSeen: Option<int>)

  datatype SyncError = MissingCredentials | UnknownAccount | UnknownFolder | ImapError | LocalError

  predicate Usable(m: Mail) { m.raw != "" && m.parses }

  // ----- specification

  datatype Batch = Batch(rows: Rows, inserted: nat, ok: bool)

  /** Ingest the messages of one window in order; UIDs in `already` are skipped. */
  function Ingest(rows: Rows, inserted: nat, batch: seq<Mail>, already: set<int>, fates: Fates, call: nat): Batch
    decreases |batch|
  {
    if batch == [] then Batch(rows, inserted, true)
    else
      var m := batch[0];
      if m.uid in already || !Usable(m) then Ingest(rows, inserted, batch[1..], already, fates, call)
      else if m.uid in rows then Batch(rows, inserted, false)
      else match fates.message(call, m.uid)
        case Stored => Ingest(rows[m.uid := m], inserted + 1, batch[1..], already, fates, call)
        case RolledBack => Batch(rows, inserted, false)
        case StoredThenFailed => Batch(rows[m.uid := m], inserted, false)
  }

  function Uids(batch: seq<Mail>): set<int> { set m | m in batch :: m.uid as int }

  /** `existing_uids`: which of the window's UIDs are already stored. */
  function ExistingUids(rows: Rows, batch: seq<Mail>): set<int> { Uids(batch) * rows.Keys }

  function OptionMax(a: Option<int>, b: Option<int>): Option<int>
  {
    if a.None? then b else if b.None? then a else Some(Max(a.value, b.value))
  }

  function MaxUid(batch: seq<Mail>): Option<int>
  {
    if batch == [] then None else OptionMax(Some(batch[0].uid), MaxUid(batch[1..]))
  }

  function NextSeen(lastSeen: Option<int>, server: FolderSync): Option<int>
  {
    OptionMax(OptionMax(lastSeen, MaxUid(server.messages)), Some(server.windowHi))
  }

  /** Result of the window loop; `ranges` lists the UID ranges fetched, in order. */
  datatype Drained =
    | Failed(rows: Rows, error: SyncError, ranges: seq<Range>)
    | Done(rows: Rows, inserted: nat, lastSeen: Option<int>, server: FolderSync, ranges: seq<Range>)

  datatype Loop = Loop(rows: Rows, inserted: nat, lastSeen: Option<int>, from: nat, server: FolderSync, ranges: seq<Range>, call: nat)

  /** The window loop from one of its iterations on. */
  function Drain(l: Loop, net: Network, fates: Fates): Drained
    requires 1 <= l.from <= U32_MAX
    requires l.server.hasMore ==> l.from <= l.server.windowHi < U32_MAX
    decreases U32_MAX - l.from
  {
    if Continues(l, net, fates) then Drain(NextLoop(l, net, fates), net, fates) else Stopped(l, net, fates)
  }

  /** The window went in, the server has more, and it answers again. */
  predicate Continues(l: Loop, net: Network, fates: Fates)
  {
    IngestedBy(l, fates).ok && l.server.hasMore && Answers(net, l.call + 1)
  }

  /** How the loop ends in an iteration that does not continue. */
  function Stopped(l: Loop, net: Network, fates: Fates): Drained
    requires !Continues(l, net, fates)
  {
    var b := IngestedBy(l, fates);
    if !b.ok then Failed(b.rows, LocalError, l.ranges)
    else if l.server.hasMore then Failed(b.rows, ImapError, l.ranges)
    else Done(b.rows, b.inserted, NextSeen(l.lastSeen, l.server), l.server, l.ranges)
  }

  /** One window: look up which of its UIDs are stored, which asks the database only if there are any, and ingest the rest. */
  function Looked(rows: Rows, inserted: nat, batch: seq<Mail>, fates: Fates, call: nat): Batch
  {
    if batch != [] && !fates.lookup(call) then Batch(rows, inserted, false)
    else Ingest(rows, inserted, batch, ExistingUids(rows, batch), fates, call)
  }

  /** The rows and count after the loop's current window. */
  function IngestedBy(l: Loop, fates: Fates): Batch
  {
    Looked(l.rows, l.inserted, l.server.messages, fates, l.call)
  }

  /** The loop after a complete window and one more answer. */
  function NextLoop(l: Loop, net: Network, fates: Fates): Loop
    requires Answers(net, l.call + 1)
  {
    var b := IngestedBy(l, fates);
    Fetched(net(l.call + 1).box, SaturatingAdd32(l.server.windowHi, 1), b.rows, b.inserted, NextSeen(l.lastSeen, l.server), l.ranges, l.call + 1)
  }

  /** UIDNEXT fits the protocol library's `u32`; anything else is a protocol error. */
  predicate Representable(box: Mailbox) { box.uidNext.Some? ==> box.uidNext.value <= U32_MAX }

  /** The call returns a folder. */
  predicate Answers(net: Network, i: nat) { net(i).Answer? && Representable(net(i).box) }

  function Fetched(box: Mailbox, from: nat, rows: Rows, inserted: nat, lastSeen: Option<int>, ranges: seq<Range>, call: nat): (l: Loop)
    requires 1 <= from <= U32_MAX && Representable(box)
    ensures l.server.hasMore ==> from <= l.server.windowHi < U32_MAX
  {
    var server := FetchUidRange(box, from);
    Loop(rows, inserted, lastSeen, from, server, if server.range.Some? then ranges + [server.range.value] else ranges, call)
  }

  /** The UID behind the last seen one, or 1 before anything was seen. */
  function FirstUid(folder: Folder): (from: nat)
    ensures 1 <= from <= U32_MAX
    ensures folder.lastSeen.None? ==> from == 1
    ensures folder.lastSeen.Some? && 0 <= folder.lastSeen.value < U32_MAX ==> from == folder.lastSeen.value + 1
  {
    var seen := if folder.lastSeen.Some? then folder.lastSeen.value else 0;
    SaturatingAdd32(Max(0, Min(seen, U32_MAX)), 1)
  }

  predicate NeedsFullResync(folder: Folder, box: Mailbox)
  {
    folder.validity.Some? && box.validity.Some? && folder.validity.value != box.validity.value
  }

  function Coalesce(a: Option<nat>, b: Option<int>): Option<int> { if a.Some? then Some(a.value) else b }

  /** `update_uid_state`: each new value is written only when present. */
  function UpdatedUidState(f: Folder, validity: Option<nat>, uidNext: Option<nat>, lastSeen: Option<int>): Folder
  {
    Folder(Coalesce(validity, f.validity), Coalesce(uidNext, f.uidNext), if lastSeen.Some? then lastSeen else f.lastSeen)
  }

  /** `ranges` are the windows drained; `discarded` those fetched before and thrown away. */
  datatype Outcome = Outcome(store: Store, result: Result<Report, SyncError>, discarded: seq<Range>, ranges: seq<Range>)

  /** Where a reconcile stands when it enters its window loop, or why it does not get there. */
  datatype Start =
    | Ready(loop: Loop, wiped: nat, discarded: seq<Range>)
    | GaveUp(rows: Rows, error: SyncError, discarded: seq<Range>)

  /** Checks, first fetch, resync decision and thread lookups. */
  function Begun(store: Store, net: Network, fates: Fates): (b: Start)
    ensures b.Ready? ==> 1 <= b.loop.from <= U32_MAX && (b.loop.server.hasMore ==> b.loop.from <= b.loop.server.windowHi < U32_MAX)
  {
    if fates.setup.Some? then GaveUp(store.rows, fates.setup.value, [])
    else if !Answers(net, 0) then GaveUp(store.rows, ImapError, [])
    else
      var first := FirstLoop(store, net);
      if !NeedsFullResync(store.folder, net(0).box) then
        if fates.threads then Ready(first, 0, []) else GaveUp(store.rows, LocalError, first.ranges)
      else if !fates.wipe then GaveUp(store.rows, LocalError, first.ranges)
      else if !Answers(net, 1) then GaveUp(map[], ImapError, first.ranges)
      else if fates.threads then Ready(ResyncLoop(net), |store.rows|, first.ranges)
      else GaveUp(map[], LocalError, first.ranges + ResyncLoop(net).ranges)
  }

  function FirstLoop(store: Store, net: Network): (l: Loop)
    requires Answers(net, 0)
    ensures l.server.hasMore ==> l.from <= l.server.windowHi < U32_MAX
  {
    Fetched(net(0).box, FirstUid(store.folder), store.rows, 0, store.folder.lastSeen, [], 0)
  }

  /** After a wipe the folder is fetched anew from UID 1, and the old high-water mark is forgotten. */
  function ResyncLoop(net: Network): (l: Loop)
    requires Answers(net, 1)
    ensures l.server.hasMore ==> l.from <= l.server.windowHi < U32_MAX
  {
    Fetched(net(1).box, 1, map[], 0, None, [], 1)
  }

  /** The closing writes: the UID state first, then the account's status. */
  function Settle(store: Store, wiped: nat, discarded: seq<Range>, d: Drained, fates: Fates): Outcome
  {
    match d
    case Failed(rows, error, ranges) => Outcome(store.(rows := rows), Err(error), discarded, ranges)
    case Done(rows, inserted, lastSeen, server, ranges) =>
      if !fates.uidState then Outcome(store.(rows := rows), Err(LocalError), discarded, ranges)
      else
        Outcome(Store(UpdatedUidState(store.folder, server.validity, server.uidNext, lastSeen), rows),
                if fates.status then Ok(Report(inserted, wiped, OfNat(server.validity), OfNat(server.uidNext), lastSeen))
                else Err(LocalError),
                discarded, ranges)
  }

  function OfNat(a: Option<nat>): Option<int> { if a.Some? then Some(a.value) else None }

  /** The whole of `reconcile_folder`. */
  function Reconciled(store: Store, net: Network, fates: Fates): Outcome
  {
    match Begun(store, net, fates)
    case GaveUp(rows, error, discarded) => Outcome(store.(rows := rows), Err(error), discarded, [])
    case Ready(l, wiped, discarded) => Settle(store, wiped, discarded, Drain(l, net, fates), fates)
  }

  /** The drain completes and its UID state is written. */
  predicate Commits(store: Store, net: Network, fates: Fates)
  {
    var b := Begun(store, net, fates);
    b.Ready? && Drain(b.loop, net, fates).Done? && fates.uidState
  }

  // ----- implementation

  class LocalStore {
    var folder: Folder
    var rows: Rows

    ghost function Value(): Store
      reads this
    {
      Store(folder, rows)
    }

    constructor (store: Store)
      ensures Value() == store
    {
      folder := store.folder;
      rows := store.rows;
    }

    method UpdateUidState(validity: Option<nat>, uidNext: Option<nat>, lastSeen: Option<int>)
      modifies this`folder
      ensures folder == UpdatedUidState(old(folder), validity, uidNext, lastSeen)
    {
      if validity.Some? { folder := folder.(validity := Some(validity.value)); }
      if uidNext.Some? { folder := folder.(uidNext := Some(uidNext.value)); }
      if lastSeen.Some? { folder := folder.(lastSeen := lastSeen); }
    }

    method DeleteAllInFolder() returns (wiped: nat)
      modifies this`rows
      ensures rows == map[] && wiped == |old(rows)|
    {
      wiped := |rows|;
      rows := map[];
    }

    /** Insert the new messages of one window, in order, until one of them fails. */
    method IngestWindow(batch: seq<Mail>, inserted: nat, fates: Fates, call: nat) returns (b: Batch)
      modifies this`rows
      ensures b == Looked(old(rows), inserted, batch, fates, call)
      ensures rows == b.rows
    {
      if batch != [] && !fates.lookup(call) {
        return Batch(rows, inserted, false);
      }
      var already := ExistingUids(rows, batch);
      var count := inserted;
      var i := 0;
      while i < |batch|
        invariant 0 <= i <= |batch|
        invariant Ingest(old(rows), inserted, batch, already, fates, call) == Ingest(rows, count, batch[i..], already, fates, call)
      {
        var m := batch[i];
        if m.uid !in already && Usable(m) {
          if m.uid in rows {
            return Batch(rows, count, false);
          }
          match fates.message(call, m.uid) {
            case Stored =>
              rows := rows[m.uid := m];
              count := count + 1;
            case RolledBack =>
              return Batch(rows, count, false);
            case StoredThenFailed =>
              rows := rows[m.uid := m];
              return Batch(rows, count, false);
          }
        }
        i := i + 1;
      }
      return Batch(rows, count, true);
    }

    /** Everything up to the window loop: checks, first fetch, wipe and refetch when UIDVALIDITY changed. */
    method Begin(net: Network, fates: Fates) returns (start: Start)
      modifies this`rows
      ensures start == Begun(old(Value()), net, fates)
      ensures rows == if start.Ready? then start.loop.rows else start.rows
    {
      if fates.setup.Some? {
        return GaveUp(rows, fates.setup.value, []);
      }
      if !Answers(net, 0) {
        return GaveUp(rows, ImapError, []);
      }
      var l := Fetched(net(0).box, FirstUid(folder), rows, 0, folder.lastSeen, [], 0);
      var wiped, discarded := 0, [];
      if NeedsFullResync(folder, net(0).box) {
        discarded := l.ranges;
        if !fates.wipe {
          return GaveUp(rows, LocalError, discarded);
        }
        wiped := DeleteAllInFolder();
        if !Answers(net, 1) {
          return GaveUp(rows, ImapError, discarded);
        }
        l := Fetched(net(1).box, 1, rows, 0, None, [], 1);
      }
      if !fates.threads {
        return GaveUp(rows, LocalError, discarded + l.ranges);
      }
      return Ready(l, wiped, discarded);
    }

    /** Pull the folder in bounded windows until the server reports nothing above the last one. */
    method DrainFolder(start: Loop, net: Network, fates: Fates) returns (d: Drained)
      requires 1 <= start.from <= U32_MAX && (start.server.hasMore ==> start.from <= start.server.windowHi < U32_MAX)
      requires start.rows == rows
      modifies this`rows
      ensures d == Drain(start, net, fates) && rows == d.rows
    {
      var l := start;
      while true
        invariant 1 <= l.from <= U32_MAX
        invariant l.server.hasMore ==> l.from <= l.server.windowHi < U32_MAX
        invariant l.rows == rows && Drain(start, net, fates) == Drain(l, net, fates)
        decreases U32_MAX - l.from
      {
        var b := IngestWindow(l.server.messages, l.inserted, fates, l.call);
        if !b.ok {
          return Failed(rows, LocalError, l.ranges);
        }
        var lastSeen := NextSeen(l.lastSeen, l.server);
        if !l.server.hasMore {
          return Done(rows, b.inserted, lastSeen, l.server, l.ranges);
        }
        if !Answers(net, l.call + 1) {
          return Failed(rows, ImapError, l.ranges);
        }
        l := Fetched(net(l.call + 1).box, SaturatingAdd32(l.server.windowHi, 1), rows, b.inserted, lastSeen, l.ranges, l.call + 1);
      }
    }

    /** Reconcile the folder with the server. */
    method ReconcileFolder(net: Network, fates: Fates)
      returns (result: Result<Report, SyncError>, discarded: seq<Range>, ranges: seq<Range>)
      modifies this
      ensures Outcome(Value(), result, discarded, ranges) == Reconciled(old(Value()), net, fates)
    {
      var start := Begin(net, fates);
      if start.GaveUp? {
        return Err(start.error), start.discarded, [];
      }
      var d := DrainFolder(start.loop, net, fates);
      discarded, ranges := start.discarded, d.ranges;
      if d.Failed? {
        return Err(d.error), discarded, ranges;
      }
      if !fates.uidState {
        return Err(LocalError), discarded, ranges;
      }
      UpdateUidState(d.server.validity, d.server.uidNext, d.lastSeen);
      if !fates.status {
        return Err(LocalError), discarded, ranges;
      }
      result := Ok(Report(d.inserted, start.wiped, OfNat(d.server.validity), OfNat(d.server.uidNext), d.lastSeen));
    }
  }
}
