/** Tiling of fetched windows, recovery after failures, and where the mirror's assumptions are needed. */
module MirrorTheorems {
  import opened Prelude
  import opened ImapWindow
  import opened Reconciler
  import opened Mirror

  // ----- windows of one drain

  /** The ranges are non-empty, at most one window wide, and follow each other without gap or overlap from `lo` up to `next`. */
  ghost predicate Tiles(ranges: seq<Range>, lo: nat, next: nat)
  {
    && (forall i | 0 <= i < |ranges| :: ranges[i].lo <= ranges[i].hi < ranges[i].lo + FETCH_WINDOW)
    && (forall i | 0 < i < |ranges| :: ranges[i].lo == ranges[i - 1].hi + 1)
    && (if ranges == [] then lo == next else ranges[0].lo == lo && ranges[|ranges| - 1].hi + 1 == next)
  }

  lemma TilesExtend(ranges: seq<Range>, lo: nat, next: nat, r: Range)
    requires Tiles(ranges, lo, next) && r.lo == next && r.lo <= r.hi < r.lo + FETCH_WINDOW
    ensures Tiles(ranges + [r], lo, r.hi + 1)
  {
  }

  /** The loop stands on one answer of the server, and its earlier ranges tile everything below its window. */
  ghost predicate OnTrack(l: Loop, box: Mailbox, earlier: seq<Range>, start: nat)
  {
    && Representable(box) && 1 <= l.from <= U32_MAX
    && l.server == FetchUidRange(box, l.from)
    && Tiles(earlier, start, l.from)
    && l.ranges == if l.server.range.Some? then earlier + [l.server.range.value] else earlier
  }

  /** The ranges fetched so far, the current window included, tile up to the end of the current window. */
  lemma TrackTiles(l: Loop, box: Mailbox, earlier: seq<Range>, start: nat)
    requires OnTrack(l, box, earlier, start)
    ensures Tiles(l.ranges, start, if l.server.range.Some? then l.server.windowHi + 1 else l.from)
    ensures l.server.hasMore ==> l.server.range.Some? && l.from <= l.server.windowHi < U32_MAX
  {
    WindowShape(box, l.from);
    if l.server.range.Some? {
      TilesExtend(earlier, start, l.from, l.server.range.value);
    }
  }

  ghost predicate TiledWell(d: Drained, start: nat)
  {
    && TilesFrom(d.ranges, start)
    && (d.Done? && d.server.range.Some? ==> Tiles(d.ranges, start, d.server.windowHi + 1))
  }

  /** Whatever the server answers, the fetched windows of one drain, complete or interrupted, tile from its start. */
  lemma {:induction false} DrainTiles(l: Loop, net: Network, fates: Fates, box: Mailbox, earlier: seq<Range>, start: nat)
    requires OnTrack(l, box, earlier, start)
    ensures l.server.hasMore ==> l.from <= l.server.windowHi < U32_MAX
    ensures TiledWell(Drain(l, net, fates), start)
    decreases U32_MAX - l.from
  {
    TrackTiles(l, box, earlier, start);
    if Continues(l, net, fates) {
      var l1 := NextLoop(l, net, fates);
      assert l1.from == l.server.windowHi + 1;
      DrainTiles(l1, net, fates, net(l.call + 1).box, l.ranges, start);
    } else {
      StoppedTiles(l, net, fates, start);
    }
  }

  lemma StoppedTiles(l: Loop, net: Network, fates: Fates, start: nat)
    requires !Continues(l, net, fates)
    requires Tiles(l.ranges, start, if l.server.range.Some? then l.server.windowHi + 1 else l.from)
    ensures TiledWell(Stopped(l, net, fates), start)
  {
  }

  /** Where the drain of a reconcile starts. */
  ghost function StartUid(folder: Folder, box: Mailbox): nat
  {
    if NeedsFullResync(folder, box) then 1 else FirstUid(folder)
  }

  /**
   * The windows a reconcile drains, however it ends, tile from its start. A successful one throws away at most one
   * window, the one behind the last seen UID, and only when UIDVALIDITY has changed.
   */
  lemma ReconcileTiles(store: Store, net: Network, fates: Fates)
    ensures var o := Reconciled(store, net, fates);
            && (o.ranges != [] ==> Answers(net, 0) && TilesFrom(o.ranges, StartUid(store.folder, net(0).box)))
            && (o.result.Ok? && o.discarded != [] ==>
                  Resets(store, net) && |o.discarded| == 1 && TilesFrom(o.discarded, FirstUid(store.folder)))
  {
    var b := Begun(store, net, fates);
    if b.Ready? {
      BegunOnTrack(store, net, fates);
      DrainTiles(b.loop, net, fates, net(b.loop.call).box, [], StartUid(store.folder, net(0).box));
      if b.discarded != [] {
        OneDiscarded(store, net, fates);
      }
    }
  }

  lemma BegunOnTrack(store: Store, net: Network, fates: Fates)
    requires Begun(store, net, fates).Ready?
    ensures Answers(net, 0) && net(Begun(store, net, fates).loop.call).Answer?
    ensures var l := Begun(store, net, fates).loop;
            OnTrack(l, net(l.call).box, [], StartUid(store.folder, net(0).box))
  {
  }

  lemma OneDiscarded(store: Store, net: Network, fates: Fates)
    requires Begun(store, net, fates).Ready? && Begun(store, net, fates).discarded != []
    ensures var d := Begun(store, net, fates).discarded;
            Resets(store, net) && |d| == 1 && TilesFrom(d, FirstUid(store.folder))
  {
    TrackTiles(FirstLoop(store, net), net(0).box, [], FirstUid(store.folder));
  }

  ghost predicate TilesFrom(ranges: seq<Range>, lo: nat) { exists next: nat :: Tiles(ranges, lo, next) }

  /** All answers of the server show one and the same folder. */
  ghost predicate Steady(net: Network, box: Mailbox)
  {
    forall i: nat | net(i).Answer? :: net(i).box == box
  }

  /** Against a fixed folder with messages, the drain takes one fetch per started window of UIDs. */
  lemma {:induction false} DrainFetchCount(l: Loop, net: Network, fates: Fates, box: Mailbox, earlier: nat)
    requires Steady(net, box) && Representable(box) && box.mails != [] && box.uidNext.Some?
    requires 1 <= l.from < box.uidNext.value && l.server == FetchUidRange(box, l.from)
    requires |l.ranges| == earlier + 1
    ensures l.server.hasMore ==> l.from <= l.server.windowHi < U32_MAX
    ensures var d := Drain(l, net, fates);
            d.Done? ==>
              && |d.ranges| == earlier + (box.uidNext.value - l.from + FETCH_WINDOW - 1) / FETCH_WINDOW
              && d.server.range.Some? && d.server.windowHi == box.uidNext.value - 1
    decreases U32_MAX - l.from
  {
    WindowShape(box, l.from);
    if Continues(l, net, fates) {
      DrainFetchCount(NextLoop(l, net, fates), net, fates, box, earlier + 1);
    }
  }

  /** Fetches it takes to cover the UIDs from `from` up to but not including `next`. */
  function Fetches(from: nat, next: nat): nat
  {
    if from < next then (next - from + FETCH_WINDOW - 1) / FETCH_WINDOW else 0
  }

  /**
   * A reconcile against a fixed folder with messages takes one fetch per started window of new UIDs; when it finds the
   * validity changed, one more is spent on the window it throws away, unless nothing looked new.
   */
  lemma ReconcileFetchCount(store: Store, net: Network, fates: Fates, box: Mailbox)
    requires Steady(net, box) && Representable(box) && box.mails != [] && box.uidNext.Some?
    requires Reconciled(store, net, fates).result.Ok?
    ensures var o, next := Reconciled(store, net, fates), box.uidNext.value;
            && |o.ranges| == Fetches(StartUid(store.folder, box), next)
            && |o.discarded| == if NeedsFullResync(store.folder, box) && FirstUid(store.folder) < next then 1 else 0
  {
    assert net(0).box == box;
    var from, l := StartUid(store.folder, box), Begun(store, net, fates).loop;
    if from < box.uidNext.value {
      WindowShape(box, from);
      assert l.server.range.Some? && |l.ranges| == 1;
      DrainFetchCount(l, net, fates, box, 0);
    } else {
      assert !l.server.hasMore && l.ranges == [];
      assert Drain(l, net, fates) == Stopped(l, net, fates);
    }
  }

  // ----- recovery

  /** Everything a drain may have added to the rows: usable messages at or above its start. */
  ghost predicate AddedFrom(before: Rows, after: Rows, box: Mailbox, from: int)
  {
    Added(before, after, box.mails) && forall u | u in after && u !in before :: u >= from
  }

  ghost predicate Complete(rows: Rows, box: Mailbox, from: int)
  {
    forall m | m in box.mails && Usable(m) && m.uid >= from :: m.uid in rows
  }

  lemma AddedTransitive(a: Rows, b: Rows, c: Rows, box: Mailbox, from: int, from': int)
    requires AddedFrom(a, b, box, from) && AddedFrom(b, c, box, from') && from <= from'
    ensures AddedFrom(a, c, box, from)
  {
  }

  lemma WindowAdds(l: Loop, box: Mailbox, fates: Fates)
    requires WellFormed(box) && 1 <= l.from && l.server == FetchUidRange(box, l.from)
    ensures AddedFrom(l.rows, IngestedBy(l, fates).rows, box, l.from)
    ensures IngestedBy(l, fates).ok ==>
              forall m | m in box.mails && Usable(m) && l.from <= m.uid <= l.server.windowHi :: m.uid in IngestedBy(l, fates).rows
  {
    DistinctWindow(l, box);
    WindowIngests(l, box, fates);
  }

  /** What a drain against a fixed folder ends with. */
  ghost predicate Filled(l: Loop, d: Drained, box: Mailbox)
    requires WellFormed(box) && box.uidNext.Some?
  {
    && AddedFrom(l.rows, d.rows, box, l.from)
    && (d.Done? ==>
          && Complete(d.rows, box, l.from)
          && d.lastSeen == OptionMax(l.lastSeen, Some(box.uidNext.value - 1))
          && d.server.validity == box.validity && d.server.uidNext == box.uidNext)
  }

  lemma SeenAfterWindow(l: Loop, box: Mailbox)
    requires WellFormed(box) && box.uidNext.Some? && 1 <= l.from <= U32_MAX && l.server == FetchUidRange(box, l.from)
    ensures NextSeen(l.lastSeen, l.server) == OptionMax(l.lastSeen, Some(l.server.windowHi))
    ensures !l.server.hasMore ==> l.server.windowHi == box.uidNext.value - 1
    ensures l.server.hasMore ==> l.from <= l.server.windowHi < U32_MAX && l.server.windowHi < box.uidNext.value - 1
  {
    WindowShape(box, l.from);
    DistinctWindow(l, box);
    MaxUidBound(l.server.messages, l.server.windowHi);
  }

  /** Against a fixed folder, a drain adds only what belongs there, and a completed one adds all of it. */
  lemma {:induction false} DrainFills(l: Loop, net: Network, fates: Fates, box: Mailbox)
    requires Steady(net, box) && WellFormed(box) && box.uidNext.Some?
    requires 1 <= l.from <= U32_MAX && l.server == FetchUidRange(box, l.from)
    ensures l.server.hasMore ==> l.from <= l.server.windowHi < U32_MAX
    ensures Filled(l, Drain(l, net, fates), box)
    decreases U32_MAX - l.from
  {
    SeenAfterWindow(l, box);
    WindowAdds(l, box, fates);
    if Continues(l, net, fates) {
      var l1 := NextLoop(l, net, fates);
      DrainFills(l1, net, fates, box);
      FilledOneWindowLater(l, l1, Drain(l1, net, fates), box);
    } else {
      assert Filled(l, Stopped(l, net, fates), box);
    }
  }

  lemma FilledOneWindowLater(l: Loop, l1: Loop, d: Drained, box: Mailbox)
    requires WellFormed(box) && box.uidNext.Some? && l.server.windowHi < box.uidNext.value - 1
    requires l.from <= l.server.windowHi && l1.from == l.server.windowHi + 1
    requires AddedFrom(l.rows, l1.rows, box, l.from)
    requires forall m | m in box.mails && Usable(m) && l.from <= m.uid <= l.server.windowHi :: m.uid in l1.rows
    requires l1.lastSeen == OptionMax(l.lastSeen, Some(l.server.windowHi))
    requires Filled(l1, d, box)
    ensures Filled(l, d, box)
  {
    AddedTransitive(l.rows, l1.rows, d.rows, box, l.from, l1.from);
    CompleteBelowAndAbove(l1.rows, d.rows, box, l.from, l.server.windowHi);
  }

  lemma CompleteBelowAndAbove(mid: Rows, after: Rows, box: Mailbox, from: int, hi: int)
    requires forall u | u in mid :: u in after
    requires forall m | m in box.mails && Usable(m) && from <= m.uid <= hi :: m.uid in mid
    ensures Complete(after, box, hi + 1) ==> Complete(after, box, from)
  {
  }

  /** The rows and UID bookkeeping a completed reconcile against a fixed folder must end with. */
  ghost predicate CaughtUp(before: Store, after: Store, box: Mailbox)
    requires Advertises(box)
  {
    var wipe := NeedsFullResync(before.folder, box);
    var base, from := if wipe then map[] else before.rows, if wipe then 1 else FirstUid(before.folder);
    && AddedFrom(base, after.rows, box, from)
    && Complete(after.rows, box, from)
    && after.folder == Folder(Some(box.validity.value), Some(box.uidNext.value),
                              OptionMax(if wipe then None else before.folder.lastSeen, Some(box.uidNext.value - 1)))
  }

  lemma SuccessCatchesUp(store: Store, net: Network, fates: Fates, box: Mailbox)
    requires Steady(net, box) && Advertises(box) && Commits(store, net, fates)
    ensures CaughtUp(store, Reconciled(store, net, fates).store, box)
  {
    DrainFills(Begun(store, net, fates).loop, net, fates, box);
  }

  /** A first sync against a fixed folder stores exactly the messages that have a body and parse. */
  lemma FirstSyncStoresTheReadable(net: Network, fates: Fates, box: Mailbox)
    requires Steady(net, box) && Advertises(box) && Commits(Store(Unsynced, map[]), net, fates)
    ensures var rows := Reconciled(Store(Unsynced, map[]), net, fates).store.rows;
            && (forall m | m in box.mails && m.raw != "" && m.parses :: m.uid in rows && rows[m.uid] == m)
            && (forall u | u in rows :: rows[u] in box.mails && rows[u].uid == u && rows[u].raw != "" && rows[u].parses)
  {
    var store := Store(Unsynced, map[]);
    SuccessCatchesUp(store, net, fates, box);
    var rows := Reconciled(store, net, fates).store.rows;
    forall m | m in box.mails && m.raw != "" && m.parses
      ensures m.uid in rows && rows[m.uid] == m
    {
      assert Usable(m) && m.uid >= 1;
      SameUidSameMail(box, rows[m.uid], m);
    }
  }

  /** A failed attempt leaves the bookkeeping alone and, unless it is about to wipe again, only adds what belongs. */
  lemma FailureOnlyAdds(store: Store, net: Network, fates: Fates, box: Mailbox)
    requires Steady(net, box) && Advertises(box) && !Commits(store, net, fates)
    ensures Reconciled(store, net, fates).store.folder == store.folder
    ensures !NeedsFullResync(store.folder, box) ==>
              AddedFrom(store.rows, Reconciled(store, net, fates).store.rows, box, FirstUid(store.folder))
  {
    if Begun(store, net, fates).Ready? {
      DrainFills(Begun(store, net, fates).loop, net, fates, box);
    }
  }

  lemma CaughtUpIsUnique(before: Store, a: Store, b: Store, box: Mailbox)
    requires Advertises(box) && CaughtUp(before, a, box) && CaughtUp(before, b, box)
    ensures a == b
  {
    forall u | u in a.rows
      ensures u in b.rows && a.rows[u] == b.rows[u]
    {
      SameRow(before, a, b, box, u);
    }
    forall u | u in b.rows
      ensures u in a.rows
    {
      SameRow(before, b, a, box, u);
    }
    assert a.rows == b.rows;
  }

  lemma SameRow(before: Store, a: Store, b: Store, box: Mailbox, u: int)
    requires Advertises(box) && CaughtUp(before, a, box) && CaughtUp(before, b, box) && u in a.rows
    ensures u in b.rows && a.rows[u] == b.rows[u]
  {
    var wipe := NeedsFullResync(before.folder, box);
    if wipe || u !in before.rows {
      var m := a.rows[u];
      assert m in box.mails && m.uid == u && Usable(m);
      assert u in b.rows;
      SameUidSameMail(box, m, b.rows[u]);
    }
  }

  /** One attempt: what the network and the local side answer in it. */
  datatype Try = Try(net: Network, fates: Fates)

  /** The store after a sequence of attempts. */
  function AfterTries(store: Store, tries: seq<Try>): Store
    decreases |tries|
  {
    if tries == [] then store
    else
      var n := |tries| - 1;
      Reconciled(AfterTries(store, tries[..n]), tries[n].net, tries[n].fates).store
  }

  /** On the way from `store` to its caught-up state: nothing committed and only fitting rows added, or already there. */
  ghost predicate Toward(store: Store, mid: Store, box: Mailbox)
    requires Advertises(box)
  {
    || CaughtUp(store, mid, box)
    || (&& mid.folder == store.folder
        && (!NeedsFullResync(store.folder, box) ==> AddedFrom(store.rows, mid.rows, box, FirstUid(store.folder))))
  }

  /** From a caught-up store an attempt against the same folder finds nothing to do, however it ends. */
  lemma CaughtUpIsQuiet(store: Store, mid: Store, net: Network, fates: Fates, box: Mailbox)
    requires Advertises(box) && CaughtUp(store, mid, box) && Steady(net, box)
    ensures var o := Reconciled(mid, net, fates);
            && o.store == mid && o.ranges == [] && o.discarded == []
            && (o.result.Ok? ==> o.result.value.inserted == 0 && o.result.value.wiped == 0)
            && (net(0) == Answer(box) && AllWell(fates) ==> o.result.Ok?)
  {
    if Answers(net, 0) {
      var from := FirstUid(mid.folder);
      assert FetchUidRange(box, from) == FolderSync(box.validity, box.uidNext, [], box.uidNext.value - 1, false, None);
      assert IngestedBy(FirstLoop(mid, net), fates) == Batch(mid.rows, 0, true);
    }
  }

  /** The local side does not fail outside of messages. */
  predicate AllWell(fates: Fates) { fates.setup.None? && fates.threads && fates.uidState && fates.status }

  /** Every attempt stays on the way, and one that commits arrives. */
  lemma AttemptGoesToward(store: Store, mid: Store, net: Network, fates: Fates, box: Mailbox)
    requires Advertises(box) && Steady(net, box) && Toward(store, mid, box)
    ensures Toward(store, Reconciled(mid, net, fates).store, box)
    ensures Commits(mid, net, fates) ==> CaughtUp(store, Reconciled(mid, net, fates).store, box)
  {
    var after := Reconciled(mid, net, fates).store;
    if CaughtUp(store, mid, box) {
      CaughtUpIsQuiet(store, mid, net, fates, box);
    } else {
      var from := FirstUid(store.folder);
      if Commits(mid, net, fates) {
        SuccessCatchesUp(mid, net, fates, box);
      } else {
        FailureOnlyAdds(mid, net, fates, box);
      }
      if !NeedsFullResync(store.folder, box) {
        AddedTransitive(store.rows, mid.rows, after.rows, box, from, from);
      }
    }
  }

  lemma {:induction false} TriesGoToward(store: Store, tries: seq<Try>, box: Mailbox)
    requires Advertises(box) && forall i | 0 <= i < |tries| :: Steady(tries[i].net, box)
    ensures Toward(store, AfterTries(store, tries), box)
    decreases |tries|
  {
    if tries != [] {
      var n := |tries| - 1;
      TriesGoToward(store, tries[..n], box);
      AttemptGoesToward(store, AfterTries(store, tries[..n]), tries[n].net, tries[n].fates, box);
    }
  }

  /**
   * Any number of attempts that fail anywhere, followed by one that succeeds against the same server, ends with
   * exactly the rows and UID bookkeeping of one that succeeded at once.
   */
  lemma FailuresThenSuccess(store: Store, box: Mailbox, tries: seq<Try>, last: Try, direct: Try)
    requires Advertises(box) && Steady(last.net, box) && Steady(direct.net, box)
    requires forall i | 0 <= i < |tries| :: Steady(tries[i].net, box)
    requires Reconciled(AfterTries(store, tries), last.net, last.fates).result.Ok?
    requires Reconciled(store, direct.net, direct.fates).result.Ok?
    ensures Reconciled(AfterTries(store, tries), last.net, last.fates).store == Reconciled(store, direct.net, direct.fates).store
  {
    TriesGoToward(store, tries, box);
    var mid := AfterTries(store, tries);
    FailureKeepsUidState(mid, last.net, last.fates);
    AttemptGoesToward(store, mid, last.net, last.fates, box);
    FailureKeepsUidState(store, direct.net, direct.fates);
    SuccessCatchesUp(store, direct.net, direct.fates, box);
    CaughtUpIsUnique(store, Reconciled(mid, last.net, last.fates).store, Reconciled(store, direct.net, direct.fates).store, box);
  }

  /** After a success, attempts against the same server fetch nothing, insert nothing, wipe nothing and change nothing. */
  lemma SecondReconcileIsQuiet(store: Store, box: Mailbox, net: Network, fates: Fates, again: Network, againFates: Fates)
    requires Advertises(box) && Steady(net, box) && Steady(again, box) && Commits(store, net, fates)
    ensures var first := Reconciled(store, net, fates).store;
            var second := Reconciled(first, again, againFates);
            && second.store == first && second.ranges == [] && second.discarded == []
            && (second.result.Ok? ==> second.result.value.inserted == 0 && second.result.value.wiped == 0)
            && (again(0) == Answer(box) && AllWell(againFates) ==> second.result.Ok?)
  {
    SuccessCatchesUp(store, net, fates, box);
    CaughtUpIsQuiet(store, Reconciled(store, net, fates).store, again, againFates, box);
  }

  // ----- where the assumptions are needed

  /** New rows of a drain lie at or above its start, whatever the server answers. */
  lemma {:induction false} DrainStaysAbove(l: Loop, net: Network, fates: Fates, box: Mailbox, u: int)
    requires 1 <= l.from <= U32_MAX && l.server == FetchUidRange(box, l.from) && Representable(box)
    requires u < l.from && u !in l.rows && (l.lastSeen.Some? ==> u <= l.lastSeen.value)
    ensures l.server.hasMore ==> l.from <= l.server.windowHi < U32_MAX
    ensures var d := Drain(l, net, fates);
            u !in d.rows && (d.Done? && l.lastSeen.Some? ==> d.lastSeen.Some? && u <= d.lastSeen.value)
    decreases U32_MAX - l.from
  {
    WindowStaysAbove(l, fates, box, u);
    if Continues(l, net, fates) {
      DrainStaysAbove(NextLoop(l, net, fates), net, fates, net(l.call + 1).box, u);
    }
  }

  lemma WindowStaysAbove(l: Loop, fates: Fates, box: Mailbox, u: int)
    requires 1 <= l.from <= U32_MAX && l.server == FetchUidRange(box, l.from) && Representable(box)
    requires u < l.from && u !in l.rows && (l.lastSeen.Some? ==> u <= l.lastSeen.value)
    ensures l.server.hasMore ==> l.from <= l.server.windowHi < U32_MAX
    ensures u !in IngestedBy(l, fates).rows
    ensures l.lastSeen.Some? ==> u <= NextSeen(l.lastSeen, l.server).value
    ensures l.server.hasMore ==> u <= NextSeen(l.lastSeen, l.server).value
  {
    WindowShape(box, l.from);
    IngestStaysInBatch(l.rows, l.inserted, l.server.messages, ExistingUids(l.rows, l.server.messages), fates, l.call, u);
  }

  lemma {:induction false} IngestStaysInBatch(rows: Rows, inserted: nat, batch: seq<Mail>, already: set<int>, fates: Fates, call: nat, u: int)
    requires u !in rows && forall m | m in batch :: m.uid != u
    ensures u !in Ingest(rows, inserted, batch, already, fates, call).rows
    decreases |batch|
  {
    if batch != [] {
      var m := batch[0];
      assert m in batch;
      if m.uid in already || !Usable(m) {
        IngestStaysInBatch(rows, inserted, batch[1..], already, fates, call, u);
      } else if m.uid !in rows && fates.message(call, m.uid) == Stored {
        IngestStaysInBatch(rows[m.uid := m], inserted + 1, batch[1..], already, fates, call, u);
      }
    }
  }

  /** The mark has passed this UID, and it is not stored. */
  predicate Skipped(store: Store, u: nat)
  {
    u !in store.rows && u < U32_MAX && store.folder.lastSeen.Some? && u <= store.folder.lastSeen.value
  }

  predicate Resets(store: Store, net: Network) { net(0).Answer? && NeedsFullResync(store.folder, net(0).box) }

  /** A UID the mark has passed is not fetched by any reconcile that does not start over. */
  lemma SkippedStaysSkipped(store: Store, net: Network, fates: Fates, u: nat)
    requires Skipped(store, u) && !Resets(store, net)
    ensures Skipped(Reconciled(store, net, fates).store, u)
  {
    if Begun(store, net, fates).Ready? {
      DrainStaysAbove(FirstLoop(store, net), net, fates, net(0).box, u);
    }
  }

  /** So it is never fetched until UIDVALIDITY changes. */
  lemma {:induction false} SkippedForever(store: Store, tries: seq<Try>, u: nat)
    requires Skipped(store, u)
    requires forall i | 0 <= i < |tries| :: !Resets(AfterTries(store, tries[..i]), tries[i].net)
    ensures Skipped(AfterTries(store, tries), u)
    decreases |tries|
  {
    if tries != [] {
      var n := |tries| - 1;
      forall i | 0 <= i < n
        ensures !Resets(AfterTries(store, tries[..n][..i]), tries[..n][i].net)
      {
        assert tries[..n][..i] == tries[..i];
      }
      SkippedForever(store, tries[..n], u);
      SkippedStaysSkipped(AfterTries(store, tries[..n]), tries[n].net, tries[n].fates, u);
    }
  }

  // Two servers that always answer, and stores that accept everything or everything but one message.

  function Always(box: Mailbox): Network { i => Answer(box) }

  function AllStored(): Fates
  {
    Fates(None, true, true, call => true, (call, uid) => Stored, true, true)
  }

  function AllBut(bad: nat): Fates
  {
    AllStored().(message := (call, uid) => if uid == bad then RolledBack else Stored)
  }

  const EmptyStore := Store(Unsynced, map[])
  const OldMail := Mail(1, "old", true)
  const NewMail := Mail(1, "new", true)
  const SecondMail := Mail(2, "x", true)

  lemma {:induction false} WithinAll(mails: seq<Mail>, range: Range)
    requires forall m | m in mails :: range.lo <= m.uid <= range.hi
    ensures Within(mails, range) == mails
  {
    if mails != [] {
      WithinAll(mails[1..], range);
    }
  }

  lemma IngestTwo(rows: Rows, a: Mail, b: Mail, fates: Fates, call: nat)
    requires a.uid != b.uid && a.uid !in rows && b.uid !in rows && Usable(a) && Usable(b)
    requires fates.message(call, a.uid) == Stored && fates.message(call, b.uid) == RolledBack
    ensures Ingest(rows, 0, [a, b], ExistingUids(rows, [a, b]), fates, call) == Batch(rows[a.uid := a], 1, false)
  {
    assert [a, b][1..] == [b];
  }

  lemma IngestOne(rows: Rows, a: Mail, fates: Fates, call: nat)
    requires Usable(a) && fates.message(call, a.uid) == Stored
    ensures Ingest(rows, 0, [a], ExistingUids(rows, [a]), fates, call)
            == if a.uid in rows then Batch(rows, 0, true) else Batch(rows[a.uid := a], 1, true)
  {
    assert [a][1..] == [];
    assert a in [a];
    assert a.uid in Uids([a]);
  }

  /** Rows left by a failed first sync are not recognised as stale once the server has reset. */
  lemma StaleAfterFailedFirstSync()
    ensures var before, after := Mailbox(Some(1), Some(3), [OldMail, SecondMail]), Mailbox(Some(2), Some(2), [NewMail]);
            var failed := Reconciled(EmptyStore, Always(before), AllBut(2));
            var done := Reconciled(failed.store, Always(after), AllStored());
            && failed.result.Err? && done.result.Ok?
            && !HoldsBelow(done.store.rows, after, 2)
  {
    var before, after := Mailbox(Some(1), Some(3), [OldMail, SecondMail]), Mailbox(Some(2), Some(2), [NewMail]);
    WithinAll(before.mails, Range(1, 2));
    IngestTwo(map[], OldMail, SecondMail, AllBut(2), 0);
    var failed := Reconciled(EmptyStore, Always(before), AllBut(2));
    assert failed.store == Store(Unsynced, map[1 := OldMail]);
    WithinAll(after.mails, Range(1, 1));
    IngestOne(map[1 := OldMail], NewMail, AllStored(), 0);
    assert NewMail in after.mails;
  }

  /**
   * Without UIDNEXT the high-water mark passes UIDs still to be assigned. The folder holds UID 1 when it is first synced;
   * the message that then arrives as UID 2 is not fetched by any later reconcile, until UIDVALIDITY changes.
   */
  lemma MissedWithoutUidNext(tries: seq<Try>)
    requires forall i | 0 <= i < |tries| :: !Resets(AfterTries(SyncedWithoutUidNext().store, tries[..i]), tries[i].net)
    ensures SyncedWithoutUidNext().result.Ok?
    ensures Skipped(AfterTries(SyncedWithoutUidNext().store, tries), SecondMail.uid)
  {
    FirstMarkWithoutUidNext();
    SkippedForever(SyncedWithoutUidNext().store, tries, SecondMail.uid);
  }

  function SyncedWithoutUidNext(): Outcome
  {
    Reconciled(EmptyStore, Always(Mailbox(Some(1), None, [OldMail])), AllStored())
  }

  lemma FirstMarkWithoutUidNext()
    ensures SyncedWithoutUidNext().result.Ok?
    ensures SyncedWithoutUidNext().store == Store(Folder(Some(1), None, Some(500)), map[1 := OldMail])
  {
    var box := Mailbox(Some(1), None, [OldMail]);
    WithinAll(box.mails, Range(1, 500));
    IngestOne(map[], OldMail, AllStored(), 0);
    assert MaxUid([OldMail]) == Some(1);
  }
}
