/** What repeated reconciles guarantee while the server appends, expunges and resets. */
module Mirror {
  import opened Prelude
  import opened ImapWindow
  import opened Reconciler

  /** The server side obeys section 2.3.1.1 of RFC 3501 and advertises UIDVALIDITY and UIDNEXT. */
  ghost predicate Advertises(box: Mailbox)
  {
    WellFormed(box) && box.validity.Some? && box.uidNext.Some?
  }

  /** What appends and expunges, in any number and order, can turn `a` into: UIDs are never reused. */
  ghost predicate Later(a: Mailbox, b: Mailbox)
  {
    && Advertises(a) && Advertises(b)
    && b.validity == a.validity
    && a.uidNext.value <= b.uidNext.value
    && forall m | m in b.mails && m.uid < a.uidNext.value :: m in a.mails
  }

  // ----- the local side

  /** No stored row contradicts the server or takes a UID it has yet to assign. */
  ghost predicate Fresh(rows: Rows, box: Mailbox)
    requires box.uidNext.Some?
  {
    && (forall u | u in rows :: u < box.uidNext.value)
    && (forall m | m in box.mails && m.uid in rows :: rows[m.uid] == m)
  }

  /** Every usable server message below `bound` is stored with its own content. */
  ghost predicate HoldsBelow(rows: Rows, box: Mailbox, bound: int)
  {
    forall m | m in box.mails && m.uid < bound && Usable(m) :: m.uid in rows && rows[m.uid] == m
  }

  /** The mirror agrees with the server on everything it claims to have seen. */
  ghost predicate InStep(store: Store, box: Mailbox)
    requires Advertises(box)
  {
    && store.folder.lastSeen.Some?
    && 0 <= store.folder.lastSeen.value < box.uidNext.value
    && HoldsBelow(store.rows, box, store.folder.lastSeen.value + 1)
    && Fresh(store.rows, box)
  }

  // ----- one window

  lemma {:induction false} MaxUidBound(batch: seq<Mail>, hi: int)
    requires forall m | m in batch :: m.uid <= hi
    ensures MaxUid(batch).Some? ==> MaxUid(batch).value <= hi
  {
    if batch != [] {
      MaxUidBound(batch[1..], hi);
    }
  }

  /** What ingesting a batch may have done to the rows. */
  ghost predicate Added(before: Rows, after: Rows, batch: seq<Mail>)
  {
    && (forall u | u in before :: u in after && after[u] == before[u])
    && (forall u | u in after && u !in before :: after[u] in batch && after[u].uid == u && Usable(after[u]))
  }

  /** Ingesting adds only messages of the batch, and a complete batch adds every usable one. */
  lemma {:induction false} IngestAdds(rows: Rows, inserted: nat, batch: seq<Mail>, already: set<int>, fates: Fates, call: nat)
    requires DistinctUids(batch)
    requires already <= rows.Keys
    ensures var b := Ingest(rows, inserted, batch, already, fates, call);
            && Added(rows, b.rows, batch)
            && (b.ok ==> forall m | m in batch && Usable(m) :: m.uid in b.rows)
    decreases |batch|
  {
    if batch != [] {
      var m, rest := batch[0], batch[1..];
      assert forall x :: x in batch <==> x == m || x in rest;
      if m.uid in already || !Usable(m) {
        IngestAdds(rows, inserted, rest, already, fates, call);
      } else if m.uid !in rows && fates.message(call, m.uid) == Stored {
        var rows1 := rows[m.uid := m];
        IngestAdds(rows1, inserted + 1, rest, already, fates, call);
        var b := Ingest(rows1, inserted + 1, rest, already, fates, call);
        assert b == Ingest(rows, inserted, batch, already, fates, call);
        assert Added(rows1, b.rows, rest);
        assert Added(rows, b.rows, batch);
      }
    }
  }

  /** The report counts exactly the rows that were added. */
  lemma {:induction false} IngestCounts(rows: Rows, inserted: nat, batch: seq<Mail>, already: set<int>, fates: Fates, call: nat)
    ensures var b := Ingest(rows, inserted, batch, already, fates, call);
            b.ok ==> |b.rows| - |rows| == b.inserted - inserted
    decreases |batch|
  {
    if batch != [] {
      var m, rest := batch[0], batch[1..];
      if m.uid in already || !Usable(m) {
        IngestCounts(rows, inserted, rest, already, fates, call);
      } else if m.uid !in rows && fates.message(call, m.uid) == Stored {
        IngestCounts(rows[m.uid := m], inserted + 1, rest, already, fates, call);
      }
    }
  }

  /** A message whose attachments could not be stored leaves no row; one that failed only after that keeps its row. */
  lemma {:induction false} IngestRollsBack(rows: Rows, inserted: nat, batch: seq<Mail>, already: set<int>, fates: Fates, call: nat)
    ensures var b := Ingest(rows, inserted, batch, already, fates, call);
            && (forall u: nat | u in b.rows && u !in rows :: fates.message(call, u) != RolledBack)
            && (b.ok ==> forall u: nat | u in b.rows && u !in rows :: fates.message(call, u) == Stored)
    ensures (batch != [] && Usable(batch[0]) && batch[0].uid !in already && batch[0].uid !in rows
             && fates.message(call, batch[0].uid) == StoredThenFailed)
            ==> Ingest(rows, inserted, batch, already, fates, call) == Batch(rows[batch[0].uid := batch[0]], inserted, false)
    decreases |batch|
  {
    if batch != [] {
      var m := batch[0];
      if m.uid in already || !Usable(m) {
        IngestRollsBack(rows, inserted, batch[1..], already, fates, call);
      } else if m.uid !in rows && fates.message(call, m.uid) == Stored {
        IngestRollsBack(rows[m.uid := m], inserted + 1, batch[1..], already, fates, call);
      }
    }
  }

  lemma {:induction false} WithinKeepsDistinct(mails: seq<Mail>, range: Range)
    requires DistinctUids(mails)
    ensures DistinctUids(Within(mails, range))
  {
    if mails != [] {
      WithinKeepsDistinct(mails[1..], range);
      var rest := Within(mails[1..], range);
      forall i | 0 <= i < |rest|
        ensures rest[i].uid != mails[0].uid
      {
        assert rest[i] in mails[1..];
      }
    }
  }

  /** The same UID in the same validity period is the same message. */
  lemma SameUidSameMail(box: Mailbox, a: Mail, b: Mail)
    requires WellFormed(box) && a in box.mails && b in box.mails && a.uid == b.uid
    ensures a == b
  {
  }

  /** What the loop's window does to the rows, whether its lookup succeeds or not. */
  lemma WindowIngests(l: Loop, box: Mailbox, fates: Fates)
    requires WellFormed(box) && l.server == FetchUidRange(box, l.from)
    ensures Added(l.rows, IngestedBy(l, fates).rows, l.server.messages)
    ensures IngestedBy(l, fates).ok ==> forall m | m in l.server.messages && Usable(m) :: m.uid in IngestedBy(l, fates).rows
  {
    DistinctWindow(l, box);
    IngestAdds(l.rows, l.inserted, l.server.messages, ExistingUids(l.rows, l.server.messages), fates, l.call);
  }

  /** One window, fetched when the folder looked like `box`, keeps the rows fresh for every later folder. */
  lemma WindowStaysFresh(l: Loop, box: Mailbox, final: Mailbox, fates: Fates)
    requires Later(box, final) && l.server == FetchUidRange(box, l.from)
    requires Fresh(l.rows, final)
    ensures Fresh(IngestedBy(l, fates).rows, final)
  {
    DistinctWindow(l, box);
    WindowIngests(l, box, fates);
    var rows := IngestedBy(l, fates).rows;
    forall m | m in final.mails && m.uid in rows
      ensures rows[m.uid] == m
    {
      if m.uid !in l.rows {
        var got := rows[m.uid];
        assert got in box.mails && got.uid == m.uid;
        SameUidSameMail(box, got, m);
      }
    }
  }

  lemma DistinctWindow(l: Loop, box: Mailbox)
    requires WellFormed(box) && l.server == FetchUidRange(box, l.from)
    ensures DistinctUids(l.server.messages)
    ensures forall m | m in l.server.messages :: m in box.mails && m.uid <= l.server.windowHi
  {
    if l.server.range.Some? {
      WithinKeepsDistinct(box.mails, l.server.range.value);
    }
  }

  /** A complete window extends coverage from below its start to its upper end. */
  lemma WindowExtendsCoverage(l: Loop, box: Mailbox, final: Mailbox, fates: Fates)
    requires Later(box, final) && 1 <= l.from && l.server == FetchUidRange(box, l.from)
    requires Fresh(l.rows, final) && HoldsBelow(l.rows, final, l.from)
    ensures var b := IngestedBy(l, fates);
            && HoldsBelow(b.rows, final, l.from)
            && (b.ok ==> HoldsBelow(b.rows, final, l.server.windowHi + 1))
  {
    WindowStaysFresh(l, box, final, fates);
    WindowIngests(l, box, fates);
    var b := IngestedBy(l, fates);
    if b.ok {
      forall m | m in final.mails && m.uid < l.server.windowHi + 1 && Usable(m)
        ensures m.uid in b.rows
      {
        if m.uid >= l.from {
          assert m in box.mails;
          assert m in l.server.messages;
        }
      }
    }
  }

  // ----- one drain

  /** From call `first` on, every answer shows the same validity period, in order, and `final` comes after all of them. */
  ghost predicate Consistent(net: Network, first: nat, final: Mailbox)
  {
    && (forall i: nat | first <= i && net(i).Answer? :: Later(net(i).box, final))
    && (forall i: nat, j: nat | first <= i <= j && net(i).Answer? && net(j).Answer? :: Later(net(i).box, net(j).box))
  }

  /** Where the window loop stands: fresh rows, and everything below the next window covered. */
  ghost predicate LoopInv(l: Loop, net: Network, final: Mailbox)
  {
    && Consistent(net, l.call, final)
    && net(l.call).Answer? && Later(net(l.call).box, final)
    && 1 <= l.from <= U32_MAX && l.server == FetchUidRange(net(l.call).box, l.from)
    && Fresh(l.rows, final) && HoldsBelow(l.rows, final, l.from)
    && (l.lastSeen.Some? ==> 0 <= l.lastSeen.value < final.uidNext.value && l.lastSeen.value < l.from)
  }

  /** The high-water mark after a window is the window's upper end, or an older mark just below its start. */
  lemma NextSeenBound(l: Loop, net: Network, final: Mailbox)
    requires LoopInv(l, net, final)
    ensures var seen := NextSeen(l.lastSeen, l.server);
            && seen.Some? && 0 <= seen.value < final.uidNext.value
            && (seen.value == l.server.windowHi || seen.value < l.from)
            && (l.server.hasMore ==> seen.value == l.server.windowHi == l.from + FETCH_WINDOW - 1 < U32_MAX)
  {
    var box := net(l.call).box;
    DistinctWindow(l, box);
    MaxUidBound(l.server.messages, l.server.windowHi);
    WindowShape(box, l.from);
  }

  lemma NextLoopInv(l: Loop, net: Network, fates: Fates, final: Mailbox)
    requires LoopInv(l, net, final) && Continues(l, net, fates)
    ensures LoopInv(NextLoop(l, net, fates), net, final)
    ensures NextLoop(l, net, fates).from > l.from
  {
    var box, next := net(l.call).box, NextLoop(l, net, fates);
    NextSeenBound(l, net, final);
    assert next.from == l.server.windowHi + 1;
    NextRows(l, net, fates, final);
    NextAnswers(net, l.call, final);
  }

  /** The rows after a complete window cover everything below the next one. */
  lemma NextRows(l: Loop, net: Network, fates: Fates, final: Mailbox)
    requires LoopInv(l, net, final) && IngestedBy(l, fates).ok
    ensures Fresh(IngestedBy(l, fates).rows, final) && HoldsBelow(IngestedBy(l, fates).rows, final, l.server.windowHi + 1)
  {
    WindowStaysFresh(l, net(l.call).box, final, fates);
    WindowExtendsCoverage(l, net(l.call).box, final, fates);
  }

  lemma NextAnswers(net: Network, call: nat, final: Mailbox)
    requires Consistent(net, call, final)
    ensures Consistent(net, call + 1, final)
    ensures net(call + 1).Answer? ==> Later(net(call + 1).box, final)
  {
  }

  /** What a drain promises about the rows it leaves and, when complete, about its high-water mark. */
  ghost predicate DrainedWell(d: Drained, from: nat, final: Mailbox)
    requires Advertises(final)
  {
    && Fresh(d.rows, final)
    && HoldsBelow(d.rows, final, from)
    && (d.Done? ==>
          && d.server.validity == final.validity
          && d.lastSeen.Some? && 0 <= d.lastSeen.value < final.uidNext.value
          && HoldsBelow(d.rows, final, d.lastSeen.value + 1))
  }

  /** A drain leaves rows that are fresh; if it completes, it has seen everything up to its new high-water mark. */
  lemma {:induction false} DrainMirrors(l: Loop, net: Network, fates: Fates, final: Mailbox)
    requires LoopInv(l, net, final)
    ensures l.server.hasMore ==> l.from <= l.server.windowHi < U32_MAX
    ensures DrainedWell(Drain(l, net, fates), l.from, final)
    decreases U32_MAX - l.from
  {
    NextSeenBound(l, net, final);
    if Continues(l, net, fates) {
      NextLoopInv(l, net, fates, final);
      DrainMirrors(NextLoop(l, net, fates), net, fates, final);
    } else {
      LastWindow(l, net, fates, final);
    }
  }

  lemma LastWindow(l: Loop, net: Network, fates: Fates, final: Mailbox)
    requires LoopInv(l, net, final)
    requires !Continues(l, net, fates)
    ensures DrainedWell(Stopped(l, net, fates), l.from, final)
  {
    WindowStaysFresh(l, net(l.call).box, final, fates);
    WindowExtendsCoverage(l, net(l.call).box, final, fates);
    NextSeenBound(l, net, final);
  }

  // ----- one reconcile

  /** The first reply also belongs to the same validity period. */
  ghost predicate SamePeriod(net: Network, box: Mailbox, final: Mailbox)
  {
    && Consistent(net, 0, final)
    && Later(box, final)
    && forall i: nat | net(i).Answer? :: Later(box, net(i).box)
  }

  /** A reconcile from an in-step mirror leaves it in step, whether it succeeds or fails. */
  lemma ReconcileStaysInStep(store: Store, net: Network, fates: Fates, box: Mailbox, final: Mailbox)
    requires SamePeriod(net, box, final)
    requires store.folder.validity == Some(box.validity.value) && InStep(store, box)
    ensures var after := Reconciled(store, net, fates).store;
            after.folder.validity == Some(final.validity.value) && InStep(after, final)
  {
    InStepSurvives(store, box, final);
    if Answers(net, 0) {
      assert Later(box, net(0).box);
      assert FirstUid(store.folder) == store.folder.lastSeen.value + 1;
      assert !NeedsFullResync(store.folder, net(0).box);
      DrainMirrors(FirstLoop(store, net), net, fates, final);
    }
  }

  /** Appends and expunges alone never take an in-step mirror out of step. */
  lemma InStepSurvives(store: Store, box: Mailbox, final: Mailbox)
    requires Later(box, final) && InStep(store, box)
    ensures InStep(store, final)
  {
  }

  /**
   * After a UIDVALIDITY change a reconcile that commits ends in step; any other keeps the old validity on record, so
   * that the next one starts over.
   */
  lemma ReconcileAfterReset(store: Store, net: Network, fates: Fates, box: Mailbox, final: Mailbox)
    requires SamePeriod(net, box, final)
    requires store.folder.validity.Some? && store.folder.validity.value != box.validity.value
    ensures var after := Reconciled(store, net, fates).store;
            if Commits(store, net, fates) then after.folder.validity == Some(final.validity.value) && InStep(after, final)
            else after.folder == store.folder
  {
    if Begun(store, net, fates).Ready? {
      assert Later(box, net(0).box);
      assert NeedsFullResync(store.folder, net(0).box);
      DrainMirrors(ResyncLoop(net), net, fates, final);
    }
  }

  /**
   * A failed reconcile leaves the UID bookkeeping alone, unless it is the last write that fails: then everything else
   * is as after a success. `Commits` tells the two apart, and a reconcile succeeds exactly when it commits and its last
   * write goes through.
   */
  lemma FailureKeepsUidState(store: Store, net: Network, fates: Fates)
    ensures Reconciled(store, net, fates).result.Ok? <==> Commits(store, net, fates) && fates.status
    ensures !Commits(store, net, fates) ==> Reconciled(store, net, fates).store.folder == store.folder
    ensures Commits(store, net, fates) ==>
              && Reconciled(store, net, fates.(status := true)).result.Ok?
              && Reconciled(store, net, fates).store == Reconciled(store, net, fates.(status := true)).store
  {
    if Begun(store, net, fates).Ready? {
      StatusComesLast(Begun(store, net, fates).loop, net, fates);
    }
  }

  /** The drain does not depend on the last write. */
  lemma {:induction false} StatusComesLast(l: Loop, net: Network, fates: Fates)
    requires 1 <= l.from <= U32_MAX && (l.server.hasMore ==> l.from <= l.server.windowHi < U32_MAX)
    ensures Drain(l, net, fates) == Drain(l, net, fates.(status := true))
    decreases U32_MAX - l.from
  {
    var fates' := fates.(status := true);
    IngestIgnoresStatus(l.rows, l.inserted, l.server.messages, ExistingUids(l.rows, l.server.messages), fates, l.call);
    assert IngestedBy(l, fates) == IngestedBy(l, fates');
    if Continues(l, net, fates) {
      StatusComesLast(NextLoop(l, net, fates), net, fates);
    }
  }

  lemma {:induction false} IngestIgnoresStatus(rows: Rows, inserted: nat, batch: seq<Mail>, already: set<int>, fates: Fates, call: nat)
    ensures Ingest(rows, inserted, batch, already, fates, call) == Ingest(rows, inserted, batch, already, fates.(status := true), call)
    decreases |batch|
  {
    if batch != [] {
      var m := batch[0];
      IngestIgnoresStatus(rows, inserted, batch[1..], already, fates, call);
      IngestIgnoresStatus(rows[m.uid := m], inserted + 1, batch[1..], already, fates, call);
    }
  }

  // ----- what a reconcile reports

  /** Over all its windows together, a completed drain has counted exactly the rows it added. */
  lemma {:induction false} DrainCounts(l: Loop, net: Network, fates: Fates)
    requires 1 <= l.from <= U32_MAX && (l.server.hasMore ==> l.from <= l.server.windowHi < U32_MAX)
    ensures var d := Drain(l, net, fates);
            d.Done? ==> d.inserted - l.inserted == |d.rows| - |l.rows|
    decreases U32_MAX - l.from
  {
    WindowCounts(l, fates);
    if Continues(l, net, fates) {
      DrainCounts(NextLoop(l, net, fates), net, fates);
    } else {
      assert Drain(l, net, fates) == Stopped(l, net, fates);
    }
  }

  lemma WindowCounts(l: Loop, fates: Fates)
    ensures var b := IngestedBy(l, fates);
            b.ok ==> b.inserted - l.inserted == |b.rows| - |l.rows|
  {
    IngestCounts(l.rows, l.inserted, l.server.messages, ExistingUids(l.rows, l.server.messages), fates, l.call);
  }

  /** The sync is what answer `i` of the server gave, and nothing was left above it. */
  predicate LastAnswer(net: Network, i: nat, from: nat, server: FolderSync)
  {
    Answers(net, i) && server == FetchUidRange(net(i).box, from) && !server.hasMore
  }

  lemma {:induction false} DrainEndsOnAnswer(l: Loop, net: Network, fates: Fates) returns (i: nat, from: nat)
    requires 1 <= l.from <= U32_MAX && (l.server.hasMore ==> l.from <= l.server.windowHi < U32_MAX)
    requires Answers(net, l.call) && l.server == FetchUidRange(net(l.call).box, l.from) && Drain(l, net, fates).Done?
    ensures LastAnswer(net, i, from, Drain(l, net, fates).server)
    ensures var d := Drain(l, net, fates);
            d.lastSeen.Some? && d.lastSeen.value >= d.server.windowHi
    decreases U32_MAX - l.from
  {
    if Continues(l, net, fates) {
      i, from := DrainEndsOnAnswer(NextLoop(l, net, fates), net, fates);
    } else {
      i, from := l.call, l.from;
    }
  }

  /** The server's validity is known to differ from the stored one. */
  predicate ValidityChanged(folder: Folder, box: Mailbox)
  {
    && folder.validity.Some? && box.validity.Some?
    && folder.validity != Some(box.validity.value)
  }

  /** Rows survive every reconcile, successful or not, unless the validity is known to have changed. */
  lemma RowsSurviveWithoutReset(store: Store, net: Network, fates: Fates)
    requires net(0).Answer? ==> !ValidityChanged(store.folder, net(0).box)
    ensures var after := Reconciled(store, net, fates).store.rows;
            forall u | u in store.rows :: u in after && after[u] == store.rows[u]
  {
    if Begun(store, net, fates).Ready? {
      DrainKeepsRows(Begun(store, net, fates).loop, net, fates);
    }
  }

  /** A success reports the rows added, counted over all windows, and the rows wiped, none unless the validity changed. */
  lemma ReportedCountsAreTrue(store: Store, net: Network, fates: Fates)
    requires Reconciled(store, net, fates).result.Ok?
    ensures Answers(net, 0)
    ensures var report, after := Reconciled(store, net, fates).result.value, Reconciled(store, net, fates).store;
            && report.inserted == |after.rows| - (if ValidityChanged(store.folder, net(0).box) then 0 else |store.rows|)
            && report.wiped == (if ValidityChanged(store.folder, net(0).box) then |store.rows| else 0)
  {
    DrainCounts(Begun(store, net, fates).loop, net, fates);
  }

  /** `after` is the stored field once the server has given `given`, or nothing. */
  predicate Kept(before: Option<int>, given: Option<nat>, reported: Option<int>, after: Option<int>)
  {
    if given.Some? then reported.Some? && reported.value == given.value && after == reported
    else reported.None? && after == before
  }

  /**
   * A success reports the UID state of the server's last answer, the one with nothing left above it, and stores it; a
   * value the server does not give keeps the old one.
   */
  lemma ReportedUidStateIsTrue(store: Store, net: Network, fates: Fates) returns (i: nat, from: nat)
    requires Reconciled(store, net, fates).result.Ok?
    ensures Answers(net, i) && !FetchUidRange(net(i).box, from).hasMore
    ensures var report, folder := Reconciled(store, net, fates).result.value, Reconciled(store, net, fates).store.folder;
            && Kept(store.folder.validity, net(i).box.validity, report.validity, folder.validity)
            && Kept(store.folder.uidNext, net(i).box.uidNext, report.uidNext, folder.uidNext)
            && report.lastSeen.Some? && folder.lastSeen == report.lastSeen
            && report.lastSeen.value >= FetchUidRange(net(i).box, from).windowHi
  {
    var b := Begun(store, net, fates);
    i, from := DrainEndsOnAnswer(b.loop, net, fates);
    SettledUidState(store, b.wiped, b.discarded, Drain(b.loop, net, fates), fates, net(i).box, from);
  }

  lemma SettledUidState(store: Store, wiped: nat, discarded: seq<Range>, d: Drained, fates: Fates, box: Mailbox, from: nat)
    requires d.Done? && d.server == FetchUidRange(box, from) && d.lastSeen.Some? && fates.uidState && fates.status
    ensures var o := Settle(store, wiped, discarded, d, fates);
            && Kept(store.folder.validity, box.validity, o.result.value.validity, o.store.folder.validity)
            && Kept(store.folder.uidNext, box.uidNext, o.result.value.uidNext, o.store.folder.uidNext)
            && o.result.value.lastSeen == d.lastSeen == o.store.folder.lastSeen
  {
  }

  /** Nothing local fails once the reconcile has begun. */
  ghost predicate LocallyWell(fates: Fates)
  {
    && fates.wipe && fates.threads && fates.uidState && fates.status
    && (forall call: nat :: fates.lookup(call)) && (forall call: nat, uid: nat :: fates.message(call, uid) == Stored)
  }

  /**
   * A reconcile that cannot even begin reports why and touches nothing. Later on, a server error means that the server did
   * not answer, and a local one that something local failed, as long as the server gives every message its own UID.
   */
  lemma ErrorsSayWhatFailed(store: Store, net: Network, fates: Fates)
    ensures fates.setup.Some? ==> Reconciled(store, net, fates) == Outcome(store, Err(fates.setup.value), [], [])
    ensures fates.setup.None? && Reconciled(store, net, fates).result.Err? ==>
              Reconciled(store, net, fates).result.error in {ImapError, LocalError}
    ensures fates.setup.None? && Reconciled(store, net, fates).result == Err(ImapError) ==> exists i: nat :: !Answers(net, i)
    ensures (fates.setup.None? && Reconciled(store, net, fates).result == Err(LocalError)
             && forall i: nat | net(i).Answer? :: DistinctUids(net(i).box.mails))
            ==> !LocallyWell(fates)
  {
    var b := Begun(store, net, fates);
    if b.Ready? {
      DrainErrors(b.loop, net, fates);
      if LocallyWell(fates) && forall i: nat | net(i).Answer? :: DistinctUids(net(i).box.mails) {
        DrainRunsWell(b.loop, net, fates);
      }
    }
  }

  lemma {:induction false} IngestRunsWell(rows: Rows, inserted: nat, batch: seq<Mail>, already: set<int>, fates: Fates, call: nat)
    requires LocallyWell(fates) && DistinctUids(batch) && forall m | m in batch && m.uid in rows :: m.uid in already
    ensures Ingest(rows, inserted, batch, already, fates, call).ok
    decreases |batch|
  {
    if batch != [] {
      var m, rest := batch[0], batch[1..];
      forall x | x in rest
        ensures x.uid != m.uid && x in batch
      {
        var j :| 0 <= j < |rest| && rest[j] == x;
        assert batch[j + 1] == x;
      }
      if m.uid in already || !Usable(m) {
        IngestRunsWell(rows, inserted, rest, already, fates, call);
      } else {
        IngestRunsWell(rows[m.uid := m], inserted + 1, rest, already, fates, call);
      }
    }
  }

  lemma WindowRunsWell(l: Loop, box: Mailbox, fates: Fates)
    requires LocallyWell(fates) && DistinctUids(box.mails) && l.server == FetchUidRange(box, l.from)
    ensures IngestedBy(l, fates).ok
  {
    if l.server.range.Some? {
      WithinKeepsDistinct(box.mails, l.server.range.value);
    }
    IngestRunsWell(l.rows, l.inserted, l.server.messages, ExistingUids(l.rows, l.server.messages), fates, l.call);
  }

  lemma {:induction false} DrainRunsWell(l: Loop, net: Network, fates: Fates)
    requires 1 <= l.from <= U32_MAX && (l.server.hasMore ==> l.from <= l.server.windowHi < U32_MAX)
    requires Answers(net, l.call) && l.server == FetchUidRange(net(l.call).box, l.from)
    requires LocallyWell(fates) && forall i: nat | net(i).Answer? :: DistinctUids(net(i).box.mails)
    ensures Drain(l, net, fates).Failed? ==> Drain(l, net, fates).error == ImapError
    decreases U32_MAX - l.from
  {
    WindowRunsWell(l, net(l.call).box, fates);
    if Continues(l, net, fates) {
      DrainRunsWell(NextLoop(l, net, fates), net, fates);
    }
  }

  lemma {:induction false} DrainErrors(l: Loop, net: Network, fates: Fates)
    requires 1 <= l.from <= U32_MAX && (l.server.hasMore ==> l.from <= l.server.windowHi < U32_MAX)
    ensures var d := Drain(l, net, fates);
            d.Failed? ==> d.error == LocalError || (d.error == ImapError && exists i: nat :: !Answers(net, i))
    decreases U32_MAX - l.from
  {
    if Continues(l, net, fates) {
      DrainErrors(NextLoop(l, net, fates), net, fates);
    } else if IngestedBy(l, fates).ok && l.server.hasMore {
      assert !Answers(net, l.call + 1);
    }
  }

  // ----- whole runs

  datatype World = World(box: Mailbox, store: Store)

  datatype Event =
    | Append(mail: Mail, uidNext: nat)
    | Expunge(index: nat)
    | Reset(box: Mailbox)
    | Reconcile(net: Network, fates: Fates, box: Mailbox)

  ghost predicate Happens(w: World, e: Event, v: World)
  {
    match e
    case Append(mail, uidNext) =>
      && w.box.uidNext.Some? && w.box.uidNext.value <= mail.uid < uidNext <= U32_MAX
      && v == w.(box := w.box.(mails := w.box.mails + [mail], uidNext := Some(uidNext)))
    case Expunge(i) =>
      i < |w.box.mails| && v == w.(box := w.box.(mails := w.box.mails[..i] + w.box.mails[i + 1..]))
    case Reset(box) =>
      // a new validity value, never used before
      && Advertises(box) && w.box.validity.Some? && w.box.validity.value < box.validity.value
      && v == w.(box := box)
    case Reconcile(net, fates, box) =>
      SamePeriod(net, w.box, box) && v == World(box, Reconciled(w.store, net, fates).store)
  }

  /** The mirror is in step, or it still remembers an older validity period and will start over. */
  ghost predicate MirrorInv(w: World)
  {
    && Advertises(w.box)
    && w.store.folder.validity.Some?
    && w.store.folder.validity.value <= w.box.validity.value
    && (w.store.folder.validity.value == w.box.validity.value ==> InStep(w.store, w.box))
  }

  lemma AppendIsLater(a: Mailbox, mail: Mail, uidNext: nat)
    requires Advertises(a) && a.uidNext.value <= mail.uid < uidNext <= U32_MAX
    ensures Later(a, a.(mails := a.mails + [mail], uidNext := Some(uidNext)))
  {
  }

  lemma ExpungeIsLater(a: Mailbox, i: nat)
    requires Advertises(a) && i < |a.mails|
    ensures Later(a, a.(mails := a.mails[..i] + a.mails[i + 1..]))
  {
    var b := a.(mails := a.mails[..i] + a.mails[i + 1..]);
    assert forall j | 0 <= j < |b.mails| :: b.mails[j] == a.mails[if j < i then j else j + 1];
  }

  /** The mirror invariant survives every event. */
  lemma MirrorStep(w: World, e: Event, v: World)
    requires MirrorInv(w) && Happens(w, e, v)
    ensures MirrorInv(v)
  {
    var current := w.store.folder.validity.value == w.box.validity.value;
    match e
    case Append(mail, uidNext) =>
      AppendIsLater(w.box, mail, uidNext);
      if current { InStepSurvives(w.store, w.box, v.box); }
    case Expunge(i) =>
      ExpungeIsLater(w.box, i);
      if current { InStepSurvives(w.store, w.box, v.box); }
    case Reset(_) =>
    case Reconcile(net, fates, box) =>
      if current {
        ReconcileStaysInStep(w.store, net, fates, w.box, box);
      } else {
        ReconcileAfterReset(w.store, net, fates, w.box, box);
      }
  }

  ghost predicate History(worlds: seq<World>, events: seq<Event>)
  {
    && |worlds| == |events| + 1
    && forall i {:trigger events[i]} | 0 <= i < |events| :: Happens(worlds[i], events[i], worlds[i + 1])
  }

  /**
   * From any completed reconcile on, under any appends, expunges, validity resets and successful or
   * failed reconciles: whenever the stored validity is the server's, the high-water mark is below
   * UIDNEXT and every usable server message up to it is stored, once, with the server's content.
   */
  lemma {:induction false} MirrorHoldsForever(worlds: seq<World>, events: seq<Event>, n: nat)
    requires History(worlds, events) && MirrorInv(worlds[0]) && n < |worlds|
    ensures MirrorInv(worlds[n])
  {
    if n > 0 {
      MirrorHoldsForever(worlds, events, n - 1);
      MirrorStep(worlds[n - 1], events[n - 1], worlds[n]);
    }
  }

  // ----- first syncs

  /** A drain never drops or changes a row. */
  lemma {:induction false} DrainKeepsRows(l: Loop, net: Network, fates: Fates)
    requires 1 <= l.from <= U32_MAX && (l.server.hasMore ==> l.from <= l.server.windowHi < U32_MAX)
    ensures forall u | u in l.rows :: u in Drain(l, net, fates).rows && Drain(l, net, fates).rows[u] == l.rows[u]
    decreases U32_MAX - l.from
  {
    IngestKeepsRows(l.rows, l.inserted, l.server.messages, ExistingUids(l.rows, l.server.messages), fates, l.call);
    if Continues(l, net, fates) {
      DrainKeepsRows(NextLoop(l, net, fates), net, fates);
    }
  }

  lemma {:induction false} IngestKeepsRows(rows: Rows, inserted: nat, batch: seq<Mail>, already: set<int>, fates: Fates, call: nat)
    ensures var after := Ingest(rows, inserted, batch, already, fates, call).rows;
            forall u | u in rows :: u in after && after[u] == rows[u]
    decreases |batch|
  {
    if batch != [] {
      var m := batch[0];
      if m.uid in already || !Usable(m) {
        IngestKeepsRows(rows, inserted, batch[1..], already, fates, call);
      } else if m.uid !in rows && fates.message(call, m.uid) == Stored {
        IngestKeepsRows(rows[m.uid := m], inserted + 1, batch[1..], already, fates, call);
      }
    }
  }

  /** A completed drain ends on an answer of the server, so with the server's validity. */
  lemma {:induction false} DrainEndsInPeriod(l: Loop, net: Network, fates: Fates, final: Mailbox)
    requires 1 <= l.from <= U32_MAX && (l.server.hasMore ==> l.from <= l.server.windowHi < U32_MAX)
    requires Consistent(net, l.call, final) && Answers(net, l.call) && l.server.validity == net(l.call).box.validity
    ensures Drain(l, net, fates).Done? ==> Drain(l, net, fates).server.validity == final.validity
    decreases U32_MAX - l.from
  {
    assert Later(net(l.call).box, final);
    if Continues(l, net, fates) {
      NextAnswers(net, l.call, final);
      DrainEndsInPeriod(NextLoop(l, net, fates), net, fates, final);
    }
  }

  /** The state of a folder no reconcile has committed to yet. */
  const Unsynced := Folder(None, None, None)

  /**
   * The first reconcile that commits, over whatever rows earlier attempts have left, establishes the mirror exactly when
   * the leftovers are fresh: none of them contradicts a current message or sits on a UID yet to be assigned.
   */
  lemma FirstSyncOverLeftovers(store: Store, net: Network, fates: Fates, box: Mailbox, final: Mailbox)
    requires SamePeriod(net, box, final) && store.folder == Unsynced && Commits(store, net, fates)
    ensures MirrorInv(World(final, Reconciled(store, net, fates).store)) <==> Fresh(store.rows, final)
  {
    assert Later(box, net(0).box);
    var l, after := FirstLoop(store, net), Reconciled(store, net, fates).store;
    DrainKeepsRows(l, net, fates);
    DrainEndsInPeriod(l, net, fates, final);
    assert after.folder.validity == Some(final.validity.value);
    if Fresh(store.rows, final) {
      DrainMirrors(l, net, fates, final);
    } else {
      StaleStays(store.rows, after.rows, final);
    }
  }

  /** A stale row that stays is still stale. */
  lemma StaleStays(rows: Rows, after: Rows, final: Mailbox)
    requires final.uidNext.Some? && !Fresh(rows, final)
    requires forall u | u in rows :: u in after && after[u] == rows[u]
    ensures !Fresh(after, final)
  {
  }

  /** Attempts within one validity period leave fresh rows behind, so a later first sync of the same period is right. */
  lemma FirstSyncRetries(store: Store, net: Network, fates: Fates, box: Mailbox, final: Mailbox)
    requires SamePeriod(net, box, final) && store.folder == Unsynced && Fresh(store.rows, final)
    ensures var after := Reconciled(store, net, fates).store;
            if Commits(store, net, fates) then MirrorInv(World(final, after)) else after.folder == Unsynced && Fresh(after.rows, final)
  {
    if Commits(store, net, fates) {
      FirstSyncOverLeftovers(store, net, fates, box, final);
    } else if Begun(store, net, fates).Ready? {
      assert Later(box, net(0).box);
      DrainMirrors(FirstLoop(store, net), net, fates, final);
    }
  }

  /** A first sync into an empty folder that completes establishes the invariant. */
  lemma FirstSyncEstablishes(net: Network, fates: Fates, box: Mailbox, final: Mailbox)
    requires SamePeriod(net, box, final) && Commits(Store(Unsynced, map[]), net, fates)
    ensures MirrorInv(World(final, Reconciled(Store(Unsynced, map[]), net, fates).store))
  {
    FirstSyncRetries(Store(Unsynced, map[]), net, fates, box, final);
  }

  /** No reconcile has committed yet, and the rows that failed ones left belong to the current validity period. */
  ghost predicate Awaiting(w: World)
  {
    Advertises(w.box) && w.store.folder == Unsynced && Fresh(w.store.rows, w.box)
  }

  lemma AwaitingStep(w: World, e: Event, v: World)
    requires Awaiting(w) && Happens(w, e, v) && (e.Reset? ==> w.store.rows == map[])
    ensures Awaiting(v) || MirrorInv(v)
  {
    match e
    case Append(mail, uidNext) => AppendIsLater(w.box, mail, uidNext);
    case Expunge(i) => ExpungeIsLater(w.box, i);
    case Reset(_) =>
    case Reconcile(net, fates, box) => FirstSyncRetries(w.store, net, fates, w.box, box);
  }

  /**
   * Starting from a folder never synced: the mirror is in step from the first commit on, provided no reset strikes while
   * rows of a failed first sync are lying about.
   */
  lemma {:induction false} MirrorFromScratch(worlds: seq<World>, events: seq<Event>, n: nat)
    requires History(worlds, events) && n < |worlds|
    requires Advertises(worlds[0].box) && worlds[0].store == Store(Unsynced, map[])
    requires forall i | 0 <= i < n && events[i].Reset? :: worlds[i].store.folder.validity.Some? || worlds[i].store.rows == map[]
    ensures Awaiting(worlds[n]) || MirrorInv(worlds[n])
  {
    if n > 0 {
      MirrorFromScratch(worlds, events, n - 1);
      var w, e := worlds[n - 1], events[n - 1];
      assert Happens(w, e, worlds[n]);
      if MirrorInv(w) {
        MirrorStep(w, e, worlds[n]);
      } else {
        AwaitingStep(w, e, worlds[n]);
      }
    }
  }
}
