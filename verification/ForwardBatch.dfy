/** Collecting attachment bytes for a forward: cached files first, then parts of one refetched message. */
module ForwardBatch {
  import opened Prelude

  type AttachmentId = nat
  type Data = string

  datatype Attachment = Attachment(id: AttachmentId, filename: string, contentType: string, contentId: Option<string>)

  /** An attachment part of the refetched message. */
  datatype Part = Part(filename: string, contentType: string, contentId: Option<string>, data: Data)

  datatype Source = Cache | Imap

  datatype Payload = Payload(id: AttachmentId, data: Data, source: Source)

  datatype Failure = Failure(id: AttachmentId, code: string)

  // ----- choosing a part

  /** The content id to look for; an empty one counts as none. */
  function WantedCid(a: Attachment): Option<string>
  {
    if a.contentId.Some? && a.contentId.value != "" then a.contentId else None
  }

  predicate CidMatch(a: Attachment, p: Part) { WantedCid(a).Some? && p.contentId == WantedCid(a) }

  predicate TypedMatch(a: Attachment, p: Part) { p.filename == a.filename && p.contentType == a.contentType }

  predicate NameMatch(a: Attachment, p: Part) { p.filename == a.filename }

  /** First index whose part satisfies the test, as `position` finds it. */
  method Position(parts: seq<Part>, test: Part -> bool) returns (r: Option<nat>)
    ensures r.None? <==> forall i | 0 <= i < |parts| :: !test(parts[i])
    ensures r.Some? ==> r.value < |parts| && test(parts[r.value]) && forall i | 0 <= i < r.value :: !test(parts[i])
  {
    var i := 0;
    while i < |parts|
      invariant 0 <= i <= |parts| && forall k | 0 <= k < i :: !test(parts[k])
    {
      if test(parts[i]) {
        return Some(i);
      }
      i := i + 1;
    }
    return None;
  }

  /** `Vec::swap_remove`: the last element takes the place of the removed one. */
  function SwapRemove(parts: seq<Part>, i: nat): (r: seq<Part>)
    requires i < |parts|
    ensures |r| == |parts| - 1
    ensures multiset(r) + multiset{parts[i]} == multiset(parts)
  {
    var n := |parts| - 1;
    assert parts == parts[..i] + [parts[i]] + parts[i + 1..];
    if i == n then
      parts[..n]
    else
      assert parts[i := parts[n]][..n] == parts[..i] + [parts[n]] + parts[i + 1..n];
      assert parts[i + 1..] == parts[i + 1..n] + [parts[n]];
      parts[i := parts[n]][..n]
  }

  /** How well a part fits an attachment: 3 for its content id, 2 for its filename and type, 1 for its filename, 0 not at all. */
  function Strength(a: Attachment, p: Part): nat
  {
    if a.contentId.Some? && a.contentId.value != "" && p.contentId.Some? && p.contentId.value == a.contentId.value then 3
    else if p.filename != a.filename then 0
    else if p.contentType == a.contentType then 2
    else 1
  }

  /** The part fits, and none available fits better. */
  ghost predicate Strongest(a: Attachment, available: multiset<Part>, p: Part)
  {
    p in available && Strength(a, p) > 0 && forall q | q in available :: Strength(a, q) <= Strength(a, p)
  }

  ghost predicate NoneFits(a: Attachment, available: multiset<Part>)
  {
    forall p | p in available :: Strength(a, p) == 0
  }

  /** Take the best-matching part out of the list; the other parts all stay. */
  method PickAttachmentBytes(parts: seq<Part>, a: Attachment) returns (picked: Option<Part>, rest: seq<Part>)
    ensures picked.None? ==> rest == parts
    ensures picked.None? <==> NoneFits(a, multiset(parts))
    ensures picked.Some? ==>
              && multiset(rest) + multiset{picked.value} == multiset(parts)
              && Strongest(a, multiset(parts), picked.value)
  {
    forall p
      ensures CidMatch(a, p) <==> Strength(a, p) == 3
      ensures TypedMatch(a, p) && !CidMatch(a, p) <==> Strength(a, p) == 2
      ensures NameMatch(a, p) || CidMatch(a, p) <==> Strength(a, p) > 0
    {
    }
    if WantedCid(a).Some? {
      var byCid := Position(parts, p => CidMatch(a, p));
      if byCid.Some? {
        PickIsStrongest(a, parts, byCid.value);
        return Some(parts[byCid.value]), SwapRemove(parts, byCid.value);
      }
    }
    var typed := Position(parts, p => TypedMatch(a, p));
    if typed.Some? {
      PickIsStrongest(a, parts, typed.value);
      return Some(parts[typed.value]), SwapRemove(parts, typed.value);
    }
    var named := Position(parts, p => NameMatch(a, p));
    if named.Some? {
      PickIsStrongest(a, parts, named.value);
      return Some(parts[named.value]), SwapRemove(parts, named.value);
    }
    return None, parts;
  }

  lemma PickIsStrongest(a: Attachment, parts: seq<Part>, i: nat)
    requires i < |parts| && Strength(a, parts[i]) > 0
    requires forall j | 0 <= j < |parts| :: Strength(a, parts[j]) <= Strength(a, parts[i])
    ensures Strongest(a, multiset(parts), parts[i]) && !NoneFits(a, multiset(parts))
  {
    assert parts[i] in multiset(parts);
  }

  // ----- the batch

  /** Position `i` names an attachment of the message for the first time. */
  ghost predicate Granted(ids: seq<AttachmentId>, known: map<AttachmentId, Attachment>, i: nat)
    requires i < |ids|
  {
    ids[i] in known && forall j | 0 <= j < i :: ids[j] != ids[i]
  }

  ghost predicate Increasing(s: seq<nat>, bound: nat)
  {
    && (forall k | 0 <= k < |s| :: s[k] < bound)
    && (forall k, l | 0 <= k < l < |s| :: s[k] < s[l])
  }

  /** What the first pass knows about the positions below `n`. */
  ghost predicate Sorted(ids: seq<AttachmentId>, known: map<AttachmentId, Attachment>, cache: AttachmentId -> Option<Data>,
                         n: nat, slots: seq<Option<Payload>>, refused: seq<nat>, misses: seq<nat>)
    requires n <= |ids| == |slots|
  {
    && Increasing(refused, n) && Increasing(misses, n)
    && (forall i | 0 <= i < n :: Outcome(ids, known, cache, i, slots, refused, misses))
    && (forall i | n <= i < |slots| :: slots[i].None?)
  }

  /** A position is served from the cache, refused, or left for the refetch; exactly one of the three. */
  ghost predicate Outcome(ids: seq<AttachmentId>, known: map<AttachmentId, Attachment>, cache: AttachmentId -> Option<Data>,
                          i: nat, slots: seq<Option<Payload>>, refused: seq<nat>, misses: seq<nat>)
    requires i < |ids| == |slots|
  {
    && (i in refused <==> !Granted(ids, known, i))
    && (i in misses <==> Granted(ids, known, i) && cache(ids[i]).None?)
    && (slots[i].Some? <==> Granted(ids, known, i) && cache(ids[i]).Some?)
    && (slots[i].Some? ==> slots[i].value == Payload(ids[i], cache(ids[i]).value, Cache))
  }

  function FailuresAt(ids: seq<AttachmentId>, positions: seq<nat>, code: string): seq<Failure>
    requires forall k | 0 <= k < |positions| :: positions[k] < |ids|
  {
    seq(|positions|, k requires 0 <= k < |positions| => Failure(ids[positions[k]], code))
  }

  /** First pass: look every id up once and read what the cache has. */
  method ReadCached(ids: seq<AttachmentId>, known: map<AttachmentId, Attachment>, cache: AttachmentId -> Option<Data>)
    returns (slots: seq<Option<Payload>>, failed: seq<Failure>, misses: seq<nat>, refused: seq<nat>)
    ensures |slots| == |ids| && Sorted(ids, known, cache, |ids|, slots, refused, misses)
    ensures failed == FailuresAt(ids, refused, "bad_args")
  {
    var left := known;
    slots := seq(|ids|, i => None);
    failed, misses, refused := [], [], [];
    var n := 0;
    while n < |ids|
      invariant 0 <= n <= |ids| == |slots|
      invariant left == known - (set i | 0 <= i < n :: ids[i])
      invariant Sorted(ids, known, cache, n, slots, refused, misses)
      invariant failed == FailuresAt(ids, refused, "bad_args")
    {
      ghost var slots0, refused0, misses0 := slots, refused, misses;
      var id := ids[n];
      assert id in left <==> Granted(ids, known, n);
      if id !in left {
        failed := failed + [Failure(id, "bad_args")];
        refused := refused + [n];
      } else if cache(id).Some? {
        slots := slots[n := Some(Payload(id, cache(id).value, Cache))];
      } else {
        misses := misses + [n];
      }
      forall i | 0 <= i <= n
        ensures Outcome(ids, known, cache, i, slots, refused, misses)
      {
        if i < n {
          assert Outcome(ids, known, cache, i, slots0, refused0, misses0);
        }
      }
      left := left - {id};
      n := n + 1;
    }
  }

  /** Refetched parts that were used, for which positions, and which are left. */
  datatype Matching = Matching(slots: seq<Option<Payload>>, failed: seq<nat>, usedAt: seq<nat>, used: seq<Part>, rest: seq<Part>)

  /** Each of the first `n` misses has either a part or a failure, in request order. */
  ghost predicate Settled(misses: seq<nat>, n: nat, m: Matching)
    requires n <= |misses|
  {
    && (forall k | 0 <= k < n :: (misses[k] in m.usedAt) != (misses[k] in m.failed))
    && (forall i | i in m.usedAt || i in m.failed :: i in misses[..n])
    && (forall k, l | 0 <= k < l < |m.usedAt| :: m.usedAt[k] < m.usedAt[l])
    && (forall k, l | 0 <= k < l < |m.failed| :: m.failed[k] < m.failed[l])
  }

  /** The used parts fill exactly their positions. */
  ghost predicate Placed(ids: seq<AttachmentId>, before: seq<Option<Payload>>, m: Matching)
    requires |before| == |ids|
  {
    && |m.slots| == |ids| && |m.used| == |m.usedAt|
    && (forall k | 0 <= k < |m.usedAt| ::
          m.usedAt[k] < |ids| && m.slots[m.usedAt[k]] == Some(Payload(ids[m.usedAt[k]], m.used[k].data, Imap)))
    && (forall i | 0 <= i < |ids| && i !in m.usedAt :: m.slots[i] == before[i])
  }

  /** At the turn of position `pos`, the first `n` used positions had been served. */
  predicate Turn(usedAt: seq<nat>, n: nat, pos: nat)
  {
    n <= |usedAt| && (n > 0 ==> usedAt[n - 1] < pos) && (n < |usedAt| ==> pos < usedAt[n])
  }

  /** What the first `n` used parts have left. */
  ghost function Available(parts: seq<Part>, m: Matching, n: nat): multiset<Part>
    requires n <= |m.used|
  {
    multiset(parts) - multiset(m.used[..n])
  }

  /** No part is lost or used twice, and each served position has a part of the strongest kind its predecessors left. */
  ghost predicate Served(wanted: seq<Attachment>, parts: seq<Part>, m: Matching)
  {
    && |m.used| == |m.usedAt|
    && multiset(m.used) + multiset(m.rest) == multiset(parts)
    && (forall k | 0 <= k < |m.used| :: ServedAt(wanted, parts, m, k))
  }

  ghost predicate ServedAt(wanted: seq<Attachment>, parts: seq<Part>, m: Matching, k: nat)
    requires k < |m.used| == |m.usedAt|
  {
    m.usedAt[k] < |wanted| && Strongest(wanted[m.usedAt[k]], Available(parts, m, k), m.used[k])
  }

  /** A position fails only if nothing its predecessors left fits it. */
  ghost predicate Unserved(wanted: seq<Attachment>, parts: seq<Part>, m: Matching)
    requires |m.used| == |m.usedAt|
  {
    forall k | 0 <= k < |m.failed| :: m.failed[k] < |wanted| && FailsRightly(wanted[m.failed[k]], parts, m, m.failed[k])
  }

  ghost predicate FailsRightly(a: Attachment, parts: seq<Part>, m: Matching, pos: nat)
    requires |m.used| == |m.usedAt|
  {
    forall n | Turn(m.usedAt, n, pos) :: NoneFits(a, Available(parts, m, n))
  }

  ghost predicate Assigned(wanted: seq<Attachment>, parts: seq<Part>, m: Matching)
  {
    Served(wanted, parts, m) && Unserved(wanted, parts, m)
  }

  /** The attachment each position asks for; arbitrary where the id is unknown. */
  function Wanted(ids: seq<AttachmentId>, known: map<AttachmentId, Attachment>): (r: seq<Attachment>)
    ensures |r| == |ids| && forall i | 0 <= i < |ids| && ids[i] in known :: r[i] == known[ids[i]]
  {
    seq(|ids|, i requires 0 <= i < |ids| => if ids[i] in known then known[ids[i]] else Attachment(ids[i], "", "", None))
  }

  function Take(m: Matching, ids: seq<AttachmentId>, i: nat, p: Part, rest: seq<Part>): Matching
    requires i < |ids| == |m.slots|
  {
    Matching(m.slots[i := Some(Payload(ids[i], p.data, Imap))], m.failed, m.usedAt + [i], m.used + [p], rest)
  }

  /** Second pass: give each cache miss one part of the refetched message, never the same part twice. */
  method MatchParts(ids: seq<AttachmentId>, known: map<AttachmentId, Attachment>, before: seq<Option<Payload>>,
                    parts: seq<Part>, misses: seq<nat>) returns (m: Matching)
    requires |before| == |ids| && Increasing(misses, |ids|)
    requires forall k | 0 <= k < |misses| :: ids[misses[k]] in known
    ensures Settled(misses, |misses|, m) && Placed(ids, before, m)
    ensures Assigned(Wanted(ids, known), parts, m)
  {
    m := Matching(before, [], [], [], parts);
    var n := 0;
    while n < |misses|
      invariant 0 <= n <= |misses| && Settled(misses, n, m) && Placed(ids, before, m)
      invariant Assigned(Wanted(ids, known), parts, m)
    {
      var i := misses[n];
      var picked, rest := PickAttachmentBytes(m.rest, known[ids[i]]);
      LaterThanAll(misses, |ids|, n, m);
      if picked.Some? {
        TakeKeeps(ids, known, before, parts, misses, n, m, picked.value, rest);
        m := Take(m, ids, i, picked.value, rest);
      } else {
        MissSettles(misses, |ids|, n, m);
        MissKeeps(Wanted(ids, known), parts, m, i);
        m := m.(failed := m.failed + [i]);
      }
      n := n + 1;
    }
  }

  lemma LaterThanAll(misses: seq<nat>, bound: nat, n: nat, m: Matching)
    requires n < |misses| && Increasing(misses, bound) && Settled(misses, n, m)
    ensures forall k | 0 <= k < |m.usedAt| :: m.usedAt[k] < misses[n]
    ensures forall k | 0 <= k < |m.failed| :: m.failed[k] < misses[n]
  {
    forall i | i in m.usedAt || i in m.failed
      ensures i < misses[n]
    {
      assert i in misses[..n];
      var k :| 0 <= k < n && misses[..n][k] == i;
      assert misses[k] == i;
    }
    assert forall k | 0 <= k < |m.usedAt| :: m.usedAt[k] in m.usedAt;
    assert forall k | 0 <= k < |m.failed| :: m.failed[k] in m.failed;
  }

  lemma TakeKeeps(ids: seq<AttachmentId>, known: map<AttachmentId, Attachment>, before: seq<Option<Payload>>, parts: seq<Part>,
                  misses: seq<nat>, n: nat, m: Matching, p: Part, rest: seq<Part>)
    requires n < |misses| && |before| == |ids| && Increasing(misses, |ids|) && ids[misses[n]] in known
    requires Settled(misses, n, m) && Placed(ids, before, m) && Assigned(Wanted(ids, known), parts, m)
    requires multiset(rest) + multiset{p} == multiset(m.rest) && Strongest(known[ids[misses[n]]], multiset(m.rest), p)
    ensures Settled(misses, n + 1, Take(m, ids, misses[n], p, rest))
    ensures Placed(ids, before, Take(m, ids, misses[n], p, rest))
    ensures Assigned(Wanted(ids, known), parts, Take(m, ids, misses[n], p, rest))
  {
    LaterThanAll(misses, |ids|, n, m);
    TakeSettles(misses, |ids|, n, m, Take(m, ids, misses[n], p, rest));
    TakePlaces(ids, before, m, misses[n], p, rest);
    TakeAssigns(Wanted(ids, known), parts, m, Take(m, ids, misses[n], p, rest), misses[n], p);
  }

  lemma TakeSettles(misses: seq<nat>, bound: nat, n: nat, m: Matching, m': Matching)
    requires n < |misses| && Increasing(misses, bound) && Settled(misses, n, m)
    requires m'.usedAt == m.usedAt + [misses[n]] && m'.failed == m.failed
    ensures Settled(misses, n + 1, m')
  {
    LaterThanAll(misses, bound, n, m);
    assert misses[..n + 1] == misses[..n] + [misses[n]];
  }

  lemma MissSettles(misses: seq<nat>, bound: nat, n: nat, m: Matching)
    requires n < |misses| && Increasing(misses, bound) && Settled(misses, n, m)
    ensures Settled(misses, n + 1, m.(failed := m.failed + [misses[n]]))
  {
    LaterThanAll(misses, bound, n, m);
    assert misses[..n + 1] == misses[..n] + [misses[n]];
  }

  lemma TakePlaces(ids: seq<AttachmentId>, before: seq<Option<Payload>>, m: Matching, i: nat, p: Part, rest: seq<Part>)
    requires |before| == |ids| && i < |ids| && Placed(ids, before, m)
    requires forall k | 0 <= k < |m.usedAt| :: m.usedAt[k] < i
    ensures Placed(ids, before, Take(m, ids, i, p, rest))
  {
  }

  lemma TakeAssigns(wanted: seq<Attachment>, parts: seq<Part>, m: Matching, m': Matching, i: nat, p: Part)
    requires Assigned(wanted, parts, m) && i < |wanted| && Strongest(wanted[i], multiset(m.rest), p)
    requires m'.usedAt == m.usedAt + [i] && m'.used == m.used + [p] && m'.failed == m.failed
    requires multiset(m'.rest) + multiset{p} == multiset(m.rest)
    requires forall k | 0 <= k < |m.failed| :: m.failed[k] < i
    ensures Assigned(wanted, parts, m')
  {
    TakeServes(wanted, parts, m, m', i, p);
    forall k | 0 <= k < |m'.failed|
      ensures m'.failed[k] < |wanted| && FailsRightly(wanted[m'.failed[k]], parts, m', m'.failed[k])
    {
      assert FailsRightly(wanted[m.failed[k]], parts, m, m.failed[k]);
      FailureStays(wanted[m.failed[k]], parts, m, m', i, p, m.failed[k]);
    }
  }

  lemma TakeServes(wanted: seq<Attachment>, parts: seq<Part>, m: Matching, m': Matching, i: nat, p: Part)
    requires Served(wanted, parts, m) && i < |wanted| && Strongest(wanted[i], multiset(m.rest), p)
    requires m'.usedAt == m.usedAt + [i] && m'.used == m.used + [p]
    requires multiset(m'.rest) + multiset{p} == multiset(m.rest)
    ensures Served(wanted, parts, m')
  {
    forall k | 0 <= k < |m'.used|
      ensures ServedAt(wanted, parts, m', k)
    {
      if k < |m.used| {
        assert ServedAt(wanted, parts, m, k);
        ServedStays(wanted, parts, m, m', k);
      } else {
        AllUsedLeaveRest(parts, m);
        SameAvailable(parts, m, m', k);
      }
    }
  }

  lemma ServedStays(wanted: seq<Attachment>, parts: seq<Part>, m: Matching, m': Matching, k: nat)
    requires k < |m.used| == |m.usedAt| && m.used <= m'.used && m.usedAt <= m'.usedAt && |m'.used| == |m'.usedAt|
    requires ServedAt(wanted, parts, m, k)
    ensures ServedAt(wanted, parts, m', k)
  {
    SameAvailable(parts, m, m', k);
  }

  lemma SameAvailable(parts: seq<Part>, m: Matching, m': Matching, n: nat)
    requires n <= |m.used| && m.used <= m'.used
    ensures Available(parts, m', n) == Available(parts, m, n)
  {
    assert m'.used[..n] == m.used[..n];
  }

  /** Positions that are served later change nothing for one that has already failed. */
  lemma FailureStays(a: Attachment, parts: seq<Part>, m: Matching, m': Matching, i: nat, p: Part, pos: nat)
    requires |m.used| == |m.usedAt| && FailsRightly(a, parts, m, pos) && pos < i
    requires m'.usedAt == m.usedAt + [i] && m'.used == m.used + [p]
    ensures FailsRightly(a, parts, m', pos)
  {
    forall n: nat | Turn(m'.usedAt, n, pos)
      ensures NoneFits(a, Available(parts, m', n))
    {
      assert n <= |m.used| && Turn(m.usedAt, n, pos);
      SameAvailable(parts, m, m', n);
    }
  }

  lemma AllUsedLeaveRest(parts: seq<Part>, m: Matching)
    requires multiset(m.used) + multiset(m.rest) == multiset(parts)
    ensures Available(parts, m, |m.used|) == multiset(m.rest)
  {
    assert m.used[..|m.used|] == m.used;
  }

  lemma MissKeeps(wanted: seq<Attachment>, parts: seq<Part>, m: Matching, i: nat)
    requires Assigned(wanted, parts, m) && i < |wanted| && NoneFits(wanted[i], multiset(m.rest))
    requires forall k | 0 <= k < |m.usedAt| :: m.usedAt[k] < i
    ensures Assigned(wanted, parts, m.(failed := m.failed + [i]))
  {
    var m' := m.(failed := m.failed + [i]);
    forall k | 0 <= k < |m'.used|
      ensures ServedAt(wanted, parts, m', k)
    {
      assert ServedAt(wanted, parts, m, k);
      ServedStays(wanted, parts, m, m', k);
    }
    forall k | 0 <= k < |m'.failed|
      ensures m'.failed[k] < |wanted| && FailsRightly(wanted[m'.failed[k]], parts, m', m'.failed[k])
    {
      if k < |m.failed| {
        assert FailsRightly(wanted[m.failed[k]], parts, m, m.failed[k]);
      } else {
        NewFailure(wanted[i], parts, m, i);
      }
      SameFailure(wanted[m'.failed[k]], parts, m, m', m'.failed[k]);
    }
  }

  lemma NewFailure(a: Attachment, parts: seq<Part>, m: Matching, i: nat)
    requires |m.used| == |m.usedAt| && multiset(m.used) + multiset(m.rest) == multiset(parts)
    requires NoneFits(a, multiset(m.rest)) && forall k | 0 <= k < |m.usedAt| :: m.usedAt[k] < i
    ensures FailsRightly(a, parts, m, i)
  {
    AllUsedLeaveRest(parts, m);
    assert forall n | Turn(m.usedAt, n, i) :: n == |m.used|;
  }

  lemma SameFailure(a: Attachment, parts: seq<Part>, m: Matching, m': Matching, pos: nat)
    requires |m.used| == |m.usedAt| && m'.used == m.used && m'.usedAt == m.usedAt
    ensures FailsRightly(a, parts, m', pos) <==> FailsRightly(a, parts, m, pos)
  {
    assert forall n | 0 <= n <= |m.used| :: Available(parts, m', n) == Available(parts, m, n);
  }

  /** The list holds the filled slots and nothing else, in order; `at` says which position each entry comes from. */
  ghost predicate Lists(slots: seq<Option<Payload>>, list: seq<Payload>, at: seq<nat>)
  {
    && |list| == |at| && Increasing(at, |slots|)
    && (forall k | 0 <= k < |at| :: slots[at[k]] == Some(list[k]))
    && (forall i | 0 <= i < |slots| && slots[i].Some? :: i in at)
  }

  /** Drop the empty slots. */
  method Flatten(slots: seq<Option<Payload>>) returns (list: seq<Payload>, at: seq<nat>)
    ensures Lists(slots, list, at)
  {
    list, at := [], [];
    for n := 0 to |slots|
      invariant |list| == |at| && Increasing(at, n)
      invariant forall k | 0 <= k < |at| :: slots[at[k]] == Some(list[k])
      invariant forall i | 0 <= i < n && slots[i].Some? :: i in at
    {
      if slots[n].Some? {
        list, at := list + [slots[n].value], at + [n];
      }
    }
  }

  /** Every requested position ends in exactly one of the two lists, and a repeated id succeeds at most once. */
  ghost predicate Partitioned(ids: seq<AttachmentId>, known: map<AttachmentId, Attachment>, slots: seq<Option<Payload>>,
                              failed: seq<Failure>, failedAt: seq<nat>)
  {
    && |slots| == |ids| && |failed| == |failedAt|
    && (forall i | 0 <= i < |ids| :: slots[i].Some? <==> i !in failedAt)
    && (forall k, l | 0 <= k < l < |failedAt| :: failedAt[k] != failedAt[l])
    && (forall k | 0 <= k < |failedAt| :: failedAt[k] < |ids| && failed[k].id == ids[failedAt[k]])
    && (forall i | 0 <= i < |ids| && slots[i].Some? :: slots[i].value.id == ids[i] && Granted(ids, known, i))
  }

  /** Cached bytes come from the cache whenever it has them; each refetched part serves at most one attachment, one that it fits. */
  ghost predicate Sourced(ids: seq<AttachmentId>, known: map<AttachmentId, Attachment>, cache: AttachmentId -> Option<Data>,
                          refetch: Result<seq<Part>, string>, m: Matching)
  {
    && |m.slots| == |ids| && |m.used| == |m.usedAt|
    && (forall i | 0 <= i < |ids| && m.slots[i].Some? ::
          if cache(ids[i]).Some? then m.slots[i].value == Payload(ids[i], cache(ids[i]).value, Cache) else i in m.usedAt)
    && (forall k | 0 <= k < |m.usedAt| ::
          m.usedAt[k] < |ids| && m.slots[m.usedAt[k]] == Some(Payload(ids[m.usedAt[k]], m.used[k].data, Imap)))
    && (forall k, l | 0 <= k < l < |m.usedAt| :: m.usedAt[k] < m.usedAt[l])
    && (if refetch.Err? then m.used == []
        else
          && Assigned(Wanted(ids, known), refetch.value, m)
          && forall i | 0 <= i < |ids| && Granted(ids, known, i) && m.slots[i].None? :: i in m.failed)
  }

  /** An unknown or repeated id is the caller's error; the other failures say what became of the refetch. */
  ghost predicate Explained(ids: seq<AttachmentId>, known: map<AttachmentId, Attachment>, refetch: Result<seq<Part>, string>,
                            failed: seq<Failure>, failedAt: seq<nat>)
  {
    forall k | 0 <= k < |failed| && k < |failedAt| && failedAt[k] < |ids| ::
      failed[k].code == if !Granted(ids, known, failedAt[k]) then "bad_args"
                        else if refetch.Ok? then "unavailable_offline" else refetch.error
  }

  method FetchForForwardBatch(ids: seq<AttachmentId>, known: map<AttachmentId, Attachment>, cache: AttachmentId -> Option<Data>,
                              refetch: Result<seq<Part>, string>)
    returns (attachments: seq<Payload>, failed: seq<Failure>, at: seq<nat>, failedAt: seq<nat>, m: Matching)
    ensures Partitioned(ids, known, m.slots, failed, failedAt)
    ensures Sourced(ids, known, cache, refetch, m)
    ensures Explained(ids, known, refetch, failed, failedAt)
    ensures Lists(m.slots, attachments, at)
    ensures |attachments| + |failed| == |ids| && forall i | 0 <= i < |ids| :: (i in at) != (i in failedAt)
    ensures forall k | 0 <= k < |attachments| :: attachments[k].id == ids[at[k]]
  {
    var slots, bad, misses, refused := ReadCached(ids, known, cache);
    if misses != [] && refetch.Ok? {
      MissesAreKnown(ids, known, cache, slots, refused, misses);
      m := MatchParts(ids, known, slots, refetch.value, misses);
      failedAt := refused + m.failed;
      failed := bad + FailuresAt(ids, m.failed, "unavailable_offline");
      RefetchPartitions(ids, known, cache, slots, refused, misses, m);
      RefetchSources(ids, known, cache, slots, refused, misses, m);
      TwoFailureLists(ids, refused, "bad_args", m.failed, "unavailable_offline");
      MissedAreGranted(ids, known, cache, slots, refused, misses);
    } else {
      var code := if refetch.Err? then refetch.error else "";
      m := Matching(slots, [], [], [], if refetch.Ok? then refetch.value else []);
      failedAt := refused + misses;
      failed := bad + FailuresAt(ids, misses, code);
      UnservedFail(ids, known, cache, slots, refused, misses);
      TwoFailureLists(ids, refused, "bad_args", misses, code);
      MissedAreGranted(ids, known, cache, slots, refused, misses);
    }
    attachments, at := Flatten(m.slots);
    ListsAddUp(ids, known, m.slots, attachments, at, failed, failedAt);
  }

  lemma TwoFailureLists(ids: seq<AttachmentId>, a: seq<nat>, codeA: string, b: seq<nat>, codeB: string)
    requires forall k | 0 <= k < |a| :: a[k] < |ids|
    requires forall k | 0 <= k < |b| :: b[k] < |ids|
    ensures var fs := FailuresAt(ids, a, codeA) + FailuresAt(ids, b, codeB);
            && |fs| == |a + b|
            && (forall k | 0 <= k < |fs| :: (a + b)[k] < |ids| && fs[k].id == ids[(a + b)[k]])
            && (forall k | 0 <= k < |fs| :: ((a + b)[k] in a && fs[k].code == codeA) || ((a + b)[k] in b && fs[k].code == codeB))
  {
  }

  lemma MissedAreGranted(ids: seq<AttachmentId>, known: map<AttachmentId, Attachment>, cache: AttachmentId -> Option<Data>,
                         slots: seq<Option<Payload>>, refused: seq<nat>, misses: seq<nat>)
    requires |slots| == |ids| && Sorted(ids, known, cache, |ids|, slots, refused, misses)
    ensures forall i | i in refused :: i < |ids| && !Granted(ids, known, i)
    ensures forall i | i in misses :: i < |ids| && Granted(ids, known, i)
  {
    forall i | i in refused || i in misses
      ensures i < |ids| && (i in refused ==> !Granted(ids, known, i)) && (i in misses ==> Granted(ids, known, i))
    {
      assert Outcome(ids, known, cache, i, slots, refused, misses);
    }
  }

  /** Refused and missed positions never coincide. */
  lemma RefusedOrMissed(ids: seq<AttachmentId>, known: map<AttachmentId, Attachment>, cache: AttachmentId -> Option<Data>,
                        slots: seq<Option<Payload>>, refused: seq<nat>, misses: seq<nat>, i: nat)
    requires |slots| == |ids| && Sorted(ids, known, cache, |ids|, slots, refused, misses)
    requires i in refused
    ensures i !in misses
  {
    assert Outcome(ids, known, cache, i, slots, refused, misses);
  }

  /** Without a refetched message, exactly the positions the cache could not serve fail. */
  lemma UnservedFail(ids: seq<AttachmentId>, known: map<AttachmentId, Attachment>, cache: AttachmentId -> Option<Data>,
                     slots: seq<Option<Payload>>, refused: seq<nat>, misses: seq<nat>)
    requires |slots| == |ids| && Sorted(ids, known, cache, |ids|, slots, refused, misses)
    ensures forall i | 0 <= i < |ids| ::
              && (slots[i].Some? <==> i !in refused + misses)
              && (slots[i].Some? ==> slots[i].value.id == ids[i] && Granted(ids, known, i))
              && (slots[i].Some? ==> cache(ids[i]).Some? && slots[i].value == Payload(ids[i], cache(ids[i]).value, Cache))
    ensures forall k, l | 0 <= k < l < |refused + misses| :: (refused + misses)[k] != (refused + misses)[l]
  {
    forall i | 0 <= i < |ids|
      ensures slots[i].Some? <==> i !in refused + misses
      ensures slots[i].Some? ==> cache(ids[i]).Some? && Granted(ids, known, i)
      ensures slots[i].Some? ==> slots[i].value == Payload(ids[i], cache(ids[i]).value, Cache)
    {
      assert Outcome(ids, known, cache, i, slots, refused, misses);
    }
    forall i | i in refused
      ensures i !in misses
    {
      RefusedOrMissed(ids, known, cache, slots, refused, misses, i);
    }
    JoinDistinct(refused, misses);
  }

  lemma JoinDistinct(a: seq<nat>, b: seq<nat>)
    requires forall k, l | 0 <= k < l < |a| :: a[k] < a[l]
    requires forall k, l | 0 <= k < l < |b| :: b[k] < b[l]
    requires forall i | i in a :: i !in b
    ensures forall k, l | 0 <= k < l < |a + b| :: (a + b)[k] != (a + b)[l]
  {
    forall k, l | 0 <= k < l < |a + b|
      ensures (a + b)[k] != (a + b)[l]
    {
      if k < |a| <= l {
        assert a[k] in a && b[l - |a|] in b;
      }
    }
  }

  lemma RefetchPartitions(ids: seq<AttachmentId>, known: map<AttachmentId, Attachment>, cache: AttachmentId -> Option<Data>,
                          slots: seq<Option<Payload>>, refused: seq<nat>, misses: seq<nat>, m: Matching)
    requires |slots| == |ids| && Sorted(ids, known, cache, |ids|, slots, refused, misses)
    requires Settled(misses, |misses|, m) && Placed(ids, slots, m)
    ensures forall i | 0 <= i < |ids| ::
              && (m.slots[i].Some? <==> i !in refused + m.failed)
              && (m.slots[i].Some? ==> m.slots[i].value.id == ids[i] && Granted(ids, known, i))
    ensures forall k, l | 0 <= k < l < |refused + m.failed| :: (refused + m.failed)[k] != (refused + m.failed)[l]
    ensures forall k | 0 <= k < |m.failed| :: m.failed[k] < |ids|
  {
    assert misses[..|misses|] == misses;
    forall i | 0 <= i < |ids|
      ensures m.slots[i].Some? <==> i !in refused + m.failed
      ensures m.slots[i].Some? ==> m.slots[i].value.id == ids[i] && Granted(ids, known, i)
    {
      PositionAfterRefetch(ids, known, cache, slots, refused, misses, m, i);
    }
    forall i | i in refused
      ensures i !in m.failed
    {
      RefusedOrMissed(ids, known, cache, slots, refused, misses, i);
    }
    JoinDistinct(refused, m.failed);
    forall k | 0 <= k < |m.failed|
      ensures m.failed[k] < |ids|
    {
      assert m.failed[k] in m.failed;
    }
  }

  /** After the refetch a position holds a payload exactly when it was neither refused nor left without a part. */
  lemma PositionAfterRefetch(ids: seq<AttachmentId>, known: map<AttachmentId, Attachment>, cache: AttachmentId -> Option<Data>,
                             slots: seq<Option<Payload>>, refused: seq<nat>, misses: seq<nat>, m: Matching, i: nat)
    requires |slots| == |ids| && i < |ids| && Sorted(ids, known, cache, |ids|, slots, refused, misses)
    requires Settled(misses, |misses|, m) && Placed(ids, slots, m)
    ensures m.slots[i].Some? <==> i !in refused && i !in m.failed
    ensures m.slots[i].Some? ==> m.slots[i].value.id == ids[i] && Granted(ids, known, i)
  {
    assert Outcome(ids, known, cache, i, slots, refused, misses);
    assert misses[..|misses|] == misses;
    if i in m.usedAt {
      var k :| 0 <= k < |m.usedAt| && m.usedAt[k] == i;
      assert i in misses;
      var l :| 0 <= l < |misses| && misses[l] == i;
      assert (misses[l] in m.usedAt) != (misses[l] in m.failed);
    } else if i in misses {
      var l :| 0 <= l < |misses| && misses[l] == i;
      assert (misses[l] in m.usedAt) != (misses[l] in m.failed);
    }
  }

  lemma RefetchSources(ids: seq<AttachmentId>, known: map<AttachmentId, Attachment>, cache: AttachmentId -> Option<Data>,
                       slots: seq<Option<Payload>>, refused: seq<nat>, misses: seq<nat>, m: Matching)
    requires |slots| == |ids| && Sorted(ids, known, cache, |ids|, slots, refused, misses)
    requires Settled(misses, |misses|, m) && Placed(ids, slots, m)
    ensures forall i | 0 <= i < |ids| && m.slots[i].Some? ::
              if cache(ids[i]).Some? then m.slots[i].value == Payload(ids[i], cache(ids[i]).value, Cache) else i in m.usedAt
  {
    assert misses[..|misses|] == misses;
    forall i | 0 <= i < |ids| && m.slots[i].Some?
      ensures if cache(ids[i]).Some? then m.slots[i].value == Payload(ids[i], cache(ids[i]).value, Cache) else i in m.usedAt
    {
      assert Outcome(ids, known, cache, i, slots, refused, misses);
    }
  }

  lemma MissesAreKnown(ids: seq<AttachmentId>, known: map<AttachmentId, Attachment>, cache: AttachmentId -> Option<Data>,
                       slots: seq<Option<Payload>>, refused: seq<nat>, misses: seq<nat>)
    requires |slots| == |ids| && Sorted(ids, known, cache, |ids|, slots, refused, misses)
    ensures forall k | 0 <= k < |misses| :: ids[misses[k]] in known
  {
    forall k | 0 <= k < |misses|
      ensures ids[misses[k]] in known
    {
      assert misses[k] in misses;
      assert Outcome(ids, known, cache, misses[k], slots, refused, misses);
    }
  }

  /** Every position is in one of the two lists, so their lengths add up to that of the request. */
  lemma ListsAddUp(ids: seq<AttachmentId>, known: map<AttachmentId, Attachment>, slots: seq<Option<Payload>>,
                   list: seq<Payload>, at: seq<nat>, failed: seq<Failure>, failedAt: seq<nat>)
    requires Partitioned(ids, known, slots, failed, failedAt) && Lists(slots, list, at)
    ensures forall i | 0 <= i < |ids| :: (i in at) != (i in failedAt)
    ensures |list| + |failed| == |ids|
    ensures forall k | 0 <= k < |list| :: list[k].id == ids[at[k]]
  {
    forall i | 0 <= i < |ids|
      ensures (i in at) != (i in failedAt)
    {
      if i in at {
        var k :| 0 <= k < |at| && at[k] == i;
        assert slots[at[k]] == Some(list[k]);
      }
    }
    forall k | 0 <= k < |list|
      ensures list[k].id == ids[at[k]]
    {
      assert slots[at[k]] == Some(list[k]);
    }
    assert forall i | i in at || i in failedAt :: i < |ids|;
    CountsAddUp(|ids|, at, failedAt);
  }

  lemma CountsAddUp(n: nat, a: seq<nat>, b: seq<nat>)
    requires forall k, l | 0 <= k < l < |a| :: a[k] != a[l]
    requires forall k, l | 0 <= k < l < |b| :: b[k] != b[l]
    requires forall i | i in a || i in b :: i < n
    requires forall i | 0 <= i < n :: (i in a) != (i in b)
    ensures |a| + |b| == n
  {
    DistinctCount(a);
    DistinctCount(b);
    assert Elements(a) + Elements(b) == Positions(n) && Elements(a) !! Elements(b);
  }

  function Elements(s: seq<nat>): set<nat> { set i | i in s }

  lemma {:induction false} DistinctCount(s: seq<nat>)
    requires forall k, l | 0 <= k < l < |s| :: s[k] != s[l]
    ensures |Elements(s)| == |s|
  {
    if s != [] {
      var rest, last := s[..|s| - 1], s[|s| - 1];
      DistinctCount(rest);
      assert last !in rest by {
        assert forall k | 0 <= k < |rest| :: rest[k] == s[k];
      }
      assert s == rest + [last];
      assert Elements(s) == Elements(rest) + {last} && last !in Elements(rest);
    }
  }

  function Positions(n: nat): (r: set<nat>)
    ensures |r| == n && forall i: nat :: i in r <==> i < n
  {
    if n == 0 then {} else Positions(n - 1) + {n - 1}
  }

  /** The success list keeps the order of the request, and holds nothing but the successes. */
  lemma SuccessesKeepOrder(slots: seq<Option<Payload>>, list: seq<Payload>, at: seq<nat>, k: nat, l: nat)
    requires Lists(slots, list, at) && k < |list| && l < |list|
    ensures at[k] < |slots| && slots[at[k]] == Some(list[k])
    ensures k < l <==> at[k] < at[l]
    ensures |list| == |set i | 0 <= i < |slots| && slots[i].Some?|
  {
    DistinctCount(at);
    assert Elements(at) == (set i | 0 <= i < |slots| && slots[i].Some?) by {
      forall i | i in at
        ensures 0 <= i < |slots| && slots[i].Some?
      {
        var x :| 0 <= x < |at| && at[x] == i;
        assert slots[at[x]] == Some(list[x]);
      }
    }
  }
}
