/** The bounded window of UIDs one IMAP fetch asks for. */
module ImapWindow {
  import opened Prelude

  /** Most UIDs one fetch may cover. */
  const FETCH_WINDOW: nat := 500

  /** One message on the server; `parses` says whether the MIME parser accepts `raw`. */
  datatype Mail = Mail(uid: nat, raw: string, parses: bool)

  /** A folder as `SELECT` and `UID FETCH` show it at one moment. */
  datatype Mailbox = Mailbox(validity: Option<nat>, uidNext: Option<nat>, mails: seq<Mail>)

  datatype Range = Range(lo: nat, hi: nat)

  /** `range` is the UID range the fetch asked for, when it asked at all. */
  datatype FolderSync = FolderSync(
    validity: Option<nat>, uidNext: Option<nat>, messages: seq<Mail>, windowHi: nat, hasMore: bool, range: Option<Range>)

  /** UIDs are positive 32-bit numbers, all below UIDNEXT when it is advertised. */
  ghost predicate WellFormed(box: Mailbox)
  {
    && (box.uidNext.Some? ==> 1 <= box.uidNext.value <= U32_MAX)
    && (forall i | 0 <= i < |box.mails| ::
          && 1 <= box.mails[i].uid <= U32_MAX
          && (box.uidNext.Some? ==> box.mails[i].uid < box.uidNext.value))
    && DistinctUids(box.mails)
  }

  ghost predicate DistinctUids(mails: seq<Mail>)
  {
    forall i, j | 0 <= i < j < |mails| :: mails[i].uid != mails[j].uid
  }

  /** The messages the server returns for a UID range. */
  function Within(mails: seq<Mail>, range: Range): (r: seq<Mail>)
    ensures forall m :: m in r <==> m in mails && range.lo <= m.uid <= range.hi
  {
    if mails == [] then []
    else
      var rest := Within(mails[1..], range);
      assert forall m :: m in mails <==> m == mails[0] || m in mails[1..];
      if range.lo <= mails[0].uid <= range.hi then [mails[0]] + rest else rest
  }

  function SaturatingAdd32(a: nat, b: nat): nat { Min(a + b, U32_MAX) }

  function SaturatingSub(a: nat, b: nat): nat { Max(a - b, 0) }

  function FetchUidRange(box: Mailbox, fromUid: nat): FolderSync
  {
    var from := Max(fromUid, 1);
    var serverHi := if box.uidNext.Some? then Some(SaturatingSub(box.uidNext.value, 1)) else None;
    if box.mails == [] || (serverHi.Some? && from > serverHi.value) then
      var windowHi := if serverHi.Some? then serverHi.value else SaturatingSub(from, 1);
      FolderSync(box.validity, box.uidNext, [], windowHi, false, None)
    else
      var windowTop := SaturatingAdd32(from, FETCH_WINDOW - 1);
      var hasMore := serverHi.Some? && windowTop < serverHi.value;
      var windowHi := if serverHi.Some? && !hasMore then serverHi.value else windowTop;
      var range := Range(from, windowHi);
      FolderSync(box.validity, box.uidNext, Within(box.mails, range), windowHi, hasMore, Some(range))
  }

  /** A fetch covers at most one window, starts where asked (UIDs begin at 1), and says there is more exactly when UIDNEXT lies above it. */
  lemma WindowShape(box: Mailbox, from: nat)
    requires from <= U32_MAX && (box.uidNext.Some? ==> box.uidNext.value <= U32_MAX)
    ensures var sync, lo := FetchUidRange(box, from), if from == 0 then 1 else from;
            && (sync.range.Some? ==>
                  && sync.range.value.lo == lo && sync.range.value.hi == sync.windowHi
                  && lo <= sync.windowHi < lo + FETCH_WINDOW)
            && (sync.hasMore <==>
                  && box.mails != [] && box.uidNext.Some?
                  && lo + FETCH_WINDOW < box.uidNext.value)
            && (sync.hasMore ==> sync.range.Some? && sync.windowHi == lo + FETCH_WINDOW - 1)
  {
  }

  /**
   * With `next` the first UID the server can still assign, a fetch reports a mark below it exactly when the server
   * advertises UIDNEXT, or the folder is empty and the fetch did not already start above `next`, or the whole window
   * lies below `next` anyway.
   */
  lemma WindowStaysBelowNext(box: Mailbox, from: nat, next: nat)
    requires 1 <= from <= U32_MAX && 1 <= next <= U32_MAX
    requires box.uidNext.Some? ==> box.uidNext.value == next
    ensures FetchUidRange(box, from).windowHi < next
            <==> box.uidNext.Some? || (box.mails == [] && from <= next) || from + FETCH_WINDOW <= next
  {
  }
}
