/** The protocol of module Discipline, read as statements about pairs of requests in one log. */
module Lifecycle {
  import opened Wrappers
  import opened Job
  import opened Session
  import opened Discipline

  /** An OPEN the server accepted on RPB `id`, somewhere strictly between i and j. */
  ghost predicate OpenedBetween(log: seq<Entry>, i: int, j: int, id: nat) {
    exists m :: i < m < j && 0 <= m < |log| && AcceptedOpen(log[m], id)
  }

  predicate AcceptedOpen(e: Entry, id: nat) {
    e.req.rpb == id && e.req.op.OpenDescribeFetch? && e.seen.Some? && !Failed(e.seen.value)
  }

  /** A reply to an OPEN or FETCH on RPB `id`. */
  predicate Block(e: Entry, id: nat) {
    e.req.rpb == id && (e.req.op.OpenDescribeFetch? || e.req.op.Fetch?) && e.seen.Some? && !Failed(e.seen.value)
  }

  predicate IsClose(e: Entry, id: nat) {
    e.req.rpb == id && e.req.op.CloseCursor?
  }

  predicate IsFetch(e: Entry, id: nat) {
    e.req.rpb == id && e.req.op.Fetch?
  }

  predicate MayClose(p: Phase) {
    p.Live? && p.cursor.Open?
  }

  predicate MayFetch(p: Phase) {
    p.Live? && p.cursor.Open? && p.cursor.more
  }

  lemma PhaseStep(log: seq<Entry>, i: nat, id: nat)
    requires i < |log| && Disciplined(log)
    ensures PhaseOf(log[..i + 1], id) ==
            if log[i].req.rpb == id then Advance(PhaseOf(log[..i], id), log[i]) else PhaseOf(log[..i], id)
    ensures Allowed(PhaseOf(log[..i], log[i].req.rpb), log[i].req)
  {
    assert log[..i + 1] == log[..i] + [log[i]];
    PhaseAppend(log[..i], log[i], id);
  }

  /** Without an accepted OPEN, a cursor that is closed stays closed. */
  lemma {:induction false} ClosedStays(log: seq<Entry>, i: nat, j: nat, id: nat)
    requires Disciplined(log) && i <= j <= |log|
    requires !MayClose(PhaseOf(log[..i], id))
    requires forall m :: i <= m < j ==> !AcceptedOpen(log[m], id)
    ensures !MayClose(PhaseOf(log[..j], id))
  {
    if i < j {
      ClosedStays(log, i, j - 1, id);
      PhaseStep(log, j - 1, id);
    }
  }

  /** Without an accepted OPEN, a cursor whose rows have ended stays ended. */
  lemma {:induction false} EndedStays(log: seq<Entry>, i: nat, j: nat, id: nat)
    requires Disciplined(log) && i <= j <= |log|
    requires !MayFetch(PhaseOf(log[..i], id))
    requires forall m :: i <= m < j ==> !AcceptedOpen(log[m], id)
    ensures !MayFetch(PhaseOf(log[..j], id))
  {
    if i < j {
      EndedStays(log, i, j - 1, id);
      PhaseStep(log, j - 1, id);
    }
  }

  /**
   * CLOSE is sent at most once for a cursor, and never for one the server
   * closed itself; nor is a closed cursor fetched from.
   */
  lemma CloseAtMostOnce(log: seq<Entry>, i: nat, j: nat, id: nat)
    requires Disciplined(log) && i < j < |log|
    requires IsClose(log[i], id) || (Block(log[i], id) && CursorClosedByServer(log[i].seen.value))
    requires IsClose(log[j], id) || IsFetch(log[j], id)
    ensures OpenedBetween(log, i, j, id)
  {
    PhaseStep(log, i, id);
    PhaseStep(log, j, id);
    if !OpenedBetween(log, i, j, id) {
      assert forall m :: i < m < j ==> !AcceptedOpen(log[m], id);
      ClosedStays(log, i + 1, j, id);
    }
  }

  /** Once the server has signalled the end of data, or stopped handing out rows, the cursor is fetched from no more. */
  lemma NoFetchPastTheEnd(log: seq<Entry>, i: nat, j: nat, id: nat)
    requires Disciplined(log) && i < j < |log|
    requires Block(log[i], id) && (EndOfData(log[i].seen.value) || StalledFetch(log[i], id))
    requires IsFetch(log[j], id)
    ensures OpenedBetween(log, i, j, id)
  {
    PhaseStep(log, i, id);
    PhaseStep(log, j, id);
    if !OpenedBetween(log, i, j, id) {
      assert forall m :: i < m < j ==> !AcceptedOpen(log[m], id);
      EndedStays(log, i + 1, j, id);
    }
  }

  /** The cursor of RPB `id` goes away between i and j: the client closes it or the server says it has. */
  ghost predicate ClosedBetween(log: seq<Entry>, i: int, j: int, id: nat) {
    exists m :: i < m < j && 0 <= m < |log|
      && (IsClose(log[m], id) || (Block(log[m], id) && CursorClosedByServer(log[m].seen.value)))
  }

  lemma {:induction false} OpenStays(log: seq<Entry>, i: nat, j: nat, id: nat)
    requires Disciplined(log) && i <= j <= |log|
    requires MayClose(PhaseOf(log[..i], id))
    requires forall m :: i <= m < j ==>
      && !IsClose(log[m], id)
      && !(Block(log[m], id) && CursorClosedByServer(log[m].seen.value))
    ensures MayClose(PhaseOf(log[..j], id))
  {
    if i < j {
      OpenStays(log, i, j - 1, id);
      PhaseStep(log, j - 1, id);
    }
  }

  /**
   * At most one open cursor for each RPB: running the statement again, or
   * deleting it, comes after the cursor is closed.
   */
  lemma ClosedBeforeReuse(log: seq<Entry>, i: nat, j: nat, id: nat)
    requires Disciplined(log) && i < j < |log|
    requires AcceptedOpen(log[i], id) && !CursorClosedByServer(log[i].seen.value)
    requires log[j].req.rpb == id
    requires (log[j].req.op.Execute? || log[j].req.op.OpenDescribeFetch? || log[j].req.op.DeleteRPB?)
    ensures ClosedBetween(log, i, j, id)
  {
    PhaseStep(log, i, id);
    PhaseStep(log, j, id);
    if !ClosedBetween(log, i, j, id) {
      assert forall m :: i < m < j ==>
        !IsClose(log[m], id) && !(Block(log[m], id) && CursorClosedByServer(log[m].seen.value));
      OpenStays(log, i + 1, j, id);
    }
  }

  predicate HasData(e: Entry, id: nat) {
    e.req.rpb == id && ((e.req.op.Execute? && e.req.op.hasData) || (e.req.op.OpenDescribeFetch? && e.req.op.hasData))
  }

  predicate Describes(e: Entry, id: nat) {
    e.req.rpb == id && e.req.op.ChangeDescriptor? && e.req.pm == id
  }

  predicate Undescribes(e: Entry, id: nat) {
    e.req.rpb == id && (e.req.op.DeleteDescriptor? || e.req.op.DeleteRPB?)
  }

  /** The descriptor of RPB `id` was sent before j and is still there. */
  ghost predicate DescribedBefore(log: seq<Entry>, j: nat, id: nat)
    requires j <= |log|
  {
    exists i :: 0 <= i < j && Describes(log[i], id) && forall m :: i < m < j ==> !Undescribes(log[m], id)
  }

  predicate IsDescribed(p: Phase) {
    p.Live? && p.described
  }

  lemma DescribedStep(log: seq<Entry>, i: nat, id: nat)
    requires i < |log| && Disciplined(log)
    requires IsDescribed(PhaseOf(log[..i + 1], id)) && !Describes(log[i], id)
    ensures IsDescribed(PhaseOf(log[..i], id)) && !Undescribes(log[i], id)
  {
    PhaseStep(log, i, id);
  }

  /** The described phase has its descriptor request. */
  lemma {:induction false} DescribedHasDescriptor(log: seq<Entry>, j: nat, id: nat)
    requires Disciplined(log) && j <= |log| && IsDescribed(PhaseOf(log[..j], id))
    ensures DescribedBefore(log, j, id)
  {
    hide Disciplined, PhaseOf, Describes, Undescribes;
    if j == 0 {
      NothingDescribed(log, id);
    } else if !Describes(log[j - 1], id) {
      DescribedStep(log, j - 1, id);
      DescribedHasDescriptor(log, j - 1, id);
      var i :| 0 <= i < j - 1 && Describes(log[i], id) && forall m :: i < m < j - 1 ==> !Undescribes(log[m], id);
      assert forall m :: i < m < j ==> !Undescribes(log[m], id);
    }
  }

  lemma NothingDescribed(log: seq<Entry>, id: nat)
    ensures !IsDescribed(PhaseOf(log[..0], id))
  {
  }

  /** Parameter data only travels once the server has been told its layout. */
  lemma DataAfterDescriptor(log: seq<Entry>, j: nat, id: nat)
    requires Disciplined(log) && j < |log| && HasData(log[j], id)
    ensures DescribedBefore(log, j, id) && log[j].req.pm == id
  {
    PhaseStep(log, j, id);
    DescribedHasDescriptor(log, j, id);
  }
}
