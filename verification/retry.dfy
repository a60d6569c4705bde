/** A corrected reconciliation that does what the comment in main.js promises for a
    failed send ("will retry on next scheduler cycle"): a due time whose send did not
    succeed stays scheduled, so the next tick attempts it again. It differs from
    `Scheduler.Reconcile` only there. */
module Retry {
  import opened Wrappers
  import opened Seqs
  import opened Reminders
  import opened Scheduler
  import TickProperties

  /** The times still owed: those in the future and those due but not sent. */
  function Owed(r: Reminder, now: int, ok: set<int>): (owed: seq<int>)
    ensures forall t :: t in owed <==>
      t in r.scheduledTimes && (t > now || t !in MergeSent(r.sentTimes, DueUnsent(r, now), ok))
    ensures IsSubseq(owed, r.scheduledTimes)
  {
    var sent := MergeSent(r.sentTimes, DueUnsent(r, now), ok);
    Filter(r.scheduledTimes, t => t > now || t !in sent)
  }

  function ReconcileRetrying(r: Reminder, now: int, ok: set<int>): (res: Option<Reminder>)
    ensures Owed(r, now, ok) != [] ==>
      res == Some(r.(scheduledTimes := Owed(r, now, ok),
                     sentTimes := MergeSent(r.sentTimes, DueUnsent(r, now), ok)))
  {
    var owed := Owed(r, now, ok);
    if owed == [] then Reconcile(r, now, ok)
    else Some(r.(scheduledTimes := owed, sentTimes := MergeSent(r.sentTimes, DueUnsent(r, now), ok)))
  }

  /** When every due send succeeds, the corrected pass and the pass of main.js agree. */
  lemma AgreesWhenAllDelivered(r: Reminder, now: int, ok: set<int>)
    requires forall t :: t in DueUnsent(r, now) ==> t in ok
    ensures ReconcileRetrying(r, now, ok) == Reconcile(r, now, ok)
  {
    var sent := MergeSent(r.sentTimes, DueUnsent(r, now), ok);
    assert forall t :: t in r.scheduledTimes ==> ((t > now || t !in sent) == (t > now));
    FilterExt(r.scheduledTimes, t => t > now || t !in sent, t => t > now);
  }

  /** A failed due send stays scheduled and unsent, hence due again at any later tick. */
  lemma FailedSendStaysOwed(r: Reminder, now: int, ok: set<int>, t: int, later: int)
    requires t in DueUnsent(r, now) && t !in ok && now <= later
    ensures ReconcileRetrying(r, now, ok).Some?
    ensures var f := ReconcileRetrying(r, now, ok).value;
      t in f.scheduledTimes && t !in f.sentTimes && t in DueUnsent(f, later)
      && f.deletionTime == r.deletionTime
  {
    assert t in Owed(r, now, ok);
  }

  /** The retry completes the obligation: a send that fails on one tick and succeeds on
      a later one ends up recorded in `sentTimes`, and the reminder is kept. */
  lemma RetriedSendIsRecorded(r: Reminder, now: int, ok: set<int>, t: int, later: int, ok2: set<int>)
    requires r.deletionTime.None?
    requires t in DueUnsent(r, now) && t !in ok && now <= later && t in ok2
    ensures ReconcileRetrying(r, now, ok).Some?
    ensures var f := ReconcileRetrying(r, now, ok).value;
      ReconcileRetrying(f, later, ok2).Some? && t in ReconcileRetrying(f, later, ok2).value.sentTimes
  {
    FailedSendStaysOwed(r, now, ok, t, later);
    var f := ReconcileRetrying(r, now, ok).value;
    var sent2 := MergeSent(f.sentTimes, DueUnsent(f, later), ok2);
    assert t in sent2;
    if Owed(f, later, ok2) == [] {
      assert FutureTimes(f.scheduledTimes, later) == [] by {
        var fu := FutureTimes(f.scheduledTimes, later);
        assert forall u :: u in f.scheduledTimes ==> u <= later;
        assert forall k :: 0 <= k < |fu| ==> fu[k] in fu;
      }
      forall u | u in DueUnsent(f, later) ensures u in ok2 {
        assert u !in Owed(f, later, ok2);
      }
      TickProperties.NoFutureTimesFate(f, later, ok2);
    }
  }
}
