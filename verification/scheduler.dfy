/** The reminder reconciliation pass (one scheduler tick) as a pure function of the
    loaded store, the current instant, the settings and a transport oracle.

    The pass has three phases, as in main.js:
      1. collect, reminder by reminder and time by time, every scheduled time that is
         due (`<= now`) and not yet in `sentTimes` — one delivery attempt each;
      2. make the attempts in that order; attempt number `k` succeeds when the message
         can be prepared and `transport(k)` holds;
      3. rebuild the store reminder by reminder (`Reconcile`), dropping some. */
module Scheduler {
  import opened Wrappers
  import opened Seqs
  import opened Reminders
  import opened Mail

  /** The scheduled times still in the future, in scheduled order. */
  function FutureTimes(ts: seq<int>, now: int): (r: seq<int>)
    ensures forall t :: t in r <==> t in ts && t > now
    ensures IsSubseq(r, ts)
  {
    Filter(ts, t => t > now)
  }

  /** When every scheduled time is in the future, none is pruned. */
  lemma AllFutureKept(ts: seq<int>, now: int)
    requires forall t :: t in ts ==> t > now
    ensures FutureTimes(ts, now) == ts
  {
    FilterKeepsAll(ts, t => t > now);
  }

  /** The scheduled times owed a delivery attempt: due and not recorded as sent. */
  function DueUnsent(r: Reminder, now: int): (due: seq<int>)
    ensures forall t :: t in due <==> t in r.scheduledTimes && t <= now && t !in r.sentTimes
    ensures IsSubseq(due, r.scheduledTimes)
  {
    Filter(r.scheduledTimes, t => t <= now && t !in r.sentTimes)
  }

  /** Pruning keeps each future time as often as it is scheduled, and no other time. */
  lemma FutureTimesCount(ts: seq<int>, now: int, t: int)
    ensures multiset(FutureTimes(ts, now))[t] == if t > now then multiset(ts)[t] else 0
  {
    FilterCount(ts, t => t > now, t);
  }

  /** A due, unsent time is owed as many attempts as it is scheduled: a time
      listed twice is owed two. */
  lemma DueUnsentCount(r: Reminder, now: int, t: int)
    ensures multiset(DueUnsent(r, now))[t] ==
      if t <= now && t !in r.sentTimes then multiset(r.scheduledTimes)[t] else 0
  {
    FilterCount(r.scheduledTimes, t => t <= now && t !in r.sentTimes, t);
  }

  /** An entry of the list of emails to send: a reminder and one of its due times. */
  datatype Job = Job(reminder: Reminder, time: int)

  function JobsFor(r: Reminder, now: int): (js: seq<Job>)
    ensures |js| == |DueUnsent(r, now)|
    ensures forall k :: 0 <= k < |js| ==> js[k] == Job(r, DueUnsent(r, now)[k])
  {
    var due := DueUnsent(r, now);
    seq(|due|, k requires 0 <= k < |due| => Job(r, due[k]))
  }

  /** Phase 1: the jobs of every reminder, reminder by reminder. */
  function Jobs(rs: seq<Reminder>, now: int): seq<Job>
    decreases |rs|
  {
    if rs == [] then [] else JobsFor(rs[0], now) + Jobs(rs[1..], now)
  }

  /** A delivery attempt made during a tick and whether it succeeded. */
  datatype Attempt = Attempt(id: string, time: int, delivered: bool)

  /** Phase 2: attempt number `k` is the `k`-th job; it succeeds when the message
      can be prepared from the settings and the transport reports success. */
  function MakeAttempts(jobs: seq<Job>, settings: Settings, transport: nat -> bool): (as_: seq<Attempt>)
    ensures |as_| == |jobs|
    ensures forall k :: 0 <= k < |jobs| ==>
      as_[k] == Attempt(jobs[k].reminder.id, jobs[k].time,
                        SendSucceeds(settings, jobs[k].reminder, transport(k)))
  {
    seq(|jobs|, k requires 0 <= k < |jobs| =>
      Attempt(jobs[k].reminder.id, jobs[k].time, SendSucceeds(settings, jobs[k].reminder, transport(k))))
  }

  /** The times of reminder `id` with at least one successful attempt. */
  function Delivered(attempts: seq<Attempt>, id: string): (ok: set<int>)
    ensures forall t :: t in ok <==> Attempt(id, t, true) in attempts
  {
    var ok := set k | 0 <= k < |attempts| && attempts[k].id == id && attempts[k].delivered :: attempts[k].time;
    assert forall t :: Attempt(id, t, true) in attempts ==> t in ok by {
      forall t | Attempt(id, t, true) in attempts ensures t in ok {
        var k :| 0 <= k < |attempts| && attempts[k] == Attempt(id, t, true);
      }
    }
    ok
  }

  /** The new `sentTimes`: the old list extended, in due order, by each due time
      that was delivered and is not already listed. */
  function MergeSent(sent: seq<int>, due: seq<int>, ok: set<int>): (r: seq<int>)
    ensures |sent| <= |r| && r[..|sent|] == sent
    ensures forall t :: t in r[|sent|..] <==> t in due && t in ok && t !in sent
    ensures NoDups(r[|sent|..])
    ensures IsSubseq(r[|sent|..], due)
    ensures forall i, j :: |sent| <= i < j < |r| ==> FirstBefore(due, r[i], r[j])
    ensures forall t :: t in r <==> t in sent || (t in due && t in ok)
  {
    var p := t => t in ok;
    var delivered := Filter(due, p);
    var r := AppendMissing(sent, delivered);
    assert r == r[..|sent|] + r[|sent|..];
    SubseqTrans(r[|sent|..], delivered, due);
    AppendFilteredOrder(sent, due, p);
    assert r == AppendMissing(sent, Filter(due, p));
    r
  }

  /** The fields a tick never changes. */
  predicate SameIdentity(a: Reminder, b: Reminder) {
    && a.id == b.id && a.title == b.title && a.description == b.description
    && a.emails == b.emails && a.email == b.email && a.createdAt == b.createdAt
  }

  /** Phase 3 for one reminder, given the times of it delivered this tick: its new
      state, or `None` when the tick drops it. */
  function Reconcile(r: Reminder, now: int, ok: set<int>): (res: Option<Reminder>)
    ensures res.Some? ==> SameIdentity(res.value, r)
    ensures res.Some? ==> res.value.sentTimes == MergeSent(r.sentTimes, DueUnsent(r, now), ok)
    ensures FutureTimes(r.scheduledTimes, now) != [] ==>
      res == Some(r.(scheduledTimes := FutureTimes(r.scheduledTimes, now),
                     sentTimes := MergeSent(r.sentTimes, DueUnsent(r, now), ok)))
    ensures FutureTimes(r.scheduledTimes, now) == [] && res.Some? ==>
      && res.value.scheduledTimes == r.scheduledTimes
      && res.value.deletionTime == Some(r.deletionTime.GetOr(now + GracePeriod))
  {
    var remaining := FutureTimes(r.scheduledTimes, now);
    var due := DueUnsent(r, now);
    if remaining == [] && due == [] then
      // Nothing pending and nothing in the future: only the lifecycle moves.
      if r.deletionTime.Some? then
        if r.deletionTime.value > now then Some(r) else None
      else if AllIn(r.scheduledTimes, r.sentTimes) && r.sentTimes != [] then
        Some(r.(deletionTime := Some(now + GracePeriod)))
      else None
    else
      var sent := MergeSent(r.sentTimes, due, ok);
      if remaining != [] then
        Some(r.(scheduledTimes := remaining, sentTimes := sent))
      else if AllIn(r.scheduledTimes, sent) && sent != [] then
        var deletion := r.deletionTime.GetOr(now + GracePeriod);
        if deletion > now then Some(r.(sentTimes := sent, deletionTime := Some(deletion))) else None
      else None
  }

  /** A reminder with nothing sent yet and every time in the future comes through a
      tick unchanged, whatever was delivered. */
  lemma UnsentFutureReminderUnchanged(r: Reminder, now: int, ok: set<int>)
    requires r.sentTimes == [] && r.scheduledTimes != []
    requires forall t :: t in r.scheduledTimes ==> t > now
    ensures Reconcile(r, now, ok) == Some(r)
  {
    AllFutureKept(r.scheduledTimes, now);
    assert r.scheduledTimes[0] in r.scheduledTimes;
    var due := DueUnsent(r, now);
    assert due == [] by {
      assert forall k :: 0 <= k < |due| ==> due[k] in due;
    }
  }

  /** What phase 3 makes of one reminder, given the tick's attempts. */
  function Fate(r: Reminder, now: int, attempts: seq<Attempt>): Option<Reminder> {
    Reconcile(r, now, Delivered(attempts, r.id))
  }

  /** What phase 3 makes of each reminder, position by position. */
  function Fates(rs: seq<Reminder>, now: int, attempts: seq<Attempt>): (fs: seq<Option<Reminder>>)
    ensures |fs| == |rs|
    ensures forall i :: 0 <= i < |rs| ==> fs[i] == Fate(rs[i], now, attempts)
  {
    seq(|rs|, i requires 0 <= i < |rs| => Fate(rs[i], now, attempts))
  }

  /** Keeping the present entries of a position-wise image that preserves ids keeps
      the ids in order. */
  lemma {:induction false} KeptIdsInOrder(rs: seq<Reminder>, fs: seq<Option<Reminder>>)
    requires |fs| == |rs|
    requires forall i :: 0 <= i < |rs| && fs[i].Some? ==> fs[i].value.id == rs[i].id
    ensures IsSubseq(Ids(Somes(fs)), Ids(rs))
    decreases |rs|
  {
    if rs != [] {
      KeptIdsInOrder(rs[1..], fs[1..]);
      assert Ids(rs)[1..] == Ids(rs[1..]);
      var out := Somes(fs);
      match fs[0]
      case Some(f) =>
        assert out == [f] + Somes(fs[1..]);
        assert Ids(out)[0] == Ids(rs)[0];
        assert Ids(out)[1..] == Ids(Somes(fs[1..]));
      case None =>
        assert out == Somes(fs[1..]);
        SubseqSkip(Ids(out), Ids(rs));
    }
  }

  /** Phase 3: the reminders that survive, in their original order. */
  function Survivors(rs: seq<Reminder>, now: int, attempts: seq<Attempt>): (out: seq<Reminder>)
    ensures |out| <= |rs|
    ensures IsSubseq(Ids(out), Ids(rs))
    ensures forall f :: f in out <==> exists i :: 0 <= i < |rs| && Fate(rs[i], now, attempts) == Some(f)
    ensures |out| == |rs| <==> forall i :: 0 <= i < |rs| ==> Fate(rs[i], now, attempts).Some?
  {
    var fs := Fates(rs, now, attempts);
    KeptIdsInOrder(rs, fs);
    assert forall f :: Some(f) in fs <==> exists i :: 0 <= i < |rs| && Fate(rs[i], now, attempts) == Some(f) by {
      forall f ensures Some(f) in fs ==> exists i :: 0 <= i < |rs| && Fate(rs[i], now, attempts) == Some(f) {
        if Some(f) in fs {
          var i :| 0 <= i < |fs| && fs[i] == Some(f);
        }
      }
    }
    Somes(fs)
  }

  /** The reminders file as the tick reads it. `Unreadable` covers a file that cannot
      be read or parsed and a record whose `scheduledTimes` is not a list: in each
      case main.js throws before making any attempt and writes nothing. */
  datatype Load = Unreadable | Loaded(reminders: seq<Reminder>)

  /** The store written back, the attempts made, and whether "reminders-updated"
      is sent; or `Aborted` when nothing is written. */
  datatype TickResult =
    | Aborted
    | Ticked(reminders: seq<Reminder>, attempts: seq<Attempt>, notify: bool)

  /** One pass of the scheduler. Updates are keyed by reminder id, so ids are unique. */
  function Tick(load: Load, now: int, settings: Settings, transport: nat -> bool): (res: TickResult)
    requires load.Loaded? ==> UniqueIds(load.reminders)
    ensures res.Aborted? <==> load.Unreadable?
    ensures res.Ticked? ==> |res.reminders| <= |load.reminders|
    ensures res.Ticked? ==> IsSubseq(Ids(res.reminders), Ids(load.reminders))
    ensures res.Ticked? ==> |res.attempts| == |Jobs(load.reminders, now)|
  {
    match load
    case Unreadable => Aborted
    case Loaded(rs) =>
      var attempts := MakeAttempts(Jobs(rs, now), settings, transport);
      var out := Survivors(rs, now, attempts);
      Ticked(out, attempts, |attempts| > 0 || |rs| != |out|)
  }
}
