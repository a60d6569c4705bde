/** What one scheduler tick guarantees, stated about the whole store. */
module TickProperties {
  import opened Wrappers
  import opened Seqs
  import opened Reminders
  import opened Mail
  import opened Scheduler

  // ----- one reminder -----

  /** A reminder with no future time left: without pending sends it survives while
      its grace period lasts, or, before one is set, when something was sent; with
      pending sends it survives exactly when every one of them was delivered and
      its grace period, if any, has not elapsed. So one failed final send drops it. */
  lemma NoFutureTimesFate(r: Reminder, now: int, ok: set<int>)
    requires FutureTimes(r.scheduledTimes, now) == []
    ensures DueUnsent(r, now) == [] ==>
      (Reconcile(r, now, ok).Some? <==>
        if r.deletionTime.Some? then r.deletionTime.value > now else r.sentTimes != [])
    ensures DueUnsent(r, now) != [] ==>
      (Reconcile(r, now, ok).Some? <==>
        (forall t :: t in DueUnsent(r, now) ==> t in ok)
        && (r.deletionTime.None? || r.deletionTime.value > now))
  {
    var due := DueUnsent(r, now);
    var sent := MergeSent(r.sentTimes, due, ok);
    assert forall t :: t in r.scheduledTimes ==> t <= now;
    if due == [] {
      assert AllIn(r.scheduledTimes, r.sentTimes);
    } else {
      assert AllIn(r.scheduledTimes, sent) <==> forall t :: t in due ==> t in ok;
      if forall t :: t in due ==> t in ok {
        assert due[0] in sent;
      }
    }
  }

  /** A due time whose every attempt failed is neither kept as scheduled nor recorded
      as sent: if the reminder survives, no later tick will see the time at all. */
  lemma FailedSendIsDropped(r: Reminder, now: int, ok: set<int>, t: int)
    requires t in DueUnsent(r, now) && t !in ok
    ensures Reconcile(r, now, ok).Some? ==>
      t !in Reconcile(r, now, ok).value.scheduledTimes && t !in Reconcile(r, now, ok).value.sentTimes
    ensures FutureTimes(r.scheduledTimes, now) == [] ==> Reconcile(r, now, ok).None?
  {
    if FutureTimes(r.scheduledTimes, now) == [] {
      NoFutureTimesFate(r, now, ok);
    }
  }

  /** A surviving reminder's scheduled times are a subsequence of its old ones. */
  lemma ScheduledTimesShrink(r: Reminder, now: int, ok: set<int>)
    requires Reconcile(r, now, ok).Some?
    ensures IsSubseq(Reconcile(r, now, ok).value.scheduledTimes, r.scheduledTimes)
  {
    if FutureTimes(r.scheduledTimes, now) == [] {
      SubseqRefl(r.scheduledTimes);
    }
  }

  // ----- phase 1: which attempts are made, in which order -----

  lemma {:induction false} JobsConcat(a: seq<Reminder>, b: seq<Reminder>, now: int)
    ensures Jobs(a + b, now) == Jobs(a, now) + Jobs(b, now)
    decreases |a|
  {
    if a == [] {
      assert a + b == b;
    } else {
      assert (a + b)[0] == a[0];
      assert (a + b)[1..] == a[1..] + b;
      JobsConcat(a[1..], b, now);
    }
  }

  /** Attempts go reminder by reminder: those of reminder `i` form one block, after
      every attempt of an earlier reminder and before every attempt of a later one,
      and inside the block they follow `DueUnsent`, the scheduled order. */
  lemma JobsInReminderOrder(rs: seq<Reminder>, now: int, i: int)
    requires 0 <= i < |rs|
    ensures Jobs(rs, now) == Jobs(rs[..i], now) + JobsFor(rs[i], now) + Jobs(rs[i + 1..], now)
  {
    assert rs == rs[..i] + rs[i..];
    JobsConcat(rs[..i], rs[i..], now);
    assert rs[i..][0] == rs[i] && rs[i..][1..] == rs[i + 1..];
  }

  lemma {:induction false} JobsAreDueUnsent(rs: seq<Reminder>, now: int)
    ensures forall j :: j in Jobs(rs, now) ==>
      exists i :: 0 <= i < |rs| && j.reminder == rs[i] && j.time in DueUnsent(rs[i], now)
    ensures forall i, t :: 0 <= i < |rs| && t in DueUnsent(rs[i], now) ==> Job(rs[i], t) in Jobs(rs, now)
    decreases |rs|
  {
    if rs != [] {
      JobsAreDueUnsent(rs[1..], now);
      var here := JobsFor(rs[0], now);
      var rest := Jobs(rs[1..], now);
      forall j | j in Jobs(rs, now)
        ensures exists i :: 0 <= i < |rs| && j.reminder == rs[i] && j.time in DueUnsent(rs[i], now)
      {
        if j in here {
          var k :| 0 <= k < |here| && here[k] == j;
          assert j.time == DueUnsent(rs[0], now)[k];
        } else {
          var i :| 0 <= i < |rs[1..]| && j.reminder == rs[1..][i] && j.time in DueUnsent(rs[1..][i], now);
          assert rs[1..][i] == rs[i + 1];
        }
      }
      forall i, t | 0 <= i < |rs| && t in DueUnsent(rs[i], now)
        ensures Job(rs[i], t) in Jobs(rs, now)
      {
        if i == 0 {
          var k :| 0 <= k < |DueUnsent(rs[0], now)| && DueUnsent(rs[0], now)[k] == t;
          assert here[k] == Job(rs[0], t);
        } else {
          assert rs[1..][i - 1] == rs[i];
        }
      }
    }
  }

  /** The attempts of a tick are exactly the (reminder, time) entries that are due and
      not yet recorded as sent: every attempt is one, and each one is attempted. */
  lemma AttemptsAreDueUnsent(rs: seq<Reminder>, now: int, settings: Settings, transport: nat -> bool)
    requires UniqueIds(rs)
    ensures var attempts := Tick(Loaded(rs), now, settings, transport).attempts;
      && (forall a :: a in attempts ==>
            exists i :: 0 <= i < |rs| && rs[i].id == a.id && a.time in DueUnsent(rs[i], now))
      && (forall i, t :: 0 <= i < |rs| && t in DueUnsent(rs[i], now) ==>
            exists d :: Attempt(rs[i].id, t, d) in attempts)
  {
    var jobs := Jobs(rs, now);
    var attempts := MakeAttempts(jobs, settings, transport);
    assert Tick(Loaded(rs), now, settings, transport).attempts == attempts;
    JobsAreDueUnsent(rs, now);
    forall a | a in attempts
      ensures exists i :: 0 <= i < |rs| && rs[i].id == a.id && a.time in DueUnsent(rs[i], now)
    {
      var k :| 0 <= k < |attempts| && attempts[k] == a;
      var j := jobs[k];
      assert j in jobs;
      assert a.id == j.reminder.id && a.time == j.time;
    }
    forall i, t | 0 <= i < |rs| && t in DueUnsent(rs[i], now)
      ensures exists d :: Attempt(rs[i].id, t, d) in attempts
    {
      var k :| 0 <= k < |jobs| && jobs[k] == Job(rs[i], t);
      assert attempts[k] == Attempt(rs[i].id, t, SendSucceeds(settings, rs[i], transport(k)));
    }
  }

  /** No attempt is made for a time already recorded as sent. */
  lemma NoDoubleSend(rs: seq<Reminder>, now: int, settings: Settings, transport: nat -> bool)
    requires UniqueIds(rs)
    ensures forall a, i ::
      (a in Tick(Loaded(rs), now, settings, transport).attempts && 0 <= i < |rs| && rs[i].id == a.id)
      ==> a.time !in rs[i].sentTimes && a.time <= now
  {
    AttemptsAreDueUnsent(rs, now, settings, transport);
  }

  /** The (reminder id, time) entry each attempt is for. */
  function AttemptKeys(attempts: seq<Attempt>): (ks: seq<(string, int)>)
    ensures |ks| == |attempts|
    ensures forall k :: 0 <= k < |attempts| ==> ks[k] == (attempts[k].id, attempts[k].time)
  {
    seq(|attempts|, k requires 0 <= k < |attempts| => (attempts[k].id, attempts[k].time))
  }

  /** The (reminder id, time) entry of each job. */
  function JobKeys(js: seq<Job>): (ks: seq<(string, int)>)
    ensures |ks| == |js|
    ensures forall k :: 0 <= k < |js| ==> ks[k] == (js[k].reminder.id, js[k].time)
  {
    seq(|js|, k requires 0 <= k < |js| => (js[k].reminder.id, js[k].time))
  }

  /** The jobs for an entry: those of the first reminder, then those of the rest. */
  lemma JobKeysSplit(rs: seq<Reminder>, now: int, id: string, t: int)
    requires rs != []
    ensures multiset(JobKeys(Jobs(rs, now)))[(id, t)] ==
      (if rs[0].id == id then multiset(DueUnsent(rs[0], now))[t] else 0)
      + multiset(JobKeys(Jobs(rs[1..], now)))[(id, t)]
  {
    var here := JobsFor(rs[0], now);
    var rest := Jobs(rs[1..], now);
    assert Jobs(rs, now) == here + rest;
    JobKeysConcat(here, rest);
    CountConcat(JobKeys(here), JobKeys(rest), (id, t));
    JobKeysFor(rs[0], now);
    TagCount(rs[0].id, DueUnsent(rs[0], now), id, t);
  }

  lemma JobKeysConcat(a: seq<Job>, b: seq<Job>)
    ensures JobKeys(a + b) == JobKeys(a) + JobKeys(b)
  {
  }

  lemma JobKeysFor(r: Reminder, now: int)
    ensures JobKeys(JobsFor(r, now)) == Tag(r.id, DueUnsent(r, now))
  {
  }

  /** An id no reminder has gets no job. */
  lemma {:induction false} JobKeysAbsent(rs: seq<Reminder>, now: int, id: string, t: int)
    requires forall i :: 0 <= i < |rs| ==> rs[i].id != id
    ensures multiset(JobKeys(Jobs(rs, now)))[(id, t)] == 0
    decreases |rs|
  {
    if rs != [] {
      JobKeysSplit(rs, now, id, t);
      assert rs[0].id != id;
      assert forall k :: 0 <= k < |rs[1..]| ==> rs[1..][k].id != id by {
        forall k | 0 <= k < |rs[1..]| ensures rs[1..][k].id != id {
          assert rs[1..][k] == rs[k + 1];
        }
      }
      JobKeysAbsent(rs[1..], now, id, t);
    }
  }

  /** With unique ids, the jobs for reminder `i` and time `t` are as many as the
      times `t` among its due-unsent times. */
  lemma {:induction false} JobKeysCount(rs: seq<Reminder>, now: int, i: int, t: int)
    requires UniqueIds(rs) && 0 <= i < |rs|
    ensures multiset(JobKeys(Jobs(rs, now)))[(rs[i].id, t)] == multiset(DueUnsent(rs[i], now))[t]
    decreases i
  {
    var id := rs[i].id;
    JobKeysSplit(rs, now, id, t);
    if i == 0 {
      assert forall k :: 0 <= k < |rs[1..]| ==> rs[1..][k].id != id by {
        forall k | 0 <= k < |rs[1..]| ensures rs[1..][k].id != id {
          assert rs[1..][k] == rs[k + 1];
        }
      }
      JobKeysAbsent(rs[1..], now, id, t);
    } else {
      assert UniqueIds(rs[1..]) by {
        forall a, b | 0 <= a < b < |rs[1..]| ensures rs[1..][a].id != rs[1..][b].id {
          assert rs[1..][a] == rs[a + 1] && rs[1..][b] == rs[b + 1];
        }
      }
      assert rs[1..][i - 1] == rs[i];
      JobKeysCount(rs[1..], now, i - 1, t);
    }
  }

  /** Each (reminder, time) entry is attempted once per occurrence of the time among
      the reminder's scheduled times, when it is due and unsent, and otherwise never:
      a time scheduled twice is sent twice in the same tick. */
  lemma AttemptsPerEntry(rs: seq<Reminder>, now: int, settings: Settings, transport: nat -> bool, i: int, t: int)
    requires UniqueIds(rs) && 0 <= i < |rs|
    ensures var attempts := Tick(Loaded(rs), now, settings, transport).attempts;
      multiset(AttemptKeys(attempts))[(rs[i].id, t)] ==
        if t <= now && t !in rs[i].sentTimes then multiset(rs[i].scheduledTimes)[t] else 0
  {
    var jobs := Jobs(rs, now);
    var attempts := MakeAttempts(jobs, settings, transport);
    assert Tick(Loaded(rs), now, settings, transport).attempts == attempts;
    assert AttemptKeys(attempts) == JobKeys(jobs);
    JobKeysCount(rs, now, i, t);
    DueUnsentCount(rs[i], now, t);
  }

  /** When no reminder lists a time twice, no (reminder, time) entry is attempted
      twice in one tick. */
  lemma AtMostOneAttempt(rs: seq<Reminder>, now: int, settings: Settings, transport: nat -> bool)
    requires UniqueIds(rs)
    requires forall i :: 0 <= i < |rs| ==> NoDups(rs[i].scheduledTimes)
    ensures NoDups(AttemptKeys(Tick(Loaded(rs), now, settings, transport).attempts))
  {
    var attempts := Tick(Loaded(rs), now, settings, transport).attempts;
    var ks := AttemptKeys(attempts);
    AttemptsAreDueUnsent(rs, now, settings, transport);
    forall x | x in ks ensures multiset(ks)[x] <= 1 {
      var k :| 0 <= k < |ks| && ks[k] == x;
      assert attempts[k] in attempts;
      var i :| 0 <= i < |rs| && rs[i].id == attempts[k].id && attempts[k].time in DueUnsent(rs[i], now);
      AttemptsPerEntry(rs, now, settings, transport, i, x.1);
      NoDupsAtMostOnce(rs[i].scheduledTimes, x.1);
    }
    NoDupsIffCounts(ks);
  }

    /** A tick keeps ids unique and introduces no repeated time into any schedule,
      so a store whose schedules have no repeats keeps that property on every tick. */
  lemma SchedulesStayDistinct(rs: seq<Reminder>, now: int, settings: Settings, transport: nat -> bool)
    requires UniqueIds(rs)
    requires forall i :: 0 <= i < |rs| ==> NoDups(rs[i].scheduledTimes)
    ensures var out := Tick(Loaded(rs), now, settings, transport).reminders;
      && UniqueIds(out)
      && forall i :: 0 <= i < |out| ==> NoDups(out[i].scheduledTimes)
  {
    var res := Tick(Loaded(rs), now, settings, transport);
    var out := res.reminders;
    assert out == Survivors(rs, now, res.attempts);
    assert UniqueIds(out) by {
      assert NoDups(Ids(rs)) by {
        forall a, b | 0 <= a < b < |rs| ensures Ids(rs)[a] != Ids(rs)[b] {
          assert Ids(rs)[a] == rs[a].id && Ids(rs)[b] == rs[b].id;
        }
      }
      SubseqNoDups(Ids(out), Ids(rs));
      forall a, b | 0 <= a < b < |out| ensures out[a].id != out[b].id {
        assert Ids(out)[a] == out[a].id && Ids(out)[b] == out[b].id;
      }
    }
    forall k | 0 <= k < |out| ensures NoDups(out[k].scheduledTimes) {
      assert out[k] in out;
      var i :| 0 <= i < |rs| && Fate(rs[i], now, res.attempts) == Some(out[k]);
      ScheduledTimesShrink(rs[i], now, Delivered(res.attempts, rs[i].id));
      SubseqNoDups(out[k].scheduledTimes, rs[i].scheduledTimes);
    }
  }

  // ----- phase 3: how the store is rebuilt -----

  /** Phase 3 keeps reminder `i` at most once, as its own reconciliation. */
  lemma SurvivorById(rs: seq<Reminder>, now: int, attempts: seq<Attempt>, i: int)
    requires UniqueIds(rs) && 0 <= i < |rs|
    ensures var out := Survivors(rs, now, attempts);
      && (forall f :: f in out && f.id == rs[i].id ==> Fate(rs[i], now, attempts) == Some(f))
      && (Fate(rs[i], now, attempts).Some? ==> Fate(rs[i], now, attempts).value in out)
  {
    var out := Survivors(rs, now, attempts);
    forall f | f in out && f.id == rs[i].id
      ensures Fate(rs[i], now, attempts) == Some(f)
    {
      var j :| 0 <= j < |rs| && Fate(rs[j], now, attempts) == Some(f);
      assert rs[j].id == f.id;
      assert i == j by {
        if i < j {} else if j < i {}
      }
    }
  }

  /** A reminder id is in the new store exactly when phase 3 keeps that reminder,
      and then it appears as phase 3 made it. */
  lemma KeptAsReconciled(rs: seq<Reminder>, now: int, settings: Settings, transport: nat -> bool, i: int)
    requires UniqueIds(rs) && 0 <= i < |rs|
    ensures var res := Tick(Loaded(rs), now, settings, transport);
      && (forall f :: f in res.reminders && f.id == rs[i].id ==> Fate(rs[i], now, res.attempts) == Some(f))
      && (Fate(rs[i], now, res.attempts).Some? ==> Fate(rs[i], now, res.attempts).value in res.reminders)
  {
    var res := Tick(Loaded(rs), now, settings, transport);
    assert res.reminders == Survivors(rs, now, res.attempts);
    SurvivorById(rs, now, res.attempts, i);
  }

  /** No reminder is created: each one written back is an input reminder with the same
      id, title, description, recipients and creation time (and ids keep their order,
      as `Tick` states). */
  lemma OutputComesFromInput(rs: seq<Reminder>, now: int, settings: Settings, transport: nat -> bool)
    requires UniqueIds(rs)
    ensures forall f :: f in Tick(Loaded(rs), now, settings, transport).reminders ==>
      exists i :: 0 <= i < |rs| && SameIdentity(f, rs[i])
  {
    var res := Tick(Loaded(rs), now, settings, transport);
    forall f | f in res.reminders ensures exists i :: 0 <= i < |rs| && SameIdentity(f, rs[i]) {
      var i :| 0 <= i < |rs| && Fate(rs[i], now, res.attempts) == Some(f);
    }
  }

  /** `sentTimes` is append-only: the old list is a prefix of the new one, and the
      appended entries are, without repetition, exactly the due-unsent times with a
      successful attempt in this tick. */
  lemma SentTimesAppendOnly(rs: seq<Reminder>, now: int, settings: Settings, transport: nat -> bool)
    requires UniqueIds(rs)
    ensures var res := Tick(Loaded(rs), now, settings, transport);
      forall i, f :: 0 <= i < |rs| && f in res.reminders && f.id == rs[i].id ==>
        && |rs[i].sentTimes| <= |f.sentTimes|
        && f.sentTimes[..|rs[i].sentTimes|] == rs[i].sentTimes
        && NoDups(f.sentTimes[|rs[i].sentTimes|..])
        && forall t :: t in f.sentTimes[|rs[i].sentTimes|..] <==>
             t in DueUnsent(rs[i], now) && Attempt(f.id, t, true) in res.attempts
  {
    var res := Tick(Loaded(rs), now, settings, transport);
    forall i, f | 0 <= i < |rs| && f in res.reminders && f.id == rs[i].id
      ensures && |rs[i].sentTimes| <= |f.sentTimes|
              && f.sentTimes[..|rs[i].sentTimes|] == rs[i].sentTimes
              && NoDups(f.sentTimes[|rs[i].sentTimes|..])
              && forall t :: t in f.sentTimes[|rs[i].sentTimes|..] <==>
                   t in DueUnsent(rs[i], now) && Attempt(f.id, t, true) in res.attempts
    {
      KeptAsReconciled(rs, now, settings, transport, i);
    }
  }

  /** Some attempt is made exactly when some reminder has a due-unsent time. */
  lemma SomeAttemptIff(rs: seq<Reminder>, now: int, settings: Settings, transport: nat -> bool)
    requires UniqueIds(rs)
    ensures Tick(Loaded(rs), now, settings, transport).attempts != [] <==>
      exists i, t :: 0 <= i < |rs| && t in DueUnsent(rs[i], now)
  {
    var res := Tick(Loaded(rs), now, settings, transport);
    AttemptsAreDueUnsent(rs, now, settings, transport);
    if res.attempts != [] {
      assert res.attempts[0] in res.attempts;
    }
  }

  lemma SurvivorsShrinkOnlyByDropping(rs: seq<Reminder>, now: int, attempts: seq<Attempt>)
    requires UniqueIds(rs)
    requires |Survivors(rs, now, attempts)| != |rs|
    ensures exists i :: 0 <= i < |rs| && forall f :: f in Survivors(rs, now, attempts) ==> f.id != rs[i].id
  {
    var out := Survivors(rs, now, attempts);
    var i :| 0 <= i < |rs| && Fate(rs[i], now, attempts).None?;
    forall f | f in out ensures f.id != rs[i].id {
      var j :| 0 <= j < |rs| && Fate(rs[j], now, attempts) == Some(f);
      assert i != j;
      assert f.id == rs[j].id;
      assert rs[i].id != rs[j].id by {
        if i < j {} else {}
      }
    }
  }

  lemma SurvivorsKeepEveryId(rs: seq<Reminder>, now: int, attempts: seq<Attempt>)
    requires |Survivors(rs, now, attempts)| == |rs|
    ensures forall i :: 0 <= i < |rs| ==> exists f :: f in Survivors(rs, now, attempts) && f.id == rs[i].id
  {
    var out := Survivors(rs, now, attempts);
    forall i | 0 <= i < |rs| ensures exists f :: f in out && f.id == rs[i].id {
      var f := Fate(rs[i], now, attempts).value;
      assert f in out && f.id == rs[i].id;
    }
  }

  lemma SurvivorsShrinkIff(rs: seq<Reminder>, now: int, attempts: seq<Attempt>)
    requires UniqueIds(rs)
    ensures var out := Survivors(rs, now, attempts);
      |out| != |rs| <==> exists i :: 0 <= i < |rs| && forall f :: f in out ==> f.id != rs[i].id
  {
    if |Survivors(rs, now, attempts)| != |rs| {
      SurvivorsShrinkOnlyByDropping(rs, now, attempts);
    } else {
      SurvivorsKeepEveryId(rs, now, attempts);
    }
  }

  /** The store shrinks exactly when some reminder's id is missing from it afterwards. */
  lemma SomeDroppedIff(rs: seq<Reminder>, now: int, settings: Settings, transport: nat -> bool)
    requires UniqueIds(rs)
    ensures var res := Tick(Loaded(rs), now, settings, transport);
      |res.reminders| != |rs| <==>
        exists i :: 0 <= i < |rs| && forall f :: f in res.reminders ==> f.id != rs[i].id
  {
    var attempts := MakeAttempts(Jobs(rs, now), settings, transport);
    assert Tick(Loaded(rs), now, settings, transport).reminders == Survivors(rs, now, attempts);
    SurvivorsShrinkIff(rs, now, attempts);
  }

  /** "reminders-updated" is sent exactly when some attempt was made or some reminder
      was dropped; entering a grace period alone sends nothing. */
  lemma NotifyIff(rs: seq<Reminder>, now: int, settings: Settings, transport: nat -> bool)
    requires UniqueIds(rs)
    ensures var res := Tick(Loaded(rs), now, settings, transport);
      res.notify <==>
        || (exists i, t :: 0 <= i < |rs| && t in DueUnsent(rs[i], now))
        || (exists i :: 0 <= i < |rs| && forall f :: f in res.reminders ==> f.id != rs[i].id)
  {
    SomeAttemptIff(rs, now, settings, transport);
    SomeDroppedIff(rs, now, settings, transport);
  }

  /** A reminder with a time still in the future always survives, with exactly its
      future times, in order, left scheduled and its deletion time unchanged. */
  lemma FutureTimesKeepReminder(rs: seq<Reminder>, now: int, settings: Settings, transport: nat -> bool, i: int)
    requires UniqueIds(rs) && 0 <= i < |rs|
    requires exists t :: t in rs[i].scheduledTimes && t > now
    ensures exists f ::
      && f in Tick(Loaded(rs), now, settings, transport).reminders
      && f.id == rs[i].id
      && f.scheduledTimes == FutureTimes(rs[i].scheduledTimes, now)
      && f.deletionTime == rs[i].deletionTime
  {
    var res := Tick(Loaded(rs), now, settings, transport);
    var t :| t in rs[i].scheduledTimes && t > now;
    assert t in FutureTimes(rs[i].scheduledTimes, now);
    KeptAsReconciled(rs, now, settings, transport, i);
  }

  /** Once set, a deletion time is never overwritten. */
  lemma DeletionTimeNeverOverwritten(rs: seq<Reminder>, now: int, settings: Settings, transport: nat -> bool)
    requires UniqueIds(rs)
    ensures forall i, f ::
      (0 <= i < |rs| && f in Tick(Loaded(rs), now, settings, transport).reminders
       && f.id == rs[i].id && rs[i].deletionTime.Some?)
      ==> f.deletionTime == rs[i].deletionTime
  {
    var res := Tick(Loaded(rs), now, settings, transport);
    forall i, f | 0 <= i < |rs| && f in res.reminders && f.id == rs[i].id && rs[i].deletionTime.Some?
      ensures f.deletionTime == rs[i].deletionTime
    {
      KeptAsReconciled(rs, now, settings, transport, i);
    }
  }

  /** A reminder in its grace period with no pending work stays exactly while the
      deletion time lies in the future. */
  lemma GracePeriodPurge(rs: seq<Reminder>, now: int, settings: Settings, transport: nat -> bool, i: int)
    requires UniqueIds(rs) && 0 <= i < |rs|
    requires rs[i].deletionTime.Some?
    requires FutureTimes(rs[i].scheduledTimes, now) == [] && DueUnsent(rs[i], now) == []
    ensures (exists f :: f in Tick(Loaded(rs), now, settings, transport).reminders && f.id == rs[i].id)
      <==> rs[i].deletionTime.value > now
  {
    var res := Tick(Loaded(rs), now, settings, transport);
    KeptAsReconciled(rs, now, settings, transport, i);
    NoFutureTimesFate(rs[i], now, Delivered(res.attempts, rs[i].id));
  }

  /** A reminder with no future time and pending sends survives exactly when every
      pending send succeeded (and any grace period has not elapsed); a first-time
      survivor enters a 24-hour grace period starting now. */
  lemma FullySentEntersGracePeriod(rs: seq<Reminder>, now: int, settings: Settings, transport: nat -> bool, i: int)
    requires UniqueIds(rs) && 0 <= i < |rs|
    requires FutureTimes(rs[i].scheduledTimes, now) == [] && DueUnsent(rs[i], now) != []
    ensures var res := Tick(Loaded(rs), now, settings, transport);
      && ((exists f :: f in res.reminders && f.id == rs[i].id) <==>
            (forall t :: t in DueUnsent(rs[i], now) ==> Attempt(rs[i].id, t, true) in res.attempts)
            && (rs[i].deletionTime.None? || rs[i].deletionTime.value > now))
      && (forall f :: f in res.reminders && f.id == rs[i].id && rs[i].deletionTime.None? ==>
            f.deletionTime == Some(now + GracePeriod))
  {
    var res := Tick(Loaded(rs), now, settings, transport);
    KeptAsReconciled(rs, now, settings, transport, i);
    NoFutureTimesFate(rs[i], now, Delivered(res.attempts, rs[i].id));
  }

  // ----- the lost obligation -----

  /** Nothing about time `t` remains in the store for reminder `id`: it is neither
      scheduled nor recorded as sent. */
  ghost predicate Forgotten(rs: seq<Reminder>, id: string, t: int) {
    forall r :: r in rs && r.id == id ==> t !in r.scheduledTimes && t !in r.sentTimes
  }

  /** A due send that fails is forgotten: contrary to the "will retry on next
      scheduler cycle" intent, the time leaves `scheduledTimes` without entering
      `sentTimes` (or the whole reminder is dropped). */
  lemma FailedSendIsForgotten(rs: seq<Reminder>, now: int, settings: Settings, transport: nat -> bool, i: int, t: int)
    requires UniqueIds(rs) && 0 <= i < |rs|
    requires t in DueUnsent(rs[i], now)
    requires Attempt(rs[i].id, t, true) !in Tick(Loaded(rs), now, settings, transport).attempts
    ensures Forgotten(Tick(Loaded(rs), now, settings, transport).reminders, rs[i].id, t)
  {
    var res := Tick(Loaded(rs), now, settings, transport);
    forall f | f in res.reminders && f.id == rs[i].id
      ensures t !in f.scheduledTimes && t !in f.sentTimes
    {
      KeptAsReconciled(rs, now, settings, transport, i);
      FailedSendIsDropped(rs[i], now, Delivered(res.attempts, rs[i].id), t);
    }
  }

  /** A forgotten time stays forgotten on every later tick and is never attempted
      again, whatever the clock, the settings and the transport do. */
  lemma ForgottenStaysForgotten(rs: seq<Reminder>, now: int, settings: Settings, transport: nat -> bool, id: string, t: int)
    requires UniqueIds(rs)
    requires Forgotten(rs, id, t)
    ensures var res := Tick(Loaded(rs), now, settings, transport);
      && (forall a :: a in res.attempts ==> a.id != id || a.time != t)
      && Forgotten(res.reminders, id, t)
  {
    var res := Tick(Loaded(rs), now, settings, transport);
    AttemptsAreDueUnsent(rs, now, settings, transport);
    forall a | a in res.attempts ensures a.id != id || a.time != t {
      var i :| 0 <= i < |rs| && rs[i].id == a.id && a.time in DueUnsent(rs[i], now);
      assert rs[i] in rs;
    }
    forall f | f in res.reminders && f.id == id
      ensures t !in f.scheduledTimes && t !in f.sentTimes
    {
      var i :| 0 <= i < |rs| && Fate(rs[i], now, res.attempts) == Some(f);
      assert rs[i] in rs;
      ScheduledTimesShrink(rs[i], now, Delivered(res.attempts, rs[i].id));
      SubseqElements(f.scheduledTimes, rs[i].scheduledTimes);
    }
  }

  /** The smallest store that shows it: a reminder due once, at 1000, checked at 2000
      with a transport that fails. The one attempt fails and the reminder is dropped,
      so its recipients never get the mail and the user is not told beyond the error
      event. */
  lemma LostSendScenario()
    ensures var r := Reminder("1", "Pay rent", None, ["a@b.co"], None, [1000], [], None, 0);
      var settings := Settings(Some(SmtpConfig("me@b.co", "pw", "smtp.b.co", 587, false)));
      var res := Tick(Loaded([r]), 2000, settings, k => false);
      res.attempts == [Attempt("1", 1000, false)] && res.reminders == [] && res.notify
  {
    var r := Reminder("1", "Pay rent", None, ["a@b.co"], None, [1000], [], None, 0);
    var settings := Settings(Some(SmtpConfig("me@b.co", "pw", "smtp.b.co", 587, false)));
    var transport: nat -> bool := k => false;
    var rs := [r];
    var res := Tick(Loaded(rs), 2000, settings, transport);
    var due := DueUnsent(r, 2000);
    assert due == [1000] by {
      assert 1000 in due;
      assert forall k :: 0 <= k < |due| ==> due[k] in due;
      assert |due| <= 1;
    }
    assert Jobs(rs, 2000) == [Job(r, 1000)] by {
      assert Jobs(rs, 2000) == JobsFor(r, 2000) + Jobs([], 2000);
    }
    assert res.attempts == [Attempt("1", 1000, false)];
    var fu := FutureTimes(r.scheduledTimes, 2000);
    assert fu == [];
    var ok := Delivered(res.attempts, "1");
    assert 1000 !in ok;
    FailedSendIsDropped(r, 2000, ok, 1000);
    assert res.reminders == [];
  }

  /** The reminder a form with two identical date/time slots saves. */
  const TwiceScheduled := Reminder("1", "Pay rent", None, ["a@b.co"], None, [1000, 1000], [], None, 0)
  const WorkingSettings := Settings(Some(SmtpConfig("me@b.co", "pw", "smtp.b.co", 587, false)))

  lemma TwiceScheduledDue()
    ensures DueUnsent(TwiceScheduled, 2000) == [1000, 1000]
    ensures FutureTimes(TwiceScheduled.scheduledTimes, 2000) == []
  {
    assert [1000, 1000][1..] == [1000];
    assert [1000][1..] == [];
  }

  lemma TwiceScheduledJobs()
    ensures Jobs([TwiceScheduled], 2000) == [Job(TwiceScheduled, 1000), Job(TwiceScheduled, 1000)]
  {
    var r := TwiceScheduled;
    TwiceScheduledDue();
    assert [r][1..] == [];
    assert Jobs([r], 2000) == JobsFor(r, 2000) + Jobs([], 2000);
    assert |JobsFor(r, 2000)| == 2;
  }

  lemma TwiceScheduledSends()
    ensures SendSucceeds(WorkingSettings, TwiceScheduled, true)
  {
    assert Configured(WorkingSettings);
    assert Recipients(TwiceScheduled) == ["a@b.co"];
  }

  lemma TwiceScheduledAttempts()
    ensures Tick(Loaded([TwiceScheduled]), 2000, WorkingSettings, k => true).attempts
      == [Attempt("1", 1000, true), Attempt("1", 1000, true)]
  {
    var transport: nat -> bool := k => true;
    TwiceScheduledJobs();
    TwiceScheduledSends();
    var attempts := MakeAttempts(Jobs([TwiceScheduled], 2000), WorkingSettings, transport);
    assert |attempts| == 2;
    assert attempts[0] == Attempt("1", 1000, true) && attempts[1] == Attempt("1", 1000, true);
    PairElements(attempts, Attempt("1", 1000, true), Attempt("1", 1000, true));
    TickAttempts([TwiceScheduled], 2000, WorkingSettings, transport);
  }

  lemma PairElements<T>(s: seq<T>, x: T, y: T)
    requires |s| == 2 && s[0] == x && s[1] == y
    ensures s == [x, y]
  {
  }

  /** The attempts of a tick over a readable store are its jobs' attempts. */
  lemma TickAttempts(rs: seq<Reminder>, now: int, settings: Settings, transport: nat -> bool)
    requires UniqueIds(rs)
    ensures Tick(Loaded(rs), now, settings, transport).attempts
      == MakeAttempts(Jobs(rs, now), settings, transport)
  {
  }

  lemma TwiceScheduledKept(ok: set<int>)
    requires 1000 in ok
    ensures Reconcile(TwiceScheduled, 2000, ok)
      == Some(TwiceScheduled.(sentTimes := [1000], deletionTime := Some(2000 + GracePeriod)))
  {
    TwiceScheduledDue();
    var sent := MergeSent([], [1000, 1000], ok);
    assert sent == [1000] by {
      assert 1000 in sent;
      assert forall k :: 0 <= k < |sent| ==> sent[k] in sent;
      assert NoDups(sent);
    }
  }

  lemma TwiceScheduledSurvives(attempts: seq<Attempt>)
    requires attempts == [Attempt("1", 1000, true), Attempt("1", 1000, true)]
    ensures Survivors([TwiceScheduled], 2000, attempts)
      == [TwiceScheduled.(sentTimes := [1000], deletionTime := Some(2000 + GracePeriod))]
  {
    var ok := Delivered(attempts, "1");
    assert 1000 in ok by {
      assert attempts[0] == Attempt("1", 1000, true);
    }
    TwiceScheduledKept(ok);
    var f := TwiceScheduled.(sentTimes := [1000], deletionTime := Some(2000 + GracePeriod));
    assert Fates([TwiceScheduled], 2000, attempts) == [Some(f)];
  }

  /** A form with two identical date/time slots stores the same time twice. Checked
      after that time with a working transport, the tick sends the email twice, then
      records the time once and starts the grace period. */
  lemma DuplicateSlotScenario()
    ensures var r := TwiceScheduled;
      var res := Tick(Loaded([r]), 2000, WorkingSettings, k => true);
      && res.attempts == [Attempt("1", 1000, true), Attempt("1", 1000, true)]
      && res.reminders == [r.(sentTimes := [1000], deletionTime := Some(2000 + GracePeriod))]
  {
    var transport: nat -> bool := k => true;
    var res := Tick(Loaded([TwiceScheduled]), 2000, WorkingSettings, transport);
    TwiceScheduledAttempts();
    assert res.reminders == Survivors([TwiceScheduled], 2000, res.attempts);
    TwiceScheduledSurvives(res.attempts);
  }
}
