/** Validation of the new-reminder form: the title, every address slot and every
    date/time slot are checked in that order, and the first problem found rejects
    the submission. */
module Form {
  import opened Wrappers
  import opened Text
  import opened Store
  import History
  import opened Scheduler
  import opened Seqs
  import opened Reminders
  import opened Mail
  import TickProperties

  datatype TimeSlot = TimeSlot(date: string, time: string)

  datatype FormInput = FormInput(title: string, description: string, emails: seq<string>, slots: seq<TimeSlot>)

  /** What is wrong with one slot. */
  datatype Problem = Missing | Invalid | Incomplete | Unparseable | NotFuture

  /** The first rejected slot of a list, counted from 0 (the alert shows `index + 1`). */
  datatype Rejection = Rejection(index: nat, problem: Problem)

  datatype FormError = TitleRequired | EmailError(rejection: Rejection) | TimeError(rejection: Rejection)

  /** Checks every element in order and either collects all results or reports the
      first element that fails. */
  function CheckAll<A, B>(xs: seq<A>, check: A -> Result<B, Problem>): (res: Result<seq<B>, Rejection>)
    ensures res.Success? <==> forall i :: 0 <= i < |xs| ==> check(xs[i]).Success?
    ensures res.Success? ==>
      |res.value| == |xs| && forall i :: 0 <= i < |xs| ==> check(xs[i]) == Success(res.value[i])
    ensures res.Failure? ==>
      && res.error.index < |xs|
      && check(xs[res.error.index]) == Failure(res.error.problem)
      && forall j :: 0 <= j < res.error.index ==> check(xs[j]).Success?
    decreases |xs|
  {
    if xs == [] then Success([])
    else
      match check(xs[0])
      case Failure(p) => Failure(Rejection(0, p))
      case Success(y) =>
        match CheckAll(xs[1..], check)
        case Failure(rej) =>
          assert forall j :: 1 <= j < |xs| ==> xs[j] == xs[1..][j - 1];
          Failure(Rejection(rej.index + 1, rej.problem))
        case Success(ys) =>
          assert forall i :: 1 <= i < |xs| ==> xs[i] == xs[1..][i - 1];
          Success([y] + ys)
  }

  /** `includes` of a one-character string is membership. */
  lemma ContainsChar(s: string, c: char)
    ensures Contains(s, [c]) <==> c in s
  {
    if c in s {
      var i :| 0 <= i < |s| && s[i] == c;
      assert OccursAt(s, [c], i);
    }
    if Contains(s, [c]) {
      var i :| OccursAt(s, [c], i);
      assert s[i] == s[i..i + 1][0];
    }
  }

  /** The quick `@` and `.` test before the regular expression never rejects an
      address the expression accepts, so the form's email test is the expression. */
  lemma PrecheckRedundant(s: string)
    requires MatchesEmailPattern(s)
    ensures Contains(s, "@") && Contains(s, ".")
  {
    var at, dot :| SplitsAsEmail(s, at, dot);
    assert s[at] == '@' && s[dot] == '.';
    ContainsChar(s, '@');
    ContainsChar(s, '.');
  }

  /** The form's email test on a trimmed, non-blank address: the quick `@` and `.`
      test followed by the regular expression. */
  predicate PassesEmailTest(e: string) {
    Contains(e, "@") && Contains(e, ".") && IsEmailAddress(e)
  }

  lemma EmailTestIsPattern(e: string)
    ensures PassesEmailTest(e) <==> MatchesEmailPattern(e)
  {
    EmailTestMatchesPattern(e);
    if MatchesEmailPattern(e) {
      PrecheckRedundant(e);
    }
  }

  /** One address slot: blank is `Missing`; anything the address pattern rejects is
      `Invalid`; otherwise the trimmed address is kept. */
  function CheckEmail(raw: string): (r: Result<string, Problem>)
    ensures r.Success? <==> Trim(raw) != "" && MatchesEmailPattern(Trim(raw))
    ensures r.Success? ==> r.value == Trim(raw)
    ensures r == Failure(Missing) <==> Trim(raw) == ""
    ensures r.Failure? ==> r.error == Missing || r.error == Invalid
  {
    var e := Trim(raw);
    EmailTestIsPattern(e);
    if e == "" then Failure(Missing)
    else if !PassesEmailTest(e) then Failure(Invalid)
    else Success(e)
  }

  /** Every address slot passes. */
  predicate EmailsValid(emails: seq<string>) {
    forall i :: 0 <= i < |emails| ==> CheckEmail(emails[i]).Success?
  }

  /** `rej` names the first address slot that fails, and why. */
  predicate FirstBadEmail(emails: seq<string>, rej: Rejection) {
    && rej.index < |emails|
    && CheckEmail(emails[rej.index]) == Failure(rej.problem)
    && forall j :: 0 <= j < rej.index ==> CheckEmail(emails[j]).Success?
  }

  /** `valid` holds one trimmed, well-formed address per slot. */
  ghost predicate AddressesFor(emails: seq<string>, valid: seq<string>) {
    && |valid| == |emails|
    && forall i :: 0 <= i < |emails| ==> valid[i] == Trim(emails[i]) && MatchesEmailPattern(valid[i])
  }

  /** All address slots, checked in order. */
  function CheckEmails(emails: seq<string>): (res: Result<seq<string>, Rejection>)
    ensures res.Success? <==> EmailsValid(emails)
    ensures res.Success? ==> AddressesFor(emails, res.value)
    ensures res.Failure? ==> FirstBadEmail(emails, res.error)
  {
    CheckAll(emails, CheckEmail)
  }

  /** One date/time slot: both fields must be filled, parse to an instant, and lie
      strictly after `now`. */
  function CheckTime(slot: TimeSlot, now: int, parse: (string, string) -> Option<int>): (r: Result<int, Problem>)
    ensures r.Success? <==>
      slot.date != "" && slot.time != "" && parse(slot.date, slot.time).Some? && parse(slot.date, slot.time).value > now
    ensures r.Success? ==> parse(slot.date, slot.time) == Some(r.value) && r.value > now
    ensures r == Failure(Incomplete) <==> slot.date == "" || slot.time == ""
    ensures r == Failure(Unparseable) <==>
      slot.date != "" && slot.time != "" && parse(slot.date, slot.time).None?
    ensures r.Failure? ==> r.error in {Incomplete, Unparseable, NotFuture}
  {
    if slot.date == "" || slot.time == "" then Failure(Incomplete)
    else
      match parse(slot.date, slot.time)
      case None => Failure(Unparseable)
      case Some(t) => if t <= now then Failure(NotFuture) else Success(t)
  }

  /** Every date/time slot passes. */
  predicate TimesValid(slots: seq<TimeSlot>, now: int, parse: (string, string) -> Option<int>) {
    forall i :: 0 <= i < |slots| ==> CheckTime(slots[i], now, parse).Success?
  }

  /** `rej` names the first date/time slot that fails, and why. */
  predicate FirstBadTime(slots: seq<TimeSlot>, now: int, parse: (string, string) -> Option<int>, rej: Rejection) {
    && rej.index < |slots|
    && CheckTime(slots[rej.index], now, parse) == Failure(rej.problem)
    && forall j :: 0 <= j < rej.index ==> CheckTime(slots[j], now, parse).Success?
  }

  /** `times` holds one instant per slot: the slot's parsed value, after `now`. */
  predicate InstantsFor(slots: seq<TimeSlot>, now: int, parse: (string, string) -> Option<int>, times: seq<int>) {
    && |times| == |slots|
    && forall i :: 0 <= i < |slots| ==>
         parse(slots[i].date, slots[i].time) == Some(times[i]) && times[i] > now
  }

  /** All date/time slots, checked in order. */
  function CheckTimes(slots: seq<TimeSlot>, now: int, parse: (string, string) -> Option<int>): (res: Result<seq<int>, Rejection>)
    ensures res.Success? <==> TimesValid(slots, now, parse)
    ensures res.Success? ==> InstantsFor(slots, now, parse, res.value)
    ensures res.Failure? ==> FirstBadTime(slots, now, parse, res.error)
  {
    var check := s => CheckTime(s, now, parse);
    var res := CheckAll(slots, check);
    assert forall i :: 0 <= i < |slots| ==> check(slots[i]) == CheckTime(slots[i], now, parse);
    res
  }

  /** The description as stored: trimmed, or absent when blank. */
  function StoredDescription(raw: string): (d: Option<string>)
    ensures d.None? <==> Trim(raw) == ""
    ensures d.Some? ==> d.value == Trim(raw)
  {
    var t := Trim(raw);
    if t == "" then None else Some(t)
  }

  /** What an accepted form stores: the trimmed, non-blank title, the stored
      description, one valid address per address slot and one future instant per
      date/time slot. */
  ghost predicate DraftFits(form: FormInput, now: int, parse: (string, string) -> Option<int>, d: Draft) {
    && d.title == Trim(form.title) && d.title != ""
    && d.description == StoredDescription(form.description)
    && AddressesFor(form.emails, d.emails)
    && InstantsFor(form.slots, now, parse, d.scheduledTimes)
  }

  /** `handleSubmit`'s validation. `parse` reads the date and time fields as an
      instant in milliseconds and `now` is the clock. */
  function Validate(form: FormInput, now: int, parse: (string, string) -> Option<int>): (res: Result<Draft, FormError>)
    ensures Trim(form.title) == "" <==> res == Failure(TitleRequired)
    ensures res.Failure? && res.error.EmailError? ==> FirstBadEmail(form.emails, res.error.rejection)
    ensures res.Failure? && res.error.TimeError? ==>
      EmailsValid(form.emails) && FirstBadTime(form.slots, now, parse, res.error.rejection)
    ensures res.Success? <==>
      Trim(form.title) != "" && EmailsValid(form.emails) && TimesValid(form.slots, now, parse)
    ensures res.Success? ==> DraftFits(form, now, parse, res.value)
  {
    var title := Trim(form.title);
    if title == "" then Failure(TitleRequired)
    else
      match CheckEmails(form.emails)
      case Failure(rej) => Failure(EmailError(rej))
      case Success(valid) =>
        match CheckTimes(form.slots, now, parse)
        case Failure(rej) => Failure(TimeError(rej))
        case Success(times) => Success(Draft(title, StoredDescription(form.description), valid, times))
  }

  /** The result of pressing "save": a rejected form changes nothing; an accepted
      one yields the draft to store and the address history with its addresses
      merged in. */
  datatype Outcome = Rejected(error: FormError) | Accepted(draft: Draft, history: seq<string>)

  function Submit(form: FormInput, now: int, parse: (string, string) -> Option<int>, history: seq<string>): (o: Outcome)
    ensures o.Rejected? <==> Validate(form, now, parse).Failure?
    ensures o.Rejected? ==> o.error == Validate(form, now, parse).error
    ensures o.Accepted? ==>
      && o.draft == Validate(form, now, parse).value
      && o.history == History.AddToHistory(history, o.draft.emails)
  {
    match Validate(form, now, parse)
    case Failure(e) => Rejected(e)
    case Success(d) => Accepted(d, History.AddToHistory(history, d.emails))
  }

  /** Every time of an accepted form lies after the submission instant, so a check
      that runs at that instant (or reads an earlier clock) leaves the stored
      reminder exactly as it was saved. */
  lemma SavedReminderWaits(form: FormInput, now: int, parse: (string, string) -> Option<int>,
                           id: string, createdAt: int, at: int, ok: set<int>)
    requires Validate(form, now, parse).Success? && |form.slots| > 0 && at <= now
    ensures var r := NewReminder(Validate(form, now, parse).value, id, createdAt);
      Reconcile(r, at, ok) == Some(r)
  {
    var d := Validate(form, now, parse).value;
    assert DraftFits(form, now, parse, d);
    FittingDraftWaits(form, now, parse, d, id, createdAt, at, ok);
  }

  /** The same for any draft that fits the form: its times lie after `now`. */
  lemma FittingDraftWaits(form: FormInput, now: int, parse: (string, string) -> Option<int>, d: Draft,
                          id: string, createdAt: int, at: int, ok: set<int>)
    requires DraftFits(form, now, parse, d) && |form.slots| > 0 && at <= now
    ensures var r := NewReminder(d, id, createdAt);
      Reconcile(r, at, ok) == Some(r)
  {
    var r := NewReminder(d, id, createdAt);
    assert InstantsFor(form.slots, now, parse, d.scheduledTimes);
    assert forall t :: t in r.scheduledTimes ==> t > at by {
      forall t | t in d.scheduledTimes ensures t > at {
        var k :| 0 <= k < |d.scheduledTimes| && d.scheduledTimes[k] == t;
      }
    }
    UnsentFutureReminderUnchanged(r, at, ok);
  }

  /** Submitting keeps the address history well formed. */
  lemma SubmitKeepsHistoryWellFormed(form: FormInput, now: int, parse: (string, string) -> Option<int>, history: seq<string>)
    requires History.WellFormed(history)
    ensures var o := Submit(form, now, parse, history);
      o.Accepted? ==> History.WellFormed(o.history)
  {
    var o := Submit(form, now, parse, history);
    if o.Accepted? {
      History.AddPreservesWellFormed(history, o.draft.emails);
    }
  }

  /** Two identical date/time slots of an accepted form give the same instant twice:
      nothing removes the repeat before the reminder is saved. */
  lemma DuplicateSlotsKept(form: FormInput, now: int, parse: (string, string) -> Option<int>, j: int, k: int)
    requires Validate(form, now, parse).Success?
    requires 0 <= j < k < |form.slots| && form.slots[j] == form.slots[k]
    ensures var ts := Validate(form, now, parse).value.scheduledTimes;
      j < k < |ts| && ts[j] == ts[k] && !NoDups(ts)
  {
    var d := Validate(form, now, parse).value;
    assert DraftFits(form, now, parse, d);
    assert InstantsFor(form.slots, now, parse, d.scheduledTimes);
  }

  /** The corrected time list: each instant once, at its first slot, by the same
      `includes` check the history merge uses for addresses. */
  function DistinctTimes(times: seq<int>): (r: seq<int>)
    ensures NoDups(r)
    ensures forall t :: t in r <==> t in times
    ensures IsSubseq(r, times)
    ensures forall i, j :: 0 <= i < j < |r| ==> FirstBefore(times, r[i], r[j])
  {
    var r := AppendMissing([], times);
    assert r[0..] == r;
    AppendMissingOrder([], times);
    assert r == AppendMissing([], times);
    r
  }

  /** A repeated instant keeps its first place: slots at 1, 2, 1 give 1, 2. */
  lemma DistinctTimesKeepsFirst()
    ensures DistinctTimes([1, 2, 1]) == [1, 2]
  {
    var r := DistinctTimes([1, 2, 1]);
    assert 1 in r && 2 in r;
    assert forall t :: t in r ==> t == 1 || t == 2;
    assert |r| == 2;
    assert FirstBefore([1, 2, 1], r[0], r[1]);
    assert [1, 2, 1][1..] == [2, 1];
    assert r[0] == 1;
  }

  /** The corrected validation: as `Validate`, with repeated instants dropped. */
  function ValidateDistinct(form: FormInput, now: int, parse: (string, string) -> Option<int>)
    : (res: Result<Draft, FormError>)
    ensures res.Failure? <==> Validate(form, now, parse).Failure?
    ensures res.Failure? ==> res.error == Validate(form, now, parse).error
    ensures res.Success? ==>
      var d := Validate(form, now, parse).value;
      && res.value.title == d.title && res.value.description == d.description
      && res.value.emails == d.emails
      && NoDups(res.value.scheduledTimes)
      && (forall t :: t in res.value.scheduledTimes <==> t in d.scheduledTimes)
      && (forall t :: t in res.value.scheduledTimes ==> t > now)
  {
    match Validate(form, now, parse)
    case Failure(e) => Failure(e)
    case Success(d) =>
      assert DraftFits(form, now, parse, d);
      assert forall t :: t in d.scheduledTimes ==> t > now by {
        forall t | t in d.scheduledTimes ensures t > now {
          var k :| 0 <= k < |d.scheduledTimes| && d.scheduledTimes[k] == t;
        }
      }
      Success(d.(scheduledTimes := DistinctTimes(d.scheduledTimes)))
  }

  /** With the corrected validation, saving a reminder into a store whose schedules
      have no repeats keeps them so, and then no tick attempts a (reminder, time)
      entry twice. */
  lemma DistinctSlotsSendOnce(rs: seq<Reminder>, form: FormInput, now: int, parse: (string, string) -> Option<int>,
                              id: string, createdAt: int, at: int, settings: Settings, transport: nat -> bool)
    requires UniqueIds(rs) && id !in Ids(rs)
    requires forall i :: 0 <= i < |rs| ==> NoDups(rs[i].scheduledTimes)
    requires ValidateDistinct(form, now, parse).Success?
    ensures var store := SaveReminder(rs, ValidateDistinct(form, now, parse).value, id, createdAt);
      && UniqueIds(store)
      && (forall i :: 0 <= i < |store| ==> NoDups(store[i].scheduledTimes))
      && NoDups(TickProperties.AttemptKeys(Tick(Loaded(store), at, settings, transport).attempts))
  {
    var d := ValidateDistinct(form, now, parse).value;
    var store := SaveReminder(rs, d, id, createdAt);
    SaveKeepsIdsUnique(rs, d, id, createdAt);
    forall i | 0 <= i < |store| ensures NoDups(store[i].scheduledTimes) {
      if i < |rs| {
        assert store[i] == rs[i];
      }
    }
    TickProperties.AtMostOneAttempt(store, at, settings, transport);
  }
}

