/** The pure helpers of the reminder list and the new-reminder form in the window. */
module Renderer {
  import opened Wrappers
  import opened Seqs
  import opened Text

  // ----- reminder card -----

  /** The earliest scheduled time still in the future, if any (the card's "Next:"). */
  function NextScheduledTime(ts: seq<int>, now: int): (next: Option<int>)
    ensures next.None? <==> forall t :: t in ts ==> t <= now
    ensures next.Some? ==> next.value in ts && next.value > now
    ensures next.Some? ==> forall t :: t in ts && t > now ==> next.value <= t
    decreases |ts|
  {
    if ts == [] then None
    else
      var rest := NextScheduledTime(ts[1..], now);
      assert ts == [ts[0]] + ts[1..];
      assert forall t :: t in ts <==> t == ts[0] || t in ts[1..];
      if ts[0] <= now then
        assert rest.None? ==> forall t :: t in ts ==> t <= now;
        rest
      else if rest.Some? && rest.value < ts[0] then
        assert rest.value in ts;
        rest
      else
        assert ts[0] in ts;
        Some(ts[0])
  }

  /** The hours, minutes and seconds the success card shows until deletion. */
  datatype Countdown = Countdown(hours: int, minutes: int, seconds: int)

  const MsPerHour: int := 1000 * 60 * 60
  const MsPerMinute: int := 1000 * 60
  const MsPerSecond: int := 1000

  /** The countdown for `diff` milliseconds left; the card computes it only while the
      deletion time lies ahead. The fields are the whole hours, then the whole
      minutes and seconds of the rest, so the shown time is `diff` rounded down to
      the second. */
  function CountdownOf(diff: int): (c: Countdown)
    requires diff > 0
    ensures 0 <= c.hours && 0 <= c.minutes < 60 && 0 <= c.seconds < 60
    ensures var shown := MsPerHour * c.hours + MsPerMinute * c.minutes + MsPerSecond * c.seconds;
      shown <= diff < shown + MsPerSecond
  {
    var hours := diff / MsPerHour;
    var minutes := (diff % MsPerHour) / MsPerMinute;
    var seconds := (diff % MsPerMinute) / MsPerSecond;
    var inHour := diff % MsPerHour;
    assert diff == MsPerHour * hours + inHour;
    assert inHour == MsPerMinute * minutes + inHour % MsPerMinute;
    assert diff % MsPerMinute == inHour % MsPerMinute by {
      assert diff == MsPerMinute * (60 * hours) + inHour;
    }
    var inMinute := diff % MsPerMinute;
    assert inMinute == MsPerSecond * seconds + inMinute % MsPerSecond;
    Countdown(hours, minutes, seconds)
  }

  // ----- form slots -----

  /** `addTimeSlot` / `addEmailSlot`: one more, empty, slot at the end. */
  function AddSlot<T>(slots: seq<T>, empty: T): (r: seq<T>)
    ensures |r| == |slots| + 1 && r[..|slots|] == slots && r[|slots|] == empty
  {
    slots + [empty]
  }

  /** `removeTimeSlot` / `removeEmailSlot`: the last remaining slot is never removed;
      otherwise the slot at index `i`, if there is one, goes and the rest keep their
      order. */
  function RemoveSlot<T>(slots: seq<T>, i: int): (r: seq<T>)
    ensures |slots| <= 1 || i < 0 || i >= |slots| ==> r == slots
    ensures 1 < |slots| && 0 <= i < |slots| ==>
      && |r| == |slots| - 1
      && (forall j :: 0 <= j < i ==> r[j] == slots[j])
      && (forall j :: i <= j < |r| ==> r[j] == slots[j + 1])
    ensures |slots| >= 1 ==> |r| >= 1
  {
    if |slots| > 1 && 0 <= i < |slots| then slots[..i] + slots[i + 1..] else slots
  }

  datatype SlotEdit<T> = Add(empty: T) | Remove(index: int)

  function ApplyEdits<T>(slots: seq<T>, edits: seq<SlotEdit<T>>): seq<T>
    decreases |edits|
  {
    if edits == [] then slots
    else
      var next := match edits[0]
        case Add(e) => AddSlot(slots, e)
        case Remove(i) => RemoveSlot(slots, i);
      ApplyEdits(next, edits[1..])
  }

  /** The form starts with one slot of each kind, and no sequence of adds and removes
      ever leaves a list empty. */
  lemma {:induction false} SlotsNeverEmpty<T>(slots: seq<T>, edits: seq<SlotEdit<T>>)
    requires |slots| >= 1
    ensures |ApplyEdits(slots, edits)| >= 1
    decreases |edits|
  {
    if edits != [] {
      var next := match edits[0]
        case Add(e) => AddSlot(slots, e)
        case Remove(i) => RemoveSlot(slots, i);
      SlotsNeverEmpty(next, edits[1..]);
    }
  }

  // ----- address suggestions -----

  const MaxSuggestions: nat := 5

  /** A history entry is offered for the typed value when it contains the value and
      is not the value itself, both compared lower-cased. */
  predicate Suggests(entry: string, typed: string) {
    Contains(Lower(entry), Lower(typed)) && Lower(entry) != Lower(typed)
  }

  lemma TakeOfSubseq<T>(a: seq<T>, b: seq<T>, n: nat)
    requires IsSubseq(a, b)
    ensures IsSubseq(Take(a, n), b)
    ensures forall x :: x in Take(a, n) ==> x in a
  {
    PrefixSubseq(a, |Take(a, n)|);
    SubseqTrans(Take(a, n), a, b);
  }

  /** The suggestions for a slot whose text is now `typed`: the first five offered
      history entries, or none while the text is blank. */
  function Suggestions(history: seq<string>, typed: string): (r: seq<string>)
    ensures |r| <= MaxSuggestions
    ensures IsSubseq(r, history)
    ensures forall e :: e in r ==> e in history && Suggests(e, typed)
    ensures Trim(typed) == "" ==> r == []
    ensures Trim(typed) != "" ==>
      var offered := Filter(history, e => Suggests(e, typed));
      |r| <= |offered| && r == offered[..|r|] && (|r| < MaxSuggestions ==> r == offered)
  {
    if Trim(typed) != "" && |history| > 0 then
      var offered := Filter(history, e => Suggests(e, typed));
      var r := Take(offered, MaxSuggestions);
      TakeOfSubseq(offered, history, MaxSuggestions);
      r
    else
      SubseqEmpty(history);
      []
  }
}
