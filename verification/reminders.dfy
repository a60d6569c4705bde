/** The persisted reminder record and the derived values both processes read from it. */
module Reminders {
  import opened Wrappers

  /** The grace period between a reminder becoming fully sent and its purge: 24 h in ms. */
  const GracePeriod: int := 24 * 60 * 60 * 1000

  /** One stored reminder. Instants are milliseconds since the epoch; each instant
      has one canonical stored form, so comparing stored times is comparing instants.
      `email` is the legacy single-recipient field and `emails` the current list; an
      absent `sentTimes` list is stored as `[]`, which every branch of main.js
      treats the same way. */
  datatype Reminder = Reminder(
    id: string,
    title: string,
    description: Option<string>,
    emails: seq<string>,
    email: Option<string>,
    scheduledTimes: seq<int>,
    sentTimes: seq<int>,
    deletionTime: Option<int>,
    createdAt: int)

  /** JavaScript truthiness of an optional string: present and non-empty. */
  predicate Truthy(o: Option<string>) {
    o.Some? && o.value != ""
  }

  /** The recipient list, accepting both the current list form and the legacy
      single-address form; both processes use this rule. */
  function Recipients(r: Reminder): (rs: seq<string>)
    ensures r.emails != [] ==> rs == r.emails
    ensures r.emails == [] && Truthy(r.email) ==> rs == [r.email.value]
    ensures rs == [] <==> r.emails == [] && !Truthy(r.email)
    ensures forall x :: x in rs ==> x in r.emails || Some(x) == r.email
  {
    if |r.emails| > 0 then r.emails
    else if Truthy(r.email) then [r.email.value]
    else []
  }

  /** The mail body: the description when it is set and non-empty, else the title. */
  function Body(r: Reminder): (b: string)
    ensures Truthy(r.description) ==> b == r.description.value
    ensures !Truthy(r.description) ==> b == r.title
  {
    if Truthy(r.description) then r.description.value else r.title
  }

  function Ids(rs: seq<Reminder>): (ids: seq<string>)
    ensures |ids| == |rs|
    ensures forall i :: 0 <= i < |rs| ==> ids[i] == rs[i].id
  {
    seq(|rs|, i requires 0 <= i < |rs| => rs[i].id)
  }

  /** No two stored reminders share an id. */
  predicate UniqueIds(rs: seq<Reminder>) {
    forall i, j :: 0 <= i < j < |rs| ==> rs[i].id != rs[j].id
  }
}
