/** The list logic of the handlers that change the reminders file outside a tick. */
module Store {
  import opened Wrappers
  import opened Seqs
  import opened Reminders

  /** What the form submits for a new reminder. */
  datatype Draft = Draft(title: string, description: Option<string>, emails: seq<string>, scheduledTimes: seq<int>)

  /** The stored form of a new reminder: the draft's fields, the given id and
      creation instant, nothing sent, no deletion time, no legacy address. */
  function NewReminder(d: Draft, id: string, createdAt: int): (r: Reminder)
    ensures r.id == id && r.createdAt == createdAt
    ensures r.title == d.title && r.description == d.description
    ensures r.emails == d.emails && r.scheduledTimes == d.scheduledTimes
    ensures r.sentTimes == [] && r.deletionTime.None? && r.email.None?
  {
    Reminder(id, d.title, d.description, d.emails, None, d.scheduledTimes, [], None, createdAt)
  }

  /** The `save-reminder` handler: the new reminder goes last, the others unchanged. */
  function SaveReminder(rs: seq<Reminder>, d: Draft, id: string, createdAt: int): (out: seq<Reminder>)
    ensures |out| == |rs| + 1 && out[..|rs|] == rs
    ensures out[|rs|] == NewReminder(d, id, createdAt)
  {
    rs + [NewReminder(d, id, createdAt)]
  }

  /** The `delete-reminder` handler: every reminder with the id goes, the rest stay in order. */
  function DeleteReminder(rs: seq<Reminder>, id: string): (out: seq<Reminder>)
    ensures forall r :: r in out <==> r in rs && r.id != id
    ensures IsSubseq(out, rs)
  {
    Filter(rs, (r: Reminder) => r.id != id)
  }

  /** Saving under a fresh id keeps ids unique. */
  lemma SaveKeepsIdsUnique(rs: seq<Reminder>, d: Draft, id: string, createdAt: int)
    requires UniqueIds(rs) && id !in Ids(rs)
    ensures UniqueIds(SaveReminder(rs, d, id, createdAt))
  {
    var out := SaveReminder(rs, d, id, createdAt);
    forall i, j | 0 <= i < j < |out| ensures out[i].id != out[j].id {
      if j == |rs| {
        assert Ids(rs)[i] == out[i].id;
      } else {
        assert out[i] == rs[i] && out[j] == rs[j];
      }
    }
  }

  /** Deleting keeps ids unique. */
  lemma DeleteKeepsIdsUnique(rs: seq<Reminder>, id: string)
    requires UniqueIds(rs)
    ensures UniqueIds(DeleteReminder(rs, id))
  {
    SubseqUnique(DeleteReminder(rs, id), rs);
  }

  lemma {:induction false} SubseqUnique(a: seq<Reminder>, b: seq<Reminder>)
    requires IsSubseq(a, b) && UniqueIds(b)
    ensures UniqueIds(a)
    decreases |b|
  {
    if b != [] {
      assert UniqueIds(b[1..]) by {
        forall i, j | 0 <= i < j < |b[1..]| ensures b[1..][i].id != b[1..][j].id {
          assert b[1..][i] == b[i + 1] && b[1..][j] == b[j + 1];
        }
      }
      if a != [] && a[0] == b[0] && IsSubseq(a[1..], b[1..]) {
        SubseqUnique(a[1..], b[1..]);
        SubseqElements(a[1..], b[1..]);
        forall i, j | 0 <= i < j < |a| ensures a[i].id != a[j].id {
          assert a[j] == a[1..][j - 1];
          assert a[j] in b[1..];
          var k :| 0 <= k < |b[1..]| && b[1..][k] == a[j];
          assert b[k + 1] == a[j];
          if i == 0 {
            assert a[i] == b[0];
          } else {
            assert a[i] == a[1..][i - 1];
          }
        }
      } else {
        SubseqUnique(a, b[1..]);
      }
    }
  }

  /** Deleting the reminder just saved under a fresh id restores the store. */
  lemma SaveThenDelete(rs: seq<Reminder>, d: Draft, id: string, createdAt: int)
    requires id !in Ids(rs)
    ensures DeleteReminder(SaveReminder(rs, d, id, createdAt), id) == rs
  {
    var p := (r: Reminder) => r.id != id;
    forall r | r in rs ensures p(r) {
      var i :| 0 <= i < |rs| && rs[i] == r;
      assert Ids(rs)[i] == r.id;
    }
    FilterConcat(rs, [NewReminder(d, id, createdAt)], p);
    FilterAll(rs, p);
  }
}
