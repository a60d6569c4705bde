/** The recipient-address history behind the autocomplete: addresses are stored
    trimmed and lower-cased, each once, and only the 50 most recently added survive. */
module History {
  import opened Seqs
  import opened Text

  const HistoryCap: nat := 50

  /** `email.trim().toLowerCase()`. */
  function Normalize(e: string): string {
    Lower(Trim(e))
  }

  /** A normalized address has no ASCII capital, and is empty exactly when the
      address is all white space. */
  lemma NormalizeShape(e: string)
    ensures Normalize(e) == [] <==> IsBlank(e)
    ensures var r := Normalize(e); forall k :: 0 <= k < |r| ==> !('A' <= r[k] <= 'Z')
  {
    var t := Trim(e);
    assert Normalize(e) == Lower(t);
    LowerHasNoUpper(t);
  }

  /** Normalizing a normalized address changes nothing. */
  lemma NormalizeIdempotent(e: string)
    ensures Normalize(Normalize(e)) == Normalize(e)
  {
    var t := Trim(e);
    var l := Lower(t);
    assert Trim(l) == l by {
      TrimEnds(e);
      LowerKeepsEnds(t);
      TrimFixedPoint(l);
    }
    assert Lower(l) == l by {
      LowerIdempotent(t);
    }
  }

  /** The normalized forms of the added addresses, position by position. */
  function NormalizeAll(added: seq<string>): (ns: seq<string>)
    ensures |ns| == |added|
    ensures forall i :: 0 <= i < |added| ==> ns[i] == Normalize(added[i])
  {
    seq(|added|, i requires 0 <= i < |added| => Normalize(added[i]))
  }

  predicate NonBlank(x: string) {
    x != ""
  }

  /** The non-blank normalized forms of the added addresses, in order. */
  function NewEntries(added: seq<string>): (es: seq<string>)
    ensures forall x :: x in es <==> x != "" && x in NormalizeAll(added)
    ensures |es| <= |added|
  {
    Filter(NormalizeAll(added), NonBlank)
  }

  /** The history before the cap: the old entries, in order, followed by each added
      address, normalized, unless it is blank or already present. */
  function MergeUncapped(history: seq<string>, added: seq<string>): (r: seq<string>)
    ensures |history| <= |r| && r[..|history|] == history
    ensures forall x :: x in r[|history|..] <==> x !in history && x in NewEntries(added)
    ensures NoDups(r[|history|..])
    ensures IsSubseq(r[|history|..], NewEntries(added))
    ensures forall i, j :: |history| <= i < j < |r| ==> FirstBefore(NormalizeAll(added), r[i], r[j])
    ensures NoDups(history) ==> NoDups(r)
  {
    var es := NewEntries(added);
    AppendMissingSuffix(history, es);
    AppendFilteredOrder(history, NormalizeAll(added), NonBlank);
    assert es == Filter(NormalizeAll(added), NonBlank);
    AppendMissing(history, es)
  }

  /** The `add-to-email-history` handler: merge, then keep the last 50 entries. */
  function AddToHistory(history: seq<string>, added: seq<string>): (r: seq<string>)
    ensures |r| <= HistoryCap
    ensures var u := MergeUncapped(history, added);
      && |r| == (if |u| < HistoryCap then |u| else HistoryCap)
      && r == u[|u| - |r|..]
  {
    Last(MergeUncapped(history, added), HistoryCap)
  }

  /** An entry as the history stores it: non-blank and normalized. */
  predicate Clean(e: string) {
    e != "" && Normalize(e) == e
  }

  /** Every entry is stored clean, once, and there are at most 50. */
  predicate WellFormed(history: seq<string>) {
    && NoDups(history)
    && |history| <= HistoryCap
    && forall k :: 0 <= k < |history| ==> Clean(history[k])
  }

  lemma NewEntriesAreClean(added: seq<string>)
    ensures forall x :: x in NewEntries(added) ==> Clean(x)
  {
    var ns := NormalizeAll(added);
    forall x | x in NewEntries(added) ensures Clean(x) {
      var i :| 0 <= i < |ns| && ns[i] == x;
      NormalizeIdempotent(added[i]);
    }
  }

  lemma MergeKeepsClean(history: seq<string>, added: seq<string>)
    requires forall k :: 0 <= k < |history| ==> Clean(history[k])
    ensures var u := MergeUncapped(history, added);
      forall k :: 0 <= k < |u| ==> Clean(u[k])
  {
    var u := MergeUncapped(history, added);
    NewEntriesAreClean(added);
    forall k | 0 <= k < |u| ensures Clean(u[k]) {
      if k >= |history| {
        assert u[k] in u[|history|..];
      } else {
        assert u[k] == u[..|history|][k];
      }
    }
  }

  /** Adding addresses keeps the history well formed. */
  lemma AddPreservesWellFormed(history: seq<string>, added: seq<string>)
    requires WellFormed(history)
    ensures WellFormed(AddToHistory(history, added))
  {
    var u := MergeUncapped(history, added);
    var r := AddToHistory(history, added);
    MergeKeepsClean(history, added);
    var d := |u| - |r|;
    NoDupsSuffix(u, d);
    forall k | 0 <= k < |r| ensures Clean(r[k]) {
      assert r[k] == u[d + k];
    }
  }

  /** An address that is added, non-blank and new, lands at the end of the history,
      and so survives the cap. */
  lemma NewestAddressKept(history: seq<string>, e: string)
    requires Normalize(e) != "" && Normalize(e) !in history
    ensures var r := AddToHistory(history, [e]);
      r != [] && r[|r| - 1] == Normalize(e)
  {
    var u := MergeUncapped(history, [e]);
    var tail := u[|history|..];
    assert Normalize(e) in tail by {
      assert Normalize(e) in NewEntries([e]) by {
        assert NormalizeAll([e])[0] == Normalize(e);
      }
    }
    assert |tail| <= 1 by {
      SubseqElements(tail, NewEntries([e]));
    }
    assert u[|u| - 1] == Normalize(e) by {
      assert tail == [Normalize(e)];
      assert u[|u| - 1] == tail[0];
    }
  }
}
