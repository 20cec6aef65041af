/**
 * The panel's audit log: entries describing every attempted action, stored
 * newest first and capped at 200 entries; adding to a full log evicts the
 * oldest entry.
 */
module AuditLog {
  import opened Common

  const MaxLogs: nat := 200

  datatype Status = Pending | Success | Error

  /** One log entry (`TxLog`): timestamp, action label, optional transaction hash, status, optional note. */
  datatype TxLog = TxLog(at: string, action: string, hash: Option<string>, status: Status, note: Option<string>)

  /** The update `addLog` applies: `[entry, ...prev].slice(0, 200)`. */
  function PushNewest(prev: seq<TxLog>, entry: TxLog): (r: seq<TxLog>)
    ensures |r| == Min(|prev| + 1, MaxLogs)
    ensures r[0] == entry
    ensures forall i :: 1 <= i < |r| ==> r[i] == prev[i - 1]
  {
    Take([entry] + prev, MaxLogs)
  }

  /** A full log loses exactly its oldest entry; a log with room loses nothing. */
  lemma PushNewestEvicts(prev: seq<TxLog>, entry: TxLog)
    requires |prev| <= MaxLogs
    ensures |prev| < MaxLogs ==> PushNewest(prev, entry) == [entry] + prev
    ensures |prev| == MaxLogs ==> PushNewest(prev, entry) == [entry] + prev[..MaxLogs - 1]
  {
  }

  /** The log after the entries `es` were added one by one, `es[0]` first. */
  function PushAll(prev: seq<TxLog>, es: seq<TxLog>): seq<TxLog>
  {
    if es == [] then prev else PushNewest(PushAll(prev, es[..|es| - 1]), es[|es| - 1])
  }

  /** Adding two lists of entries one after the other is adding their concatenation. */
  lemma {:induction false} PushAllConcat(prev: seq<TxLog>, a: seq<TxLog>, b: seq<TxLog>)
    ensures PushAll(PushAll(prev, a), b) == PushAll(prev, a + b)
    decreases |b|
  {
    if b == [] {
      assert a + b == a;
    } else {
      var init := b[..|b| - 1];
      PushAllConcat(prev, a, init);
      assert (a + b)[..|a + b| - 1] == a + init;
    }
  }

  /** Adding one more entry of a list to the log. */
  lemma PushAllSnoc(prev: seq<TxLog>, es: seq<TxLog>, i: nat)
    requires i < |es|
    ensures PushAll(prev, es[..i + 1]) == PushNewest(PushAll(prev, es[..i]), es[i])
  {
    assert es[..i + 1][..i] == es[..i];
  }

  /**
   * Whatever is added, the log holds the 200 newest entries of its whole
   * history, newest first: the added entries in reverse order, then the old log.
   */
  lemma {:induction false} PushAllWindow(prev: seq<TxLog>, es: seq<TxLog>)
    requires |prev| <= MaxLogs
    ensures PushAll(prev, es) == Take(Reverse(es) + prev, MaxLogs)
    ensures |PushAll(prev, es)| <= MaxLogs
  {
    if es == [] {
      assert Reverse(es) + prev == prev;
    } else {
      var init := es[..|es| - 1];
      var e := es[|es| - 1];
      PushAllWindow(prev, init);
      TakeTake([e], Reverse(init) + prev, MaxLogs);
      assert Reverse(es) == [e] + Reverse(init);
      assert [e] + (Reverse(init) + prev) == Reverse(es) + prev;
    }
  }

  /**
   * Read backwards, a log that started empty and received at most 200 entries
   * lists them in the order they were added.
   */
  lemma ChronologicalOrder(es: seq<TxLog>)
    requires |es| <= MaxLogs
    ensures Reverse(PushAll([], es)) == es
  {
    PushAllWindow([], es);
    assert Reverse(es) + [] == Reverse(es);
    assert PushAll([], es) == Reverse(es);
    ReverseReverse(es);
  }
}
