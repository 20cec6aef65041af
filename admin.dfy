/**
 * The admin panel's state and its write actions: single mint, import of a
 * recipient file, batch mint in lots, revoke, and the two effects that log
 * how a submitted transaction ended. Contract calls are recorded as
 * submissions in `writes`; the wallet library that sends them is not modelled.
 */
module Admin {
  import opened Common
  import opened Text
  import opened Address
  import opened Recipients
  import opened Chunking
  import opened AuditLog
  import opened Gate

  /** A contract call handed to the wallet: `mint(to)`, `mintBatch(lot)` or `revoke(tokenId)`. */
  datatype WriteOp = Mint(to: string) | MintBatch(lot: seq<string>) | Revoke(tokenId: int)

  const InvalidAddress: string := "Adresse invalide."
  const NoValidAddress: string := "Aucune adresse valide."
  const InvalidTokenId: string := "TokenId invalide (doit être > 0)."

  function ErrorEntry(at: string, action: string, note: string): TxLog
  {
    TxLog(at, action, None, Error, Some(note))
  }

  function PendingEntry(at: string, action: string): TxLog
  {
    TxLog(at, action, None, Pending, None)
  }

  /** The addresses a write mints to, none for a revoke. */
  function Minted(op: WriteOp): seq<string>
  {
    match op
    case Mint(to) => [to]
    case MintBatch(lot) => lot
    case Revoke(_) => []
  }

  /** Every address minted to by a list of writes, in submission order. */
  function MintedBy(ws: seq<WriteOp>): seq<string>
  {
    if ws == [] then [] else MintedBy(ws[..|ws| - 1]) + Minted(ws[|ws| - 1])
  }

  lemma {:induction false} MintedByAppend(a: seq<WriteOp>, b: seq<WriteOp>)
    ensures MintedBy(a + b) == MintedBy(a) + MintedBy(b)
    decreases |b|
  {
    if b == [] {
      assert a + b == a;
    } else {
      var init := b[..|b| - 1];
      assert (a + b)[..|a + b| - 1] == a + init;
      MintedByAppend(a, init);
    }
  }

  lemma MintedByOne(op: WriteOp)
    ensures MintedBy([op]) == Minted(op)
  {
    assert [op][..0] == [];
  }

  /** The `mintBatch` write of each lot, in lot order. */
  function BatchWrites(parts: seq<seq<string>>): (r: seq<WriteOp>)
    ensures |r| == |parts|
    ensures forall i :: 0 <= i < |parts| ==> r[i] == MintBatch(parts[i])
  {
    seq(|parts|, i requires 0 <= i < |parts| => MintBatch(parts[i]))
  }

  lemma BatchWritesSnoc(parts: seq<seq<string>>, i: nat)
    requires i < |parts|
    ensures BatchWrites(parts[..i + 1]) == BatchWrites(parts[..i]) + [MintBatch(parts[i])]
  {
  }

  /** The lot writes of a batch mint every address of every lot once, in order. */
  lemma {:induction false} BatchWritesMintAll(parts: seq<seq<string>>)
    ensures MintedBy(BatchWrites(parts)) == Flatten(parts)
  {
    if parts != [] {
      var head, rest := [MintBatch(parts[0])], BatchWrites(parts[1..]);
      assert BatchWrites(parts) == head + rest;
      MintedByAppend(head, rest);
      MintedByOne(MintBatch(parts[0]));
      BatchWritesMintAll(parts[1..]);
    }
  }

  /** The lots `onBatchMint` submits for its parsed addresses and the chunk-size input. */
  function BatchParts(addresses: seq<string>, chunkSize: Option<int>): seq<seq<string>>
  {
    Chunks(addresses, EffectiveChunkSize(chunkSize))
  }

  /**
   * A batch mints every parsed recipient exactly once, in parse order, in
   * lots of at most the effective size, and in ceil(n / size) lots.
   */
  lemma BatchCoversRecipients(addresses: seq<string>, chunkSize: Option<int>)
    ensures MintedBy(BatchWrites(BatchParts(addresses, chunkSize))) == addresses
    ensures forall k :: 0 <= k < |BatchParts(addresses, chunkSize)| ==>
      1 <= |BatchParts(addresses, chunkSize)[k]| <= EffectiveChunkSize(chunkSize)
    ensures |BatchParts(addresses, chunkSize)| ==
      (|addresses| + EffectiveChunkSize(chunkSize) - 1) / EffectiveChunkSize(chunkSize)
  {
    var size := EffectiveChunkSize(chunkSize);
    BatchWritesMintAll(Chunks(addresses, size));
    ChunksFlatten(addresses, size);
    ChunksSizes(addresses, size);
    ChunksCount(addresses, size);
  }

  /** The action label of lot `i` (counted from 0) out of `n`, holding `len` addresses. */
  function LotLabel(i: nat, n: nat, len: nat): string
  {
    "mintBatch lot " + DecimalString(i + 1) + "/" + DecimalString(n) + " (" + DecimalString(len) + ")"
  }

  /** The pending entries logged for the lots, one per lot, in lot order. */
  function LotEntries(parts: seq<seq<string>>, at: string): (r: seq<TxLog>)
    ensures |r| == |parts|
    ensures forall i :: 0 <= i < |parts| ==> r[i] == PendingEntry(at, LotLabel(i, |parts|, |parts[i]|))
  {
    seq(|parts|, i requires 0 <= i < |parts| => PendingEntry(at, LotLabel(i, |parts|, |parts[i]|)))
  }

  /** The summary entry logged before the lots are sent. */
  function BatchSummary(at: string, lots: nat, size: int): TxLog
    requires size >= 1
  {
    TxLog(at, "mintBatch", None, Pending, Some("Envoi en " + DecimalString(lots) + " lot(s) de " + DecimalString(size)))
  }

  /** The success entry of a file import, with the number of valid addresses it found. */
  function ImportEntry(at: string, count: nat): TxLog
  {
    TxLog(at, "batch-import", None, Success, Some("Import: " + DecimalString(count) + " adresses valides"))
  }

  /** The action label of an accepted revoke. */
  function RevokeLabel(tid: int): string
    requires tid > 0
  {
    "revoke(" + DecimalString(tid) + ")"
  }

  /**
   * `BigInt(revokeId || "0")`: an empty field stands for `"0"`, which reads
   * as 0; `None` where `BigInt` throws. The fallback changes nothing, since
   * `BigInt` reads the empty text as 0 as well.
   */
  function RevokeTokenId(input: string): (r: Option<int>)
    ensures r == ParseBigInt(input)
  {
    if input == "" then Some(0) else ParseBigInt(input)
  }

  /**
   * An empty field reads as 0, and a token id typed in decimal is read back
   * as itself, so exactly the ids above 0 are accepted.
   */
  lemma RevokeTokenIdOfDecimal(n: nat)
    ensures RevokeTokenId("") == ParseBigInt("0") == Some(0)
    ensures RevokeTokenId(DecimalString(n)) == Some(n)
    ensures RevokeTokenId("-" + DecimalString(n)) == Some(-(n as int))
  {
    ParseDecimalString(0);
    assert DecimalString(0) == "0";
    ParseDecimalString(n);
  }

  /**
   * The admin form's input fields: the recipient of a single mint, the token
   * id to revoke, the batch text and the lot size (`None` when the number
   * input holds no number).
   */
  datatype Form = Form(mintTo: string, revokeId: string, batchText: string, batchChunkSize: Option<int>)

  /** The admin page's state: its audit log, its session counter, the writes it submitted and its form. */
  class Panel {
    var logs: seq<TxLog>
    var sessionMinted: nat
    var writes: seq<WriteOp>
    var form: Form

    /**
     * The log holds at most 200 entries, and the session counter is the
     * number of addresses in the mint writes submitted so far.
     */
    ghost predicate Valid()
      reads this
    {
      |logs| <= MaxLogs && sessionMinted == |MintedBy(writes)|
    }

    constructor()
      ensures Valid()
      ensures logs == [] && sessionMinted == 0 && writes == []
      ensures form == Form("", "", "", Some(DefaultChunkSize))
    {
      logs := [];
      sessionMinted := 0;
      writes := [];
      form := Form("", "", "", Some(DefaultChunkSize));
    }

    /** `addLog`: the entry goes first and the log keeps its 200 newest entries. */
    method AddLog(entry: TxLog)
      requires Valid()
      modifies this
      ensures Valid()
      ensures logs == PushNewest(old(logs), entry)
      ensures sessionMinted == old(sessionMinted) && writes == old(writes) && form == old(form)
    {
      logs := PushNewest(logs, entry);
    }

    /**
     * `onMint`: one error entry and nothing else when the gate fails or the
     * address is invalid; otherwise one pending entry, one `mint` write, the
     * counter up by one and the recipient field cleared.
     */
    method OnMint(w: Wallet, checksumOk: string -> bool, at: string)
      requires Valid()
      modifies this
      ensures Valid()
      ensures RequireReady(w).Some? ==>
        && logs == PushNewest(old(logs), ErrorEntry(at, "mint", Message(RequireReady(w).value)))
        && writes == old(writes) && form == old(form)
      ensures RequireReady(w).None? && !IsAddress(old(form.mintTo), checksumOk) ==>
        && logs == PushNewest(old(logs), ErrorEntry(at, "mint", InvalidAddress))
        && writes == old(writes) && form == old(form)
      ensures RequireReady(w).None? && IsAddress(old(form.mintTo), checksumOk) ==>
        && logs == PushNewest(old(logs), PendingEntry(at, "mint(" + old(form.mintTo) + ")"))
        && writes == old(writes) + [Mint(old(form.mintTo))]
        && sessionMinted == old(sessionMinted) + 1
        && form == old(form).(mintTo := "")
    {
      var msg := RequireReady(w);
      if msg.Some? {
        AddLog(ErrorEntry(at, "mint", Message(msg.value)));
        return;
      }
      var to := form.mintTo;
      if !IsAddress(to, checksumOk) {
        AddLog(ErrorEntry(at, "mint", InvalidAddress));
        return;
      }
      AddLog(PendingEntry(at, "mint(" + to + ")"));
      writes := writes + [Mint(to)];
      sessionMinted := sessionMinted + 1;
      form := form.(mintTo := "");
    }

    /**
     * `onBatchFile`: with a file, the batch text becomes the file's valid
     * addresses one per line and one success entry counts them; without a
     * file nothing happens.
     */
    method OnBatchFile(file: Option<string>, checksumOk: string -> bool, at: string)
      requires Valid()
      modifies this
      ensures Valid()
      ensures file.None? ==> logs == old(logs) && form == old(form)
      ensures file.Some? ==>
        && form == old(form).(batchText := Join(ParsedAddresses(file.value, checksumOk), "\n"))
        && logs == PushNewest(old(logs), ImportEntry(at, |ParsedAddresses(file.value, checksumOk)|))
      ensures writes == old(writes)
    {
      if file.None? {
        return;
      }
      var addresses := ParseAddressesFromText(file.value, checksumOk);
      Import(addresses, at);
    }

    /** The file's valid addresses become the batch text, one per line, and one success entry counts them. */
    method Import(addresses: seq<string>, at: string)
      requires Valid()
      modifies this
      ensures Valid()
      ensures form == old(form).(batchText := Join(addresses, "\n"))
      ensures logs == PushNewest(old(logs), ImportEntry(at, |addresses|))
      ensures writes == old(writes)
    {
      form := form.(batchText := Join(addresses, "\n"));
      AddLog(ImportEntry(at, |addresses|));
    }

    /**
     * `onBatchMint`: one error entry when the gate fails or no address
     * parses; otherwise a summary entry, then for each lot in order one
     * pending entry and one `mintBatch` write, the counter growing by the lot's
     * size. Each lot is sent once the previous one has settled, whatever its
     * outcome, so the writes are submitted in lot order.
     */
    method OnBatchMint(w: Wallet, checksumOk: string -> bool, at: string)
      requires Valid()
      modifies this
      ensures Valid()
      ensures RequireReady(w).Some? ==>
        && logs == PushNewest(old(logs), ErrorEntry(at, "mintBatch", Message(RequireReady(w).value)))
        && writes == old(writes)
      ensures RequireReady(w).None? && ParsedAddresses(old(form.batchText), checksumOk) == [] ==>
        && logs == PushNewest(old(logs), ErrorEntry(at, "mintBatch", NoValidAddress))
        && writes == old(writes)
      ensures RequireReady(w).None? && ParsedAddresses(old(form.batchText), checksumOk) != [] ==>
        var parts := BatchParts(ParsedAddresses(old(form.batchText), checksumOk), old(form.batchChunkSize));
        && logs == PushAll(old(logs),
             [BatchSummary(at, |parts|, EffectiveChunkSize(old(form.batchChunkSize)))] + LotEntries(parts, at))
        && writes == old(writes) + BatchWrites(parts)
        && MintedBy(writes) == MintedBy(old(writes)) + ParsedAddresses(old(form.batchText), checksumOk)
        && sessionMinted == old(sessionMinted) + |ParsedAddresses(old(form.batchText), checksumOk)|
      ensures form == old(form)
    {
      var msg := RequireReady(w);
      if msg.Some? {
        AddLog(ErrorEntry(at, "mintBatch", Message(msg.value)));
        return;
      }
      var addresses := ParseAddressesFromText(form.batchText, checksumOk);
      if |addresses| == 0 {
        AddLog(ErrorEntry(at, "mintBatch", NoValidAddress));
        return;
      }
      var size := EffectiveChunkSize(form.batchChunkSize);
      var parts := Chunk(addresses, size);
      var summary := BatchSummary(at, |parts|, size);
      AddLog(summary);
      assert logs == PushAll(old(logs), [summary]) by {
        assert [summary][..0] == [];
      }
      SendLots(parts, at);
      PushAllConcat(old(logs), [summary], LotEntries(parts, at));
      MintedByAppend(old(writes), BatchWrites(parts));
      BatchCoversRecipients(addresses, form.batchChunkSize);
    }

    /**
     * The loop of `onBatchMint`: for each lot in order, one pending entry,
     * then its `mintBatch` write, then the counter grown by the lot's size.
     */
    method SendLots(parts: seq<seq<string>>, at: string)
      requires Valid()
      modifies this
      ensures Valid()
      ensures logs == PushAll(old(logs), LotEntries(parts, at))
      ensures writes == old(writes) + BatchWrites(parts)
      ensures form == old(form)
    {
      ghost var entries := LotEntries(parts, at);
      for i := 0 to |parts|
        invariant Valid()
        invariant logs == PushAll(old(logs), entries[..i])
        invariant writes == old(writes) + BatchWrites(parts[..i])
        invariant form == old(form)
      {
        SendLot(parts[i], PendingEntry(at, LotLabel(i, |parts|, |parts[i]|)));
        PushAllSnoc(old(logs), entries, i);
        BatchWritesSnoc(parts, i);
      }
      assert parts[..|parts|] == parts;
      assert entries[..|parts|] == entries;
    }

    /** One turn of that loop: the lot's pending entry, its `mintBatch` write, the counter grown by the lot's size. */
    method SendLot(lot: seq<string>, entry: TxLog)
      requires Valid()
      modifies this
      ensures Valid()
      ensures logs == PushNewest(old(logs), entry)
      ensures writes == old(writes) + [MintBatch(lot)]
      ensures sessionMinted == old(sessionMinted) + |lot|
      ensures form == old(form)
    {
      AddLog(entry);
      writes := writes + [MintBatch(lot)];
      sessionMinted := sessionMinted + |lot|;
    }

    /**
     * `onRevoke`: one error entry when the gate fails or the id is not above
     * 0 (an empty field reads as 0); otherwise one pending entry, one
     * `revoke` write and the field cleared. An id `BigInt` cannot read
     * throws, and then nothing changes.
     */
    method OnRevoke(w: Wallet, at: string)
      requires Valid()
      modifies this
      ensures Valid()
      ensures RequireReady(w).Some? ==>
        && logs == PushNewest(old(logs), ErrorEntry(at, "revoke", Message(RequireReady(w).value)))
        && writes == old(writes) && form == old(form)
      ensures RequireReady(w).None? && RevokeTokenId(old(form.revokeId)).None? ==>
        logs == old(logs) && writes == old(writes) && form == old(form)
      ensures RequireReady(w).None? && RevokeTokenId(old(form.revokeId)).Some? && RevokeTokenId(old(form.revokeId)).value <= 0 ==>
        && logs == PushNewest(old(logs), ErrorEntry(at, "revoke", InvalidTokenId))
        && writes == old(writes) && form == old(form)
      ensures RequireReady(w).None? && RevokeTokenId(old(form.revokeId)).Some? && RevokeTokenId(old(form.revokeId)).value > 0 ==>
        && logs == PushNewest(old(logs), PendingEntry(at, RevokeLabel(RevokeTokenId(old(form.revokeId)).value)))
        && writes == old(writes) + [Revoke(RevokeTokenId(old(form.revokeId)).value)]
        && form == old(form).(revokeId := "")
    {
      var msg := RequireReady(w);
      if msg.Some? {
        AddLog(ErrorEntry(at, "revoke", Message(msg.value)));
        return;
      }
      var parsed := RevokeTokenId(form.revokeId);
      if parsed.None? {
        return;
      }
      var tid := parsed.value;
      if tid <= 0 {
        AddLog(ErrorEntry(at, "revoke", InvalidTokenId));
        return;
      }
      AddLog(PendingEntry(at, RevokeLabel(tid)));
      writes := writes + [Revoke(tid)];
      form := form.(revokeId := "");
    }

    /** The `writeError` effect: a failed submission adds one error entry carrying its message. */
    method OnWriteError(error: Option<string>, at: string)
      requires Valid()
      modifies this
      ensures Valid()
      ensures error.None? ==> logs == old(logs)
      ensures error.Some? ==> logs == PushNewest(old(logs), TxLog(at, "tx-error", None, Error, error))
      ensures writes == old(writes) && form == old(form)
    {
      if error.Some? {
        AddLog(TxLog(at, "tx-error", None, Error, error));
      }
    }

    /** The confirmation effect: a known hash whose receipt succeeded adds one success entry with that hash. */
    method OnConfirmed(txHash: Option<string>, isConfirmed: bool, at: string)
      requires Valid()
      modifies this
      ensures Valid()
      ensures !(Truthy(txHash) && isConfirmed) ==> logs == old(logs)
      ensures Truthy(txHash) && isConfirmed ==> logs == PushNewest(old(logs), TxLog(at, "tx-confirmed", txHash, Success, None))
      ensures writes == old(writes) && form == old(form)
    {
      if Truthy(txHash) && isConfirmed {
        AddLog(TxLog(at, "tx-confirmed", txHash, Success, None));
      }
    }
  }
}
