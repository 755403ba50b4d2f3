/**
  What the wallet service (internal/application/o2ul_wallet_service.go) builds, files and shows, field by
  field: which requests and submissions are taken, and what a wallet sees after any run of submissions.
 */
module WalletRecords {
  import opened Trimming
  import opened GoText
  import opened WalletLedger
  import WalletGuard

  const TWO_TO_64: nat := 18446744073709551616

  // ---- Building ----

  /** A spend is built exactly from these requests, with its three texts trimmed. */
  lemma BuiltExactly(c: Codec, req: Spend)
    ensures var r := BuildSpendTransaction(c, req);
            var w, to, a := TrimSpace(req.walletId), TrimSpace(req.recipient), TrimSpace(req.assetId);
            && (r.Ok? <==>
                  && w != "" && to != "" && a != "" && req.amount > 0 && |req.inputNotes| > 0
                  && (req.amount + req.fee) % TWO_TO_64 <= |req.inputNotes| * 16 % TWO_TO_64)
            && (r.Ok? ==> r.value == c.encodeSpend(Spend(w, to, a, req.amount, req.fee, req.inputNotes)))
            && (r == Err(NoWallet) <==> w == "")
            && (r == Err(NoRecipient) <==> w != "" && to == "")
            && (r == Err(NoAsset) <==> w != "" && to != "" && a == "")
            && (r == Err(ZeroAmount) <==> w != "" && to != "" && a != "" && req.amount == 0)
            && (r == Err(NoInputs) <==> w != "" && to != "" && a != "" && req.amount > 0 && req.inputNotes == [])
  {
    assert TWO64 == TWO_TO_64;
  }

  // ---- Signing ----

  /** The payload is a spend of the wallet. */
  predicate SpendsFor(c: Codec, walletId: string, payload: Payload) {
    c.decodeSpend(payload).Some? && TrimSpace(c.decodeSpend(payload).value.walletId) == TrimSpace(walletId)
  }

  /**
    A payload is signed exactly when it is a spend of the wallet with an amount and an asset, and enough
    factors approve; the envelope holds the payload itself, a signature of it and the wallet, and the wallet.
   */
  lemma SignedExactly(c: Codec, verifiers: map<string, WalletGuard.Verifier>, threshold: int, walletId: string,
                      payload: Payload, assertions: seq<WalletGuard.Assertion>)
    ensures var r, w := SignTransaction(c, verifiers, threshold, walletId, payload, assertions), TrimSpace(walletId);
            && (r.Ok? <==>
                  && w != "" && payload != "" && SpendsFor(c, walletId, payload)
                  && var spend := c.decodeSpend(payload).value;
                     && spend.amount != 0 && spend.assetId != ""
                     && |WalletGuard.ApprovedFactors(verifiers, WalletGuard.SpendIntent(w, spend.amount, spend.assetId),
                                                     assertions)| >= threshold)
            && (r.Ok? ==>
                  r.value == c.encodeSigned(Signed(payload, "sig-" + c.signatureOf(payload + "|" + w), w)))
            && (r == Err(NoWallet) <==> w == "")
            && (r == Err(NoPayload) <==> w != "" && payload == "")
            && (r == Err(BadPayload) <==> w != "" && payload != "" && c.decodeSpend(payload).None?)
            && (r == Err(WalletMismatch) <==>
                  w != "" && payload != "" && c.decodeSpend(payload).Some? && !SpendsFor(c, walletId, payload))
  {
  }

  // ---- Filing ----

  /** The submission is an envelope: a signed transaction around a payload. */
  predicate IsEnvelope(c: Codec, submitted: Payload) {
    c.decodeSigned(submitted).Some? && c.decodeSigned(submitted).value.unsignedTx != ""
  }

  /** What is spent: the payload in the envelope, or the submission itself. */
  function PayloadIn(c: Codec, submitted: Payload): Payload {
    if IsEnvelope(c, submitted) then c.decodeSigned(submitted).value.unsignedTx else submitted
  }

  /** An envelope is signed, and by the wallet that submits it. */
  predicate EnvelopeHolds(c: Codec, walletId: string, submitted: Payload) {
    IsEnvelope(c, submitted) ==>
      var signed := c.decodeSigned(submitted).value;
      TrimSpace(signed.signature) != "" && TrimSpace(signed.signedBy) == TrimSpace(walletId)
  }

  /**
    A submission is accepted exactly when its envelope holds and what is spent is a spend of the wallet; what
    is filed has the wallet, the fields of the spend, the outflow modulo two to the 64, and the signature of
    the envelope if there is one.
   */
  lemma AcceptedExactly(c: Codec, walletId: string, submitted: Payload)
    ensures var r, payload := Accepted(c, walletId, submitted), PayloadIn(c, submitted);
            && (r.Ok? <==>
                  && TrimSpace(walletId) != "" && submitted != "" && EnvelopeHolds(c, walletId, submitted)
                  && SpendsFor(c, walletId, payload))
            && (r.Ok? ==>
                  var spend, tx := c.decodeSpend(payload).value, r.value.1;
                  && r.value.0 == payload && tx.txId == c.txId(payload) && tx.walletId == TrimSpace(walletId)
                  && tx.assetId == spend.assetId && tx.amount == spend.amount && tx.fee == spend.fee
                  && tx.inputNotes == spend.inputNotes && tx.totalOutflow == (spend.amount + spend.fee) % TWO_TO_64
                  && tx.signature ==
                       if IsEnvelope(c, submitted) then TrimSpace(c.decodeSigned(submitted).value.signature) else "")
  {
    OpenedExactly(c, walletId, submitted);
  }

  lemma OpenedExactly(c: Codec, walletId: string, submitted: Payload)
    ensures var r := Opened(c, TrimSpace(walletId), submitted);
            && (r.Ok? <==> EnvelopeHolds(c, walletId, submitted))
            && (r.Ok? ==>
                  && r.value.0 == PayloadIn(c, submitted)
                  && r.value.1 == if IsEnvelope(c, submitted) then TrimSpace(c.decodeSigned(submitted).value.signature)
                                  else "")
  {
  }

  // ---- Looking up ----

  /** The transaction that the last accepted submission with this id has filed. */
  function LastFiled(c: Codec, subs: seq<Submission>, id: string): (r: seq<Tx>)
    ensures |r| <= 1
  {
    if subs == [] then []
    else
      var last := Accepted(c, subs[|subs| - 1].walletId, subs[|subs| - 1].payload);
      if last.Ok? && last.value.1.txId == id then [last.value.1] else LastFiled(c, subs[..|subs| - 1], id)
  }

  lemma {:induction false} OnFileExactly(c: Codec, subs: seq<Submission>, id: string)
    ensures var l, filed := Run(c, subs), LastFiled(c, subs, id);
            && (id in l.transactions <==> filed != [])
            && (filed != [] ==> l.transactions[id] == filed[0])
  {
    if subs != [] {
      OnFileExactly(c, subs[..|subs| - 1], id);
    }
  }

  /**
    What a wallet is told about an id after any run: the transaction filed last under it, if that is its own;
    otherwise that there is none, or that it is not the wallet's.
   */
  lemma StatusExactly(c: Codec, subs: seq<Submission>, walletId: string, txId: string)
    ensures var r, filed := Status(Run(c, subs), walletId, txId), LastFiled(c, subs, TrimSpace(txId));
            && (r == Err(NoWallet) <==> TrimSpace(walletId) == "")
            && (r == Err(NoTransactionId) <==> TrimSpace(walletId) != "" && TrimSpace(txId) == "")
            && (TrimSpace(walletId) != "" && TrimSpace(txId) != "" ==>
                  && (r == Err(NotFound) <==> filed == [])
                  && (r == Err(NotYours) <==> filed != [] && filed[0].walletId != TrimSpace(walletId))
                  && (r.Ok? <==> filed != [] && filed[0].walletId == TrimSpace(walletId))
                  && (r.Ok? ==> r.value == filed[0]))
  {
    OnFileExactly(c, subs, TrimSpace(txId));
  }

  lemma {:induction false} FiledBySubmission(c: Codec, subs: seq<Submission>, id: string) returns (i: nat)
    requires LastFiled(c, subs, id) != []
    ensures i < |subs| && Accepted(c, subs[i].walletId, subs[i].payload).Ok?
    ensures Accepted(c, subs[i].walletId, subs[i].payload).value.1 == LastFiled(c, subs, id)[0]
  {
    var last := Accepted(c, subs[|subs| - 1].walletId, subs[|subs| - 1].payload);
    if last.Ok? && last.value.1.txId == id {
      i := |subs| - 1;
    } else {
      i := FiledBySubmission(c, subs[..|subs| - 1], id);
    }
  }

  /** No wallet sees a transaction that it has not submitted itself. */
  lemma OnlyOwnShown(c: Codec, subs: seq<Submission>, walletId: string, txId: string) returns (i: nat)
    requires Status(Run(c, subs), walletId, txId).Ok?
    ensures i < |subs| && TrimSpace(subs[i].walletId) == TrimSpace(walletId)
    ensures Accepted(c, subs[i].walletId, subs[i].payload).Ok?
    ensures Accepted(c, subs[i].walletId, subs[i].payload).value.1 == Status(Run(c, subs), walletId, txId).value
  {
    StatusExactly(c, subs, walletId, txId);
    i := FiledBySubmission(c, subs, TrimSpace(txId));
    AcceptedExactly(c, subs[i].walletId, subs[i].payload);
  }

  // ---- Scanning ----

  /** An accepted submission of the wallet lists the note. */
  predicate SpentInRun(c: Codec, subs: seq<Submission>, w: string, note: string) {
    subs != [] && (SpendsNote(c, subs[|subs| - 1], w, note) || SpentInRun(c, subs[..|subs| - 1], w, note))
  }

  predicate SpendsNote(c: Codec, s: Submission, w: string, note: string) {
    && Accepted(c, s.walletId, s.payload).Ok? && TrimSpace(s.walletId) == w
    && note in c.decodeSpend(PayloadIn(c, s.payload)).value.inputNotes
  }

  /** After any run a note is spent for a wallet exactly when an accepted submission of that wallet has listed it. */
  lemma {:induction false} SpentExactly(c: Codec, subs: seq<Submission>, w: string, note: string)
    ensures note in SpentBy(Run(c, subs), w) <==> SpentInRun(c, subs, w, note)
  {
    if subs != [] {
      var before, s := subs[..|subs| - 1], subs[|subs| - 1];
      SpentExactly(c, before, w, note);
      if Accepted(c, s.walletId, s.payload).Ok? {
        FilesNotes(c, Run(c, before), s, w, note);
      }
    }
  }

  lemma FilesNotes(c: Codec, l: Ledger, s: Submission, w: string, note: string)
    requires Accepted(c, s.walletId, s.payload).Ok?
    ensures note in SpentBy(Record(l, Accepted(c, s.walletId, s.payload).value.1), w) <==>
              note in SpentBy(l, w) || SpendsNote(c, s, w, note)
  {
    AcceptedExactly(c, s.walletId, s.payload);
  }

  function ShownAs(l: Ledger, w: string, id: string, status: NoteStatus): NoteStatus {
    if id in SpentBy(l, w) then Spent else status
  }

  /** A scan shows the wallet's three notes in order, and leaves the spent ones out unless it is asked for them. */
  lemma ScanExactly(l: Ledger, w: string, a: string)
    ensures var first := Note(w + "-note-01", a, 14, ShownAs(l, w, w + "-note-01", Unspent));
            var second := Note(w + "-note-02", a, 9, ShownAs(l, w, w + "-note-02", Pending));
            && AllShown(l, w, a, true) == [first, second, Note(w + "-note-03", a, 6, Spent)]
            && AllShown(l, w, a, false) ==
                 (if first.status == Spent then [] else [first]) + (if second.status == Spent then [] else [second])
  {
    var notes := Marked(SpentBy(l, w), BaseNotes(w, a));
    assert notes[..2] == [notes[0], notes[1]] && notes[..2][..1] == [notes[0]] && notes[..2][..1][..0] == [];
    Three(notes, true);
    Three(notes, false);
  }

  lemma Three(notes: seq<Note>, includeSpent: bool)
    requires |notes| == 3
    ensures Shown(notes, includeSpent) ==
              (if !includeSpent && notes[0].status == Spent then [] else [notes[0]])
              + (if !includeSpent && notes[1].status == Spent then [] else [notes[1]])
              + (if !includeSpent && notes[2].status == Spent then [] else [notes[2]])
  {
    ShownNext(notes, 0, includeSpent);
    ShownNext(notes, 1, includeSpent);
    ShownNext(notes, 2, includeSpent);
    assert notes[..3] == notes && notes[..0] == [];
  }
}
