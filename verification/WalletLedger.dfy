/**
  The wallet ledger (internal/application/o2ul_wallet_service.go): building, signing, submitting and
  looking up transactions, and scanning notes.  Time stamps are not part of the model.
 */
module WalletLedger {
  import opened Wrappers
  import opened Trimming
  import opened GoText
  import WalletGuard

  const TWO64: nat := 0x1_0000_0000_0000_0000
  type uint64 = n: nat | n < TWO64

  function Add64(a: uint64, b: uint64): uint64 {
    (a + b) % TWO64
  }

  function Mul64(a: nat, b: nat): uint64 {
    (a * b) % TWO64
  }

  type Payload = string

  datatype Spend = Spend(walletId: string, recipient: string, assetId: string, amount: uint64, fee: uint64,
                         inputNotes: seq<string>)

  datatype Signed = Signed(unsignedTx: Payload, signature: string, signedBy: string)

  datatype Tx = Tx(
    txId: string, walletId: string, assetId: string, amount: uint64, fee: uint64, inputNotes: seq<string>,
    totalOutflow: uint64, signature: string)

  /**
    JSON and hashing: decoders answer None where `json.Unmarshal` fails; `txId` and `signatureOf` are
    the digests of a payload as they are written.
   */
  datatype Codec = Codec(
    encodeSpend: Spend -> Payload, decodeSpend: Payload -> Option<Spend>,
    encodeSigned: Signed -> Payload, decodeSigned: Payload -> Option<Signed>,
    txId: Payload -> string, signatureOf: Payload -> string)

  /** What the service relies on: texts are not empty, and decoding undoes encoding. */
  ghost predicate RoundTrips(c: Codec) {
    && (forall s :: c.encodeSpend(s) != "" && c.decodeSpend(c.encodeSpend(s)) == Some(s))
    && (forall s :: c.encodeSigned(s) != "" && c.decodeSigned(c.encodeSigned(s)) == Some(s))
    /** A spend is not a signed transaction: it has no `unsignedTx`. */
    && (forall s :: c.decodeSigned(c.encodeSpend(s)).Some? ==> c.decodeSigned(c.encodeSpend(s)).value.unsignedTx == "")
  }

  datatype Error =
    | NoWallet | NoRecipient | NoAsset | ZeroAmount | NoInputs | InsufficientBudget
    | NoPayload | BadPayload | WalletMismatch | NoSignature | NotAuthorized | NoTransactionId | NotFound | NotYours

  datatype Result<+T> = Ok(value: T) | Err(error: Error)

  /** The notes of a list: the ledger does not count repeats. */
  function Notes(ns: seq<string>): set<string> {
    set n | n in ns
  }

  // ---- Build ----

  function Trimmed(req: Spend): Spend {
    req.(walletId := TrimSpace(req.walletId), recipient := TrimSpace(req.recipient), assetId := TrimSpace(req.assetId))
  }

  function BuildSpendTransaction(c: Codec, req: Spend): Result<Payload> {
    var req := Trimmed(req);
    if req.walletId == "" then Err(NoWallet)
    else if req.recipient == "" then Err(NoRecipient)
    else if req.assetId == "" then Err(NoAsset)
    else if req.amount == 0 then Err(ZeroAmount)
    else if |req.inputNotes| == 0 then Err(NoInputs)
    else if Mul64(|req.inputNotes|, 16) < Add64(req.amount, req.fee) then Err(InsufficientBudget)
    else Ok(c.encodeSpend(req))
  }

  /**
    The budget check counts listed notes: a built transaction spends at most sixteen for each note as it
    is listed exactly when amount and fee together fit into 64 bits, since a sum that wraps passes the
    check.  (A slice cannot hold 2^60 notes.)
   */
  lemma BudgetHoldsExactly(c: Codec, req: Spend)
    requires BuildSpendTransaction(c, req).Ok? && |req.inputNotes| < TWO64 / 16
    ensures req.amount + req.fee <= 16 * |req.inputNotes| <==> req.amount + req.fee < TWO64
  {
    assert Mul64(|req.inputNotes|, 16) == 16 * |req.inputNotes|;
    if req.amount + req.fee < TWO64 {
      assert Add64(req.amount, req.fee) == req.amount + req.fee;
    }
  }

  predicate NoRepeats(ns: seq<string>) {
    forall i, j :: 0 <= i < j < |ns| ==> ns[i] != ns[j]
  }

  lemma {:induction false} NotesCount(ns: seq<string>)
    ensures |Notes(ns)| <= |ns| && (|Notes(ns)| == |ns| <==> NoRepeats(ns))
  {
    if ns == [] {
      assert Notes(ns) == {};
    } else {
      var m := |ns| - 1;
      NotesCount(ns[..m]);
      NotesGrow(ns, m);
      assert ns[..m + 1] == ns;
      if NoRepeats(ns) {
        assert ns[m] !in ns[..m];
      } else if NoRepeats(ns[..m]) {
        var i, j :| 0 <= i < j < |ns| && ns[i] == ns[j];
        assert j == m && ns[..m][i] == ns[m];
      }
    }
  }

  lemma BuiltWithin(c: Codec, amount: uint64, ns: seq<string>)
    requires ns != [] && |ns| < TWO64 / 16 && 0 < amount <= 16 * |ns|
    ensures BuildSpendTransaction(c, Spend("w", "r", "a", amount, 0, ns)).Ok?
  {
    TrimmedExactly("w", IsSpace);
    TrimmedExactly("r", IsSpace);
    TrimmedExactly("a", IsSpace);
    assert Mul64(|ns|, 16) == 16 * |ns| && Add64(amount, 0) == amount;
  }

  /**
    The ledger marks notes, not listings: over all amounts and fees that fit into 64 bits, what is built
    spends at most sixteen for each note that it spends exactly when no note is listed twice.
   */
  lemma BudgetPerNoteExactly(c: Codec, ns: seq<string>)
    requires ns != [] && |ns| < TWO64 / 16
    ensures (forall req: Spend ::
               BuildSpendTransaction(c, req).Ok? && req.inputNotes == ns && req.amount + req.fee < TWO64 ==>
                 req.amount + req.fee <= 16 * |Notes(ns)|)
            <==> NoRepeats(ns)
  {
    NotesCount(ns);
    if NoRepeats(ns) {
      forall req: Spend |
        BuildSpendTransaction(c, req).Ok? && req.inputNotes == ns && req.amount + req.fee < TWO64
        ensures req.amount + req.fee <= 16 * |Notes(ns)|
      {
        BudgetHoldsExactly(c, req);
      }
    } else {
      var req := Spend("w", "r", "a", 16 * |ns|, 0, ns);
      BuiltWithin(c, 16 * |ns|, ns);
      assert BuildSpendTransaction(c, req).Ok? && req.amount + req.fee > 16 * |Notes(ns)|;
    }
  }

  /** A note listed three times pays for forty. */
  lemma RepeatedNoteIsBuilt(c: Codec, note: string)
    ensures var req := Spend("w", "r", "a", 40, 0, [note, note, note]);
            && BuildSpendTransaction(c, req).Ok? && Notes(req.inputNotes) == {note}
            && req.amount + req.fee > 16 * |Notes(req.inputNotes)|
  {
    BuiltWithin(c, 40, [note, note, note]);
    assert Notes([note, note, note]) == {note};
  }

  /** A sum that wraps: everything there is, and a fee that makes it zero. */
  lemma WrappedSumIsBuilt(c: Codec, note: string)
    ensures BuildSpendTransaction(c, Spend("w", "r", "a", TWO64 - 1, 1, [note])).Ok?
  {
    TrimmedExactly("w", IsSpace);
    TrimmedExactly("r", IsSpace);
    TrimmedExactly("a", IsSpace);
    assert Add64(TWO64 - 1, 1) == 0;
  }

  // ---- Sign ----

  function SignTransaction(c: Codec, verifiers: map<string, WalletGuard.Verifier>, threshold: int, walletId: string,
                           unsignedTx: Payload, assertions: seq<WalletGuard.Assertion>): Result<Payload> {
    var walletId := TrimSpace(walletId);
    if walletId == "" then Err(NoWallet)
    else if unsignedTx == "" then Err(NoPayload)
    else
      match c.decodeSpend(unsignedTx)
      case None => Err(BadPayload)
      case Some(spend) =>
        if TrimSpace(spend.walletId) != walletId then Err(WalletMismatch)
        else
          var intent := WalletGuard.SpendIntent(walletId, spend.amount, spend.assetId);
          if !WalletGuard.IsIntent(intent) then Err(NotAuthorized)
          else if |WalletGuard.ApprovedFactors(verifiers, intent, assertions)| < threshold then Err(NotAuthorized)
          else Ok(c.encodeSigned(Signed(unsignedTx, "sig-" + c.signatureOf(unsignedTx + "|" + walletId), walletId)))
  }

  // ---- Submit and look up ----

  datatype Ledger = Ledger(transactions: map<string, Tx>, spentNotes: map<string, set<string>>)

  const EMPTY_LEDGER := Ledger(map[], map[])

  function SpentBy(l: Ledger, walletId: string): set<string> {
    if walletId in l.spentNotes then l.spentNotes[walletId] else {}
  }

  /** The payload a submission spends, and its signature: a signed transaction is opened first. */
  function Opened(c: Codec, walletId: string, submitted: Payload): Result<(Payload, string)> {
    match c.decodeSigned(submitted)
    case None => Ok((submitted, ""))
    case Some(signed) =>
      if signed.unsignedTx == "" then Ok((submitted, ""))
      else if TrimSpace(signed.signature) == "" then Err(NoSignature)
      else if TrimSpace(signed.signedBy) != walletId then Err(WalletMismatch)
      else Ok((signed.unsignedTx, TrimSpace(signed.signature)))
  }

  function TxOf(c: Codec, walletId: string, payload: Payload, spend: Spend, signature: string): Tx {
    Tx(c.txId(payload), walletId, spend.assetId, spend.amount, spend.fee, spend.inputNotes,
       Add64(spend.amount, spend.fee), signature)
  }

  /** The transaction a submission records, if it is accepted. */
  function Accepted(c: Codec, walletId: string, submitted: Payload): Result<(Payload, Tx)> {
    AcceptedFor(c, TrimSpace(walletId), submitted)
  }

  function AcceptedFor(c: Codec, walletId: string, submitted: Payload): Result<(Payload, Tx)> {
    if walletId == "" then Err(NoWallet)
    else if submitted == "" then Err(NoPayload)
    else
      match Opened(c, walletId, submitted)
      case Err(e) => Err(e)
      case Ok((payload, signature)) =>
        match c.decodeSpend(payload)
        case None => Err(BadPayload)
        case Some(spend) =>
          if TrimSpace(spend.walletId) != walletId then Err(WalletMismatch)
          else Ok((payload, TxOf(c, walletId, payload, spend, signature)))
  }

  function Record(l: Ledger, tx: Tx): Ledger {
    Ledger(l.transactions[tx.txId := tx],
           l.spentNotes[tx.walletId := SpentBy(l, tx.walletId) + Notes(tx.inputNotes)])
  }

  function Status(l: Ledger, walletId: string, txId: string): Result<Tx> {
    var walletId, txId := TrimSpace(walletId), TrimSpace(txId);
    if walletId == "" then Err(NoWallet)
    else if txId == "" then Err(NoTransactionId)
    else if txId !in l.transactions then Err(NotFound)
    else if l.transactions[txId].walletId != walletId then Err(NotYours)
    else Ok(l.transactions[txId])
  }

  // ---- Scan ----

  datatype NoteStatus = Unspent | Pending | Spent
  datatype Note = Note(noteId: string, assetId: string, amount: uint64, status: NoteStatus)

  /** The three notes of a wallet before the ledger is consulted. */
  function BaseNotes(walletId: string, assetId: string): seq<Note> {
    [Note(walletId + "-note-01", assetId, 14, Unspent),
     Note(walletId + "-note-02", assetId, 9, Pending),
     Note(walletId + "-note-03", assetId, 6, Spent)]
  }

  function Marked(spent: set<string>, notes: seq<Note>): (r: seq<Note>)
    ensures |r| == |notes|
    ensures forall i :: 0 <= i < |r| ==>
              r[i] == if notes[i].noteId in spent then notes[i].(status := Spent) else notes[i]
  {
    seq(|notes|, i requires 0 <= i < |notes| =>
      if notes[i].noteId in spent then notes[i].(status := Spent) else notes[i])
  }

  function Shown(notes: seq<Note>, includeSpent: bool): seq<Note> {
    if notes == [] then []
    else
      var init, last := notes[..|notes| - 1], notes[|notes| - 1];
      Shown(init, includeSpent) + if !includeSpent && last.status == Spent then [] else [last]
  }

  /** The notes a scan without a limit shows. */
  function AllShown(l: Ledger, walletId: string, assetId: string, includeSpent: bool): seq<Note> {
    Shown(Marked(SpentBy(l, walletId), BaseNotes(walletId, assetId)), includeSpent)
  }

  function FirstN(s: seq<Note>, n: nat): seq<Note> {
    if |s| <= n then s else s[..n]
  }

  class WalletService {
    const codec: Codec
    var transactions: map<string, Tx>
    var spentNotes: map<string, set<string>>

    function Abstract(): Ledger
      reads this
    {
      Ledger(transactions, spentNotes)
    }

    constructor (codec: Codec)
      ensures this.codec == codec && Abstract() == EMPTY_LEDGER
    {
      this.codec, transactions, spentNotes := codec, map[], map[];
    }

    method OpenPayload(wallet: string, submitted: Payload) returns (r: Result<(Payload, string)>)
      ensures r == Opened(codec, wallet, submitted)
    {
      var signed := codec.decodeSigned(submitted);
      if signed.None? || signed.value.unsignedTx == "" {
        return Ok((submitted, ""));
      }
      var signature := TrimSpace(signed.value.signature);
      if signature == "" {
        return Err(NoSignature);
      }
      if TrimSpace(signed.value.signedBy) != wallet {
        return Err(WalletMismatch);
      }
      return Ok((signed.value.unsignedTx, signature));
    }

    method CheckSubmission(wallet: string, submitted: Payload) returns (r: Result<(Payload, Tx)>)
      ensures r == AcceptedFor(codec, wallet, submitted)
    {
      if wallet == "" {
        return Err(NoWallet);
      }
      if submitted == "" {
        return Err(NoPayload);
      }
      var open := OpenPayload(wallet, submitted);
      if open.Err? {
        return Err(open.error);
      }
      var (txPayload, signature) := open.value;
      var spend := codec.decodeSpend(txPayload);
      if spend.None? {
        return Err(BadPayload);
      }
      if TrimSpace(spend.value.walletId) != wallet {
        return Err(WalletMismatch);
      }
      return Ok((txPayload, TxOf(codec, wallet, txPayload, spend.value, signature)));
    }

    /** The locked section: the transaction is filed, then each of its notes is marked. */
    method RecordTransaction(tx: Tx)
      modifies this
      ensures Abstract() == Record(old(Abstract()), tx)
    {
      transactions := transactions[tx.txId := tx];
      if tx.walletId !in spentNotes {
        spentNotes := spentNotes[tx.walletId := {}];
      }
      ghost var start, spent := spentNotes, SpentBy(old(Abstract()), tx.walletId);
      assert start[tx.walletId := spent] == start;
      assert spent + Notes(tx.inputNotes[..0]) == spent;
      for i := 0 to |tx.inputNotes|
        invariant transactions == old(transactions)[tx.txId := tx]
        invariant spentNotes == start[tx.walletId := spent + Notes(tx.inputNotes[..i])]
      {
        NotesGrow(tx.inputNotes, i);
        var marked := spentNotes[tx.walletId] + {tx.inputNotes[i]};
        assert marked == spent + Notes(tx.inputNotes[..i + 1]);
        spentNotes := spentNotes[tx.walletId := marked];
      }
      assert tx.inputNotes[..|tx.inputNotes|] == tx.inputNotes;
    }

    method SubmitTransaction(walletId: string, unsignedTx: Payload) returns (r: Result<Tx>)
      modifies this
      ensures match Accepted(codec, walletId, unsignedTx)
              case Err(e) => r == Err(e) && Abstract() == old(Abstract())
              case Ok((_, tx)) => r == Ok(tx) && Abstract() == Record(old(Abstract()), tx)
    {
      var checked := CheckSubmission(TrimSpace(walletId), unsignedTx);
      if checked.Err? {
        return Err(checked.error);
      }
      RecordTransaction(checked.value.1);
      return Ok(checked.value.1);
    }

    /** The loop that marks what the wallet has spent. */
    method MarkNotes(base: seq<Note>, spentByWallet: set<string>) returns (notes: seq<Note>)
      ensures notes == Marked(spentByWallet, base)
    {
      notes := base;
      for i := 0 to |base|
        invariant |notes| == |base|
        invariant forall j :: 0 <= j < |base| ==> notes[j] == if j < i then Marked(spentByWallet, base)[j] else base[j]
      {
        if notes[i].noteId in spentByWallet {
          notes := notes[i := notes[i].(status := Spent)];
        }
      }
    }

    /** The loop that filters, and stops when there are enough. */
    method FilterNotes(notes: seq<Note>, includeSpent: bool, max: nat) returns (filtered: seq<Note>)
      requires max > 0
      ensures filtered == FirstN(Shown(notes, includeSpent), max)
    {
      filtered := [];
      for i := 0 to |notes|
        invariant filtered == Shown(notes[..i], includeSpent) && |filtered| < max
      {
        ShownNext(notes, i, includeSpent);
        if !includeSpent && notes[i].status == Spent {
          continue;
        }
        filtered := filtered + [notes[i]];
        if |filtered| >= max {
          StoppedScan(notes, i + 1, includeSpent, max);
          return filtered;
        }
      }
      assert notes[..|notes|] == notes;
    }

    method ScanNotes(walletId: string, assetId: string, includeSpent: bool, limit: int) returns (r: Result<seq<Note>>)
      ensures var w, a := TrimSpace(walletId), TrimSpace(assetId);
              r == if w == "" then Err(NoWallet) else if a == "" then Err(NoAsset)
                   else Ok(FirstN(AllShown(Abstract(), w, a, includeSpent), if limit <= 0 then 25 else limit))
    {
      var wallet, asset := TrimSpace(walletId), TrimSpace(assetId);
      if wallet == "" {
        return Err(NoWallet);
      }
      if asset == "" {
        return Err(NoAsset);
      }
      var spentByWallet := if wallet in spentNotes then spentNotes[wallet] else {};
      var notes := MarkNotes(BaseNotes(wallet, asset), spentByWallet);
      var filtered := FilterNotes(notes, includeSpent, if limit <= 0 then 25 else limit);
      return Ok(filtered);
    }

    method GetTransactionStatus(walletId: string, txId: string) returns (r: Result<Tx>)
      ensures r == Status(Abstract(), walletId, txId)
    {
      var wallet, id := TrimSpace(walletId), TrimSpace(txId);
      if wallet == "" {
        return Err(NoWallet);
      }
      if id == "" {
        return Err(NoTransactionId);
      }
      if id !in transactions {
        return Err(NotFound);
      }
      if transactions[id].walletId != wallet {
        return Err(NotYours);
      }
      return Ok(transactions[id]);
    }
  }

  lemma NotesGrow(ns: seq<string>, i: nat)
    requires i < |ns|
    ensures Notes(ns[..i + 1]) == Notes(ns[..i]) + {ns[i]}
  {
    assert ns[..i + 1] == ns[..i] + [ns[i]];
  }

  lemma ShownNext(notes: seq<Note>, i: nat, includeSpent: bool)
    requires i < |notes|
    ensures Shown(notes[..i + 1], includeSpent) ==
            Shown(notes[..i], includeSpent) + if !includeSpent && notes[i].status == Spent then [] else [notes[i]]
  {
    assert notes[..i + 1][..i] == notes[..i];
  }

  lemma StoppedScan(notes: seq<Note>, k: nat, includeSpent: bool, max: nat)
    requires k <= |notes| && |Shown(notes[..k], includeSpent)| == max
    ensures FirstN(Shown(notes, includeSpent), max) == Shown(notes[..k], includeSpent)
  {
    ShownPrefix(notes, k, includeSpent);
  }

  lemma {:induction false} ShownPrefix(notes: seq<Note>, k: nat, includeSpent: bool)
    requires k <= |notes|
    ensures Shown(notes[..k], includeSpent) <= Shown(notes, includeSpent)
  {
    if k < |notes| {
      var init := notes[..|notes| - 1];
      ShownPrefix(init, k, includeSpent);
      assert init[..k] == notes[..k];
    } else {
      assert notes[..k] == notes;
    }
  }

  /** Every note shown is a marked one; with spent notes left out none of them is spent. */
  lemma {:induction false} ShownMembers(notes: seq<Note>, includeSpent: bool, n: Note)
    ensures n in Shown(notes, includeSpent) <==> n in notes && (includeSpent || n.status != Spent)
  {
    if notes != [] {
      ShownMembers(notes[..|notes| - 1], includeSpent, n);
      assert notes == notes[..|notes| - 1] + [notes[|notes| - 1]];
    }
  }

  /** A submitted note is never shown as unspent or pending again, with any limit. */
  lemma SubmittedNotesAreSpent(l: Ledger, walletId: string, assetId: string, includeSpent: bool, limit: nat, n: Note)
    requires n in FirstN(AllShown(l, walletId, assetId, includeSpent), limit)
    ensures n.noteId in SpentBy(l, walletId) ==> n.status == Spent && includeSpent
  {
    ShownMembers(Marked(SpentBy(l, walletId), BaseNotes(walletId, assetId)), includeSpent, n);
  }

  // ---- Runs ----

  datatype Submission = Submission(walletId: string, payload: Payload)

  function Run(c: Codec, subs: seq<Submission>): Ledger {
    if subs == [] then EMPTY_LEDGER
    else
      var l, s := Run(c, subs[..|subs| - 1]), subs[|subs| - 1];
      match Accepted(c, s.walletId, s.payload)
      case Err(_) => l
      case Ok((_, tx)) => Record(l, tx)
  }

  /** The payload that a submission of the run spends, if it is accepted. */
  function Spends(c: Codec, s: Submission): Option<Payload> {
    match Accepted(c, s.walletId, s.payload)
    case Err(_) => None
    case Ok((payload, _)) => Some(payload)
  }

  /** No two accepted submissions spend different payloads with one transaction id. */
  ghost predicate DistinctIds(c: Codec, subs: seq<Submission>) {
    forall i, j :: 0 <= i < j < |subs| && Spends(c, subs[i]).Some? && Spends(c, subs[j]).Some? &&
                   c.txId(Spends(c, subs[i]).value) == c.txId(Spends(c, subs[j]).value) ==>
                     Spends(c, subs[i]) == Spends(c, subs[j])
  }

  /** The input notes of the transactions recorded for a wallet. */
  function RecordedNotes(l: Ledger, walletId: string): set<string> {
    set id, n | id in l.transactions && l.transactions[id].walletId == walletId
      && n in l.transactions[id].inputNotes :: n
  }

  lemma RecordedAreSpent(l: Ledger, tx: Tx, w: string)
    requires forall v :: RecordedNotes(l, v) <= SpentBy(l, v)
    ensures RecordedNotes(Record(l, tx), w) <= SpentBy(Record(l, tx), w)
    ensures SpentBy(l, w) <= SpentBy(Record(l, tx), w)
    ensures w != tx.walletId ==> SpentBy(Record(l, tx), w) == SpentBy(l, w)
  {
    var l' := Record(l, tx);
    forall n | n in RecordedNotes(l', w) ensures n in SpentBy(l', w) {
      var id :| id in l'.transactions && l'.transactions[id].walletId == w && n in l'.transactions[id].inputNotes;
      if id != tx.txId {
        assert l.transactions[id].walletId == w;
        assert n in RecordedNotes(l, w);
      }
    }
  }

  /** Over every run a wallet's spent notes include the notes of its recorded transactions. */
  lemma {:induction false} SpentCoversRecorded(c: Codec, subs: seq<Submission>, w: string)
    ensures RecordedNotes(Run(c, subs), w) <= SpentBy(Run(c, subs), w)
  {
    if subs != [] {
      var before := subs[..|subs| - 1];
      forall v ensures RecordedNotes(Run(c, before), v) <= SpentBy(Run(c, before), v) {
        SpentCoversRecorded(c, before, v);
      }
      match Accepted(c, subs[|subs| - 1].walletId, subs[|subs| - 1].payload)
      case Err(_) =>
      case Ok((_, tx)) => RecordedAreSpent(Run(c, before), tx, w);
    }
  }

  /** Spent notes only grow, and a submission leaves every other wallet's alone. */
  lemma SpentGrows(c: Codec, subs: seq<Submission>, s: Submission, w: string)
    ensures SpentBy(Run(c, subs), w) <= SpentBy(Run(c, subs + [s]), w)
    ensures w != TrimSpace(s.walletId) ==> SpentBy(Run(c, subs + [s]), w) == SpentBy(Run(c, subs), w)
  {
    assert (subs + [s])[..|subs|] == subs;
  }

  /** Every recorded transaction is the one that some accepted submission of its payload records. */
  lemma {:induction false} RecordedComesFrom(c: Codec, subs: seq<Submission>, id: string) returns (i: nat)
    requires id in Run(c, subs).transactions
    ensures i < |subs| && Accepted(c, subs[i].walletId, subs[i].payload).Ok?
    ensures Accepted(c, subs[i].walletId, subs[i].payload).value.1 == Run(c, subs).transactions[id]
    ensures Run(c, subs).transactions[id].txId == id
  {
    var before, s := subs[..|subs| - 1], subs[|subs| - 1];
    match Accepted(c, s.walletId, s.payload) {
      case Ok((_, tx)) =>
        if tx.txId == id {
          return |subs| - 1;
        }
      case Err(_) =>
    }
    i := RecordedComesFrom(c, before, id);
    assert before[i] == subs[i];
  }

  lemma SamePayloadSameTx(c: Codec, s: Submission, t: Submission)
    requires Spends(c, s).Some? && Spends(c, s) == Spends(c, t)
    ensures var a, b := Accepted(c, s.walletId, s.payload).value.1, Accepted(c, t.walletId, t.payload).value.1;
            a.(signature := b.signature) == b
  {
  }

  /** Recording a transaction keeps every note a recorded transaction of the wallet lists. */
  lemma StillRecorded(c: Codec, subs: seq<Submission>, s: Submission, w: string, id: string, n: string)
    requires DistinctIds(c, subs + [s]) && Accepted(c, s.walletId, s.payload).Ok?
    requires id in Run(c, subs).transactions
    requires Run(c, subs).transactions[id].walletId == w && n in Run(c, subs).transactions[id].inputNotes
    ensures n in RecordedNotes(Record(Run(c, subs), Accepted(c, s.walletId, s.payload).value.1), w)
  {
    var l, tx := Run(c, subs), Accepted(c, s.walletId, s.payload).value.1;
    var l' := Record(l, tx);
    if id == tx.txId {
      var i := RecordedComesFrom(c, subs, id);
      var more := subs + [s];
      assert more[i] == subs[i] && more[|subs|] == s;
      PayloadOf(c, subs[i]);
      PayloadOf(c, s);
      SamePayloadSameTx(c, subs[i], s);
      assert l'.transactions[id] == tx;
    } else {
      assert l'.transactions[id] == l.transactions[id];
    }
  }

  lemma PayloadOf(c: Codec, s: Submission)
    requires Accepted(c, s.walletId, s.payload).Ok?
    ensures Spends(c, s).Some? && Accepted(c, s.walletId, s.payload).value.1.txId == c.txId(Spends(c, s).value)
  {
  }

  lemma RecordKeepsExact(c: Codec, subs: seq<Submission>, s: Submission, w: string)
    requires DistinctIds(c, subs + [s]) && Accepted(c, s.walletId, s.payload).Ok?
    requires SpentBy(Run(c, subs), w) == RecordedNotes(Run(c, subs), w)
    ensures var tx := Accepted(c, s.walletId, s.payload).value.1;
            SpentBy(Record(Run(c, subs), tx), w) <= RecordedNotes(Record(Run(c, subs), tx), w)
  {
    var l, tx := Run(c, subs), Accepted(c, s.walletId, s.payload).value.1;
    var l' := Record(l, tx);
    forall n | n in SpentBy(l', w) ensures n in RecordedNotes(l', w) {
      if n in SpentBy(l, w) {
        var id :| id in l.transactions && l.transactions[id].walletId == w && n in l.transactions[id].inputNotes;
        StillRecorded(c, subs, s, w, id, n);
      } else {
        JustRecorded(l, tx, w, n);
      }
    }
  }

  lemma JustRecorded(l: Ledger, tx: Tx, w: string, n: string)
    requires n in SpentBy(Record(l, tx), w) && n !in SpentBy(l, w)
    ensures n in RecordedNotes(Record(l, tx), w)
  {
    assert w == tx.walletId && n in tx.inputNotes;
    assert Record(l, tx).transactions[tx.txId] == tx;
  }

  /**
    As long as different payloads have different transaction ids, in every reachable ledger a wallet's
    spent notes are exactly the input notes of the transactions recorded for it.
   */
  lemma {:induction false} SpentIsRecorded(c: Codec, subs: seq<Submission>, w: string)
    requires DistinctIds(c, subs)
    ensures SpentBy(Run(c, subs), w) == RecordedNotes(Run(c, subs), w)
  {
    if subs != [] {
      var before, s := subs[..|subs| - 1], subs[|subs| - 1];
      assert DistinctIds(c, before) by {
        assert forall i :: 0 <= i < |before| ==> before[i] == subs[i];
      }
      SpentIsRecorded(c, before, w);
      SpentCoversRecorded(c, subs, w);
      assert before + [s] == subs;
      if Accepted(c, s.walletId, s.payload).Ok? {
        RecordKeepsExact(c, before, s, w);
      }
    }
  }

  // ---- From building to looking up ----

  lemma TrimTwice(s: string)
    ensures TrimSpace(TrimSpace(s)) == TrimSpace(s)
  {
    TrimmedExactly(s, IsSpace);
    TrimmedExactly(TrimSpace(s), IsSpace);
  }

  lemma SignatureIsThere(text: string)
    ensures TrimSpace("sig-" + text) != ""
  {
    var s := "sig-" + text;
    assert TrimStart(s, IsSpace) == s;
    EndStays(s, IsSpace);
  }

  lemma {:induction false} EndStays(s: string, isSpace: char -> bool)
    requires s != "" && !isSpace(s[0])
    ensures TrimEnd(s, isSpace) != ""
  {
    if isSpace(s[|s| - 1]) {
      EndStays(s[..|s| - 1], isSpace);
    }
  }

  /** The transaction that a built request should become, with a signature. */
  function BuiltTx(c: Codec, req: Spend, signature: string): Tx {
    Tx(c.txId(c.encodeSpend(Trimmed(req))), TrimSpace(req.walletId), TrimSpace(req.assetId), req.amount, req.fee,
       req.inputNotes, Add64(req.amount, req.fee), signature)
  }

  /** The request was built and signed for its wallet, and its transaction id can be asked for. */
  predicate Prepared(c: Codec, verifiers: map<string, WalletGuard.Verifier>, threshold: int, req: Spend,
                     assertions: seq<WalletGuard.Assertion>) {
    && BuildSpendTransaction(c, req).Ok?
    && var payload := BuildSpendTransaction(c, req).value;
       && SignTransaction(c, verifiers, threshold, req.walletId, payload, assertions).Ok?
       && IsTrimmed(c.txId(payload), IsSpace) && c.txId(payload) != ""
  }

  function SignatureFor(c: Codec, req: Spend): string {
    "sig-" + c.signatureOf(c.encodeSpend(Trimmed(req)) + "|" + TrimSpace(req.walletId))
  }

  lemma PreparedIsAccepted(c: Codec, verifiers: map<string, WalletGuard.Verifier>, threshold: int, req: Spend,
                           assertions: seq<WalletGuard.Assertion>)
    requires RoundTrips(c) && Prepared(c, verifiers, threshold, req, assertions)
    ensures var payload := BuildSpendTransaction(c, req).value;
            var signed := SignTransaction(c, verifiers, threshold, req.walletId, payload, assertions).value;
            Accepted(c, req.walletId, signed) == Ok((payload, BuiltTx(c, req, TrimSpace(SignatureFor(c, req)))))
  {
    TrimTwice(req.walletId);
    var payload, wallet := BuildSpendTransaction(c, req).value, TrimSpace(req.walletId);
    assert payload != "" && c.decodeSpend(payload) == Some(Trimmed(req));
    SignatureIsThere(c.signatureOf(payload + "|" + wallet));
    var s := Signed(payload, SignatureFor(c, req), wallet);
    assert c.encodeSigned(s) != "" && c.decodeSigned(c.encodeSigned(s)) == Some(s);
    SignedOpens(c, wallet, c.encodeSigned(s), s);
    OpenedIsAccepted(c, wallet, c.encodeSigned(s), payload, TrimSpace(s.signature), Trimmed(req));
  }

  lemma SignedOpens(c: Codec, wallet: string, submitted: Payload, s: Signed)
    requires c.decodeSigned(submitted) == Some(s) && s.unsignedTx != "" && TrimSpace(s.signature) != ""
    requires TrimSpace(s.signedBy) == wallet
    ensures Opened(c, wallet, submitted) == Ok((s.unsignedTx, TrimSpace(s.signature)))
  {
  }

  lemma OpenedIsAccepted(c: Codec, wallet: string, submitted: Payload, payload: Payload, signature: string,
                         spend: Spend)
    requires wallet != "" && submitted != "" && Opened(c, wallet, submitted) == Ok((payload, signature))
    requires c.decodeSpend(payload) == Some(spend) && TrimSpace(spend.walletId) == wallet
    ensures AcceptedFor(c, wallet, submitted) == Ok((payload, TxOf(c, wallet, payload, spend, signature)))
  {
  }

  lemma StatusOfBuilt(c: Codec, req: Spend, l: Ledger, tx: Tx)
    requires tx.walletId == TrimSpace(req.walletId) && tx.txId in l.transactions && l.transactions[tx.txId] == tx
    requires IsTrimmed(tx.txId, IsSpace) && tx.txId != "" && tx.walletId != ""
    ensures Status(l, req.walletId, tx.txId) == Ok(tx)
  {
    TrimmedExactly(tx.txId, IsSpace);
  }

  /**
    A transaction that was built, signed and submitted for its wallet is accepted, and its status shows
    the fields it was built with.
   */
  lemma {:induction false} BuiltIsShown(c: Codec, verifiers: map<string, WalletGuard.Verifier>, threshold: int,
                                        req: Spend, assertions: seq<WalletGuard.Assertion>, l: Ledger)
    requires RoundTrips(c) && Prepared(c, verifiers, threshold, req, assertions)
    ensures var payload := BuildSpendTransaction(c, req).value;
            var signed := SignTransaction(c, verifiers, threshold, req.walletId, payload, assertions).value;
            var tx := BuiltTx(c, req, TrimSpace(SignatureFor(c, req)));
            && Accepted(c, req.walletId, signed) == Ok((payload, tx))
            && Status(Record(l, tx), req.walletId, tx.txId) == Ok(tx)
  {
    PreparedIsAccepted(c, verifiers, threshold, req, assertions);
    var tx := BuiltTx(c, req, TrimSpace(SignatureFor(c, req)));
    StatusOfBuilt(c, req, Record(l, tx), tx);
  }

  /** Signing is not asked for: what was built is accepted as it is, with no signature. */
  lemma UnsignedIsAccepted(c: Codec, req: Spend)
    requires RoundTrips(c) && BuildSpendTransaction(c, req).Ok?
    ensures var a := Accepted(c, req.walletId, BuildSpendTransaction(c, req).value);
            a.Ok? && a.value.1.signature == "" && a.value.1.inputNotes == req.inputNotes
              && a.value.1.amount == req.amount
  {
    TrimTwice(req.walletId);
    var payload := BuildSpendTransaction(c, req).value;
    assert c.decodeSpend(payload) == Some(Trimmed(req));
    assert payload == c.encodeSpend(Trimmed(req));
  }

  /**
    A payload can be signed, with some assertions, exactly when it is a spend of that wallet and as many
    factors as the threshold can be satisfied for the wallet, the amount and the asset of the payload itself.
   */
  lemma SignableExactly(c: Codec, verifiers: map<string, WalletGuard.Verifier>, threshold: int, walletId: string,
                        unsignedTx: Payload)
    ensures (exists assertions :: SignTransaction(c, verifiers, threshold, walletId, unsignedTx, assertions).Ok?) <==>
              && TrimSpace(walletId) != "" && unsignedTx != "" && c.decodeSpend(unsignedTx).Some?
              && var spend := c.decodeSpend(unsignedTx).value;
                 && TrimSpace(spend.walletId) == TrimSpace(walletId) && spend.assetId != "" && spend.amount != 0
                 && |WalletGuard.SatisfiableFactors(verifiers,
                       WalletGuard.SpendIntent(TrimSpace(walletId), spend.amount, spend.assetId))| >= threshold
  {
    if c.decodeSpend(unsignedTx).Some? {
      var spend := c.decodeSpend(unsignedTx).value;
      var intent := WalletGuard.SpendIntent(TrimSpace(walletId), spend.amount, spend.assetId);
      WalletGuard.ReachableExactly(verifiers, intent, threshold);
      if assertions :| |WalletGuard.ApprovedFactors(verifiers, intent, assertions)| >= threshold {
        var signed := SignTransaction(c, verifiers, threshold, walletId, unsignedTx, assertions);
        assert signed.Ok? <==> TrimSpace(walletId) != "" && unsignedTx != "" && WalletGuard.IsIntent(intent)
                               && TrimSpace(spend.walletId) == TrimSpace(walletId);
      }
    }
  }

  // ---- Status after more submissions ----

  predicate Files(c: Codec, s: Submission, id: string) {
    Accepted(c, s.walletId, s.payload).Ok? && Accepted(c, s.walletId, s.payload).value.1.txId == id
  }

  /** The signature of the last accepted submission of a transaction: resubmitting replaces it. */
  function LastSignature(c: Codec, subs: seq<Submission>, id: string): string {
    if subs == [] then ""
    else
      var s := subs[|subs| - 1];
      if Files(c, s, id) then Accepted(c, s.walletId, s.payload).value.1.signature
      else LastSignature(c, subs[..|subs| - 1], id)
  }

  /**
    In every reachable ledger, as long as different payloads have different ids, an accepted transaction
    is on file with the fields of its submission, whatever was submitted before or after; its signature
    is that of the last submission of the same payload.
   */
  lemma {:induction false} StatusAfterRun(c: Codec, subs: seq<Submission>, i: nat)
    requires DistinctIds(c, subs) && i < |subs| && Accepted(c, subs[i].walletId, subs[i].payload).Ok?
    ensures var tx := Accepted(c, subs[i].walletId, subs[i].payload).value.1;
            && tx.txId in Run(c, subs).transactions
            && Run(c, subs).transactions[tx.txId] == tx.(signature := LastSignature(c, subs, tx.txId))
  {
    var m, before := |subs| - 1, subs[..|subs| - 1];
    var tx := Accepted(c, subs[i].walletId, subs[i].payload).value.1;
    if Files(c, subs[m], tx.txId) {
      SameIdSameTx(c, subs, i, m);
    } else {
      assert before[i] == subs[i];
      DistinctBefore(c, subs);
      StatusAfterRun(c, before, i);
      OthersOnFile(c, Run(c, before), subs[m], tx.txId);
    }
  }

  lemma DistinctBefore(c: Codec, subs: seq<Submission>)
    requires DistinctIds(c, subs) && subs != []
    ensures DistinctIds(c, subs[..|subs| - 1])
  {
    var before := subs[..|subs| - 1];
    assert forall j :: 0 <= j < |before| ==> before[j] == subs[j];
  }

  lemma SameIdSameTx(c: Codec, subs: seq<Submission>, i: nat, j: nat)
    requires DistinctIds(c, subs) && i <= j < |subs| && Accepted(c, subs[i].walletId, subs[i].payload).Ok?
    requires Files(c, subs[j], Accepted(c, subs[i].walletId, subs[i].payload).value.1.txId)
    ensures var a, b := Accepted(c, subs[i].walletId, subs[i].payload).value.1,
                        Accepted(c, subs[j].walletId, subs[j].payload).value.1;
            a.(signature := b.signature) == b
  {
    PayloadOf(c, subs[i]);
    PayloadOf(c, subs[j]);
    assert i < j ==> Spends(c, subs[i]) == Spends(c, subs[j]);
    SamePayloadSameTx(c, subs[i], subs[j]);
  }

  lemma OthersOnFile(c: Codec, l: Ledger, s: Submission, id: string)
    requires id in l.transactions && !Files(c, s, id)
    ensures var l' := match Accepted(c, s.walletId, s.payload) case Err(_) => l case Ok((_, tx)) => Record(l, tx);
            id in l'.transactions && l'.transactions[id] == l.transactions[id]
  {
  }

  /** What was built, signed and submitted at any point of a run keeps the fields it was built with. */
  lemma {:induction false} BuiltStaysShown(c: Codec, verifiers: map<string, WalletGuard.Verifier>, threshold: int,
                                           req: Spend,
                                           assertions: seq<WalletGuard.Assertion>, subs: seq<Submission>, i: nat)
    requires RoundTrips(c) && Prepared(c, verifiers, threshold, req, assertions) && DistinctIds(c, subs) && i < |subs|
    requires var payload := BuildSpendTransaction(c, req).value;
             var signed := SignTransaction(c, verifiers, threshold, req.walletId, payload, assertions).value;
             subs[i] == Submission(req.walletId, signed)
    ensures var tx := BuiltTx(c, req, LastSignature(c, subs, c.txId(BuildSpendTransaction(c, req).value)));
            Status(Run(c, subs), req.walletId, tx.txId) == Ok(tx)
  {
    PreparedIsAccepted(c, verifiers, threshold, req, assertions);
    ShownInRun(c, req, subs, i, BuildSpendTransaction(c, req).value, TrimSpace(SignatureFor(c, req)));
  }

  lemma ShownInRun(c: Codec, req: Spend, subs: seq<Submission>, i: nat, payload: Payload, signature: string)
    requires DistinctIds(c, subs) && i < |subs| && TrimSpace(req.walletId) != ""
    requires Accepted(c, subs[i].walletId, subs[i].payload) == Ok((payload, BuiltTx(c, req, signature)))
    requires var id := BuiltTx(c, req, signature).txId; IsTrimmed(id, IsSpace) && id != ""
    ensures var id := BuiltTx(c, req, signature).txId;
            Status(Run(c, subs), req.walletId, id) == Ok(BuiltTx(c, req, LastSignature(c, subs, id)))
  {
    StatusAfterRun(c, subs, i);
    var id := BuiltTx(c, req, signature).txId;
    StatusOfBuilt(c, req, Run(c, subs), BuiltTx(c, req, LastSignature(c, subs, id)));
  }

  /** An unsigned resubmission of a payload erases the signature on file. */
  lemma {:induction false} ResubmissionErasesSignature(c: Codec, subs: seq<Submission>, req: Spend)
    requires RoundTrips(c) && BuildSpendTransaction(c, req).Ok?
    ensures var payload := BuildSpendTransaction(c, req).value;
            var after := Run(c, subs + [Submission(req.walletId, payload)]);
            && c.txId(payload) in after.transactions && after.transactions[c.txId(payload)].signature == ""
  {
    UnsignedIsAccepted(c, req);
    var s := Submission(req.walletId, BuildSpendTransaction(c, req).value);
    assert (subs + [s])[..|subs|] == subs;
  }

  // ---- Notes spent twice ----

  /** No note is an input of two transactions on file for the wallet. */
  predicate SpentOnce(l: Ledger, w: string) {
    forall a, b :: a in l.transactions && b in l.transactions && a != b
                   && l.transactions[a].walletId == w && l.transactions[b].walletId == w ==>
                     Disjoint(l.transactions[a].inputNotes, l.transactions[b].inputNotes)
  }

  predicate Disjoint(ns: seq<string>, ms: seq<string>) {
    forall n :: n in ns ==> n !in ms
  }

  /** Two accepted submissions of the wallet, with different payloads, list a common note. */
  predicate Clash(c: Codec, s: Submission, t: Submission, w: string) {
    && Accepted(c, s.walletId, s.payload).Ok? && Accepted(c, t.walletId, t.payload).Ok?
    && var a, b := Accepted(c, s.walletId, s.payload).value, Accepted(c, t.walletId, t.payload).value;
       a.1.walletId == w && b.1.walletId == w && a.0 != b.0 && !Disjoint(a.1.inputNotes, b.1.inputNotes)
  }

  lemma ClashingAreOnFile(c: Codec, subs: seq<Submission>, i: nat, j: nat, w: string)
    requires DistinctIds(c, subs) && i < j < |subs| && Clash(c, subs[i], subs[j], w)
    ensures !SpentOnce(Run(c, subs), w)
  {
    StatusAfterRun(c, subs, i);
    StatusAfterRun(c, subs, j);
    PayloadOf(c, subs[i]);
    PayloadOf(c, subs[j]);
    var l := Run(c, subs);
    var a := Accepted(c, subs[i].walletId, subs[i].payload).value.1;
    var b := Accepted(c, subs[j].walletId, subs[j].payload).value.1;
    assert a.txId != b.txId;
    assert l.transactions[a.txId].inputNotes == a.inputNotes && l.transactions[b.txId].inputNotes == b.inputNotes;
  }

  lemma OnFileClash(c: Codec, subs: seq<Submission>, a: string, b: string, w: string) returns (i: nat, j: nat)
    requires var l := Run(c, subs);
             && a in l.transactions && b in l.transactions && a != b
             && l.transactions[a].walletId == w && l.transactions[b].walletId == w
             && !Disjoint(l.transactions[a].inputNotes, l.transactions[b].inputNotes)
    ensures i < j < |subs| && Clash(c, subs[i], subs[j], w)
  {
    var x := RecordedComesFrom(c, subs, a);
    var y := RecordedComesFrom(c, subs, b);
    PayloadOf(c, subs[x]);
    PayloadOf(c, subs[y]);
    ClashBothWays(c, subs[x], subs[y], w);
    if x < y {
      i, j := x, y;
    } else {
      i, j := y, x;
    }
  }

  lemma ClashBothWays(c: Codec, s: Submission, t: Submission, w: string)
    ensures Clash(c, s, t, w) ==> Clash(c, t, s, w)
  {
  }

  /**
    Submitting never looks at what is spent: in a reachable ledger, with different ids for different
    payloads, no note of a wallet is spent by two of its transactions exactly when no accepted submission
    lists a note that an earlier one of the wallet listed with another payload.
   */
  lemma {:induction false} SpentOnceExactly(c: Codec, subs: seq<Submission>, w: string)
    requires DistinctIds(c, subs)
    ensures SpentOnce(Run(c, subs), w) <==> forall i, j :: 0 <= i < j < |subs| ==> !Clash(c, subs[i], subs[j], w)
  {
    if i, j :| 0 <= i < j < |subs| && Clash(c, subs[i], subs[j], w) {
      ClashingAreOnFile(c, subs, i, j, w);
    } else if !SpentOnce(Run(c, subs), w) {
      var l := Run(c, subs);
      var a, b :| a in l.transactions && b in l.transactions && a != b
                  && l.transactions[a].walletId == w && l.transactions[b].walletId == w
                  && !Disjoint(l.transactions[a].inputNotes, l.transactions[b].inputNotes);
      var i, j := OnFileClash(c, subs, a, b, w);
    }
  }

  /** The run that spends a note twice: one note, one unit, to two recipients. */
  lemma NoteSpentTwice(c: Codec, note: string)
    requires RoundTrips(c)
    requires c.txId(c.encodeSpend(Spend("w", "r", "a", 1, 0, [note])))
          != c.txId(c.encodeSpend(Spend("w", "s", "a", 1, 0, [note])))
    ensures var s := Submission("w", c.encodeSpend(Spend("w", "r", "a", 1, 0, [note])));
            var t := Submission("w", c.encodeSpend(Spend("w", "s", "a", 1, 0, [note])));
            && Accepted(c, s.walletId, s.payload).Ok? && Accepted(c, t.walletId, t.payload).Ok?
            && !SpentOnce(Run(c, [s, t]), "w")
  {
    var x, y := Spend("w", "r", "a", 1, 0, [note]), Spend("w", "s", "a", 1, 0, [note]);
    var s, t := Submission("w", c.encodeSpend(x)), Submission("w", c.encodeSpend(y));
    TrimmedExactly("w", IsSpace);
    UnsignedAccepted(c, x);
    UnsignedAccepted(c, y);
    assert note in x.inputNotes && note in y.inputNotes;
    var subs := [s, t];
    assert subs[0] == s && subs[1] == t && Clash(c, subs[0], subs[1], "w");
    ClashingAreOnFile(c, subs, 0, 1, "w");
  }

  lemma UnsignedAccepted(c: Codec, spend: Spend)
    requires RoundTrips(c) && spend.walletId != "" && TrimSpace(spend.walletId) == spend.walletId
    ensures var payload := c.encodeSpend(spend);
            Accepted(c, spend.walletId, payload) == Ok((payload, TxOf(c, spend.walletId, payload, spend, "")))
  {
    var payload := c.encodeSpend(spend);
    assert c.decodeSpend(payload) == Some(spend);
    assert Opened(c, spend.walletId, payload) == Ok((payload, ""));
  }
}
