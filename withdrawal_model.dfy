/** The Withdrawal record and the constraints of its Mongoose schema. */
module WithdrawalModel {
  import opened Common

  /** The `status` enum of a Withdrawal. */
  datatype Status = Pending | Confirmed | Failed

  /** The value the schema gives `status` when a document leaves it out. */
  const DEFAULT_STATUS: Status := Pending

  /**
   * One Withdrawal document. `amount` is in base units (wei or lamports).
   * `confirmedAt` only records whether that timestamp has been set.
   */
  datatype Withdrawal = Withdrawal(
    user: UserId,
    txHash: string,
    amount: int,
    currency: Currency,
    status: Status,
    fromAddress: string,
    toAddress: string,
    slot: Option<nat>,
    blockNumber: Option<nat>,
    confirmedAt: bool)

  /** Builds a document the way the model constructor does: a missing `status` takes the default. */
  function New(user: UserId, txHash: string, amount: int, currency: Currency, status: Option<Status>,
               fromAddress: string, toAddress: string, slot: Option<nat>, blockNumber: Option<nat>,
               confirmedAt: bool): (w: Withdrawal)
    ensures status.None? ==> w.status == DEFAULT_STATUS
    ensures status.Some? ==> w.status == status.value
    ensures w.user == user && w.txHash == txHash && w.amount == amount && w.currency == currency
    ensures w.fromAddress == fromAddress && w.toAddress == toAddress
    ensures w.slot == slot && w.blockNumber == blockNumber && w.confirmedAt == confirmedAt
  {
    Withdrawal(user, txHash, amount, currency, if status.Some? then status.value else DEFAULT_STATUS,
               fromAddress, toAddress, slot, blockNumber, confirmedAt)
  }

  /** The `required` String paths are non-empty (a required String rejects ""). */
  predicate Valid(w: Withdrawal) {
    w.txHash != "" && w.fromAddress != "" && w.toAddress != ""
  }

  /** At most one Withdrawal per txHash, stored under its own txHash, each passing the schema. */
  predicate Keyed(c: map<string, Withdrawal>) {
    forall h :: h in c ==> c[h].txHash == h && Valid(c[h])
  }

  /** `save()` of a new document: validation first, then the unique index on txHash. */
  function Insert(c: map<string, Withdrawal>, w: Withdrawal): (r: Result<map<string, Withdrawal>, StoreError>)
    ensures r.Success? <==> Valid(w) && w.txHash !in c
    ensures r.Failure? && Valid(w) ==> r.error == DuplicateKey(w.txHash)
    ensures r.Failure? && !Valid(w) ==> r.error.RequiredPathMissing?
    ensures r.Success? ==> r.value.Keys == c.Keys + {w.txHash} && r.value[w.txHash] == w
    ensures r.Success? ==> forall h :: h in c ==> r.value[h] == c[h]
    ensures r.Success? && Keyed(c) ==> Keyed(r.value)
  {
    if w.txHash == "" then Failure(RequiredPathMissing("txHash"))
    else if w.fromAddress == "" then Failure(RequiredPathMissing("fromAddress"))
    else if w.toAddress == "" then Failure(RequiredPathMissing("toAddress"))
    else if w.txHash in c then Failure(DuplicateKey(w.txHash))
    else Success(c[w.txHash := w])
  }

  /** The status changes a stored Withdrawal can go through: none, or out of pending. */
  predicate Transition(before: Status, after: Status) {
    before == after || before == Pending
  }

  /** The fields the scanner and the reconciler set when they confirm a Withdrawal. */
  function Confirm(w: Withdrawal, slot: Option<nat>): (e: Withdrawal)
    ensures e.status == Confirmed && e.confirmedAt
    ensures e.slot == (if slot.Some? then slot else w.slot)
    ensures e.(status := w.status, confirmedAt := w.confirmedAt, slot := w.slot) == w
    ensures Valid(w) ==> Valid(e)
  {
    w.(status := Confirmed, confirmedAt := true, slot := if slot.Some? then slot else w.slot)
  }

  /** The only field the reconciler sets when a Withdrawal's transaction cannot be found. */
  function Fail(w: Withdrawal): (e: Withdrawal)
    ensures e.status == Failed && e.(status := w.status) == w
    ensures Valid(w) ==> Valid(e)
  {
    w.(status := Failed)
  }

  /** The `find` filter `{ status: "pending" }`, with `currency` added when `only` is given. */
  predicate Selected(w: Withdrawal, only: Option<Currency>) {
    w.status == Pending && (only.None? || w.currency == only.value)
  }

  /**
   * `docs` is what `find` returns for that filter: every matching document of
   * `c` exactly once, as stored, in an order the model leaves open.
   */
  ghost predicate Snapshot(c: map<string, Withdrawal>, only: Option<Currency>, docs: seq<Withdrawal>) {
    && (forall i :: 0 <= i < |docs| ==> docs[i].txHash in c && c[docs[i].txHash] == docs[i] && Selected(docs[i], only))
    && (forall i, j :: 0 <= i < j < |docs| ==> docs[i].txHash != docs[j].txHash)
    && (forall h :: h in c && Selected(c[h], only) ==> exists i :: 0 <= i < |docs| && docs[i].txHash == h)
  }

  /** `docs` lists pending records of `c`, each exactly as stored and each txHash once. */
  predicate Listed(c: map<string, Withdrawal>, docs: seq<Withdrawal>) {
    && (forall i :: 0 <= i < |docs| ==> docs[i].txHash in c && c[docs[i].txHash] == docs[i] && docs[i].status == Pending)
    && (forall i, j :: 0 <= i < j < |docs| ==> docs[i].txHash != docs[j].txHash)
  }

  /** The txHashes of a list of documents. */
  function Hashes(docs: seq<Withdrawal>): set<string> {
    set i | 0 <= i < |docs| :: docs[i].txHash
  }

  /** The unique index is on txHash alone: a second currency cannot reuse a stored txHash. */
  lemma UniqueOnTxHashAlone(c: map<string, Withdrawal>, w: Withdrawal, e: Withdrawal)
    requires Insert(c, w).Success?
    requires e.txHash == w.txHash && e.currency != w.currency
    ensures Insert(Insert(c, w).value, e).Failure?
    ensures Valid(e) ==> Insert(Insert(c, w).value, e).error == DuplicateKey(e.txHash)
  {
  }

  /** Allowed transitions compose: pending can move on once, and a final status stays put. */
  lemma TransitionTransitive(a: Status, b: Status, c: Status)
    requires Transition(a, b) && Transition(b, c)
    ensures Transition(a, c)
  {
  }
}
