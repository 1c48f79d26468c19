/** The Deposit record and the constraints of its Mongoose schema. */
module DepositModel {
  import opened Common

  /** The `status` enum of a Deposit. */
  datatype Status = Pending | Confirmed

  /** The value the schema gives `status` when a document leaves it out. */
  const DEFAULT_STATUS: Status := Pending

  /**
   * One Deposit document. `amount` is in base units (wei or lamports).
   * `confirmedAt` only records whether that timestamp has been set: the
   * clock is not modelled, and neither is `createdAt`.
   */
  datatype Deposit = Deposit(
    user: UserId,
    txHash: string,
    amount: int,
    currency: Currency,
    status: Status,
    toAddress: string,
    slot: Option<nat>,
    blockNumber: Option<nat>,
    confirmedAt: bool)

  /**
   * Builds a document the way the model constructor does: a missing
   * `status` takes the schema default.
   */
  function New(user: UserId, txHash: string, amount: int, currency: Currency, status: Option<Status>,
               toAddress: string, slot: Option<nat>, blockNumber: Option<nat>, confirmedAt: bool): (d: Deposit)
    ensures status.None? ==> d.status == DEFAULT_STATUS
    ensures status.Some? ==> d.status == status.value
    ensures d.user == user && d.txHash == txHash && d.amount == amount && d.currency == currency
    ensures d.toAddress == toAddress && d.slot == slot && d.blockNumber == blockNumber && d.confirmedAt == confirmedAt
  {
    Deposit(user, txHash, amount, currency, if status.Some? then status.value else DEFAULT_STATUS,
            toAddress, slot, blockNumber, confirmedAt)
  }

  /** The `required` String paths are non-empty (a required String rejects ""). */
  predicate Valid(d: Deposit) {
    d.txHash != "" && d.toAddress != ""
  }

  /** At most one Deposit per txHash, stored under its own txHash, each passing the schema. */
  predicate Keyed(c: map<string, Deposit>) {
    forall h :: h in c ==> c[h].txHash == h && Valid(c[h])
  }

  /** `save()` of a new document: validation first, then the unique index on txHash. */
  function Insert(c: map<string, Deposit>, d: Deposit): (r: Result<map<string, Deposit>, StoreError>)
    ensures r.Success? <==> Valid(d) && d.txHash !in c
    ensures r.Failure? && Valid(d) ==> r.error == DuplicateKey(d.txHash)
    ensures r.Failure? && !Valid(d) ==> r.error.RequiredPathMissing?
    ensures r.Success? ==> r.value.Keys == c.Keys + {d.txHash} && r.value[d.txHash] == d
    ensures r.Success? ==> forall h :: h in c ==> r.value[h] == c[h]
    ensures r.Success? && Keyed(c) ==> Keyed(r.value)
  {
    if d.txHash == "" then Failure(RequiredPathMissing("txHash"))
    else if d.toAddress == "" then Failure(RequiredPathMissing("toAddress"))
    else if d.txHash in c then Failure(DuplicateKey(d.txHash))
    else Success(c[d.txHash := d])
  }

  /** The status changes a stored Deposit can go through: none, or pending to confirmed. */
  predicate Transition(before: Status, after: Status) {
    before == after || (before == Pending && after == Confirmed)
  }

  /** The fields the scanner and the reconciler set when they confirm a Deposit. */
  function Confirm(d: Deposit, slot: Option<nat>): (e: Deposit)
    ensures e.status == Confirmed && e.confirmedAt
    ensures e.slot == (if slot.Some? then slot else d.slot)
    ensures e.(status := d.status, confirmedAt := d.confirmedAt, slot := d.slot) == d
    ensures Valid(d) ==> Valid(e)
  {
    d.(status := Confirmed, confirmedAt := true, slot := if slot.Some? then slot else d.slot)
  }

  /** The `find` filter `{ status: "pending" }`, with `currency` added when `only` is given. */
  predicate Selected(d: Deposit, only: Option<Currency>) {
    d.status == Pending && (only.None? || d.currency == only.value)
  }

  /**
   * `docs` is what `find` returns for that filter: every matching document of
   * `c` exactly once, as stored, in an order the model leaves open.
   */
  ghost predicate Snapshot(c: map<string, Deposit>, only: Option<Currency>, docs: seq<Deposit>) {
    && (forall i :: 0 <= i < |docs| ==> docs[i].txHash in c && c[docs[i].txHash] == docs[i] && Selected(docs[i], only))
    && (forall i, j :: 0 <= i < j < |docs| ==> docs[i].txHash != docs[j].txHash)
    && (forall h :: h in c && Selected(c[h], only) ==> exists i :: 0 <= i < |docs| && docs[i].txHash == h)
  }

  /** `docs` lists pending records of `c`, each exactly as stored and each txHash once. */
  predicate Listed(c: map<string, Deposit>, docs: seq<Deposit>) {
    && (forall i :: 0 <= i < |docs| ==> docs[i].txHash in c && c[docs[i].txHash] == docs[i] && docs[i].status == Pending)
    && (forall i, j :: 0 <= i < j < |docs| ==> docs[i].txHash != docs[j].txHash)
  }

  /** The txHashes of a list of documents. */
  function Hashes(docs: seq<Deposit>): set<string> {
    set i | 0 <= i < |docs| :: docs[i].txHash
  }

  /** The unique index is on txHash alone: a second currency cannot reuse a stored txHash. */
  lemma UniqueOnTxHashAlone(c: map<string, Deposit>, d: Deposit, e: Deposit)
    requires Insert(c, d).Success?
    requires e.txHash == d.txHash && e.currency != d.currency
    ensures Insert(Insert(c, d).value, e).Failure?
    ensures Valid(e) ==> Insert(Insert(c, d).value, e).error == DuplicateKey(e.txHash)
  {
  }
}
