/**
 * The Solana watcher: slot scanning, routing of each transaction to the
 * deposit and the withdrawal handler, and the pending-record sweep. The
 * functions state what one call does to the store; the SolWatcher methods
 * do it step by step on a Database.
 */
module SolIndexer {
  import opened Common
  import opened Ledger
  import D = DepositModel
  import W = WithdrawalModel
  import U = UserModel

  /** The balance arrays of a transaction's metadata, in lamports. */
  datatype Meta = Meta(preBalances: seq<nat>, postBalances: seq<nat>)

  /**
   * A transaction of a block: its first signature (the txId), the account
   * keys of its message in base58, and its metadata, which may be null.
   */
  datatype Transaction = Transaction(signature: string, accountKeys: seq<string>, meta: Option<Meta>)

  /**
   * The chain as read-only input: the transactions of each slot that has a
   * block, and for each known signature the slot `getTransaction` reports.
   */
  datatype Chain = Chain(blocks: map<nat, seq<Transaction>>, slots: map<string, nat>)

  /** `key?.toBase58() || "Unknown"`. */
  function KeyOrUnknown(key: string): (r: string)
    ensures r != ""
    ensures key != "" ==> r == key
  {
    if key == "" then "Unknown" else key
  }

  /** `tx.meta?.preBalances[1]`, with undefined read as 0 (both are falsy). */
  function PreBalance(tx: Transaction): nat {
    if tx.meta.Some? && |tx.meta.value.preBalances| > 1 then tx.meta.value.preBalances[1] else 0
  }

  /** `tx.meta?.postBalances[1]`, with undefined read as 0 (both are falsy). */
  function PostBalance(tx: Transaction): nat {
    if tx.meta.Some? && |tx.meta.value.postBalances| > 1 then tx.meta.value.postBalances[1] else 0
  }

  /** The Deposit `handleSolDeposit` creates for a first sighting. */
  function NewDeposit(u: U.User, txHash: string, amount: int, slot: nat): D.Deposit {
    D.New(u.id, txHash, amount, SOL, Some(D.Confirmed), u.solDepositAddress, Some(slot), None, true)
  }

  /** The Withdrawal `handleSolWithdrawal` records for an outbound transfer nobody requested. */
  function UnauthorizedWithdrawal(u: U.User, txHash: string, amount: int, slot: nat, toAddress: string): W.Withdrawal {
    W.New(u.id, txHash, amount, SOL, Some(W.Failed), u.solDepositAddress, toAddress, Some(slot), None, false)
  }

  /**
   * `handleSolDeposit`: nothing when a SOL Deposit with this txHash exists;
   * otherwise the confirmed Deposit is inserted and then the balance is
   * credited. A refused insert throws before the credit.
   */
  function SolDeposit(s: Store, u: U.User, txHash: string, amount: int, slot: nat): Result<Store, StoreError> {
    if txHash in s.deposits && s.deposits[txHash].currency == SOL then Success(s)
    else
      match D.Insert(s.deposits, NewDeposit(u, txHash, amount, slot))
      case Failure(e) => Failure(e)
      case Success(c) => Success(CreditSol(s.(deposits := c), u.id, amount))
  }

  /**
   * `handleSolWithdrawal`: a pending SOL Withdrawal with this txHash is
   * confirmed at the slot, a settled one is left alone, and without one a
   * failed record is inserted. No branch touches a balance.
   */
  function SolWithdrawal(s: Store, u: U.User, txHash: string, amount: int, slot: nat, toAddress: string): Result<Store, StoreError> {
    if txHash in s.withdrawals && s.withdrawals[txHash].currency == SOL then
      var w := s.withdrawals[txHash];
      if w.status == W.Pending then Success(PutWithdrawal(s, W.Confirm(w, Some(slot)))) else Success(s)
    else
      match W.Insert(s.withdrawals, UnauthorizedWithdrawal(u, txHash, amount, slot, toAddress))
      case Failure(e) => Failure(e)
      case Success(c) => Success(s.(withdrawals := c))
  }

  /** The `depositAddresses.includes(toAddress)` branch, against the users read at the start of the block. */
  function DepositSide(s: Store, dbUsers: seq<U.User>, tx: Transaction, toAddress: string, amount: int, slot: nat): Result<Store, StoreError> {
    match FindBySolAddress(dbUsers, toAddress)
    case None => Success(s)
    case Some(k) => SolDeposit(s, dbUsers[k], tx.signature, amount, slot)
  }

  /** The `depositAddresses.includes(fromAddress)` branch, against the users read at the start of the block. */
  function WithdrawalSide(s: Store, dbUsers: seq<U.User>, tx: Transaction, fromAddress: string, toAddress: string,
                          amount: int, slot: nat): Result<Store, StoreError> {
    match FindBySolAddress(dbUsers, fromAddress)
    case None => Success(s)
    case Some(k) => SolWithdrawal(s, dbUsers[k], tx.signature, amount, slot, toAddress)
  }

  /**
   * The body of the `for` loop of `processSolanaBlock`. A transaction with
   * fewer than two account keys, or whose balance at index 1 is zero or
   * missing before or after, is skipped. Otherwise the amount is the change
   * of that balance and the transaction is routed.
   */
  function TransactionStep(s: Store, dbUsers: seq<U.User>, slot: nat, tx: Transaction): Store {
    if Routed(tx) then Route(s, dbUsers, slot, tx, FromAddress(tx), ToAddress(tx), Transferred(tx)) else s
  }

  /** The transaction has two account keys and a non-zero balance at index 1 before and after. */
  predicate Routed(tx: Transaction) {
    |tx.accountKeys| >= 2 && PreBalance(tx) != 0 && PostBalance(tx) != 0
  }

  function FromAddress(tx: Transaction): string
    requires |tx.accountKeys| >= 2
  {
    KeyOrUnknown(tx.accountKeys[0])
  }

  function ToAddress(tx: Transaction): string
    requires |tx.accountKeys| >= 2
  {
    KeyOrUnknown(tx.accountKeys[1])
  }

  /** The change of the balance at index 1, in lamports. */
  function Transferred(tx: Transaction): int {
    PostBalance(tx) as int - PreBalance(tx) as int
  }

  function Route(s: Store, dbUsers: seq<U.User>, slot: nat, tx: Transaction, fromAddress: string, toAddress: string,
                 amount: int): Store {
    match DepositSide(s, dbUsers, tx, toAddress, amount, slot)
    case Failure(_) => s
    case Success(t) =>
      match WithdrawalSide(t, dbUsers, tx, fromAddress, toAddress, amount, slot)
      case Failure(_) => t
      case Success(r) => r
  }

  function TransactionsRun(s: Store, dbUsers: seq<U.User>, slot: nat, txs: seq<Transaction>): Store
    decreases |txs|
  {
    if txs == [] then s else TransactionsRun(TransactionStep(s, dbUsers, slot, txs[0]), dbUsers, slot, txs[1..])
  }

  /** `processSolanaBlock(slot)`: nothing for a slot without a block, else each of its transactions in order. */
  function BlockRun(s: Store, chain: Chain, slot: nat): Store {
    if slot !in chain.blocks then s else TransactionsRun(s, s.users, slot, chain.blocks[slot])
  }

  /** The `for` loop of `pollNewSolanaSlots` over the given slots, in order. */
  function SlotsRun(s: Store, chain: Chain, slots: seq<nat>): Store
    decreases |slots|
  {
    if slots == [] then s else SlotsRun(BlockRun(s, chain, slots[0]), chain, slots[1..])
  }

  /** The end of one scan cycle: the store and the watermark. */
  datatype Cycle = Cycle(store: Store, lastProcessedSolSlot: nat)

  /**
   * One iteration of the `while (true)` of `pollNewSolanaSlots`, given the
   * tip it read: slots last+1..latest in ascending order, then the watermark
   * jumps to the tip. Store errors never escape, so a cycle always completes.
   */
  function PollCycle(s: Store, last: nat, chain: Chain, latest: nat): (c: Cycle)
    ensures latest <= last ==> c == Cycle(s, last)
    ensures latest > last ==> c.lastProcessedSolSlot == latest
    ensures c.lastProcessedSolSlot >= last
  {
    if latest > last then Cycle(SlotsRun(s, chain, Heights(last + 1, latest)), latest) else Cycle(s, last)
  }

  /** `solanaConnection.getTransaction(sig)?.slot`, with a null transaction as None. */
  function GetTransactionSlot(chain: Chain, sig: string): Option<nat> {
    if sig in chain.slots then Some(chain.slots[sig]) else None
  }

  /** One pass of the pending-deposit loop of `checkPendingActions`: confirmed at the slot the node reports. */
  function ConfirmStep(s: Store, chain: Chain, d: D.Deposit): Store {
    match GetTransactionSlot(chain, d.txHash)
    case Some(slot) => if slot != 0 then PutDeposit(s, D.Confirm(d, Some(slot))) else s
    case None => s
  }

  function ConfirmAll(s: Store, chain: Chain, docs: seq<D.Deposit>): Store
    decreases |docs|
  {
    if docs == [] then s else ConfirmAll(ConfirmStep(s, chain, docs[0]), chain, docs[1..])
  }

  /**
   * One pass of the pending-withdrawal loop of `checkPendingActions`: an
   * unknown transaction fails the record; one with a slot confirms it at
   * that slot and takes the recorded amount off the owner's solBalance.
   */
  function SettleStep(s: Store, chain: Chain, w: W.Withdrawal): Store {
    match GetTransactionSlot(chain, w.txHash)
    case None => PutWithdrawal(s, W.Fail(w))
    case Some(slot) =>
      if slot != 0 then CreditSol(PutWithdrawal(s, W.Confirm(w, Some(slot))), w.user, -w.amount) else s
  }

  function SettleAll(s: Store, chain: Chain, docs: seq<W.Withdrawal>): Store
    decreases |docs|
  {
    if docs == [] then s else SettleAll(SettleStep(s, chain, docs[0]), chain, docs[1..])
  }

  /** `checkPendingActions`, given the documents the two `find` calls returned. */
  function Sweep(s: Store, chain: Chain, deposits: seq<D.Deposit>, withdrawals: seq<W.Withdrawal>): Store {
    SettleAll(ConfirmAll(s, chain, deposits), chain, withdrawals)
  }

  /** A handler's outcome as the error it threw, if any. */
  function OutcomeOf(s: Store, err: Option<StoreError>): Result<Store, StoreError> {
    if err.Some? then Failure(err.value) else Success(s)
  }

  /** The Solana watcher process: its watermark and the store it writes to. */
  class SolWatcher {
    var lastProcessedSolSlot: nat
    const db: Database

    /** `main`: the watermark starts at the tip read at startup. */
    constructor (db: Database, latestSlot: nat)
      ensures this.db == db && lastProcessedSolSlot == latestSlot
    {
      this.db := db;
      lastProcessedSolSlot := latestSlot;
    }

    method PollNewSolanaSlots(chain: Chain, latestSlot: nat)
      requires db.Valid()
      modifies this, db
      ensures db.Valid()
      ensures Cycle(db.State(), lastProcessedSolSlot) == PollCycle(old(db.State()), old(lastProcessedSolSlot), chain, latestSlot)
    {
      if latestSlot > lastProcessedSolSlot {
        var slot := lastProcessedSolSlot + 1;
        while slot <= latestSlot
          invariant lastProcessedSolSlot + 1 <= slot <= latestSlot + 1
          invariant lastProcessedSolSlot == old(lastProcessedSolSlot) && db.Valid()
          invariant SlotsRun(old(db.State()), chain, Heights(lastProcessedSolSlot + 1, latestSlot))
                 == SlotsRun(db.State(), chain, Heights(slot, latestSlot))
          decreases latestSlot + 1 - slot
        {
          ProcessSolanaBlock(chain, slot);
          slot := slot + 1;
        }
        lastProcessedSolSlot := latestSlot;
      }
    }

    method ProcessSolanaBlock(chain: Chain, slot: nat)
      requires db.Valid()
      modifies db
      ensures db.Valid()
      ensures db.State() == BlockRun(old(db.State()), chain, slot)
    {
      if slot !in chain.blocks {
        return;
      }
      var dbUsers := db.users;
      var txs := chain.blocks[slot];
      var i := 0;
      while i < |txs|
        invariant 0 <= i <= |txs| && db.Valid()
        invariant BlockRun(old(db.State()), chain, slot) == TransactionsRun(db.State(), dbUsers, slot, txs[i..])
      {
        assert txs[i..][0] == txs[i] && txs[i..][1..] == txs[i + 1..];
        ProcessTransaction(dbUsers, slot, txs[i]);
        i := i + 1;
      }
    }

    /** The `try` block of `processSolanaBlock` for one transaction, with its `catch`. */
    method ProcessTransaction(dbUsers: seq<U.User>, slot: nat, tx: Transaction)
      requires db.Valid()
      modifies db
      ensures db.Valid()
      ensures db.State() == TransactionStep(old(db.State()), dbUsers, slot, tx)
    {
      ghost var s0 := db.State();
      if |tx.accountKeys| < 2 {
        assert !Routed(tx);
        return;
      }
      var fromAddress := KeyOrUnknown(tx.accountKeys[0]);
      var toAddress := KeyOrUnknown(tx.accountKeys[1]);
      var preBalance := PreBalance(tx);
      var postBalance := PostBalance(tx);
      if preBalance == 0 || postBalance == 0 {
        assert !Routed(tx);
        return;
      }
      var transferredAmount := postBalance as int - preBalance as int;
      assert Routed(tx) && fromAddress == FromAddress(tx) && toAddress == ToAddress(tx) && transferredAmount == Transferred(tx);
      RouteTransaction(dbUsers, slot, tx, fromAddress, toAddress, transferredAmount);
    }

    /** The two `includes` branches of the `try` block; a thrown error ends the transaction. */
    method RouteTransaction(dbUsers: seq<U.User>, slot: nat, tx: Transaction, fromAddress: string, toAddress: string,
                            transferredAmount: int)
      requires db.Valid()
      modifies db
      ensures db.Valid()
      ensures db.State() == Route(old(db.State()), dbUsers, slot, tx, fromAddress, toAddress, transferredAmount)
    {
      ghost var s0 := db.State();
      var k := FindBySolAddress(dbUsers, toAddress);
      if k.Some? {
        var err := HandleSolDeposit(dbUsers[k.value], tx.signature, transferredAmount, slot);
        if err.Some? {
          assert DepositSide(s0, dbUsers, tx, toAddress, transferredAmount, slot).Failure?;
          return;
        }
      }
      assert DepositSide(s0, dbUsers, tx, toAddress, transferredAmount, slot) == Success(db.State());
      ghost var s1 := db.State();
      k := FindBySolAddress(dbUsers, fromAddress);
      if k.Some? {
        var err := HandleSolWithdrawal(dbUsers[k.value], tx.signature, transferredAmount, slot, toAddress);
        assert db.State() == (if err.Some? then s1 else WithdrawalSide(s1, dbUsers, tx, fromAddress, toAddress, transferredAmount, slot).value);
      }
    }

    method HandleSolDeposit(user: U.User, txHash: string, amount: int, slot: nat) returns (err: Option<StoreError>)
      requires db.Valid()
      modifies db
      ensures db.Valid()
      ensures OutcomeOf(db.State(), err) == SolDeposit(old(db.State()), user, txHash, amount, slot)
      ensures err.Some? ==> db.State() == old(db.State())
    {
      err := None;
      if !(txHash in db.deposits && db.deposits[txHash].currency == SOL) {
        err := db.InsertDeposit(NewDeposit(user, txHash, amount, slot));
        if err.Some? {
          return;
        }
        db.IncSol(user.id, amount);
      }
    }

    method HandleSolWithdrawal(user: U.User, txHash: string, amount: int, slot: nat, toAddress: string)
      returns (err: Option<StoreError>)
      requires db.Valid()
      modifies db
      ensures db.Valid()
      ensures OutcomeOf(db.State(), err) == SolWithdrawal(old(db.State()), user, txHash, amount, slot, toAddress)
      ensures err.Some? ==> db.State() == old(db.State())
    {
      err := None;
      if txHash in db.withdrawals && db.withdrawals[txHash].currency == SOL {
        var existingWithdrawal := db.withdrawals[txHash];
        if existingWithdrawal.status == W.Pending {
          db.SaveWithdrawal(W.Confirm(existingWithdrawal, Some(slot)));
        }
      } else {
        err := db.InsertWithdrawal(UnauthorizedWithdrawal(user, txHash, amount, slot, toAddress));
      }
    }

    /**
     * `checkPendingActions`. The documents each `find` returned are passed
     * back so that the result can be stated in terms of them.
     */
    method CheckPendingActions(chain: Chain) returns (pendingSolDeposits: seq<D.Deposit>, pendingSolWithdrawals: seq<W.Withdrawal>)
      requires db.Valid()
      modifies db
      ensures db.Valid()
      ensures D.Snapshot(old(db.deposits), Some(SOL), pendingSolDeposits)
      ensures W.Snapshot(old(db.withdrawals), Some(SOL), pendingSolWithdrawals)
      ensures db.State() == Sweep(old(db.State()), chain, pendingSolDeposits, pendingSolWithdrawals)
    {
      pendingSolDeposits := ConfirmPendingDeposits(chain);
      pendingSolWithdrawals := SettlePendingWithdrawals(chain);
    }

    /** The first half of `checkPendingActions`: every pending SOL Deposit whose transaction has a slot is confirmed. */
    method ConfirmPendingDeposits(chain: Chain) returns (pendingSolDeposits: seq<D.Deposit>)
      requires db.Valid()
      modifies db
      ensures db.Valid() && db.withdrawals == old(db.withdrawals)
      ensures D.Snapshot(old(db.deposits), Some(SOL), pendingSolDeposits)
      ensures db.State() == ConfirmAll(old(db.State()), chain, pendingSolDeposits)
    {
      pendingSolDeposits := db.FindPendingDeposits(Some(SOL));
      var i := 0;
      while i < |pendingSolDeposits|
        invariant 0 <= i <= |pendingSolDeposits| && db.Valid()
        invariant db.deposits.Keys == old(db.deposits).Keys && db.withdrawals == old(db.withdrawals)
        invariant ConfirmAll(old(db.State()), chain, pendingSolDeposits) == ConfirmAll(db.State(), chain, pendingSolDeposits[i..])
      {
        var deposit := pendingSolDeposits[i];
        assert pendingSolDeposits[i..][0] == deposit && pendingSolDeposits[i..][1..] == pendingSolDeposits[i + 1..];
        var tx := GetTransactionSlot(chain, deposit.txHash);
        if tx.Some? && tx.value != 0 {
          assert D.Valid(old(db.deposits)[deposit.txHash]);
          db.SaveDeposit(D.Confirm(deposit, Some(tx.value)));
        }
        i := i + 1;
      }
    }

    /**
     * The second half of `checkPendingActions`: a pending SOL Withdrawal
     * whose transaction is unknown fails, one whose transaction has a slot is
     * confirmed and debited from its owner's solBalance.
     */
    method SettlePendingWithdrawals(chain: Chain) returns (pendingSolWithdrawals: seq<W.Withdrawal>)
      requires db.Valid()
      modifies db
      ensures db.Valid()
      ensures W.Snapshot(old(db.withdrawals), Some(SOL), pendingSolWithdrawals)
      ensures db.State() == SettleAll(old(db.State()), chain, pendingSolWithdrawals)
    {
      pendingSolWithdrawals := db.FindPendingWithdrawals(Some(SOL));
      var j := 0;
      while j < |pendingSolWithdrawals|
        invariant 0 <= j <= |pendingSolWithdrawals| && db.Valid()
        invariant db.withdrawals.Keys == old(db.withdrawals).Keys
        invariant SettleAll(old(db.State()), chain, pendingSolWithdrawals) == SettleAll(db.State(), chain, pendingSolWithdrawals[j..])
      {
        var withdrawal := pendingSolWithdrawals[j];
        assert pendingSolWithdrawals[j..][0] == withdrawal && pendingSolWithdrawals[j..][1..] == pendingSolWithdrawals[j + 1..];
        assert withdrawal.txHash in db.withdrawals && W.Valid(old(db.withdrawals)[withdrawal.txHash]);
        Settle(chain, withdrawal);
        j := j + 1;
      }
    }

    /** One pass of the pending-withdrawal loop of `checkPendingActions`. */
    method Settle(chain: Chain, withdrawal: W.Withdrawal)
      requires db.Valid() && withdrawal.txHash in db.withdrawals && W.Valid(withdrawal)
      modifies db
      ensures db.Valid() && db.withdrawals.Keys == old(db.withdrawals).Keys
      ensures db.State() == SettleStep(old(db.State()), chain, withdrawal)
    {
      var tx := GetTransactionSlot(chain, withdrawal.txHash);
      if tx.None? {
        db.SaveWithdrawal(W.Fail(withdrawal));
      } else if tx.value != 0 {
        db.SaveWithdrawal(W.Confirm(withdrawal, Some(tx.value)));
        db.IncSol(withdrawal.user, -withdrawal.amount);
      }
    }
  }
}
