/**
 * The EVM watcher: block scanning, classification of receipts against the
 * users' deposit addresses, the deposit and withdrawal handlers, and the
 * pending-record sweep. The functions state what one call does to the store;
 * the EthWatcher methods do it step by step on a Database.
 */
module EthIndexer {
  import opened Common
  import opened Ledger
  import D = DepositModel
  import W = WithdrawalModel
  import U = UserModel

  /** An entry of `eth_getBlockReceipts`; "" stands for a null address. */
  datatype Receipt = Receipt(transactionHash: string, from: string, to: string)

  /**
   * What `provider.getTransaction` reports. "" stands for a null address and
   * a `blockNumber` of 0 for a null one (both are falsy to the checks).
   * `value` is in wei.
   */
  datatype Transaction = Transaction(hash: string, from: string, to: string, value: nat, blockNumber: nat)

  /**
   * The chain as read-only input: receipts per height (a height that is
   * absent got a response without `result`) and transactions by hash.
   */
  datatype Chain = Chain(receipts: map<nat, seq<Receipt>>, transactions: map<string, Transaction>)

  /** `provider.getTransaction(hash)`: null when the node does not know the hash. */
  function GetTransaction(chain: Chain, hash: string): Option<Transaction> {
    if hash in chain.transactions then Some(chain.transactions[hash]) else None
  }

  /** ASCII lower-casing, standing in for `toLowerCase` on hex addresses. */
  function LowerChar(c: char): char {
    if 'A' <= c <= 'Z' then (c as int + 32) as char else c
  }

  function Lower(s: string): string {
    seq(|s|, i requires 0 <= i < |s| => LowerChar(s[i]))
  }

  /** `dbUsers.map(user => user.ethDepositAddress.toLowerCase())`. */
  function AddressIndex(users: seq<U.User>): (addrs: seq<string>)
    ensures |addrs| == |users|
    ensures forall i :: 0 <= i < |users| ==> addrs[i] == Lower(users[i].ethDepositAddress)
    ensures forall a :: a in addrs <==> exists i :: 0 <= i < |users| && Lower(users[i].ethDepositAddress) == a
  {
    if users == [] then []
    else
      var rest := AddressIndex(users[1..]);
      assert forall i :: 0 < i < |users| ==> users[i] == users[1..][i - 1];
      [Lower(users[0].ethDepositAddress)] + rest
  }

  /** `transactions.result.filter(tx => tx.to && dbAddresses.includes(tx.to))`. */
  function DepositCandidates(rs: seq<Receipt>, addrs: seq<string>): (r: seq<Receipt>)
    ensures |r| <= |rs|
    ensures forall x :: x in r <==> x in rs && x.to != "" && x.to in addrs
  {
    if rs == [] then []
    else
      var rest := DepositCandidates(rs[1..], addrs);
      assert forall x :: x in rs <==> x == rs[0] || x in rs[1..];
      (if rs[0].to != "" && rs[0].to in addrs then [rs[0]] else []) + rest
  }

  /** `transactions.result.filter(tx => tx.from && dbAddresses.includes(tx.from))`. */
  function WithdrawalCandidates(rs: seq<Receipt>, addrs: seq<string>): (r: seq<Receipt>)
    ensures |r| <= |rs|
    ensures forall x :: x in r <==> x in rs && x.from != "" && x.from in addrs
  {
    if rs == [] then []
    else
      var rest := WithdrawalCandidates(rs[1..], addrs);
      assert forall x :: x in rs <==> x == rs[0] || x in rs[1..];
      (if rs[0].from != "" && rs[0].from in addrs then [rs[0]] else []) + rest
  }

  /** `Promise.all(transactions.map(({ transactionHash }) => provider.getTransaction(transactionHash)))`. */
  function Fetch(chain: Chain, rs: seq<Receipt>): seq<Option<Transaction>> {
    seq(|rs|, i requires 0 <= i < |rs| => GetTransaction(chain, rs[i].transactionHash))
  }

  /** How a scanner call ends: normally, or with the error a rejected `save()` throws. */
  datatype Run = Done(store: Store) | Aborted(store: Store, error: StoreError)

  function RunOf(s: Store, err: Option<StoreError>): Run {
    if err.Some? then Aborted(s, err.value) else Done(s)
  }

  /** The Deposit `processDeposits` creates for a first sighting. */
  function NewDeposit(u: U.User, t: Transaction): D.Deposit {
    D.New(u.id, t.hash, t.value, ETH, Some(D.Confirmed), t.to, None, None, true)
  }

  /** The Withdrawal `processWithdrawals` creates for an outbound transfer it has no record of. */
  function UnexpectedWithdrawal(u: U.User, t: Transaction): W.Withdrawal {
    W.New(u.id, t.hash, t.value, ETH, Some(W.Pending), t.from, t.to, None, None, false)
  }

  /**
   * One pass of the loop in `processDeposits`. A transaction that is missing,
   * has no recipient or moves no value is skipped. For a recipient that is a
   * user's deposit address, the Deposit is inserted only if no Deposit has
   * this txHash, but the balance is credited either way.
   */
  function DepositStep(s: Store, txn: Option<Transaction>): Run {
    if txn.None? || txn.value.to == "" || txn.value.value == 0 then Done(s)
    else
      var t := txn.value;
      match FindByEthAddress(s.users, t.to)
      case None => Done(s)
      case Some(k) =>
        if t.hash in s.deposits then Done(CreditEth(s, s.users[k].id, t.value))
        else
          match D.Insert(s.deposits, NewDeposit(s.users[k], t))
          case Failure(e) => Aborted(s, e)
          case Success(c) => Done(CreditEth(s.(deposits := c), s.users[k].id, t.value))
  }

  /** `processDeposits` over the fetched transactions; the first rejected write ends it. */
  function DepositsRun(s: Store, txns: seq<Option<Transaction>>): Run
    decreases |txns|
  {
    if txns == [] then Done(s)
    else
      match DepositStep(s, txns[0])
      case Aborted(t, e) => Aborted(t, e)
      case Done(t) => DepositsRun(t, txns[1..])
  }

  /**
   * One pass of the loop in `processWithdrawals`. A transaction that is
   * missing, has no sender or moves no value is skipped. For a sender that is
   * a user's deposit address: a pending record with this txHash is confirmed,
   * a confirmed or failed one is left alone, and without a record a new
   * pending one is created. No branch touches a balance.
   */
  function WithdrawalStep(s: Store, txn: Option<Transaction>): Run {
    if txn.None? || txn.value.from == "" || txn.value.value == 0 then Done(s)
    else
      var t := txn.value;
      match FindByEthAddress(s.users, t.from)
      case None => Done(s)
      case Some(k) =>
        if t.hash in s.withdrawals then
          var w := s.withdrawals[t.hash];
          if w.status == W.Pending then Done(PutWithdrawal(s, W.Confirm(w, None))) else Done(s)
        else
          match W.Insert(s.withdrawals, UnexpectedWithdrawal(s.users[k], t))
          case Failure(e) => Aborted(s, e)
          case Success(c) => Done(s.(withdrawals := c))
  }

  /** `processWithdrawals` over the fetched transactions; the first rejected write ends it. */
  function WithdrawalsRun(s: Store, txns: seq<Option<Transaction>>): Run
    decreases |txns|
  {
    if txns == [] then Done(s)
    else
      match WithdrawalStep(s, txns[0])
      case Aborted(t, e) => Aborted(t, e)
      case Done(t) => WithdrawalsRun(t, txns[1..])
  }

  /**
   * `processBlockTransactions(h)`: nothing when the receipts have no result;
   * otherwise every deposit candidate of the height, then every withdrawal
   * candidate, both matched against the address index read once.
   */
  function BlockRun(s: Store, chain: Chain, h: nat): Run {
    if h !in chain.receipts then Done(s)
    else
      var rs := chain.receipts[h];
      var addrs := AddressIndex(s.users);
      match DepositsRun(s, Fetch(chain, DepositCandidates(rs, addrs)))
      case Aborted(t, e) => Aborted(t, e)
      case Done(t) => WithdrawalsRun(t, Fetch(chain, WithdrawalCandidates(rs, addrs)))
  }

  /** The `for` loop of `pollNewBlocks` over the given heights, in order. */
  function HeightsRun(s: Store, chain: Chain, hs: seq<nat>): Run
    decreases |hs|
  {
    if hs == [] then Done(s)
    else
      match BlockRun(s, chain, hs[0])
      case Aborted(t, e) => Aborted(t, e)
      case Done(t) => HeightsRun(t, chain, hs[1..])
  }

  /** The end of one scan cycle: the last store and the watermark. */
  datatype Cycle = Cycle(run: Run, lastProcessedBlock: nat)

  /**
   * One iteration of the `while (true)` of `pollNewBlocks`, given the tip it
   * read: heights last+1..latest in ascending order, then the watermark jumps
   * to the tip. A rejected write escapes the loop and the watermark stays.
   */
  function PollCycle(s: Store, last: nat, chain: Chain, latest: nat): (c: Cycle)
    ensures c.lastProcessedBlock >= last
    ensures latest <= last ==> c == Cycle(Done(s), last)
    ensures latest > last && c.run.Done? ==> c.lastProcessedBlock == latest
    ensures c.run.Aborted? ==> c.lastProcessedBlock == last
  {
    if latest > last then
      var r := HeightsRun(s, chain, Heights(last + 1, latest));
      Cycle(r, if r.Done? then latest else last)
    else Cycle(Done(s), last)
  }

  /** One pass of the pending-deposit loop of `checkPendingActions`: the ETH node is asked about every currency. */
  function ConfirmStep(s: Store, chain: Chain, d: D.Deposit): Store {
    var tx := GetTransaction(chain, d.txHash);
    if tx.Some? && tx.value.blockNumber != 0 then PutDeposit(s, D.Confirm(d, None)) else s
  }

  function ConfirmAll(s: Store, chain: Chain, docs: seq<D.Deposit>): Store
    decreases |docs|
  {
    if docs == [] then s else ConfirmAll(ConfirmStep(s, chain, docs[0]), chain, docs[1..])
  }

  /**
   * One pass of the pending-withdrawal loop of `checkPendingActions`: an
   * unknown transaction fails the record; one with a block confirms it and
   * takes the recorded amount off the owner's ethBalance; otherwise nothing.
   */
  function SettleStep(s: Store, chain: Chain, w: W.Withdrawal): Store {
    match GetTransaction(chain, w.txHash)
    case None => PutWithdrawal(s, W.Fail(w))
    case Some(t) =>
      if t.blockNumber != 0 then CreditEth(PutWithdrawal(s, W.Confirm(w, None)), w.user, -w.amount) else s
  }

  function SettleAll(s: Store, chain: Chain, docs: seq<W.Withdrawal>): Store
    decreases |docs|
  {
    if docs == [] then s else SettleAll(SettleStep(s, chain, docs[0]), chain, docs[1..])
  }

  /** `checkPendingActions`, given the documents the two `find` calls returned. */
  function Sweep(s: Store, chain: Chain, deposits: seq<D.Deposit>, withdrawals: seq<W.Withdrawal>): Store {
    SettleAll(ConfirmAll(s, chain, deposits), chain, withdrawals)
  }

  /** The EVM watcher process: its watermark and the store it writes to. */
  class EthWatcher {
    var lastProcessedBlock: nat
    const db: Database

    /** `main`: the watermark starts at the tip read at startup. */
    constructor (db: Database, latestBlock: nat)
      ensures this.db == db && lastProcessedBlock == latestBlock
    {
      this.db := db;
      lastProcessedBlock := latestBlock;
    }

    method PollNewBlocks(chain: Chain, latestBlock: nat) returns (err: Option<StoreError>)
      requires db.Valid()
      modifies this, db
      ensures db.Valid()
      ensures RunOf(db.State(), err) == PollCycle(old(db.State()), old(lastProcessedBlock), chain, latestBlock).run
      ensures lastProcessedBlock == PollCycle(old(db.State()), old(lastProcessedBlock), chain, latestBlock).lastProcessedBlock
    {
      err := None;
      if latestBlock > lastProcessedBlock {
        var blockNumber := lastProcessedBlock + 1;
        while blockNumber <= latestBlock
          invariant lastProcessedBlock + 1 <= blockNumber <= latestBlock + 1
          invariant lastProcessedBlock == old(lastProcessedBlock) && db.Valid() && err.None?
          invariant HeightsRun(old(db.State()), chain, Heights(lastProcessedBlock + 1, latestBlock))
                 == HeightsRun(db.State(), chain, Heights(blockNumber, latestBlock))
          decreases latestBlock + 1 - blockNumber
        {
          err := ProcessBlockTransactions(chain, blockNumber);
          if err.Some? {
            return;
          }
          blockNumber := blockNumber + 1;
        }
        lastProcessedBlock := latestBlock;
      }
    }

    method ProcessBlockTransactions(chain: Chain, blockNumber: nat) returns (err: Option<StoreError>)
      requires db.Valid()
      modifies db
      ensures db.Valid()
      ensures RunOf(db.State(), err) == BlockRun(old(db.State()), chain, blockNumber)
    {
      err := None;
      if blockNumber !in chain.receipts {
        return;
      }
      var transactions := chain.receipts[blockNumber];
      var dbAddresses := AddressIndex(db.users);
      err := ProcessDeposits(Fetch(chain, DepositCandidates(transactions, dbAddresses)));
      if err.Some? {
        return;
      }
      err := ProcessWithdrawals(Fetch(chain, WithdrawalCandidates(transactions, dbAddresses)));
    }

    method ProcessDeposits(fullTxns: seq<Option<Transaction>>) returns (err: Option<StoreError>)
      requires db.Valid()
      modifies db
      ensures db.Valid()
      ensures RunOf(db.State(), err) == DepositsRun(old(db.State()), fullTxns)
    {
      err := None;
      var i := 0;
      while i < |fullTxns|
        invariant 0 <= i <= |fullTxns| && db.Valid() && err.None?
        invariant DepositsRun(old(db.State()), fullTxns) == DepositsRun(db.State(), fullTxns[i..])
      {
        var txn := fullTxns[i];
        assert fullTxns[i..][0] == txn && fullTxns[i..][1..] == fullTxns[i + 1..];
        if txn.Some? && txn.value.to != "" && txn.value.value != 0 {
          var t := txn.value;
          var k := FindByEthAddress(db.users, t.to);
          if k.Some? {
            var user := db.users[k.value];
            if t.hash !in db.deposits {
              err := db.InsertDeposit(NewDeposit(user, t));
              if err.Some? {
                return;
              }
            }
            db.IncEth(user.id, t.value);
          }
        }
        i := i + 1;
      }
    }

    method ProcessWithdrawals(fullTxns: seq<Option<Transaction>>) returns (err: Option<StoreError>)
      requires db.Valid()
      modifies db
      ensures db.Valid()
      ensures RunOf(db.State(), err) == WithdrawalsRun(old(db.State()), fullTxns)
    {
      err := None;
      var i := 0;
      while i < |fullTxns|
        invariant 0 <= i <= |fullTxns| && db.Valid() && err.None?
        invariant WithdrawalsRun(old(db.State()), fullTxns) == WithdrawalsRun(db.State(), fullTxns[i..])
      {
        var txn := fullTxns[i];
        assert fullTxns[i..][0] == txn && fullTxns[i..][1..] == fullTxns[i + 1..];
        if txn.Some? && txn.value.from != "" && txn.value.value != 0 {
          var t := txn.value;
          var k := FindByEthAddress(db.users, t.from);
          if k.Some? {
            if t.hash in db.withdrawals {
              var withdrawal := db.withdrawals[t.hash];
              if withdrawal.status == W.Pending {
                db.SaveWithdrawal(W.Confirm(withdrawal, None));
              }
            } else {
              err := db.InsertWithdrawal(UnexpectedWithdrawal(db.users[k.value], t));
              if err.Some? {
                return;
              }
            }
          }
        }
        i := i + 1;
      }
    }

    /**
     * `checkPendingActions`. The documents each `find` returned are passed
     * back so that the result can be stated in terms of them.
     */
    method CheckPendingActions(chain: Chain) returns (pendingDeposits: seq<D.Deposit>, pendingWithdrawals: seq<W.Withdrawal>)
      requires db.Valid()
      modifies db
      ensures db.Valid()
      ensures D.Snapshot(old(db.deposits), None, pendingDeposits)
      ensures W.Snapshot(old(db.withdrawals), None, pendingWithdrawals)
      ensures db.State() == Sweep(old(db.State()), chain, pendingDeposits, pendingWithdrawals)
    {
      pendingDeposits := ConfirmPendingDeposits(chain);
      pendingWithdrawals := SettlePendingWithdrawals(chain);
    }

    /** The first half of `checkPendingActions`: every pending Deposit whose transaction has a block is confirmed. */
    method ConfirmPendingDeposits(chain: Chain) returns (pendingDeposits: seq<D.Deposit>)
      requires db.Valid()
      modifies db
      ensures db.Valid() && db.withdrawals == old(db.withdrawals)
      ensures D.Snapshot(old(db.deposits), None, pendingDeposits)
      ensures db.State() == ConfirmAll(old(db.State()), chain, pendingDeposits)
    {
      pendingDeposits := db.FindPendingDeposits(None);
      var i := 0;
      while i < |pendingDeposits|
        invariant 0 <= i <= |pendingDeposits| && db.Valid()
        invariant db.deposits.Keys == old(db.deposits).Keys && db.withdrawals == old(db.withdrawals)
        invariant ConfirmAll(old(db.State()), chain, pendingDeposits) == ConfirmAll(db.State(), chain, pendingDeposits[i..])
      {
        var deposit := pendingDeposits[i];
        assert pendingDeposits[i..][0] == deposit && pendingDeposits[i..][1..] == pendingDeposits[i + 1..];
        var tx := GetTransaction(chain, deposit.txHash);
        if tx.Some? && tx.value.blockNumber != 0 {
          assert D.Valid(old(db.deposits)[deposit.txHash]);
          db.SaveDeposit(D.Confirm(deposit, None));
        }
        i := i + 1;
      }
    }

    /**
     * The second half of `checkPendingActions`: a pending Withdrawal whose
     * transaction is unknown fails, one whose transaction has a block is
     * confirmed and debited from its owner's ethBalance.
     */
    method SettlePendingWithdrawals(chain: Chain) returns (pendingWithdrawals: seq<W.Withdrawal>)
      requires db.Valid()
      modifies db
      ensures db.Valid()
      ensures W.Snapshot(old(db.withdrawals), None, pendingWithdrawals)
      ensures db.State() == SettleAll(old(db.State()), chain, pendingWithdrawals)
    {
      pendingWithdrawals := db.FindPendingWithdrawals(None);
      var j := 0;
      while j < |pendingWithdrawals|
        invariant 0 <= j <= |pendingWithdrawals| && db.Valid()
        invariant db.withdrawals.Keys == old(db.withdrawals).Keys
        invariant SettleAll(old(db.State()), chain, pendingWithdrawals) == SettleAll(db.State(), chain, pendingWithdrawals[j..])
      {
        var withdrawal := pendingWithdrawals[j];
        assert pendingWithdrawals[j..][0] == withdrawal && pendingWithdrawals[j..][1..] == pendingWithdrawals[j + 1..];
        assert withdrawal.txHash in db.withdrawals && W.Valid(old(db.withdrawals)[withdrawal.txHash]);
        Settle(chain, withdrawal);
        j := j + 1;
      }
    }

    /** One pass of the pending-withdrawal loop of `checkPendingActions`. */
    method Settle(chain: Chain, withdrawal: W.Withdrawal)
      requires db.Valid() && withdrawal.txHash in db.withdrawals && W.Valid(withdrawal)
      modifies db
      ensures db.Valid() && db.withdrawals.Keys == old(db.withdrawals).Keys
      ensures db.State() == SettleStep(old(db.State()), chain, withdrawal)
    {
      var tx := GetTransaction(chain, withdrawal.txHash);
      if tx.None? {
        db.SaveWithdrawal(W.Fail(withdrawal));
      } else if tx.value.blockNumber != 0 {
        db.SaveWithdrawal(W.Confirm(withdrawal, None));
        db.IncEth(withdrawal.user, -withdrawal.amount);
      }
    }
  }
}
