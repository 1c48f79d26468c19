/** What a scan cycle and a sweep of the Solana watcher do to the ledger. */
module SolProperties {
  import opened Common
  import opened Ledger
  import opened SolIndexer
  import D = DepositModel
  import W = WithdrawalModel
  import U = UserModel

  // ---------------------------------------------------------------- scanning

  /** Running a list of slots is running its prefix and then its suffix. */
  lemma {:induction false} SlotsRunAppend(s: Store, chain: Chain, xs: seq<nat>, ys: seq<nat>)
    ensures SlotsRun(s, chain, xs + ys) == SlotsRun(SlotsRun(s, chain, xs), chain, ys)
    decreases |xs|
  {
    if xs == [] {
      assert xs + ys == ys;
    } else {
      assert (xs + ys)[0] == xs[0] && (xs + ys)[1..] == xs[1..] + ys;
      SlotsRunAppend(BlockRun(s, chain, xs[0]), chain, xs[1..], ys);
    }
  }

  /**
   * Polling up to `mid` and then up to `latest` is polling up to `latest`
   * at once, store and watermark alike: every slot is handled once, in
   * ascending order, however the tips arrive.
   */
  lemma PollCyclesCompose(s: Store, last: nat, chain: Chain, mid: nat, latest: nat)
    requires last <= mid <= latest
    ensures var c1 := PollCycle(s, last, chain, mid);
      PollCycle(c1.store, c1.lastProcessedSolSlot, chain, latest) == PollCycle(s, last, chain, latest)
  {
    if last < mid {
      HeightsSplit(last + 1, mid, latest);
      SlotsRunAppend(s, chain, Heights(last + 1, mid), Heights(mid + 1, latest));
    }
  }

  /** Slots without a block change nothing. */
  lemma {:induction false} MissingSlotsChangeNothing(s: Store, chain: Chain, slots: seq<nat>)
    requires forall i :: 0 <= i < |slots| ==> slots[i] !in chain.blocks
    ensures SlotsRun(s, chain, slots) == s
    decreases |slots|
  {
    if slots != [] {
      MissingSlotsChangeNothing(s, chain, slots[1..]);
    }
  }

  /** A stretch of slots without blocks changes nothing, and the watermark still moves past it. */
  lemma EmptySlotsStillAdvance(s: Store, last: nat, chain: Chain, latest: nat)
    requires last < latest
    requires forall slot :: last < slot <= latest ==> slot !in chain.blocks
    ensures PollCycle(s, last, chain, latest) == Cycle(s, latest)
  {
    HeightsAscending(last + 1, latest);
    MissingSlotsChangeNothing(s, chain, Heights(last + 1, latest));
  }

  // ---------------------------------------------------------------- handlers

  /**
   * `handleSolDeposit` for a user with an address: a SOL Deposit with this
   * txHash means nothing happens; without any Deposit the confirmed record
   * is added and the owner's solBalance grows by the amount; a Deposit of the
   * other currency makes the unique index refuse the insert.
   */
  lemma SolDepositEffect(s: Store, u: U.User, txHash: string, amount: int, slot: nat)
    requires Invariant(s) && txHash != "" && u.solDepositAddress != ""
    ensures txHash in s.deposits && s.deposits[txHash].currency == SOL ==> SolDeposit(s, u, txHash, amount, slot) == Success(s)
    ensures txHash in s.deposits && s.deposits[txHash].currency != SOL ==>
      SolDeposit(s, u, txHash, amount, slot) == Failure(DuplicateKey(txHash))
    ensures txHash !in s.deposits ==>
      var r := SolDeposit(s, u, txHash, amount, slot);
      && r.Success?
      && r.value.deposits == s.deposits[txHash := NewDeposit(u, txHash, amount, slot)]
      && r.value.withdrawals == s.withdrawals
      && UsersKept(s.users, r.value.users)
      && (forall i :: 0 <= i < |s.users| ==>
            r.value.users[i].solBalance == s.users[i].solBalance + (if s.users[i].id == u.id then amount else 0))
      && (forall i :: 0 <= i < |s.users| ==> r.value.users[i].ethBalance == s.users[i].ethBalance)
  {
    if txHash !in s.deposits {
      assert D.Insert(s.deposits, NewDeposit(u, txHash, amount, slot)).Success?;
    }
  }

  /** A record the deposit handler creates is a confirmed SOL Deposit at the slot, to the user's address. */
  lemma NewDepositIsConfirmed(u: U.User, txHash: string, amount: int, slot: nat)
    ensures NewDeposit(u, txHash, amount, slot).status == D.Confirmed && NewDeposit(u, txHash, amount, slot).confirmedAt
    ensures NewDeposit(u, txHash, amount, slot).currency == SOL && NewDeposit(u, txHash, amount, slot).amount == amount
    ensures NewDeposit(u, txHash, amount, slot).user == u.id && NewDeposit(u, txHash, amount, slot).txHash == txHash
    ensures NewDeposit(u, txHash, amount, slot).toAddress == u.solDepositAddress
    ensures NewDeposit(u, txHash, amount, slot).slot == Some(slot)
  {
  }

  /**
   * `handleSolWithdrawal` for a user with an address: a pending SOL
   * Withdrawal is confirmed at the slot, a settled one is left alone, and
   * without any Withdrawal a failed record is added. No user or Deposit changes.
   */
  lemma SolWithdrawalEffect(s: Store, u: U.User, txHash: string, amount: int, slot: nat, toAddress: string)
    requires Invariant(s) && txHash != "" && u.solDepositAddress != "" && toAddress != ""
    ensures SolWithdrawal(s, u, txHash, amount, slot, toAddress).Success? ==>
      SolWithdrawal(s, u, txHash, amount, slot, toAddress).value.users == s.users
      && SolWithdrawal(s, u, txHash, amount, slot, toAddress).value.deposits == s.deposits
    ensures txHash in s.withdrawals && s.withdrawals[txHash].currency == SOL && s.withdrawals[txHash].status == W.Pending ==>
      SolWithdrawal(s, u, txHash, amount, slot, toAddress)
        == Success(s.(withdrawals := s.withdrawals[txHash := W.Confirm(s.withdrawals[txHash], Some(slot))]))
    ensures txHash in s.withdrawals && s.withdrawals[txHash].currency == SOL && s.withdrawals[txHash].status != W.Pending ==>
      SolWithdrawal(s, u, txHash, amount, slot, toAddress) == Success(s)
    ensures txHash in s.withdrawals && s.withdrawals[txHash].currency != SOL ==>
      SolWithdrawal(s, u, txHash, amount, slot, toAddress) == Failure(DuplicateKey(txHash))
    ensures txHash !in s.withdrawals ==>
      SolWithdrawal(s, u, txHash, amount, slot, toAddress)
        == Success(s.(withdrawals := s.withdrawals[txHash := UnauthorizedWithdrawal(u, txHash, amount, slot, toAddress)]))
  {
  }

  /** A record the withdrawal handler creates is a failed SOL Withdrawal from the user's address, at the slot. */
  lemma UnauthorizedWithdrawalIsFailed(u: U.User, txHash: string, amount: int, slot: nat, toAddress: string)
    ensures UnauthorizedWithdrawal(u, txHash, amount, slot, toAddress).status == W.Failed
    ensures UnauthorizedWithdrawal(u, txHash, amount, slot, toAddress).currency == SOL
    ensures UnauthorizedWithdrawal(u, txHash, amount, slot, toAddress).fromAddress == u.solDepositAddress
    ensures UnauthorizedWithdrawal(u, txHash, amount, slot, toAddress).toAddress == toAddress
    ensures UnauthorizedWithdrawal(u, txHash, amount, slot, toAddress).slot == Some(slot)
    ensures UnauthorizedWithdrawal(u, txHash, amount, slot, toAddress).user == u.id
  {
  }

  // ------------------------------------------------------- one transaction

  /** After the deposit side: no user owns the recipient address, or a SOL Deposit holds the txHash. */
  predicate DepositSeen(s: Store, dbUsers: seq<U.User>, tx: Transaction, toAddress: string) {
    FindBySolAddress(dbUsers, toAddress).None? || (tx.signature in s.deposits && s.deposits[tx.signature].currency == SOL)
  }

  /** After the withdrawal side: no user owns the sender address, or a settled SOL Withdrawal holds the txHash. */
  predicate WithdrawalSeen(s: Store, dbUsers: seq<U.User>, tx: Transaction, fromAddress: string) {
    || FindBySolAddress(dbUsers, fromAddress).None?
    || (tx.signature in s.withdrawals && s.withdrawals[tx.signature].currency == SOL
        && s.withdrawals[tx.signature].status != W.Pending)
  }

  lemma DepositSideSettles(s: Store, dbUsers: seq<U.User>, tx: Transaction, toAddress: string, amount: int, slot: nat)
    requires Invariant(s)
    ensures DepositSide(s, dbUsers, tx, toAddress, amount, slot).Success? ==>
      var t := DepositSide(s, dbUsers, tx, toAddress, amount, slot).value;
      && Invariant(t) && Evolves(s, t) && t.withdrawals == s.withdrawals
      && DepositSeen(t, dbUsers, tx, toAddress)
      && (forall h :: h in s.deposits ==> h in t.deposits && t.deposits[h] == s.deposits[h])
      && (forall i :: 0 <= i < |s.users| ==> t.users[i].ethBalance == s.users[i].ethBalance)
    ensures DepositSide(s, dbUsers, tx, toAddress, amount, slot).Failure? ==> !DepositSeen(s, dbUsers, tx, toAddress)
  {
    EvolvesReflexive(s);
    match FindBySolAddress(dbUsers, toAddress)
    case None =>
    case Some(k) =>
      var u := dbUsers[k];
      if !(tx.signature in s.deposits && s.deposits[tx.signature].currency == SOL) {
        match D.Insert(s.deposits, NewDeposit(u, tx.signature, amount, slot))
        case Failure(e) =>
        case Success(c) =>
          var t := CreditSol(s.(deposits := c), u.id, amount);
          UsersKeptUnique(s.users, t.users);
      }
  }

  lemma WithdrawalSideSettles(s: Store, dbUsers: seq<U.User>, tx: Transaction, fromAddress: string, toAddress: string,
                              amount: int, slot: nat)
    requires Invariant(s)
    ensures WithdrawalSide(s, dbUsers, tx, fromAddress, toAddress, amount, slot).Success? ==>
      var t := WithdrawalSide(s, dbUsers, tx, fromAddress, toAddress, amount, slot).value;
      && Invariant(t) && Evolves(s, t) && t.users == s.users && t.deposits == s.deposits
      && WithdrawalSeen(t, dbUsers, tx, fromAddress)
    ensures WithdrawalSide(s, dbUsers, tx, fromAddress, toAddress, amount, slot).Failure? ==>
      !WithdrawalSeen(s, dbUsers, tx, fromAddress)
  {
    EvolvesReflexive(s);
  }

  /** With nothing left to record, the deposit side changes nothing. */
  lemma DepositSeenIsStable(s: Store, dbUsers: seq<U.User>, tx: Transaction, toAddress: string, amount: int, slot: nat)
    requires DepositSeen(s, dbUsers, tx, toAddress)
    ensures DepositSide(s, dbUsers, tx, toAddress, amount, slot) == Success(s)
  {
  }

  /** With nothing left to record, the withdrawal side changes nothing. */
  lemma WithdrawalSeenIsStable(s: Store, dbUsers: seq<U.User>, tx: Transaction, fromAddress: string, toAddress: string,
                               amount: int, slot: nat)
    requires WithdrawalSeen(s, dbUsers, tx, fromAddress)
    ensures WithdrawalSide(s, dbUsers, tx, fromAddress, toAddress, amount, slot) == Success(s)
  {
  }

  /**
   * What scanning a Solana block may do to a store: keep it valid, let it
   * evolve, never alter a stored Deposit and leave ethBalance alone.
   */
  predicate Slotted(s: Store, t: Store) {
    && Invariant(t)
    && Evolves(s, t)
    && (forall h :: h in s.deposits ==> h in t.deposits && t.deposits[h] == s.deposits[h])
    && (forall i :: 0 <= i < |s.users| ==> t.users[i].ethBalance == s.users[i].ethBalance)
  }

  lemma SlottedTransitive(a: Store, b: Store, c: Store)
    requires Slotted(a, b) && Slotted(b, c)
    ensures Slotted(a, c)
  {
    EvolvesTransitive(a, b, c);
  }

  lemma RouteSlotted(s: Store, dbUsers: seq<U.User>, slot: nat, tx: Transaction, fromAddress: string, toAddress: string,
                     amount: int)
    requires Invariant(s)
    ensures Slotted(s, Route(s, dbUsers, slot, tx, fromAddress, toAddress, amount))
  {
    EvolvesReflexive(s);
    DepositSideSettles(s, dbUsers, tx, toAddress, amount, slot);
    match DepositSide(s, dbUsers, tx, toAddress, amount, slot)
    case Failure(_) =>
    case Success(t) =>
      WithdrawalSideSettles(t, dbUsers, tx, fromAddress, toAddress, amount, slot);
      EvolvesReflexive(t);
      match WithdrawalSide(t, dbUsers, tx, fromAddress, toAddress, amount, slot)
      case Failure(_) =>
      case Success(r) => SlottedTransitive(s, t, r);
  }

  lemma TransactionStepSlotted(s: Store, dbUsers: seq<U.User>, slot: nat, tx: Transaction)
    requires Invariant(s)
    ensures Slotted(s, TransactionStep(s, dbUsers, slot, tx))
  {
    if Routed(tx) {
      RouteSlotted(s, dbUsers, slot, tx, FromAddress(tx), ToAddress(tx), Transferred(tx));
    } else {
      EvolvesReflexive(s);
    }
  }

  /** Routing the same transaction twice is routing it once. */
  lemma RouteIdempotent(s: Store, dbUsers: seq<U.User>, slot: nat, tx: Transaction, fromAddress: string, toAddress: string,
                        amount: int)
    requires Invariant(s)
    ensures var r := Route(s, dbUsers, slot, tx, fromAddress, toAddress, amount);
      Route(r, dbUsers, slot, tx, fromAddress, toAddress, amount) == r
  {
    DepositSideSettles(s, dbUsers, tx, toAddress, amount, slot);
    match DepositSide(s, dbUsers, tx, toAddress, amount, slot)
    case Failure(_) =>
    case Success(t) =>
      WithdrawalSideSettles(t, dbUsers, tx, fromAddress, toAddress, amount, slot);
      DepositSeenIsStable(t, dbUsers, tx, toAddress, amount, slot);
      match WithdrawalSide(t, dbUsers, tx, fromAddress, toAddress, amount, slot)
      case Failure(_) =>
      case Success(r) =>
        assert DepositSeen(r, dbUsers, tx, toAddress);
        DepositSeenIsStable(r, dbUsers, tx, toAddress, amount, slot);
        WithdrawalSeenIsStable(r, dbUsers, tx, fromAddress, toAddress, amount, slot);
  }

  /**
   * Handling the same transaction twice is handling it once: a recorded
   * deposit is neither recorded nor credited again, a recorded withdrawal is
   * not touched again, and a refused write is refused again.
   */
  lemma TransactionStepIdempotent(s: Store, dbUsers: seq<U.User>, slot: nat, tx: Transaction)
    requires Invariant(s)
    ensures TransactionStep(TransactionStep(s, dbUsers, slot, tx), dbUsers, slot, tx) == TransactionStep(s, dbUsers, slot, tx)
  {
    if Routed(tx) {
      RouteIdempotent(s, dbUsers, slot, tx, FromAddress(tx), ToAddress(tx), Transferred(tx));
    }
  }

  /**
   * A thrown error stays inside its transaction: when the unique index
   * refuses the SOL Deposit because a Deposit of the other currency holds
   * the txHash, the withdrawal side of that transaction does not run and
   * the store is as before.
   */
  lemma RefusedDepositSkipsWithdrawal(s: Store, dbUsers: seq<U.User>, slot: nat, tx: Transaction)
    requires Invariant(s)
    requires Routed(tx) && FindBySolAddress(dbUsers, ToAddress(tx)).Some?
    requires tx.signature in s.deposits && s.deposits[tx.signature].currency == ETH
    ensures TransactionStep(s, dbUsers, slot, tx) == s
  {
    var u := dbUsers[FindBySolAddress(dbUsers, ToAddress(tx)).value];
    assert D.Insert(s.deposits, NewDeposit(u, tx.signature, Transferred(tx), slot)).Failure?;
  }

  /**
   * One transaction can be routed both ways: when its recipient and its
   * sender are both deposit addresses and neither record exists, it yields a
   * SOL Deposit for the recipient's owner and a failed SOL Withdrawal for the
   * sender's owner, under the same txHash.
   */
  lemma TransferBetweenUsersRecordsBoth(s: Store, dbUsers: seq<U.User>, slot: nat, tx: Transaction)
    requires Invariant(s) && Routed(tx) && tx.signature != ""
    requires FindBySolAddress(dbUsers, ToAddress(tx)).Some? && FindBySolAddress(dbUsers, FromAddress(tx)).Some?
    requires tx.signature !in s.deposits && tx.signature !in s.withdrawals
    ensures var r := TransactionStep(s, dbUsers, slot, tx);
      var payee := dbUsers[FindBySolAddress(dbUsers, ToAddress(tx)).value];
      var payer := dbUsers[FindBySolAddress(dbUsers, FromAddress(tx)).value];
      && r.deposits == s.deposits[tx.signature := NewDeposit(payee, tx.signature, Transferred(tx), slot)]
      && r.withdrawals
         == s.withdrawals[tx.signature := UnauthorizedWithdrawal(payer, tx.signature, Transferred(tx), slot, ToAddress(tx))]
  {
    var payee := dbUsers[FindBySolAddress(dbUsers, ToAddress(tx)).value];
    var payer := dbUsers[FindBySolAddress(dbUsers, FromAddress(tx)).value];
    SolDepositEffect(s, payee, tx.signature, Transferred(tx), slot);
    var t := SolDeposit(s, payee, tx.signature, Transferred(tx), slot).value;
    assert DepositSide(s, dbUsers, tx, ToAddress(tx), Transferred(tx), slot) == Success(t);
    UsersKeptUnique(s.users, t.users);
    SolWithdrawalEffect(t, payer, tx.signature, Transferred(tx), slot, ToAddress(tx));
  }

  lemma {:induction false} TransactionsRunSlotted(s: Store, dbUsers: seq<U.User>, slot: nat, txs: seq<Transaction>)
    requires Invariant(s)
    ensures Slotted(s, TransactionsRun(s, dbUsers, slot, txs))
    decreases |txs|
  {
    if txs == [] {
      EvolvesReflexive(s);
    } else {
      var t := TransactionStep(s, dbUsers, slot, txs[0]);
      TransactionStepSlotted(s, dbUsers, slot, txs[0]);
      TransactionsRunSlotted(t, dbUsers, slot, txs[1..]);
      SlottedTransitive(s, t, TransactionsRun(t, dbUsers, slot, txs[1..]));
    }
  }

  lemma {:induction false} SlotsRunSlotted(s: Store, chain: Chain, slots: seq<nat>)
    requires Invariant(s)
    ensures Slotted(s, SlotsRun(s, chain, slots))
    decreases |slots|
  {
    if slots == [] {
      EvolvesReflexive(s);
    } else {
      var t := BlockRun(s, chain, slots[0]);
      if slots[0] in chain.blocks {
        TransactionsRunSlotted(s, s.users, slots[0], chain.blocks[slots[0]]);
      } else {
        EvolvesReflexive(s);
      }
      SlotsRunSlotted(t, chain, slots[1..]);
      SlottedTransitive(s, t, SlotsRun(t, chain, slots[1..]));
    }
  }

  /**
   * A scan cycle keeps the store valid, deletes nothing, moves statuses
   * only forward, never alters a stored Deposit and never touches ethBalance.
   */
  lemma ScanCycleSlotted(s: Store, last: nat, chain: Chain, latest: nat)
    requires Invariant(s)
    ensures Slotted(s, PollCycle(s, last, chain, latest).store)
  {
    if latest > last {
      SlotsRunSlotted(s, chain, Heights(last + 1, latest));
    } else {
      EvolvesReflexive(s);
    }
  }

  // ------------------------------------------------------------------ sweep

  /** The node knows the transaction and reports a slot for it. */
  predicate Lands(chain: Chain, hash: string) {
    GetTransactionSlot(chain, hash).Some? && GetTransactionSlot(chain, hash).value != 0
  }

  /** What the sweep makes of one pending SOL Deposit. */
  function Reconciled(chain: Chain, d: D.Deposit): D.Deposit {
    if Lands(chain, d.txHash) then D.Confirm(d, GetTransactionSlot(chain, d.txHash)) else d
  }

  /** What the sweep makes of one pending SOL Withdrawal. */
  function Settled(chain: Chain, w: W.Withdrawal): W.Withdrawal {
    if GetTransactionSlot(chain, w.txHash).None? then W.Fail(w)
    else if Lands(chain, w.txHash) then W.Confirm(w, GetTransactionSlot(chain, w.txHash))
    else w
  }

  /** The total the sweep takes off user `id`: the recorded amounts of its withdrawals that landed. */
  function Debits(chain: Chain, docs: seq<W.Withdrawal>, id: UserId): int
    decreases |docs|
  {
    if docs == [] then 0
    else (if docs[0].user == id && Lands(chain, docs[0].txHash) then docs[0].amount else 0) + Debits(chain, docs[1..], id)
  }

  /**
   * The deposit half of the sweep: each listed Deposit becomes its
   * reconciled form, stamped with the slot; every other record and every
   * balance stays.
   */
  lemma {:induction false} ConfirmAllRecords(s: Store, chain: Chain, docs: seq<D.Deposit>)
    requires D.Listed(s.deposits, docs)
    ensures ConfirmAll(s, chain, docs).users == s.users
    ensures ConfirmAll(s, chain, docs).withdrawals == s.withdrawals
    ensures ConfirmAll(s, chain, docs).deposits.Keys == s.deposits.Keys
    ensures forall i :: 0 <= i < |docs| ==> ConfirmAll(s, chain, docs).deposits[docs[i].txHash] == Reconciled(chain, docs[i])
    ensures forall h :: h in s.deposits && h !in D.Hashes(docs) ==> ConfirmAll(s, chain, docs).deposits[h] == s.deposits[h]
    decreases |docs|
  {
    if docs != [] {
      var d := docs[0];
      var rest := docs[1..];
      var t := ConfirmStep(s, chain, d);
      assert t.deposits == s.deposits[d.txHash := Reconciled(chain, d)];
      assert forall i :: 0 <= i < |rest| ==> rest[i] == docs[i + 1];
      ConfirmAllRecords(t, chain, rest);
      assert d.txHash !in D.Hashes(rest);
    }
  }

  /**
   * The withdrawal half of the sweep: each listed Withdrawal becomes its
   * settled form; every other record and every Deposit stays.
   */
  lemma {:induction false} SettleAllRecords(s: Store, chain: Chain, docs: seq<W.Withdrawal>)
    requires W.Listed(s.withdrawals, docs)
    ensures SettleAll(s, chain, docs).deposits == s.deposits
    ensures SettleAll(s, chain, docs).withdrawals.Keys == s.withdrawals.Keys
    ensures forall i :: 0 <= i < |docs| ==> SettleAll(s, chain, docs).withdrawals[docs[i].txHash] == Settled(chain, docs[i])
    ensures forall h :: h in s.withdrawals && h !in W.Hashes(docs) ==> SettleAll(s, chain, docs).withdrawals[h] == s.withdrawals[h]
    decreases |docs|
  {
    if docs != [] {
      var w := docs[0];
      var rest := docs[1..];
      var t := SettleStep(s, chain, w);
      assert t.withdrawals == s.withdrawals[w.txHash := Settled(chain, w)];
      assert forall i :: 0 <= i < |rest| ==> rest[i] == docs[i + 1];
      SettleAllRecords(t, chain, rest);
      assert w.txHash !in W.Hashes(rest);
    }
  }

  /**
   * The withdrawal half of the sweep takes from each user exactly the
   * recorded amounts of that user's withdrawals that landed, from
   * solBalance, and changes nothing else about users.
   */
  lemma {:induction false} SettleAllDebits(s: Store, chain: Chain, docs: seq<W.Withdrawal>)
    requires U.Unique(s.users)
    ensures UsersKept(s.users, SettleAll(s, chain, docs).users)
    ensures forall i :: 0 <= i < |s.users| ==>
      SettleAll(s, chain, docs).users[i].solBalance == s.users[i].solBalance - Debits(chain, docs, s.users[i].id)
    ensures forall i :: 0 <= i < |s.users| ==>
      SettleAll(s, chain, docs).users[i].ethBalance == s.users[i].ethBalance
    decreases |docs|
  {
    if docs != [] {
      var w := docs[0];
      var t := SettleStep(s, chain, w);
      assert UsersKept(s.users, t.users);
      assert forall i :: 0 <= i < |s.users| ==>
        t.users[i].solBalance == s.users[i].solBalance - (if s.users[i].id == w.user && Lands(chain, w.txHash) then w.amount else 0);
      UsersKeptUnique(s.users, t.users);
      SettleAllDebits(t, chain, docs[1..]);
      UsersKeptTransitive(s.users, t.users, SettleAll(t, chain, docs[1..]).users);
      forall i | 0 <= i < |s.users|
        ensures t.users[i].id == s.users[i].id
      {
        assert t.users[i].(ethBalance := s.users[i].ethBalance, solBalance := s.users[i].solBalance) == s.users[i];
      }
    }
  }

  /** Confirming the listed pending deposits keeps the store valid and lets it evolve. */
  lemma ConfirmAllEvolves(s: Store, chain: Chain, ds: seq<D.Deposit>)
    requires Invariant(s) && D.Listed(s.deposits, ds)
    ensures Invariant(ConfirmAll(s, chain, ds)) && Evolves(s, ConfirmAll(s, chain, ds))
  {
    ConfirmAllRecords(s, chain, ds);
    EvolvesReflexive(s);
    var t := ConfirmAll(s, chain, ds);
    forall h | h in t.deposits
      ensures t.deposits[h].txHash == h && D.Valid(t.deposits[h]) && D.Transition(s.deposits[h].status, t.deposits[h].status)
    {
      if h in D.Hashes(ds) {
        var i :| 0 <= i < |ds| && ds[i].txHash == h;
        assert t.deposits[h] == Reconciled(chain, ds[i]);
      }
    }
  }

  /** Settling the listed pending withdrawals keeps every record keyed and valid and moves it forward only. */
  lemma SettleAllMovesForward(s: Store, chain: Chain, ws: seq<W.Withdrawal>)
    requires W.Keyed(s.withdrawals) && W.Listed(s.withdrawals, ws)
    ensures W.Keyed(SettleAll(s, chain, ws).withdrawals)
    ensures forall h :: h in s.withdrawals ==>
      h in SettleAll(s, chain, ws).withdrawals && W.Transition(s.withdrawals[h].status, SettleAll(s, chain, ws).withdrawals[h].status)
  {
    SettleAllRecords(s, chain, ws);
    var c := SettleAll(s, chain, ws).withdrawals;
    forall h | h in c
      ensures c[h].txHash == h && W.Valid(c[h]) && W.Transition(s.withdrawals[h].status, c[h].status)
    {
      if h in W.Hashes(ws) {
        var i :| 0 <= i < |ws| && ws[i].txHash == h;
        assert c[h] == Settled(chain, ws[i]);
      }
    }
  }

  /** Settling the listed pending withdrawals keeps the store valid and lets it evolve. */
  lemma SettleAllEvolves(s: Store, chain: Chain, ws: seq<W.Withdrawal>)
    requires Invariant(s) && W.Listed(s.withdrawals, ws)
    ensures Invariant(SettleAll(s, chain, ws)) && Evolves(s, SettleAll(s, chain, ws))
  {
    SettleAllRecords(s, chain, ws);
    SettleAllDebits(s, chain, ws);
    SettleAllMovesForward(s, chain, ws);
    EvolvesReflexive(s);
    UsersKeptUnique(s.users, SettleAll(s, chain, ws).users);
  }

  /** A whole sweep over the pending records as `find` listed them keeps the store valid and lets it evolve. */
  lemma SweepEvolves(s: Store, chain: Chain, ds: seq<D.Deposit>, ws: seq<W.Withdrawal>)
    requires Invariant(s) && D.Listed(s.deposits, ds) && W.Listed(s.withdrawals, ws)
    ensures Invariant(Sweep(s, chain, ds, ws)) && Evolves(s, Sweep(s, chain, ds, ws))
  {
    ConfirmAllEvolves(s, chain, ds);
    var m := ConfirmAll(s, chain, ds);
    ConfirmAllRecords(s, chain, ds);
    SettleAllEvolves(m, chain, ws);
    EvolvesTransitive(s, m, SettleAll(m, chain, ws));
  }

  /** The SOL sweep, fed what its `find` calls return, leaves every ETH record exactly as it was. */
  lemma SweepLeavesEthRecords(s: Store, chain: Chain, ds: seq<D.Deposit>, ws: seq<W.Withdrawal>)
    requires Invariant(s) && D.Snapshot(s.deposits, Some(SOL), ds) && W.Snapshot(s.withdrawals, Some(SOL), ws)
    ensures forall h :: h in s.deposits && s.deposits[h].currency == ETH ==>
      h in Sweep(s, chain, ds, ws).deposits && Sweep(s, chain, ds, ws).deposits[h] == s.deposits[h]
    ensures forall h :: h in s.withdrawals && s.withdrawals[h].currency == ETH ==>
      h in Sweep(s, chain, ds, ws).withdrawals && Sweep(s, chain, ds, ws).withdrawals[h] == s.withdrawals[h]
  {
    ConfirmAllRecords(s, chain, ds);
    SettleAllRecords(ConfirmAll(s, chain, ds), chain, ws);
  }
}
