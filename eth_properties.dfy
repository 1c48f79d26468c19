/** What a scan cycle and a sweep of the EVM watcher do to the ledger. */
module EthProperties {
  import opened Common
  import opened Ledger
  import opened EthIndexer
  import D = DepositModel
  import W = WithdrawalModel
  import U = UserModel

  // ---------------------------------------------------------------- scanning

  /** Running a list of heights is running its prefix and then, unless a write was refused, its suffix. */
  lemma {:induction false} HeightsRunAppend(s: Store, chain: Chain, xs: seq<nat>, ys: seq<nat>)
    ensures HeightsRun(s, chain, xs + ys) ==
      (match HeightsRun(s, chain, xs)
       case Done(t) => HeightsRun(t, chain, ys)
       case Aborted(t, e) => Aborted(t, e))
    decreases |xs|
  {
    if xs == [] {
      assert xs + ys == ys;
    } else {
      assert (xs + ys)[0] == xs[0] && (xs + ys)[1..] == xs[1..] + ys;
      match BlockRun(s, chain, xs[0])
      case Aborted(t, e) =>
      case Done(t) => HeightsRunAppend(t, chain, xs[1..], ys);
    }
  }

  /**
   * Polling up to `mid` and then up to `latest` leaves the store where one
   * poll up to `latest` leaves it: every height is handled once, in ascending
   * order, however the tips arrive. When both finish, the watermarks agree
   * too; a refused write in the first cycle is where the single cycle stops.
   */
  lemma PollCyclesCompose(s: Store, last: nat, chain: Chain, mid: nat, latest: nat)
    requires last <= mid <= latest
    ensures var c1 := PollCycle(s, last, chain, mid);
      var c2 := PollCycle(c1.run.store, c1.lastProcessedBlock, chain, latest);
      c1.run.Done? ==>
        && c2.run == PollCycle(s, last, chain, latest).run
        && (c2.run.Done? ==> c2.lastProcessedBlock == PollCycle(s, last, chain, latest).lastProcessedBlock)
    ensures var c1 := PollCycle(s, last, chain, mid);
      c1.run.Aborted? ==> PollCycle(s, last, chain, latest) == c1
  {
    if last < mid {
      HeightsSplit(last + 1, mid, latest);
      HeightsRunAppend(s, chain, Heights(last + 1, mid), Heights(mid + 1, latest));
    }
  }

  /** Heights whose receipts response has no result change nothing. */
  lemma {:induction false} MissingHeightsChangeNothing(s: Store, chain: Chain, hs: seq<nat>)
    requires forall i :: 0 <= i < |hs| ==> hs[i] !in chain.receipts
    ensures HeightsRun(s, chain, hs) == Done(s)
    decreases |hs|
  {
    if hs != [] {
      MissingHeightsChangeNothing(s, chain, hs[1..]);
    }
  }

  /** A stretch of heights without receipts changes nothing, and the watermark still moves past it. */
  lemma EmptyHeightsStillAdvance(s: Store, last: nat, chain: Chain, latest: nat)
    requires last < latest
    requires forall h :: last < h <= latest ==> h !in chain.receipts
    ensures PollCycle(s, last, chain, latest) == Cycle(Done(s), latest)
  {
    HeightsAscending(last + 1, latest);
    MissingHeightsChangeNothing(s, chain, Heights(last + 1, latest));
  }

  // ---------------------------------------------------------- classification

  lemma AppendAssociative<X>(a: seq<X>, b: seq<X>, c: seq<X>)
    ensures a + (b + c) == (a + b) + c
  {
  }

  /** Filtering a receipt followed by others: the receipt, when it qualifies, then the filtered rest. */
  lemma CandidatesCons(x: Receipt, rest: seq<Receipt>, addrs: seq<string>)
    ensures DepositCandidates([x] + rest, addrs) == (if x.to != "" && x.to in addrs then [x] else []) + DepositCandidates(rest, addrs)
    ensures WithdrawalCandidates([x] + rest, addrs) == (if x.from != "" && x.from in addrs then [x] else []) + WithdrawalCandidates(rest, addrs)
  {
    assert ([x] + rest)[0] == x && ([x] + rest)[1..] == rest;
  }

  /**
   * The deposit filter keeps the receipts' order: filtering a concatenation
   * is concatenating the filtered parts.
   */
  lemma {:induction false} DepositCandidatesAppend(xs: seq<Receipt>, ys: seq<Receipt>, addrs: seq<string>)
    ensures DepositCandidates(xs + ys, addrs) == DepositCandidates(xs, addrs) + DepositCandidates(ys, addrs)
    decreases |xs|
  {
    if xs == [] {
      assert xs + ys == ys;
    } else {
      var x, rest := xs[0], xs[1..];
      assert xs == [x] + rest && xs + ys == [x] + (rest + ys);
      CandidatesCons(x, rest + ys, addrs);
      CandidatesCons(x, rest, addrs);
      DepositCandidatesAppend(rest, ys, addrs);
      AppendAssociative(if x.to != "" && x.to in addrs then [x] else [], DepositCandidates(rest, addrs), DepositCandidates(ys, addrs));
    }
  }

  /** The withdrawal filter keeps the receipts' order in the same way. */
  lemma {:induction false} WithdrawalCandidatesAppend(xs: seq<Receipt>, ys: seq<Receipt>, addrs: seq<string>)
    ensures WithdrawalCandidates(xs + ys, addrs) == WithdrawalCandidates(xs, addrs) + WithdrawalCandidates(ys, addrs)
    decreases |xs|
  {
    if xs == [] {
      assert xs + ys == ys;
    } else {
      var x, rest := xs[0], xs[1..];
      assert xs == [x] + rest && xs + ys == [x] + (rest + ys);
      CandidatesCons(x, rest + ys, addrs);
      CandidatesCons(x, rest, addrs);
      WithdrawalCandidatesAppend(rest, ys, addrs);
      AppendAssociative(if x.from != "" && x.from in addrs then [x] else [], WithdrawalCandidates(rest, addrs), WithdrawalCandidates(ys, addrs));
    }
  }

  /** One receipt is a deposit candidate exactly when its `to` is set and indexed, and a withdrawal candidate when its `from` is. */
  lemma CandidatesOfOne(x: Receipt, addrs: seq<string>)
    ensures DepositCandidates([x], addrs) == (if x.to != "" && x.to in addrs then [x] else [])
    ensures WithdrawalCandidates([x], addrs) == (if x.from != "" && x.from in addrs then [x] else [])
  {
    assert [x][1..] == [];
  }

  // ------------------------------------------------------------ deposit path

  /** The user a deposit step credits: a present, valued transaction sent to some user's address. */
  function Recipient(s: Store, txn: Option<Transaction>): (k: Option<nat>)
    ensures k.Some? ==> txn.Some? && txn.value.to != "" && txn.value.value != 0
    ensures k.Some? ==> k.value < |s.users| && s.users[k.value].ethDepositAddress == txn.value.to
    ensures k.Some? ==> forall j :: 0 <= j < k.value ==> s.users[j].ethDepositAddress != txn.value.to
    ensures k.None? && txn.Some? && txn.value.to != "" && txn.value.value != 0 ==>
      forall j :: 0 <= j < |s.users| ==> s.users[j].ethDepositAddress != txn.value.to
  {
    if txn.None? || txn.value.to == "" || txn.value.value == 0 then None else FindByEthAddress(s.users, txn.value.to)
  }

  /**
   * One deposit step: nothing without a recipient; otherwise the recipient's
   * ethBalance grows by the value whether or not a Deposit with this txHash
   * already exists, and a confirmed Deposit is added only when none does.
   */
  lemma DepositStepEffect(s: Store, txn: Option<Transaction>)
    requires Invariant(s)
    ensures Recipient(s, txn).None? ==> DepositStep(s, txn) == Done(s)
    ensures Recipient(s, txn).Some? && txn.value.hash == "" ==>
      DepositStep(s, txn) == Aborted(s, RequiredPathMissing("txHash"))
    ensures Recipient(s, txn).Some? && txn.value.hash != "" ==>
      var k := Recipient(s, txn).value;
      var t := txn.value;
      var r := DepositStep(s, txn);
      && r.Done?
      && UsersKept(s.users, r.store.users)
      && (forall i :: 0 <= i < |s.users| ==>
            r.store.users[i].ethBalance == s.users[i].ethBalance + (if i == k then t.value else 0))
      && (forall i :: 0 <= i < |s.users| ==> r.store.users[i].solBalance == s.users[i].solBalance)
      && r.store.deposits == (if t.hash in s.deposits then s.deposits else s.deposits[t.hash := NewDeposit(s.users[k], t)])
      && r.store.withdrawals == s.withdrawals
  {
    if Recipient(s, txn).Some? {
      var k := Recipient(s, txn).value;
      var t := txn.value;
      var u := s.users[k];
      assert FindByEthAddress(s.users, t.to) == Some(k);
      assert forall i :: 0 <= i < |s.users| && i != k ==> s.users[i].id != u.id;
      if t.hash == "" {
        assert "" !in s.deposits;
        assert D.Insert(s.deposits, NewDeposit(u, t)) == Failure(RequiredPathMissing("txHash"));
      } else if t.hash in s.deposits {
        assert DepositStep(s, txn) == Done(CreditEth(s, u.id, t.value));
      } else {
        var c := s.deposits[t.hash := NewDeposit(u, t)];
        assert D.Insert(s.deposits, NewDeposit(u, t)) == Success(c);
        assert DepositStep(s, txn) == Done(CreditEth(s.(deposits := c), u.id, t.value));
      }
    }
  }

  /** A record the deposit path creates is a confirmed ETH Deposit for the recipient, credited by the value. */
  lemma NewDepositIsConfirmed(u: U.User, t: Transaction)
    ensures NewDeposit(u, t).status == D.Confirmed && NewDeposit(u, t).confirmedAt
    ensures NewDeposit(u, t).currency == ETH && NewDeposit(u, t).amount == t.value
    ensures NewDeposit(u, t).user == u.id && NewDeposit(u, t).toAddress == t.to && NewDeposit(u, t).txHash == t.hash
    ensures NewDeposit(u, t).slot.None? && NewDeposit(u, t).blockNumber.None?
  {
  }

  /**
   * Seeing the same deposit twice keeps one Deposit record but credits the
   * recipient twice, because the increment sits outside the existence check.
   */
  lemma ReplayCreditsTwice(s: Store, t: Transaction)
    requires Invariant(s) && Recipient(s, Some(t)).Some? && t.hash != ""
    ensures var k := Recipient(s, Some(t)).value;
      var r1 := DepositStep(s, Some(t));
      var r2 := DepositStep(r1.store, Some(t));
      && r1.Done? && r2.Done?
      && t.hash in r1.store.deposits && r2.store.deposits == r1.store.deposits
      && (forall i :: 0 <= i < |s.users| ==>
            r2.store.users[i].ethBalance == s.users[i].ethBalance + (if i == k then 2 * t.value else 0))
  {
    var k := Recipient(s, Some(t)).value;
    DepositStepEffect(s, Some(t));
    var r1 := DepositStep(s, Some(t));
    DepositStepScanned(s, Some(t));
    UsersKeptFind(s.users, r1.store.users, t.to);
    assert Recipient(r1.store, Some(t)) == Recipient(s, Some(t));
    DepositStepEffect(r1.store, Some(t));
  }

  /**
   * What scanning may do to a store: keep it valid, let it evolve, add to
   * ethBalance and never take from it, and leave solBalance alone.
   */
  predicate Scanned(s: Store, t: Store) {
    && Invariant(t)
    && Evolves(s, t)
    && (forall i :: 0 <= i < |s.users| ==> s.users[i].ethBalance <= t.users[i].ethBalance)
    && (forall i :: 0 <= i < |s.users| ==> s.users[i].solBalance == t.users[i].solBalance)
  }

  lemma ScannedTransitive(a: Store, b: Store, c: Store)
    requires Scanned(a, b) && Scanned(b, c)
    ensures Scanned(a, c)
  {
    EvolvesTransitive(a, b, c);
  }

  /** Adding Deposits and crediting a non-negative amount is a scanning step. */
  lemma CreditScanned(s: Store, c: map<string, D.Deposit>, id: UserId, delta: nat)
    requires Invariant(s) && D.Keyed(c)
    requires forall h :: h in s.deposits ==> h in c && c[h] == s.deposits[h]
    ensures Scanned(s, CreditEth(s.(deposits := c), id, delta))
  {
    UsersKeptUnique(s.users, CreditEth(s.(deposits := c), id, delta).users);
  }

  lemma DepositStepScanned(s: Store, txn: Option<Transaction>)
    requires Invariant(s)
    ensures Scanned(s, DepositStep(s, txn).store)
    ensures DepositStep(s, txn).store.withdrawals == s.withdrawals
    ensures forall h :: h in s.deposits ==> h in DepositStep(s, txn).store.deposits && DepositStep(s, txn).store.deposits[h] == s.deposits[h]
  {
    if txn.None? || txn.value.to == "" || txn.value.value == 0 {
      EvolvesReflexive(s);
    } else {
      var t := txn.value;
      match FindByEthAddress(s.users, t.to)
      case None => EvolvesReflexive(s);
      case Some(k) =>
        if t.hash in s.deposits {
          CreditScanned(s, s.deposits, s.users[k].id, t.value);
        } else {
          match D.Insert(s.deposits, NewDeposit(s.users[k], t))
          case Failure(e) => EvolvesReflexive(s);
          case Success(c) => CreditScanned(s, c, s.users[k].id, t.value);
        }
    }
  }

  /**
   * `processDeposits` over any transactions: the store stays valid, stored
   * Deposits are never altered, withdrawals are untouched and balances only grow.
   */
  lemma {:induction false} DepositsOnlyCredit(s: Store, txns: seq<Option<Transaction>>)
    requires Invariant(s)
    ensures Scanned(s, DepositsRun(s, txns).store)
    ensures DepositsRun(s, txns).store.withdrawals == s.withdrawals
    ensures forall h :: h in s.deposits ==> h in DepositsRun(s, txns).store.deposits && DepositsRun(s, txns).store.deposits[h] == s.deposits[h]
    decreases |txns|
  {
    if txns == [] {
      EvolvesReflexive(s);
    } else {
      DepositStepScanned(s, txns[0]);
      match DepositStep(s, txns[0])
      case Aborted(t, e) =>
      case Done(t) =>
        DepositsOnlyCredit(t, txns[1..]);
        ScannedTransitive(s, t, DepositsRun(t, txns[1..]).store);
    }
  }

  // --------------------------------------------------------- withdrawal path

  /** The user a withdrawal step is about: a present, valued transaction sent from some user's address. */
  function Sender(s: Store, txn: Option<Transaction>): (k: Option<nat>)
    ensures k.Some? ==> txn.Some? && txn.value.from != "" && txn.value.value != 0
    ensures k.Some? ==> k.value < |s.users| && s.users[k.value].ethDepositAddress == txn.value.from
    ensures k.Some? ==> forall j :: 0 <= j < k.value ==> s.users[j].ethDepositAddress != txn.value.from
    ensures k.None? && txn.Some? && txn.value.from != "" && txn.value.value != 0 ==>
      forall j :: 0 <= j < |s.users| ==> s.users[j].ethDepositAddress != txn.value.from
  {
    if txn.None? || txn.value.from == "" || txn.value.value == 0 then None else FindByEthAddress(s.users, txn.value.from)
  }

  /**
   * One withdrawal step: nothing without a sender; a pending record is
   * confirmed, a settled one left alone, and a transfer with no record is
   * recorded as a new pending ETH Withdrawal (refused validation when it has
   * no recipient). Users and Deposits are never touched.
   */
  lemma WithdrawalStepEffect(s: Store, txn: Option<Transaction>)
    requires Invariant(s)
    ensures WithdrawalStep(s, txn).store.users == s.users && WithdrawalStep(s, txn).store.deposits == s.deposits
    ensures Sender(s, txn).None? ==> WithdrawalStep(s, txn) == Done(s)
    ensures Sender(s, txn).Some? ==>
      var t := txn.value;
      var r := WithdrawalStep(s, txn);
      && (t.hash in s.withdrawals && s.withdrawals[t.hash].status == W.Pending ==>
            r == Done(s.(withdrawals := s.withdrawals[t.hash := W.Confirm(s.withdrawals[t.hash], None)])))
      && (t.hash in s.withdrawals && s.withdrawals[t.hash].status != W.Pending ==> r == Done(s))
      && (t.hash !in s.withdrawals && t.hash != "" && t.to != "" ==>
            r == Done(s.(withdrawals := s.withdrawals[t.hash := UnexpectedWithdrawal(s.users[Sender(s, txn).value], t)])))
      && (t.hash !in s.withdrawals && (t.hash == "" || t.to == "") ==>
            r.Aborted? && r.store == s && r.error.RequiredPathMissing?)
  {
  }

  /** A record the withdrawal path creates is a pending ETH Withdrawal from the sender, not yet stamped. */
  lemma UnexpectedWithdrawalIsPending(u: U.User, t: Transaction)
    ensures UnexpectedWithdrawal(u, t).status == W.Pending && !UnexpectedWithdrawal(u, t).confirmedAt
    ensures UnexpectedWithdrawal(u, t).currency == ETH && UnexpectedWithdrawal(u, t).amount == t.value
    ensures UnexpectedWithdrawal(u, t).user == u.id && UnexpectedWithdrawal(u, t).txHash == t.hash
    ensures UnexpectedWithdrawal(u, t).fromAddress == t.from && UnexpectedWithdrawal(u, t).toAddress == t.to
  {
  }

  lemma WithdrawalStepScanned(s: Store, txn: Option<Transaction>)
    requires Invariant(s)
    ensures Scanned(s, WithdrawalStep(s, txn).store)
  {
    WithdrawalStepEffect(s, txn);
    EvolvesReflexive(s);
  }

  /** `processWithdrawals` over any transactions: the store stays valid and no user or Deposit changes. */
  lemma {:induction false} WithdrawalsKeepBalances(s: Store, txns: seq<Option<Transaction>>)
    requires Invariant(s)
    ensures Scanned(s, WithdrawalsRun(s, txns).store)
    ensures WithdrawalsRun(s, txns).store.users == s.users
    ensures WithdrawalsRun(s, txns).store.deposits == s.deposits
    decreases |txns|
  {
    if txns == [] {
      EvolvesReflexive(s);
    } else {
      WithdrawalStepScanned(s, txns[0]);
      WithdrawalStepEffect(s, txns[0]);
      match WithdrawalStep(s, txns[0])
      case Aborted(t, e) =>
      case Done(t) =>
        WithdrawalsKeepBalances(t, txns[1..]);
        ScannedTransitive(s, t, WithdrawalsRun(t, txns[1..]).store);
    }
  }

  // ------------------------------------------------------------- scan cycle

  lemma BlockRunScanned(s: Store, chain: Chain, h: nat)
    requires Invariant(s)
    ensures Scanned(s, BlockRun(s, chain, h).store)
  {
    if h !in chain.receipts {
      EvolvesReflexive(s);
    } else {
      var rs := chain.receipts[h];
      var addrs := AddressIndex(s.users);
      var txns := Fetch(chain, DepositCandidates(rs, addrs));
      DepositsOnlyCredit(s, txns);
      match DepositsRun(s, txns)
      case Aborted(t, e) =>
      case Done(t) =>
        var wtxns := Fetch(chain, WithdrawalCandidates(rs, addrs));
        WithdrawalsKeepBalances(t, wtxns);
        ScannedTransitive(s, t, WithdrawalsRun(t, wtxns).store);
    }
  }

  lemma {:induction false} HeightsRunScanned(s: Store, chain: Chain, hs: seq<nat>)
    requires Invariant(s)
    ensures Scanned(s, HeightsRun(s, chain, hs).store)
    decreases |hs|
  {
    if hs == [] {
      EvolvesReflexive(s);
    } else {
      BlockRunScanned(s, chain, hs[0]);
      match BlockRun(s, chain, hs[0])
      case Aborted(t, e) =>
      case Done(t) =>
        HeightsRunScanned(t, chain, hs[1..]);
        ScannedTransitive(s, t, HeightsRun(t, chain, hs[1..]).store);
    }
  }

  /**
   * A scan cycle, finished or cut short by a refused write, keeps the store
   * valid, deletes nothing, moves statuses only forward and only ever adds
   * to balances.
   */
  lemma ScanCycleOnlyCredits(s: Store, last: nat, chain: Chain, latest: nat)
    requires Invariant(s)
    ensures Scanned(s, PollCycle(s, last, chain, latest).run.store)
  {
    if latest > last {
      HeightsRunScanned(s, chain, Heights(last + 1, latest));
    } else {
      EvolvesReflexive(s);
    }
  }

  /**
   * A deposit step is refused only by a `required` path: the existence check
   * before the insert rules out a duplicate txHash.
   */
  lemma DepositStepRefusal(s: Store, txn: Option<Transaction>)
    ensures DepositStep(s, txn).Aborted? ==> DepositStep(s, txn).error.RequiredPathMissing?
  {
  }

  /** A withdrawal step is refused only by a `required` path, for the same reason. */
  lemma WithdrawalStepRefusal(s: Store, txn: Option<Transaction>)
    ensures WithdrawalStep(s, txn).Aborted? ==> WithdrawalStep(s, txn).error.RequiredPathMissing?
  {
  }

  lemma {:induction false} DepositsRunRefusal(s: Store, txns: seq<Option<Transaction>>)
    ensures DepositsRun(s, txns).Aborted? ==> DepositsRun(s, txns).error.RequiredPathMissing?
    decreases |txns|
  {
    if txns != [] {
      DepositStepRefusal(s, txns[0]);
      if DepositStep(s, txns[0]).Done? {
        DepositsRunRefusal(DepositStep(s, txns[0]).store, txns[1..]);
      }
    }
  }

  lemma {:induction false} WithdrawalsRunRefusal(s: Store, txns: seq<Option<Transaction>>)
    ensures WithdrawalsRun(s, txns).Aborted? ==> WithdrawalsRun(s, txns).error.RequiredPathMissing?
    decreases |txns|
  {
    if txns != [] {
      WithdrawalStepRefusal(s, txns[0]);
      if WithdrawalStep(s, txns[0]).Done? {
        WithdrawalsRunRefusal(WithdrawalStep(s, txns[0]).store, txns[1..]);
      }
    }
  }

  lemma {:induction false} HeightsRunRefusal(s: Store, chain: Chain, hs: seq<nat>)
    ensures HeightsRun(s, chain, hs).Aborted? ==> HeightsRun(s, chain, hs).error.RequiredPathMissing?
    decreases |hs|
  {
    if hs != [] && hs[0] in chain.receipts {
      var rs := chain.receipts[hs[0]];
      var addrs := AddressIndex(s.users);
      DepositsRunRefusal(s, Fetch(chain, DepositCandidates(rs, addrs)));
      match DepositsRun(s, Fetch(chain, DepositCandidates(rs, addrs)))
      case Aborted(t, e) =>
      case Done(t) =>
        WithdrawalsRunRefusal(t, Fetch(chain, WithdrawalCandidates(rs, addrs)));
        if BlockRun(s, chain, hs[0]).Done? {
          HeightsRunRefusal(BlockRun(s, chain, hs[0]).store, chain, hs[1..]);
        }
    } else if hs != [] {
      HeightsRunRefusal(s, chain, hs[1..]);
    }
  }

  /**
   * The only write that can stop an EVM scan cycle is one a `required` path
   * refuses (in practice an unmatched outbound transfer with no `to`); a
   * duplicate key never does.
   */
  lemma ScanRefusedOnlyByRequiredPath(s: Store, last: nat, chain: Chain, latest: nat)
    ensures PollCycle(s, last, chain, latest).run.Aborted? ==> PollCycle(s, last, chain, latest).run.error.RequiredPathMissing?
  {
    if latest > last {
      HeightsRunRefusal(s, chain, Heights(last + 1, latest));
    }
  }

  // ------------------------------------------------------------------ sweep

  /** The node knows the transaction and reports a block for it. */
  predicate Lands(chain: Chain, hash: string) {
    GetTransaction(chain, hash).Some? && GetTransaction(chain, hash).value.blockNumber != 0
  }

  /** What the sweep makes of one pending Deposit. */
  function Reconciled(chain: Chain, d: D.Deposit): D.Deposit {
    if Lands(chain, d.txHash) then D.Confirm(d, None) else d
  }

  /** What the sweep makes of one pending Withdrawal. */
  function Settled(chain: Chain, w: W.Withdrawal): W.Withdrawal {
    if GetTransaction(chain, w.txHash).None? then W.Fail(w)
    else if Lands(chain, w.txHash) then W.Confirm(w, None)
    else w
  }

  /** The total the sweep takes off user `id`: the recorded amounts of its withdrawals that landed. */
  function Debits(chain: Chain, docs: seq<W.Withdrawal>, id: UserId): int
    decreases |docs|
  {
    if docs == [] then 0
    else (if docs[0].user == id && Lands(chain, docs[0].txHash) then docs[0].amount else 0) + Debits(chain, docs[1..], id)
  }

  /**
   * The deposit half of the sweep: each listed Deposit becomes its
   * reconciled form, every other record and every balance stays.
   */
  lemma {:induction false} ConfirmAllRecords(s: Store, chain: Chain, docs: seq<D.Deposit>)
    requires D.Listed(s.deposits, docs)
    ensures ConfirmAll(s, chain, docs).users == s.users
    ensures ConfirmAll(s, chain, docs).withdrawals == s.withdrawals
    ensures ConfirmAll(s, chain, docs).deposits.Keys == s.deposits.Keys
    ensures forall i :: 0 <= i < |docs| ==> ConfirmAll(s, chain, docs).deposits[docs[i].txHash] == Reconciled(chain, docs[i])
    ensures forall h :: h in s.deposits && h !in D.Hashes(docs) ==> ConfirmAll(s, chain, docs).deposits[h] == s.deposits[h]
    decreases |docs|
  {
    if docs != [] {
      var d := docs[0];
      var rest := docs[1..];
      var t := ConfirmStep(s, chain, d);
      assert t.deposits == s.deposits[d.txHash := Reconciled(chain, d)];
      assert forall i :: 0 <= i < |rest| ==> rest[i] == docs[i + 1];
      ConfirmAllRecords(t, chain, rest);
      assert d.txHash !in D.Hashes(rest);
      forall h | h in s.deposits && h !in D.Hashes(docs)
        ensures ConfirmAll(s, chain, docs).deposits[h] == s.deposits[h]
      {
        assert h != d.txHash;
      }
    }
  }

  /**
   * The withdrawal half of the sweep: each listed Withdrawal becomes its
   * settled form, every other record and every Deposit stays.
   */
  lemma {:induction false} SettleAllRecords(s: Store, chain: Chain, docs: seq<W.Withdrawal>)
    requires W.Listed(s.withdrawals, docs)
    ensures SettleAll(s, chain, docs).deposits == s.deposits
    ensures SettleAll(s, chain, docs).withdrawals.Keys == s.withdrawals.Keys
    ensures forall i :: 0 <= i < |docs| ==> SettleAll(s, chain, docs).withdrawals[docs[i].txHash] == Settled(chain, docs[i])
    ensures forall h :: h in s.withdrawals && h !in W.Hashes(docs) ==> SettleAll(s, chain, docs).withdrawals[h] == s.withdrawals[h]
    decreases |docs|
  {
    if docs != [] {
      var w := docs[0];
      var rest := docs[1..];
      var t := SettleStep(s, chain, w);
      assert t.withdrawals == s.withdrawals[w.txHash := Settled(chain, w)];
      assert forall i :: 0 <= i < |rest| ==> rest[i] == docs[i + 1];
      SettleAllRecords(t, chain, rest);
      assert w.txHash !in W.Hashes(rest);
      forall h | h in s.withdrawals && h !in W.Hashes(docs)
        ensures SettleAll(s, chain, docs).withdrawals[h] == s.withdrawals[h]
      {
        assert h != w.txHash;
      }
    }
  }

  /**
   * The withdrawal half of the sweep takes from each user exactly the
   * recorded amounts of that user's withdrawals that landed, from
   * ethBalance, and changes nothing else about users.
   */
  lemma {:induction false} SettleAllDebits(s: Store, chain: Chain, docs: seq<W.Withdrawal>)
    requires U.Unique(s.users)
    ensures UsersKept(s.users, SettleAll(s, chain, docs).users)
    ensures forall i :: 0 <= i < |s.users| ==>
      SettleAll(s, chain, docs).users[i].ethBalance == s.users[i].ethBalance - Debits(chain, docs, s.users[i].id)
    ensures forall i :: 0 <= i < |s.users| ==>
      SettleAll(s, chain, docs).users[i].solBalance == s.users[i].solBalance
    decreases |docs|
  {
    if docs != [] {
      var w := docs[0];
      var t := SettleStep(s, chain, w);
      assert UsersKept(s.users, t.users);
      assert forall i :: 0 <= i < |s.users| ==>
        t.users[i].ethBalance == s.users[i].ethBalance - (if s.users[i].id == w.user && Lands(chain, w.txHash) then w.amount else 0);
      UsersKeptUnique(s.users, t.users);
      SettleAllDebits(t, chain, docs[1..]);
      UsersKeptTransitive(s.users, t.users, SettleAll(t, chain, docs[1..]).users);
      forall i | 0 <= i < |s.users|
        ensures t.users[i].id == s.users[i].id
      {
        assert t.users[i].(ethBalance := s.users[i].ethBalance, solBalance := s.users[i].solBalance) == s.users[i];
      }
    }
  }

  /** Confirming the listed pending deposits keeps the store valid and lets it evolve. */
  lemma ConfirmAllEvolves(s: Store, chain: Chain, ds: seq<D.Deposit>)
    requires Invariant(s) && D.Listed(s.deposits, ds)
    ensures Invariant(ConfirmAll(s, chain, ds)) && Evolves(s, ConfirmAll(s, chain, ds))
  {
    ConfirmAllRecords(s, chain, ds);
    EvolvesReflexive(s);
    var t := ConfirmAll(s, chain, ds);
    forall h | h in t.deposits
      ensures t.deposits[h].txHash == h && D.Valid(t.deposits[h]) && D.Transition(s.deposits[h].status, t.deposits[h].status)
    {
      if h in D.Hashes(ds) {
        var i :| 0 <= i < |ds| && ds[i].txHash == h;
        assert t.deposits[h] == Reconciled(chain, ds[i]);
      }
    }
  }

  /** Settling the listed pending withdrawals keeps every record keyed and valid and moves it forward only. */
  lemma SettleAllMovesForward(s: Store, chain: Chain, ws: seq<W.Withdrawal>)
    requires W.Keyed(s.withdrawals) && W.Listed(s.withdrawals, ws)
    ensures W.Keyed(SettleAll(s, chain, ws).withdrawals)
    ensures forall h :: h in s.withdrawals ==>
      h in SettleAll(s, chain, ws).withdrawals && W.Transition(s.withdrawals[h].status, SettleAll(s, chain, ws).withdrawals[h].status)
  {
    SettleAllRecords(s, chain, ws);
    var c := SettleAll(s, chain, ws).withdrawals;
    forall h | h in c
      ensures c[h].txHash == h && W.Valid(c[h]) && W.Transition(s.withdrawals[h].status, c[h].status)
    {
      if h in W.Hashes(ws) {
        var i :| 0 <= i < |ws| && ws[i].txHash == h;
        assert c[h] == Settled(chain, ws[i]);
      }
    }
  }

  /** Settling the listed pending withdrawals keeps the store valid and lets it evolve. */
  lemma SettleAllEvolves(s: Store, chain: Chain, ws: seq<W.Withdrawal>)
    requires Invariant(s) && W.Listed(s.withdrawals, ws)
    ensures Invariant(SettleAll(s, chain, ws)) && Evolves(s, SettleAll(s, chain, ws))
  {
    SettleAllRecords(s, chain, ws);
    SettleAllDebits(s, chain, ws);
    SettleAllMovesForward(s, chain, ws);
    EvolvesReflexive(s);
    UsersKeptUnique(s.users, SettleAll(s, chain, ws).users);
  }

  /** A whole sweep over the pending records as `find` listed them keeps the store valid and lets it evolve. */
  lemma SweepEvolves(s: Store, chain: Chain, ds: seq<D.Deposit>, ws: seq<W.Withdrawal>)
    requires Invariant(s) && D.Listed(s.deposits, ds) && W.Listed(s.withdrawals, ws)
    ensures Invariant(Sweep(s, chain, ds, ws)) && Evolves(s, Sweep(s, chain, ds, ws))
  {
    ConfirmAllEvolves(s, chain, ds);
    var m := ConfirmAll(s, chain, ds);
    ConfirmAllRecords(s, chain, ds);
    SettleAllEvolves(m, chain, ws);
    EvolvesTransitive(s, m, SettleAll(m, chain, ws));
  }

  /**
   * An outbound transfer the scanner did not expect is recorded pending, so
   * the next sweep's `find` lists it; once its transaction is in a block the
   * sweep confirms it and takes its value off the sender's ethBalance.
   */
  lemma UnexpectedWithdrawalDebitedBySweep(s: Store, chain: Chain, t: Transaction)
    requires Invariant(s) && Sender(s, Some(t)).Some? && t.hash !in s.withdrawals && t.hash != "" && t.to != ""
    requires Lands(chain, t.hash)
    ensures var k := Sender(s, Some(t)).value;
      var r := WithdrawalStep(s, Some(t));
      && r.Done? && t.hash in r.store.withdrawals && W.Selected(r.store.withdrawals[t.hash], None)
      && SettleStep(r.store, chain, r.store.withdrawals[t.hash]).withdrawals[t.hash].status == W.Confirmed
      && (forall i :: 0 <= i < |s.users| ==>
            SettleStep(r.store, chain, r.store.withdrawals[t.hash]).users[i].ethBalance
              == s.users[i].ethBalance - (if i == k then t.value else 0))
  {
    WithdrawalStepEffect(s, Some(t));
    var k := Sender(s, Some(t)).value;
    var w := UnexpectedWithdrawal(s.users[k], t);
    var r := WithdrawalStep(s, Some(t));
    assert r.store == s.(withdrawals := s.withdrawals[t.hash := w]);
    assert forall i :: 0 <= i < |s.users| && i != k ==> s.users[i].id != s.users[k].id;
    assert SettleStep(r.store, chain, w) == CreditEth(PutWithdrawal(r.store, W.Confirm(w, None)), w.user, -w.amount);
  }

  /**
   * The EVM sweep lists pending Withdrawals of both currencies and fails
   * every one whose id its node does not know, which is what becomes of a
   * pending SOL Withdrawal it reaches first.
   */
  lemma SweepFailsUnknownWithdrawals(s: Store, chain: Chain, ds: seq<D.Deposit>, ws: seq<W.Withdrawal>)
    requires D.Listed(s.deposits, ds) && W.Snapshot(s.withdrawals, None, ws)
    ensures forall h :: h in s.withdrawals && s.withdrawals[h].status == W.Pending && GetTransaction(chain, h).None? ==>
      h in Sweep(s, chain, ds, ws).withdrawals && Sweep(s, chain, ds, ws).withdrawals[h] == W.Fail(s.withdrawals[h])
  {
    ConfirmAllRecords(s, chain, ds);
    var t := ConfirmAll(s, chain, ds);
    SettleAllRecords(t, chain, ws);
    forall h | h in s.withdrawals && s.withdrawals[h].status == W.Pending && GetTransaction(chain, h).None?
      ensures h in Sweep(s, chain, ds, ws).withdrawals && Sweep(s, chain, ds, ws).withdrawals[h] == W.Fail(s.withdrawals[h])
    {
      assert W.Selected(s.withdrawals[h], None);
      var i :| 0 <= i < |ws| && ws[i].txHash == h;
      assert Settled(chain, ws[i]) == W.Fail(s.withdrawals[h]);
    }
  }
}
