/**
 * The document store both watchers share: the User, Deposit and Withdrawal
 * collections, as a value (Store) for the specifications and as a mutable
 * object (Database) for the watcher methods.
 */
module Ledger {
  import opened Common
  import D = DepositModel
  import W = WithdrawalModel
  import U = UserModel

  /** Users in natural order; Deposits and Withdrawals keyed by their unique txHash. */
  datatype Store = Store(
    users: seq<U.User>,
    deposits: map<string, D.Deposit>,
    withdrawals: map<string, W.Withdrawal>)

  /** What the unique indexes and the schemas guarantee of a stored state. */
  predicate Invariant(s: Store) {
    U.Unique(s.users) && D.Keyed(s.deposits) && W.Keyed(s.withdrawals)
  }

  /** `findOne` on users: the index of the first user, in natural order, that matches. */
  function FirstUser(users: seq<U.User>, p: U.User -> bool): (r: Option<nat>)
    ensures r.Some? ==> r.value < |users| && p(users[r.value])
    ensures r.Some? ==> forall j :: 0 <= j < r.value ==> !p(users[j])
    ensures r.None? ==> forall j :: 0 <= j < |users| ==> !p(users[j])
  {
    if users == [] then None
    else if p(users[0]) then Some(0)
    else match FirstUser(users[1..], p)
      case None => None
      case Some(k) => Some(k + 1)
  }

  /** `User.findOne({ ethDepositAddress: addr })`: exact string equality. */
  function FindByEthAddress(users: seq<U.User>, addr: string): (r: Option<nat>)
    ensures r.Some? ==> r.value < |users| && users[r.value].ethDepositAddress == addr
    ensures r.Some? ==> forall j :: 0 <= j < r.value ==> users[j].ethDepositAddress != addr
    ensures r.None? ==> forall j :: 0 <= j < |users| ==> users[j].ethDepositAddress != addr
  {
    FirstUser(users, (u: U.User) => u.ethDepositAddress == addr)
  }

  /** `dbUsers.find(u => u.solDepositAddress === addr)`: exact string equality. */
  function FindBySolAddress(users: seq<U.User>, addr: string): (r: Option<nat>)
    ensures r.Some? ==> r.value < |users| && users[r.value].solDepositAddress == addr
    ensures r.Some? ==> forall j :: 0 <= j < r.value ==> users[j].solDepositAddress != addr
    ensures r.None? ==> forall j :: 0 <= j < |users| ==> users[j].solDepositAddress != addr
  {
    FirstUser(users, (u: U.User) => u.solDepositAddress == addr)
  }

  /** Only the balances of a user may differ between `a` and `b`, position by position. */
  predicate UsersKept(a: seq<U.User>, b: seq<U.User>) {
    |a| == |b| && forall i :: 0 <= i < |a| ==> b[i].(ethBalance := a[i].ethBalance, solBalance := a[i].solBalance) == a[i]
  }

  /** `User.updateOne({ _id: id }, { $inc: { ethBalance: delta } })`: the first user with that id. */
  function IncEthBalance(users: seq<U.User>, id: UserId, delta: int): (r: seq<U.User>)
    ensures UsersKept(users, r)
    ensures forall i :: 0 <= i < |users| ==> r[i].solBalance == users[i].solBalance
    ensures U.Unique(users) ==> forall i :: 0 <= i < |users| ==>
      r[i].ethBalance == users[i].ethBalance + (if users[i].id == id then delta else 0)
    ensures U.Unique(users) ==> U.Unique(r)
  {
    match FirstUser(users, (u: U.User) => u.id == id)
    case None => users
    case Some(k) => users[k := users[k].(ethBalance := users[k].ethBalance + delta)]
  }

  /** `User.updateOne({ _id: id }, { $inc: { solBalance: delta } })`: the first user with that id. */
  function IncSolBalance(users: seq<U.User>, id: UserId, delta: int): (r: seq<U.User>)
    ensures UsersKept(users, r)
    ensures forall i :: 0 <= i < |users| ==> r[i].ethBalance == users[i].ethBalance
    ensures U.Unique(users) ==> forall i :: 0 <= i < |users| ==>
      r[i].solBalance == users[i].solBalance + (if users[i].id == id then delta else 0)
    ensures U.Unique(users) ==> U.Unique(r)
  {
    match FirstUser(users, (u: U.User) => u.id == id)
    case None => users
    case Some(k) => users[k := users[k].(solBalance := users[k].solBalance + delta)]
  }

  function CreditEth(s: Store, id: UserId, delta: int): Store {
    s.(users := IncEthBalance(s.users, id, delta))
  }

  function CreditSol(s: Store, id: UserId, delta: int): Store {
    s.(users := IncSolBalance(s.users, id, delta))
  }

  /** `save()` of a loaded Deposit whose paths were changed. */
  function PutDeposit(s: Store, d: D.Deposit): Store {
    s.(deposits := s.deposits[d.txHash := d])
  }

  /** `save()` of a loaded Withdrawal whose paths were changed. */
  function PutWithdrawal(s: Store, w: W.Withdrawal): Store {
    s.(withdrawals := s.withdrawals[w.txHash := w])
  }

  /**
   * How any operation of the core may change the store: no user is added,
   * removed or changed except in its balances, no record is deleted, and a
   * record's status moves only along the transitions its schema allows.
   */
  predicate Evolves(s: Store, t: Store) {
    && UsersKept(s.users, t.users)
    && (forall h :: h in s.deposits ==> h in t.deposits && D.Transition(s.deposits[h].status, t.deposits[h].status))
    && (forall h :: h in s.withdrawals ==> h in t.withdrawals && W.Transition(s.withdrawals[h].status, t.withdrawals[h].status))
  }

  /** Balance updates do not change whom an address lookup finds. */
  lemma UsersKeptFind(a: seq<U.User>, b: seq<U.User>, addr: string)
    requires UsersKept(a, b)
    ensures FindByEthAddress(a, addr) == FindByEthAddress(b, addr)
    ensures FindBySolAddress(a, addr) == FindBySolAddress(b, addr)
  {
    forall j | 0 <= j < |a|
      ensures a[j].ethDepositAddress == b[j].ethDepositAddress && a[j].solDepositAddress == b[j].solDepositAddress
    {
      assert b[j].(ethBalance := a[j].ethBalance, solBalance := a[j].solBalance) == a[j];
    }
  }

  lemma EvolvesReflexive(s: Store)
    ensures Evolves(s, s)
  {
  }

  lemma UsersKeptTransitive(a: seq<U.User>, b: seq<U.User>, c: seq<U.User>)
    requires UsersKept(a, b) && UsersKept(b, c)
    ensures UsersKept(a, c)
  {
    forall i | 0 <= i < |a|
      ensures c[i].(ethBalance := a[i].ethBalance, solBalance := a[i].solBalance) == a[i]
    {
      assert b[i].(ethBalance := a[i].ethBalance, solBalance := a[i].solBalance) == a[i];
      assert c[i].(ethBalance := b[i].ethBalance, solBalance := b[i].solBalance) == b[i];
    }
  }

  /** Balance updates cannot break the unique indexes of users. */
  lemma UsersKeptUnique(a: seq<U.User>, b: seq<U.User>)
    requires UsersKept(a, b) && U.Unique(a)
    ensures U.Unique(b)
  {
    forall i, j | 0 <= i < j < |b|
      ensures b[i].id != b[j].id && b[i].username != b[j].username && b[i].email != b[j].email
    {
      assert b[i].(ethBalance := a[i].ethBalance, solBalance := a[i].solBalance) == a[i];
      assert b[j].(ethBalance := a[j].ethBalance, solBalance := a[j].solBalance) == a[j];
    }
  }

  lemma EvolvesTransitive(a: Store, b: Store, c: Store)
    requires Evolves(a, b) && Evolves(b, c)
    ensures Evolves(a, c)
  {
    UsersKeptTransitive(a.users, b.users, c.users);
    forall h | h in a.withdrawals
      ensures h in c.withdrawals && W.Transition(a.withdrawals[h].status, c.withdrawals[h].status)
    {
      W.TransitionTransitive(a.withdrawals[h].status, b.withdrawals[h].status, c.withdrawals[h].status);
    }
  }

  /** The mutable store the watchers write to, one Mongo call per method. */
  class Database {
    var users: seq<U.User>
    var deposits: map<string, D.Deposit>
    var withdrawals: map<string, W.Withdrawal>

    function State(): Store
      reads this
    {
      Store(users, deposits, withdrawals)
    }

    ghost predicate Valid()
      reads this
    {
      Invariant(State())
    }

    constructor (s: Store)
      requires Invariant(s)
      ensures Valid() && State() == s
    {
      users, deposits, withdrawals := s.users, s.deposits, s.withdrawals;
    }

    /** `new Deposit({...}).save()`: refused documents leave the store unchanged. */
    method InsertDeposit(d: D.Deposit) returns (err: Option<StoreError>)
      requires Valid()
      modifies this
      ensures Valid()
      ensures D.Insert(old(deposits), d).Success? ==>
        err.None? && State() == old(State()).(deposits := D.Insert(old(deposits), d).value)
      ensures D.Insert(old(deposits), d).Failure? ==>
        err == Some(D.Insert(old(deposits), d).error) && State() == old(State())
    {
      match D.Insert(deposits, d)
      case Success(c) =>
        deposits := c;
        err := None;
      case Failure(e) =>
        err := Some(e);
    }

    /** `new Withdrawal({...}).save()`: refused documents leave the store unchanged. */
    method InsertWithdrawal(w: W.Withdrawal) returns (err: Option<StoreError>)
      requires Valid()
      modifies this
      ensures Valid()
      ensures W.Insert(old(withdrawals), w).Success? ==>
        err.None? && State() == old(State()).(withdrawals := W.Insert(old(withdrawals), w).value)
      ensures W.Insert(old(withdrawals), w).Failure? ==>
        err == Some(W.Insert(old(withdrawals), w).error) && State() == old(State())
    {
      match W.Insert(withdrawals, w)
      case Success(c) =>
        withdrawals := c;
        err := None;
      case Failure(e) =>
        err := Some(e);
    }

    /** `deposit.save()` of a loaded document after setting some of its paths. */
    method SaveDeposit(d: D.Deposit)
      requires Valid() && d.txHash in deposits && D.Valid(d)
      modifies this
      ensures Valid() && State() == PutDeposit(old(State()), d)
    {
      deposits := deposits[d.txHash := d];
    }

    /** `withdrawal.save()` of a loaded document after setting some of its paths. */
    method SaveWithdrawal(w: W.Withdrawal)
      requires Valid() && w.txHash in withdrawals && W.Valid(w)
      modifies this
      ensures Valid() && State() == PutWithdrawal(old(State()), w)
    {
      withdrawals := withdrawals[w.txHash := w];
    }

    method IncEth(id: UserId, delta: int)
      requires Valid()
      modifies this
      ensures Valid() && State() == CreditEth(old(State()), id, delta)
    {
      users := IncEthBalance(users, id, delta);
    }

    method IncSol(id: UserId, delta: int)
      requires Valid()
      modifies this
      ensures Valid() && State() == CreditSol(old(State()), id, delta)
    {
      users := IncSolBalance(users, id, delta);
    }

    /** `Deposit.find({ status: "pending" [, currency] })`, in an order the model leaves open. */
    method FindPendingDeposits(only: Option<Currency>) returns (docs: seq<D.Deposit>)
      requires Valid()
      ensures D.Snapshot(deposits, only, docs)
    {
      docs := [];
      var rest := deposits.Keys;
      while rest != {}
        invariant rest <= deposits.Keys
        invariant forall i :: 0 <= i < |docs| ==>
          docs[i].txHash in deposits && deposits[docs[i].txHash] == docs[i]
          && D.Selected(docs[i], only) && docs[i].txHash !in rest
        invariant forall i, j :: 0 <= i < j < |docs| ==> docs[i].txHash != docs[j].txHash
        invariant forall h :: h in deposits && h !in rest && D.Selected(deposits[h], only) ==>
          exists i :: 0 <= i < |docs| && docs[i].txHash == h
        decreases rest
      {
        var h :| h in rest;
        ghost var before := docs;
        if D.Selected(deposits[h], only) {
          docs := docs + [deposits[h]];
          assert docs[|before|].txHash == h;
        }
        assert forall i :: 0 <= i < |before| ==> docs[i] == before[i];
        rest := rest - {h};
      }
    }

    /** `Withdrawal.find({ status: "pending" [, currency] })`, in an order the model leaves open. */
    method FindPendingWithdrawals(only: Option<Currency>) returns (docs: seq<W.Withdrawal>)
      requires Valid()
      ensures W.Snapshot(withdrawals, only, docs)
    {
      docs := [];
      var rest := withdrawals.Keys;
      while rest != {}
        invariant rest <= withdrawals.Keys
        invariant forall i :: 0 <= i < |docs| ==>
          docs[i].txHash in withdrawals && withdrawals[docs[i].txHash] == docs[i]
          && W.Selected(docs[i], only) && docs[i].txHash !in rest
        invariant forall i, j :: 0 <= i < j < |docs| ==> docs[i].txHash != docs[j].txHash
        invariant forall h :: h in withdrawals && h !in rest && W.Selected(withdrawals[h], only) ==>
          exists i :: 0 <= i < |docs| && docs[i].txHash == h
        decreases rest
      {
        var h :| h in rest;
        ghost var before := docs;
        if W.Selected(withdrawals[h], only) {
          docs := docs + [withdrawals[h]];
          assert docs[|before|].txHash == h;
        }
        assert forall i :: 0 <= i < |before| ==> docs[i] == before[i];
        rest := rest - {h};
      }
    }
  }
}
