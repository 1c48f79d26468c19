/** The User record and the defaults and constraints of its Mongoose schema (the password hook is not modelled). */
module UserModel {
  import opened Common

  /** One User document; balances are in base units (wei, lamports). */
  datatype User = User(
    id: UserId,
    username: string,
    email: string,
    password: string,
    ethDepositAddress: string,
    solDepositAddress: string,
    ethPrivateKey: string,
    solPrivateKey: string,
    ethBalance: int,
    solBalance: int)

  /** The fields a caller passes to the model constructor; `None` is a field left out. */
  datatype Draft = Draft(
    username: Option<string>,
    email: Option<string>,
    password: Option<string>,
    ethDepositAddress: Option<string>,
    solDepositAddress: Option<string>,
    ethPrivateKey: Option<string>,
    solPrivateKey: Option<string>,
    ethBalance: Option<int>,
    solBalance: Option<int>)

  function Or<T>(o: Option<T>, default: T): T {
    if o.Some? then o.value else default
  }

  /** A required String path: present and non-empty. */
  predicate Given(o: Option<string>) {
    o.Some? && o.value != ""
  }

  /**
   * Validates a draft and fills in the schema defaults: addresses and keys
   * default to "", balances to 0; username, email and password are required.
   */
  function Create(id: UserId, d: Draft): (r: Result<User, StoreError>)
    ensures r.Success? <==> Given(d.username) && Given(d.email) && Given(d.password)
    ensures r.Failure? ==> r.error.RequiredPathMissing?
    ensures r.Success? ==> r.value.id == id && r.value.username == d.username.value
    ensures r.Success? ==> r.value.email == d.email.value && r.value.password == d.password.value
    ensures r.Success? && d.ethDepositAddress.None? ==> r.value.ethDepositAddress == ""
    ensures r.Success? && d.solDepositAddress.None? ==> r.value.solDepositAddress == ""
    ensures r.Success? && d.ethPrivateKey.None? ==> r.value.ethPrivateKey == ""
    ensures r.Success? && d.solPrivateKey.None? ==> r.value.solPrivateKey == ""
    ensures r.Success? && d.ethDepositAddress.Some? ==> r.value.ethDepositAddress == d.ethDepositAddress.value
    ensures r.Success? && d.solDepositAddress.Some? ==> r.value.solDepositAddress == d.solDepositAddress.value
    ensures r.Success? && d.ethPrivateKey.Some? ==> r.value.ethPrivateKey == d.ethPrivateKey.value
    ensures r.Success? && d.solPrivateKey.Some? ==> r.value.solPrivateKey == d.solPrivateKey.value
    ensures r.Success? && d.ethBalance.None? ==> r.value.ethBalance == 0
    ensures r.Success? && d.solBalance.None? ==> r.value.solBalance == 0
    ensures r.Success? && d.ethBalance.Some? ==> r.value.ethBalance == d.ethBalance.value
    ensures r.Success? && d.solBalance.Some? ==> r.value.solBalance == d.solBalance.value
  {
    if !Given(d.username) then Failure(RequiredPathMissing("username"))
    else if !Given(d.email) then Failure(RequiredPathMissing("email"))
    else if !Given(d.password) then Failure(RequiredPathMissing("password"))
    else Success(User(id, d.username.value, d.email.value, d.password.value,
                      Or(d.ethDepositAddress, ""), Or(d.solDepositAddress, ""),
                      Or(d.ethPrivateKey, ""), Or(d.solPrivateKey, ""),
                      Or(d.ethBalance, 0), Or(d.solBalance, 0)))
  }

  /** The unique indexes: `_id`, `username` and `email` are each distinct across users. */
  predicate Unique(users: seq<User>) {
    forall i, j :: 0 <= i < j < |users| ==>
      users[i].id != users[j].id && users[i].username != users[j].username && users[i].email != users[j].email
  }

  /** Whether some stored user already holds `u`'s `_id`, `username` or `email`. */
  predicate Clashes(users: seq<User>, u: User) {
    exists i :: 0 <= i < |users| && (users[i].id == u.id || users[i].username == u.username || users[i].email == u.email)
  }

  /** Inserting a user: refused with DuplicateKey when a unique value is taken, else appended. */
  function Insert(users: seq<User>, u: User): (r: Result<seq<User>, StoreError>)
    ensures r.Success? <==> !Clashes(users, u)
    ensures r.Failure? ==> r.error.DuplicateKey?
    ensures r.Success? ==> |r.value| == |users| + 1 && r.value[|users|] == u && r.value[..|users|] == users
    ensures r.Success? && Unique(users) ==> Unique(r.value)
  {
    if exists i :: 0 <= i < |users| && users[i].username == u.username then Failure(DuplicateKey(u.username))
    else if exists i :: 0 <= i < |users| && users[i].email == u.email then Failure(DuplicateKey(u.email))
    else if Clashes(users, u) then Failure(DuplicateKey("_id"))
    else Success(users + [u])
  }

  /** A user created without balances starts at zero on both chains. */
  lemma NewUserStartsAtZero(id: UserId, d: Draft)
    requires Given(d.username) && Given(d.email) && Given(d.password)
    requires d.ethBalance.None? && d.solBalance.None?
    ensures Create(id, d).Success?
    ensures Create(id, d).value.ethBalance == 0 && Create(id, d).value.solBalance == 0
  {
  }
}
