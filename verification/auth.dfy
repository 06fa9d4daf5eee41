/**
  The mock user store behind the authentication context: a persisted list of
  accounts (plaintext passwords included) and a session slot holding the
  logged-in user without its password. The React state `user` and the
  persisted `kidsafe_user` key always hold the same value, so they are one
  slot here; a missing `kidsafe_users` key behaves as the empty list.
 */
module Auth {
  import opened Options
  import Decimal

  datatype Role = Parent | Child

  /** A user as the session holds it. */
  datatype User = User(
    id: string,
    name: string,
    email: string,
    role: Role,
    pairedWith: Option<seq<string>>,
    pairingCode: Option<string>)

  /** A record of the persisted user list: the user plus its password. */
  datatype Account = Account(user: User, password: string)

  /** `Partial<User>`: every present field overrides the one it names. */
  datatype UserUpdate = UserUpdate(
    id: Option<string>,
    name: Option<string>,
    email: Option<string>,
    role: Option<Role>,
    pairedWith: Option<seq<string>>,
    pairingCode: Option<string>)

  datatype AuthState = AuthState(users: seq<Account>, session: Option<User>)

  /** An update that only sets `pairedWith`. */
  function SetPairedWith(ids: seq<string>): UserUpdate
  {
    UserUpdate(None, None, None, None, Some(ids), None)
  }

  /** The object spread `{ ...u, ...updates }`. */
  function Merge(u: User, upd: UserUpdate): (r: User)
    ensures r.id == upd.id.GetOr(u.id) && r.name == upd.name.GetOr(u.name)
    ensures r.email == upd.email.GetOr(u.email) && r.role == upd.role.GetOr(u.role)
    ensures upd.pairedWith.Some? ==> r.pairedWith == upd.pairedWith
    ensures upd.pairedWith.None? ==> r.pairedWith == u.pairedWith
    ensures upd.pairingCode.Some? ==> r.pairingCode == upd.pairingCode
    ensures upd.pairingCode.None? ==> r.pairingCode == u.pairingCode
  {
    User(
      upd.id.GetOr(u.id),
      upd.name.GetOr(u.name),
      upd.email.GetOr(u.email),
      upd.role.GetOr(u.role),
      if upd.pairedWith.Some? then upd.pairedWith else u.pairedWith,
      if upd.pairingCode.Some? then upd.pairingCode else u.pairingCode)
  }

  /** Merging the same update twice is merging it once. */
  lemma MergeIdempotent(u: User, upd: UserUpdate)
    ensures Merge(Merge(u, upd), upd) == Merge(u, upd)
  {
  }

  predicate HasEmail(a: Account, email: string)
  {
    a.user.email == email
  }

  predicate Matches(a: Account, email: string, password: string)
  {
    a.user.email == email && a.password == password
  }

  /** No two stored accounts share an email address. */
  predicate EmailsUnique(users: seq<Account>)
  {
    forall i, j :: 0 <= i < j < |users| ==> users[i].user.email != users[j].user.email
  }

  /** A six-character decimal string whose value lies in [100000, 999999]. */
  predicate ValidPairingCode(s: string)
  {
    |s| == 6 && Decimal.AllDigits(s) && 100000 <= Decimal.Value(s) <= 999999
  }

  /** The code a parent is given: `Math.floor(100000 + Math.random() * 900000)`,
      with the random draw scaled to the integer `draw`. */
  function PairingCodeFor(draw: nat): (s: string)
    requires draw < 900000
    ensures ValidPairingCode(s)
    ensures Decimal.Value(s) == 100000 + draw
  {
    Decimal.SixDigits(100000 + draw);
    Decimal.Show(100000 + draw)
  }

  /** Login: the session becomes the first account matching both email and
      password, without its password; on failure nothing changes. */
  function Login(st: AuthState, email: string, password: string): (r: (bool, AuthState))
    ensures r.0 <==> exists i :: 0 <= i < |st.users| && Matches(st.users[i], email, password)
    ensures r.1.users == st.users
    ensures !r.0 ==> r.1 == st
    ensures r.0 ==> exists i ::
      && 0 <= i < |st.users| && Matches(st.users[i], email, password)
      && (forall j :: 0 <= j < i ==> !Matches(st.users[j], email, password))
      && r.1.session == Some(st.users[i].user)
  {
    match FindIndex(st.users, (a: Account) => Matches(a, email, password))
    case None => (false, st)
    case Some(i) => (true, AuthState(st.users, Some(st.users[i].user)))
  }

  /** Signup: refused when any stored account has the email; otherwise one
      account is appended (a parent gets a pairing code, a child none) and it
      becomes the session. */
  function Signup(st: AuthState, name: string, email: string, password: string, role: Role,
                  id: string, draw: nat): (r: (bool, AuthState))
    requires draw < 900000
    ensures r.0 <==> forall i :: 0 <= i < |st.users| ==> !HasEmail(st.users[i], email)
    ensures !r.0 ==> r.1 == st
    ensures r.0 ==> |r.1.users| == |st.users| + 1 && r.1.users[..|st.users|] == st.users
    ensures r.0 ==> var a := r.1.users[|st.users|];
      && a.user.id == id && a.user.name == name && a.user.email == email
      && a.user.role == role && a.password == password
      && a.user.pairedWith == Some([])
      && (role == Parent <==> a.user.pairingCode.Some?)
      && (role == Parent ==> ValidPairingCode(a.user.pairingCode.value))
      && r.1.session == Some(a.user)
  {
    if exists i :: 0 <= i < |st.users| && HasEmail(st.users[i], email) then
      (false, st)
    else
      var code := if role == Parent then Some(PairingCodeFor(draw)) else None;
      var u := User(id, name, email, role, Some([]), code);
      (true, AuthState(st.users + [Account(u, password)], Some(u)))
  }

  /** A successful signup keeps emails unique across the store. */
  lemma SignupKeepsEmailsUnique(st: AuthState, name: string, email: string, password: string,
                                role: Role, id: string, draw: nat)
    requires draw < 900000
    requires EmailsUnique(st.users)
    ensures EmailsUnique(Signup(st, name, email, password, role, id, draw).1.users)
  {
    var r := Signup(st, name, email, password, role, id, draw);
    if r.0 {
      var us := r.1.users;
      forall i, j | 0 <= i < j < |us|
        ensures us[i].user.email != us[j].user.email
      {
        if j == |st.users| {
          assert us[i] == st.users[i];
          assert !HasEmail(st.users[i], email);
        } else {
          assert us[i] == st.users[i] && us[j] == st.users[j];
        }
      }
    }
  }

  /** Logout empties the session and leaves the stored accounts alone. */
  function Logout(st: AuthState): (r: AuthState)
    ensures r.session.None?
    ensures r.users == st.users
  {
    AuthState(st.users, None)
  }

  /** Whether a login succeeds depends on the stored accounts only, not on
      who is logged in. */
  lemma LoginAfterLogout(st: AuthState, email: string, password: string)
    ensures Login(Logout(st), email, password).0 == Login(st, email, password).0
    ensures Login(Logout(st), email, password).0 ==>
      Login(Logout(st), email, password).1 == Login(st, email, password).1
  {
  }

  /** updateUser: nothing without a session; otherwise the updates are
      merged into the session user and into the first stored account whose id
      is the session user's (old) id. */
  function UpdateUser(st: AuthState, upd: UserUpdate): (r: AuthState)
    ensures st.session.None? ==> r == st
    ensures st.session.Some? ==> r.session == Some(Merge(st.session.value, upd))
    ensures |r.users| == |st.users|
    ensures forall i :: 0 <= i < |st.users| ==> r.users[i].password == st.users[i].password
    ensures st.session.Some? ==>
      forall i :: 0 <= i < |st.users| && st.users[i].user.id != st.session.value.id
        ==> r.users[i] == st.users[i]
    ensures st.session.Some? ==>
      forall i :: 0 <= i < |st.users| && st.users[i].user.id == st.session.value.id
        ==> r.users[i].user == (if (forall j :: 0 <= j < i ==> st.users[j].user.id != st.session.value.id)
                                then Merge(st.users[i].user, upd) else st.users[i].user)
  {
    match st.session
    case None => st
    case Some(u) =>
      var users :=
        match FindIndex(st.users, (a: Account) => a.user.id == u.id)
        case None => st.users
        case Some(k) => st.users[k := Account(Merge(st.users[k].user, upd), st.users[k].password)];
      AuthState(users, Some(Merge(u, upd)))
  }

  /** With no stored account carrying the session user's id, only the
      session changes. */
  lemma UpdateUserUnknownId(st: AuthState, upd: UserUpdate)
    requires st.session.Some?
    requires forall i :: 0 <= i < |st.users| ==> st.users[i].user.id != st.session.value.id
    ensures UpdateUser(st, upd).users == st.users
  {
  }
}
