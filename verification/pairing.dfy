/**
  Pairing a child with a parent from the child's dashboard. The child types
  the parent's six-digit code (the field drops every non-digit as it is
  typed); on submit the stored user list is searched for an account with
  that code, the child's id is added to the parent's `pairedWith` list, and
  the parent's id is added to the child's own list through `updateUser`.

  The handler reads the stored list once, edits the parent's record in that
  snapshot, calls `updateUser` (which writes the child's record into the
  stored list) and then writes the snapshot back, so the child's stored
  record loses the update. `HandlePairingAsWritten` keeps that order;
  `HandlePairing` writes the snapshot first and is the definition the rest
  of the model relies on.
 */
module Pairing {
  import opened Options
  import opened Decimal
  import opened Auth

  /** `value.replace(/\D/g, '')`: the digits of `s`, in order. */
  function DigitsOnly(s: string): (r: string)
    ensures AllDigits(r)
    ensures |r| <= |s|
  {
    if |s| == 0 then []
    else if IsDigit(s[0]) then [s[0]] + DigitsOnly(s[1..])
    else DigitsOnly(s[1..])
  }

  /** The filter works character by character: it distributes over
      concatenation ... */
  lemma {:induction false} DigitsOnlyConcat(a: string, b: string)
    ensures DigitsOnly(a + b) == DigitsOnly(a) + DigitsOnly(b)
  {
    if |a| == 0 {
      assert a + b == b;
    } else {
      assert (a + b)[1..] == a[1..] + b;
      DigitsOnlyConcat(a[1..], b);
    }
  }

  /** ... and keeps a single character exactly when it is a digit. */
  lemma DigitsOnlyChar(c: char)
    ensures DigitsOnly([c]) == if IsDigit(c) then [c] else []
  {
    assert [c][1..] == [];
  }

  /** A string of digits passes unchanged, and only such a string does. */
  lemma {:induction false} DigitsOnlyFixed(s: string)
    ensures DigitsOnly(s) == s <==> AllDigits(s)
  {
    if |s| > 0 {
      DigitsOnlyFixed(s[1..]);
      if !IsDigit(s[0]) {
        assert |DigitsOnly(s)| <= |s[1..]| < |s|;
      }
    }
  }

  /** Filtering an already filtered value changes nothing. */
  lemma DigitsOnlyIdempotent(s: string)
    ensures DigitsOnly(DigitsOnly(s)) == DigitsOnly(s)
  {
    DigitsOnlyFixed(DigitsOnly(s));
  }

  /** `if (!xs.includes(x)) xs.push(x)`. */
  function AddOnce(xs: seq<string>, x: string): (r: seq<string>)
    ensures forall y :: y in r <==> y in xs || y == x
    ensures |xs| <= |r| <= |xs| + 1 && r[..|xs|] == xs
  {
    if x in xs then xs else xs + [x]
  }

  predicate NoDuplicates(xs: seq<string>)
  {
    forall i, j :: 0 <= i < j < |xs| ==> xs[i] != xs[j]
  }

  /** Adding once keeps a list free of duplicates and is idempotent. */
  lemma AddOnceProperties(xs: seq<string>, x: string)
    ensures NoDuplicates(xs) ==> NoDuplicates(AddOnce(xs, x))
    ensures AddOnce(AddOnce(xs, x), x) == AddOnce(xs, x)
  {
    var r := AddOnce(xs, x);
    if NoDuplicates(xs) && x !in xs {
      forall i, j | 0 <= i < j < |r| ensures r[i] != r[j] {
        if j == |xs| {
          assert r[i] == xs[i];
        }
      }
    }
  }

  /** What the dashboard reports after a submit. */
  datatype Outcome = NotSubmitted | InvalidCode | Paired(parentName: string)

  /** `users.find(u => u.pairingCode === code)`: the first account holding
      the code. A child's missing code never equals a string. */
  function ParentIndex(users: seq<Account>, code: string): (r: Option<nat>)
    ensures r.Some? ==> r.value < |users| && users[r.value].user.pairingCode == Some(code)
    ensures r.Some? ==> forall j :: 0 <= j < r.value ==> users[j].user.pairingCode != Some(code)
    ensures r.None? <==> forall j :: 0 <= j < |users| ==> users[j].user.pairingCode != Some(code)
  {
    FindIndex(users, (a: Account) => a.user.pairingCode == Some(code))
  }

  /** The parent's side: in the stored list, the parent record at `k` gets
      the child's id added once to its `pairedWith` (created when missing). */
  function LinkParent(users: seq<Account>, k: nat, childId: string): (r: seq<Account>)
    requires k < |users|
    ensures |r| == |users|
    ensures forall i :: 0 <= i < |users| && i != k ==> r[i] == users[i]
    ensures r[k].password == users[k].password
    ensures r[k].user == users[k].user.(pairedWith := r[k].user.pairedWith)
    ensures r[k].user.pairedWith.Some?
    ensures forall y :: y in r[k].user.pairedWith.value <==>
      y == childId || (users[k].user.pairedWith.Some? && y in users[k].user.pairedWith.value)
    ensures NoDuplicates(users[k].user.pairedWith.GetOr([])) ==> NoDuplicates(r[k].user.pairedWith.value)
  {
    var p := users[k].user;
    AddOnceProperties(p.pairedWith.GetOr([]), childId);
    users[k := Account(p.(pairedWith := Some(AddOnce(p.pairedWith.GetOr([]), childId))), users[k].password)]
  }

  /** The child's side: the update handed to `updateUser`, or None when the
      child's list already holds the parent (no call is made). */
  function ChildUpdate(child: User, parentId: string): (r: Option<UserUpdate>)
    ensures r.None? <==> child.pairedWith.Some? && parentId in child.pairedWith.value
    ensures r.Some? ==> r.value.pairedWith.Some? && Merge(child, r.value) == child.(pairedWith := r.value.pairedWith)
    ensures r.Some? ==> forall y :: y in r.value.pairedWith.value <==>
      y == parentId || (child.pairedWith.Some? && y in child.pairedWith.value)
    ensures r.Some? ==>
      var before := child.pairedWith.GetOr([]);
      |r.value.pairedWith.value| == |before| + 1 && r.value.pairedWith.value[..|before|] == before
    ensures r.Some? && NoDuplicates(child.pairedWith.GetOr([])) ==> NoDuplicates(r.value.pairedWith.value)
  {
    match child.pairedWith
    case None => Some(SetPairedWith([parentId]))
    case Some(ids) => if parentId in ids then None else Some(SetPairedWith(ids + [parentId]))
  }

  /** `updateUser(...)` when the handler calls it, nothing otherwise: the
      session keeps its id and afterwards lists the parent besides what it
      listed before; only a stored record carrying the session's id can
      change. */
  function ApplyChildUpdate(st: AuthState, parentId: string): (r: AuthState)
    requires st.session.Some?
    ensures r.session.Some? && r.session.value.id == st.session.value.id
    ensures r.session.value.pairedWith.Some?
    ensures forall y :: y in r.session.value.pairedWith.value <==>
      y == parentId || (st.session.value.pairedWith.Some? && y in st.session.value.pairedWith.value)
    ensures |r.users| == |st.users|
    ensures forall i :: 0 <= i < |st.users| && st.users[i].user.id != st.session.value.id ==> r.users[i] == st.users[i]
    ensures NoDuplicates(st.session.value.pairedWith.GetOr([])) ==> NoDuplicates(r.session.value.pairedWith.value)
  {
    match ChildUpdate(st.session.value, parentId)
    case None => st
    case Some(upd) => UpdateUser(st, upd)
  }

  /** handlePairing as written: the stored list ends up as the snapshot with
      only the parent's record changed, while the session carries the
      child's new list. */
  function HandlePairingAsWritten(st: AuthState, code: string): (r: (Outcome, AuthState))
    requires st.session.Some?
    ensures |code| != 6 ==> r == (NotSubmitted, st)
    ensures |code| == 6 ==> (r.0 == InvalidCode <==> ParentIndex(st.users, code).None?)
    ensures r.0 == InvalidCode ==> r.1 == st
    ensures |code| == 6 && ParentIndex(st.users, code).Some? ==> r.0.Paired?
    ensures r.0.Paired? ==>
      var k := ParentIndex(st.users, code).value;
      && r.0.parentName == st.users[k].user.name
      && |r.1.users| == |st.users|
      && r.1.users[k].user.pairedWith.Some? && st.session.value.id in r.1.users[k].user.pairedWith.value
      && (forall j :: 0 <= j < |st.users| && j != k ==> r.1.users[j] == st.users[j])
      && r.1.session.Some? && r.1.session.value.id == st.session.value.id
      && r.1.session.value.pairedWith.Some? && st.users[k].user.id in r.1.session.value.pairedWith.value
  {
    if |code| != 6 then (NotSubmitted, st)
    else
      match ParentIndex(st.users, code)
      case None => (InvalidCode, st)
      case Some(k) =>
        var parent := st.users[k].user;
        var snapshot := LinkParent(st.users, k, st.session.value.id);
        var updated := ApplyChildUpdate(st, parent.id);
        (Paired(parent.name), AuthState(snapshot, updated.session))
  }

  /** handlePairing with the stored list written before `updateUser`, so that
      both records keep their new links. */
  function HandlePairing(st: AuthState, code: string): (r: (Outcome, AuthState))
    requires st.session.Some?
    ensures |code| != 6 ==> r == (NotSubmitted, st)
    ensures |code| == 6 ==> (r.0 == InvalidCode <==> ParentIndex(st.users, code).None?)
    ensures r.0 == InvalidCode ==> r.1 == st
    ensures |code| == 6 && ParentIndex(st.users, code).Some? ==> r.0.Paired?
    ensures r.0.Paired? ==> r.0.parentName == st.users[ParentIndex(st.users, code).value].user.name
    ensures |r.1.users| == |st.users|
    ensures r.1.session.Some? && r.1.session.value.id == st.session.value.id
    ensures r.0.Paired? ==>
      var k := ParentIndex(st.users, code).value;
      && r.1.session.value.pairedWith.Some? && st.users[k].user.id in r.1.session.value.pairedWith.value
      && (st.users[k].user.id != st.session.value.id ==>
            r.1.users[k].user.pairedWith.Some? && st.session.value.id in r.1.users[k].user.pairedWith.value)
  {
    if |code| != 6 then (NotSubmitted, st)
    else
      match ParentIndex(st.users, code)
      case None => (InvalidCode, st)
      case Some(k) =>
        var parent := st.users[k].user;
        var linked := AuthState(LinkParent(st.users, k, st.session.value.id), st.session);
        (Paired(parent.name), ApplyChildUpdate(linked, parent.id))
  }

  /** Whichever the write order, a successful pairing leaves the session's
      list and the parent's stored list free of duplicates when they were
      before. */
  lemma PairingKeepsListsDuplicateFree(st: AuthState, code: string)
    requires st.session.Some? && |code| == 6 && ParentIndex(st.users, code).Some?
    requires NoDuplicates(st.session.value.pairedWith.GetOr([]))
    requires NoDuplicates(st.users[ParentIndex(st.users, code).value].user.pairedWith.GetOr([]))
    ensures var k := ParentIndex(st.users, code).value;
      var w := HandlePairingAsWritten(st, code).1;
      NoDuplicates(w.session.value.pairedWith.value) && NoDuplicates(w.users[k].user.pairedWith.value)
    ensures var k := ParentIndex(st.users, code).value;
      var r := HandlePairing(st, code).1;
      && NoDuplicates(r.session.value.pairedWith.value)
      && (st.users[k].user.id != st.session.value.id ==> NoDuplicates(r.users[k].user.pairedWith.value))
  {
  }

  /** The first stored account carrying `id`. */
  predicate FirstWithId(users: seq<Account>, i: int, id: string)
  {
    0 <= i < |users| && users[i].user.id == id && forall j :: 0 <= j < i ==> users[j].user.id != id
  }

  /** After a successful pairing, whichever way the child's list was
      updated, the session lists the parent. */
  lemma SessionListsParent(st: AuthState, code: string)
    requires st.session.Some? && |code| == 6 && ParentIndex(st.users, code).Some?
    ensures var r := HandlePairing(st, code).1;
      var pid := st.users[ParentIndex(st.users, code).value].user.id;
      r.session.value.pairedWith.Some? && pid in r.session.value.pairedWith.value
  {
  }

  /** After a successful pairing the parent's stored record lists the child
      and the child's stored record lists the parent, provided they are two
      different records and the child's record agrees with the session.
      Every other record is left alone. */
  lemma PairingLinksBoth(st: AuthState, code: string, i: nat)
    requires st.session.Some? && |code| == 6 && ParentIndex(st.users, code).Some?
    requires FirstWithId(st.users, i, st.session.value.id) && st.users[i].user == st.session.value
    requires i != ParentIndex(st.users, code).value
    ensures var r := HandlePairing(st, code).1;
      var k := ParentIndex(st.users, code).value;
      && r.users[k].user.pairedWith.Some? && st.session.value.id in r.users[k].user.pairedWith.value
      && r.users[i].user.pairedWith.Some? && st.users[k].user.id in r.users[i].user.pairedWith.value
      && forall j :: 0 <= j < |st.users| && j != i && j != k ==> r.users[j] == st.users[j]
  {
    var child := st.session.value;
    var k := ParentIndex(st.users, code).value;
    var pid := st.users[k].user.id;
    var linked := AuthState(LinkParent(st.users, k, child.id), st.session);
    assert FirstWithId(linked.users, i, child.id);
    match ChildUpdate(child, pid)
    case None =>
      assert linked.users[i] == st.users[i];
    case Some(upd) =>
      assert UpdateUser(linked, upd).users[i].user == Merge(linked.users[i].user, upd);
  }

  /** Pairing again with the same code changes nothing, provided the
      parent's record is not one carrying the child's own id. */
  lemma PairingIdempotent(st: AuthState, code: string)
    requires st.session.Some? && |code| == 6 && ParentIndex(st.users, code).Some?
    requires st.users[ParentIndex(st.users, code).value].user.id != st.session.value.id
    ensures var r := HandlePairing(st, code).1;
      HandlePairing(r, code).1 == r
  {
    var child := st.session.value;
    var k := ParentIndex(st.users, code).value;
    var p := st.users[k].user;
    var linked := AuthState(LinkParent(st.users, k, child.id), st.session);
    var r := HandlePairing(st, code).1;
    assert r == ApplyChildUpdate(linked, p.id);
    assert r.users[k] == linked.users[k];
    assert forall j :: 0 <= j < |st.users| ==> r.users[j].user.pairingCode == st.users[j].user.pairingCode;
    FindIndexAgrees(r.users, (a: Account) => a.user.pairingCode == Some(code),
                    st.users, (a: Account) => a.user.pairingCode == Some(code));
    assert ParentIndex(r.users, code) == Some(k);
    var pw := p.pairedWith.GetOr([]);
    AddOnceProperties(pw, child.id);
    assert LinkParent(r.users, k, child.id) == r.users;
    assert ChildUpdate(r.session.value, p.id).None?;
  }

  /** As written, pairing again with the same code also changes nothing,
      under the same proviso. */
  lemma PairingIdempotentAsWritten(st: AuthState, code: string)
    requires st.session.Some? && |code| == 6 && ParentIndex(st.users, code).Some?
    requires st.users[ParentIndex(st.users, code).value].user.id != st.session.value.id
    ensures var r := HandlePairingAsWritten(st, code).1;
      HandlePairingAsWritten(r, code).1 == r
  {
    var child := st.session.value;
    var k := ParentIndex(st.users, code).value;
    var p := st.users[k].user;
    var r := HandlePairingAsWritten(st, code).1;
    assert forall j :: 0 <= j < |st.users| ==> r.users[j].user.pairingCode == st.users[j].user.pairingCode;
    FindIndexAgrees(r.users, (a: Account) => a.user.pairingCode == Some(code),
                    st.users, (a: Account) => a.user.pairingCode == Some(code));
    assert ParentIndex(r.users, code) == Some(k);
    var pw := p.pairedWith.GetOr([]);
    AddOnceProperties(pw, child.id);
    assert LinkParent(r.users, k, child.id) == r.users;
    assert ChildUpdate(r.session.value, p.id).None?;
  }

  /** As written, the child's stored record comes out of a successful pairing
      exactly as it went in, although the session now lists the parent. */
  lemma AsWrittenDropsChildRecord(st: AuthState, code: string, i: nat)
    requires st.session.Some? && |code| == 6 && ParentIndex(st.users, code).Some?
    requires FirstWithId(st.users, i, st.session.value.id)
    requires i != ParentIndex(st.users, code).value
    ensures var r := HandlePairingAsWritten(st, code).1;
      var pid := st.users[ParentIndex(st.users, code).value].user.id;
      && r.users[i] == st.users[i]
      && r.session.value.pairedWith.Some? && pid in r.session.value.pairedWith.value
  {
  }

  /** Logging in as the second of two accounts, when only the second one
      matches, puts that account's user in the session. */
  lemma LoginSecond(users: seq<Account>, email: string, password: string)
    requires |users| == 2 && !Matches(users[0], email, password) && Matches(users[1], email, password)
    ensures Login(AuthState(users, None), email, password).1.session == Some(users[1].user)
  {
  }

  /** A parent `p1` with code 123456 and a child `c1` with an empty list,
      logged in: the state both pairing counterexamples start from. */
  function Household(): AuthState
  {
    var p := User("p1", "Pat", "pat@home", Parent, Some([]), Some("123456"));
    var c := User("c1", "Kim", "kim@home", Child, Some([]), None);
    AuthState([Account(p, "pw1"), Account(c, "pw2")], Some(c))
  }

  /** As written, after pairing, logging out and back in as the child, the
      link to the parent is gone. */
  lemma PairingLostOnRelogin()
    ensures Login(Logout(HandlePairingAsWritten(Household(), "123456").1), "kim@home", "pw2").1.session
      == Some(Household().session.value)
  {
    var st := Household();
    assert ParentIndex(st.users, "123456") == Some(0);
    assert FirstWithId(st.users, 1, "c1");
    AsWrittenDropsChildRecord(st, "123456", 1);
    var w := HandlePairingAsWritten(st, "123456").1;
    assert w.users[0].user.email == "pat@home";
    LoginSecond(w.users, "kim@home", "pw2");
  }

  /** With the snapshot written first the same sequence keeps the link. */
  lemma PairingKeptOnRelogin()
    ensures Login(Logout(HandlePairing(Household(), "123456").1), "kim@home", "pw2").1.session
      == Some(Household().session.value.(pairedWith := Some(["p1"])))
  {
    var st := Household();
    var c := st.session.value;
    assert ParentIndex(st.users, "123456") == Some(0);
    var linked := AuthState(LinkParent(st.users, 0, "c1"), st.session);
    assert FirstWithId(linked.users, 1, "c1");
    var upd := SetPairedWith([] + ["p1"]);
    assert [] + ["p1"] == ["p1"];
    assert ChildUpdate(c, "p1") == Some(upd);
    var r := HandlePairing(st, "123456").1;
    assert r == UpdateUser(linked, upd);
    assert r.users[1].user == Merge(c, upd);
    assert r.users[0].user.email == "pat@home";
    LoginSecond(r.users, "kim@home", "pw2");
  }
}
