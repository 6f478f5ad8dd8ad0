/** What each operation on the user directory does, told by the accounts it leaves. */
module UserOperations {
  import opened Numerals
  import opened Users
  import opened Wrappers

  // ---------------------------------------------------------------- accounts and roles

  /** Setup makes the one owner, with this name. */
  lemma SetUpMakes(id: string, username: string)
    ensures SetUp([], id, username) ==
      Ok([User(id, username, Owner, None, None, Some(Local), None)],
         User(id, username, Owner, None, None, Some(Local), None))
  {
  }

  /** Creating adds a local account with this name and role exactly if nobody has the name. */
  lemma CreateAdds(users: seq<User>, id: string, username: string, role: Role)
    ensures var u := User(id, username, role, None, None, Some(Local), None);
      Create(users, id, username, role) ==
        if forall v <- users :: v.username != username then Ok(users + [u], u) else Failed(UsernameTaken)
  {
  }

  predicate HasOtherOwner(users: seq<User>, id: string) { exists v <- users :: v.id != id && v.role.Owner? }

  lemma {:induction false} OwnersThere(users: seq<User>)
    ensures CountOwners(users) >= 1 <==> exists v <- users :: v.role.Owner?
  {
    if users != [] {
      OwnersThere(users[1..]);
      assert users[0] in users && forall v <- users[1..] :: v in users;
      assert forall v <- users :: v == users[0] || v in users[1..];
    }
  }

  /** An owner is the last one exactly if no other account is an owner. */
  lemma OwnersBeside(users: seq<User>, k: nat)
    requires AllDiffer(users) && k < |users| && users[k].role.Owner?
    ensures CountOwners(users) <= 1 <==> !HasOtherOwner(users, users[k].id)
  {
    var rest := users[..k] + users[k + 1..];
    WithoutUser(users, k);
    OwnersThere(rest);
    forall v ensures v in rest <==> v in users && v.id != users[k].id {
      ReplaceMembers(users, users[k].id, users[k], v);
    }
  }

  /** A role change sets the role of this account and nothing else, and is refused exactly when there is no such
      account, or it is the only owner and would cease to be one. */
  lemma RoleChanges(users: seq<User>, k: nat, role: Role)
    requires Valid(users) && k < |users|
    ensures var u := users[k];
      ChangeRole(users, u.id, role) ==
        if u.role == Owner && role != Owner && !HasOtherOwner(users, u.id) then Failed(LastOwner)
        else
          var v := User(u.id, u.username, role, u.email, u.displayName, u.provider, u.subject);
          Ok(users[k := v], v)
  {
    var u := users[k];
    UniqueById(users, FindId(users, u.id).value, u);
    ReplaceUser(users, k, u.(role := role));
    if u.role.Owner? {
      OwnersBeside(users, k);
    }
  }

  /** A deletion removes this account and no other, and is refused exactly for the only owner. */
  lemma Deletes(users: seq<User>, k: nat)
    requires Valid(users) && k < |users|
    ensures var u := users[k];
      Delete(users, u.id) ==
        if u.role == Owner && !HasOtherOwner(users, u.id) then Failed(LastOwner)
        else Ok(users[..k] + users[k + 1..], u)
  {
    var u := users[k];
    UniqueById(users, FindId(users, u.id).value, u);
    WithoutUser(users, k);
    if u.role.Owner? {
      OwnersBeside(users, k);
    }
  }

  /** Neither knows an account that is not there. */
  lemma NotThere(users: seq<User>, id: string, role: Role)
    requires forall u <- users :: u.id != id
    ensures ChangeRole(users, id, role) == Failed(NoSuchUser) && Delete(users, id) == Failed(NoSuchUser)
  {
  }

  // ---------------------------------------------------------------- OIDC logins

  /** The same address, capital ASCII letters counting as small ones. */
  predicate SameAddress(a: string, b: string) {
    |a| == |b| && forall i :: 0 <= i < |a| ==> SameLetter(a[i], b[i])
  }

  predicate SameLetter(c: char, d: char) {
    || c == d
    || ('A' <= c <= 'Z' && d as int == c as int + 32)
    || ('A' <= d <= 'Z' && c as int == d as int + 32)
  }

  lemma {:induction false} LowerAt(s: string)
    ensures |Lower(s)| == |s|
    ensures forall i :: 0 <= i < |s| ==>
      Lower(s)[i] == if 'A' <= s[i] <= 'Z' then (s[i] as int + 32) as char else s[i]
  {
    if s != "" {
      LowerAt(s[1..]);
    }
  }

  lemma LowerSame(a: string, b: string)
    ensures Lower(a) == Lower(b) <==> SameAddress(a, b)
  {
    LowerAt(a);
    LowerAt(b);
    if SameAddress(a, b) {
      forall i | 0 <= i < |a| ensures Lower(a)[i] == Lower(b)[i] {
        assert SameLetter(a[i], b[i]);
      }
    }
    if Lower(a) == Lower(b) {
      forall i | 0 <= i < |a| ensures SameLetter(a[i], b[i]) {
        assert Lower(a)[i] == Lower(b)[i];
      }
    }
  }

  predicate ByAddress(u: User, email: Option<string>) {
    u.provider == Some(Oidc) && u.email.Some? && email.Some? && SameAddress(u.email.value, email.value)
  }

  predicate BySubject(u: User, subject: string) { u.provider == Some(Oidc) && u.subject == Some(subject) }

  /** The first account with the address of the login. */
  predicate FirstByAddress(users: seq<User>, k: nat, email: Option<string>) {
    k < |users| && ByAddress(users[k], email) && forall i :: 0 <= i < k ==> !ByAddress(users[i], email)
  }

  lemma {:induction false} FoundByAddress(users: seq<User>, k: nat, email: string)
    requires k < |users| && HasEmail(users[k], email) && forall i :: 0 <= i < k ==> !HasEmail(users[i], email)
    ensures FindEmail(users, email) == Some(users[k])
  {
    if k > 0 {
      FoundByAddress(users[1..], k - 1, email);
    }
  }

  lemma {:induction false} NoAddress(users: seq<User>, email: string)
    requires forall u <- users :: !HasEmail(u, email)
    ensures FindEmail(users, email) == None
  {
    if users != [] {
      assert users[0] in users && forall u <- users[1..] :: u in users;
      NoAddress(users[1..], email);
    }
  }

  lemma AddressIs(u: User, email: string)
    ensures HasEmail(u, email) <==> ByAddress(u, Some(email))
  {
    if u.email.Some? {
      LowerSame(u.email.value, email);
    }
  }

  /** The account a login finds: the one with its subject, else the first one with its address. */
  lemma LoginFinds(users: seq<User>, k: nat, login: Login)
    requires AllDiffer(users) && k < |users|
    requires if exists u <- users :: BySubject(u, login.subject) then BySubject(users[k], login.subject)
             else FirstByAddress(users, k, login.email)
    ensures Existing(users, login) == Some(users[k])
  {
    if exists u <- users :: BySubject(u, login.subject) {
      UniqueBySubject(users, FindSubject(users, login.subject).value, users[k], login.subject);
    } else {
      forall i | 0 <= i <= k ensures HasEmail(users[i], login.email.value) <==> ByAddress(users[i], login.email) {
        AddressIs(users[i], login.email.value);
      }
      FoundByAddress(users, k, login.email.value);
    }
  }

  /** A login that finds an account takes over the subject and the profile of the claims, an absent address
      excepted, and keeps id, name and role; no other account changes. */
  lemma LoginRefreshes(users: seq<User>, k: nat, id: string, login: Login)
    requires Valid(users) && k < |users|
    requires if exists u <- users :: BySubject(u, login.subject) then BySubject(users[k], login.subject)
             else FirstByAddress(users, k, login.email)
    ensures var u := users[k];
      var v := User(u.id, u.username, u.role, if login.email.Some? then login.email else u.email,
          Some(login.displayName), Some(Oidc), Some(login.subject));
      OidcLogin(users, id, login) == Ok(users[k := v], v)
  {
    LoginFinds(users, k, login);
    ReplaceUser(users, k, Refreshed(users[k], login));
  }

  /** One that finds none makes an account if that is allowed: with the provider's role, the claims' profile, and
      the preferred name, or the first of it with a number from two on that is free. */
  lemma LoginCreates(users: seq<User>, id: string, login: Login) returns (number: nat)
    requires forall u <- users :: !BySubject(u, login.subject) && !ByAddress(u, login.email)
    ensures 1 <= number && forall i :: 1 <= i < number ==> Taken(users, Numbered(login.base, i))
    ensures var name := Numbered(login.base, number);
      var u := User(id, name, login.defaultRole, login.email, Some(login.displayName), Some(Oidc),
          Some(login.subject));
      && (forall v <- users :: v.username != name)
      && OidcLogin(users, id, login) == if login.autoCreate then Ok(users + [u], u) else Failed(AutoCreateOff)
  {
    number := FirstFree(users, login.base, 1);
    forall i | 1 <= i <= number ensures Candidate(login.base, i) == Numbered(login.base, i) {
    }
    if login.email.Some? {
      forall u | u in users ensures !HasEmail(u, login.email.value) {
        AddressIs(u, login.email.value);
      }
      NoAddress(users, login.email.value);
    }
  }

  /** "name", "name-2", "name-3", and so on. */
  function Numbered(base: string, i: nat): string { if i <= 1 then base else base + "-" + Digits(i, 10) }
}
