/** The user directory: setup, accounts, roles, deletion and the directory part of an OIDC login. */
module Users {
  import opened Collections
  import opened Numerals
  import opened Wrappers

  datatype Role = Owner | Operator | Viewer

  datatype Provider = Local | Oidc

  datatype User = User(
    id: string, username: string, role: Role, email: Option<string>, displayName: Option<string>,
    provider: Option<Provider>, subject: Option<string>)

  datatype Error = AlreadySetUp | UsernameTaken | NoSuchUser | LastOwner | AutoCreateOff

  /** What the verified claims and the provider's settings say; `base` is the sanitised preferred name. */
  datatype Login = Login(subject: string, email: Option<string>, displayName: string, base: string,
                         autoCreate: bool, defaultRole: Role)

  datatype Outcome = Ok(users: seq<User>, user: User) | Failed(error: Error)

  // ---------------------------------------------------------------- names

  predicate Taken(users: seq<User>, name: string) { exists u <- users :: u.username == name }

  /** The first candidate is the base itself, the k-th the base with the number k. */
  function Candidate(base: string, k: nat): string
    requires 1 <= k
  {
    if k == 1 then base else base + "-" + Digits(k, 10)
  }

  /** The names tried before the `k`-th are all taken. */
  predicate TakenBelow(users: seq<User>, base: string, k: nat) {
    forall j :: 1 <= j < k ==> Taken(users, Candidate(base, j))
  }

  lemma CandidatesDiffer(base: string, j: nat, k: nat)
    requires 1 <= j && 1 <= k && Candidate(base, j) == Candidate(base, k)
    ensures j == k
  {
    var n := |base|;
    if j > 1 && k > 1 {
      assert Digits(j, 10) == Candidate(base, j)[n + 1..] && Digits(k, 10) == Candidate(base, k)[n + 1..];
      DigitsInjective(j, k, 10);
    }
  }

  function Names(users: seq<User>): set<string> { set u <- users :: u.username }

  lemma {:induction false} NamesSize(users: seq<User>)
    ensures |Names(users)| <= |users|
  {
    if users == [] {
      assert Names(users) == {};
    } else {
      var n := |users| - 1;
      NamesSize(users[..n]);
      assert forall u <- users :: u == users[n] || u in users[..n];
      assert Names(users) == Names(users[..n]) + {users[n].username};
    }
  }

  lemma {:induction false} CandidateSet(users: seq<User>, base: string, k: nat) returns (names: set<string>)
    requires 1 <= k && TakenBelow(users, base, k)
    ensures |names| == k - 1 && names <= Names(users)
    ensures forall name <- names :: exists j :: 1 <= j < k && name == Candidate(base, j)
  {
    if k == 1 {
      names := {};
    } else {
      var before := CandidateSet(users, base, k - 1);
      var c := Candidate(base, k - 1);
      assert Taken(users, c);
      if c in before {
        var j :| 1 <= j < k - 1 && c == Candidate(base, j);
        CandidatesDiffer(base, j, k - 1);
      }
      names := before + {c};
    }
  }

  /** Pigeonhole: distinct candidates cannot all be taken by fewer users. */
  lemma TakenAtMost(users: seq<User>, base: string, k: nat)
    requires 1 <= k && TakenBelow(users, base, k)
    ensures k - 1 <= |users|
  {
    var names := CandidateSet(users, base, k);
    NamesSize(users);
    SubsetSize(names, Names(users));
  }

  lemma NextTaken(users: seq<User>, base: string, k: nat)
    requires 1 <= k && TakenBelow(users, base, k) && Taken(users, Candidate(base, k))
    ensures TakenBelow(users, base, k + 1) && k <= |users|
  {
    TakenAtMost(users, base, k + 1);
  }

  /** The first free candidate, from the `k`-th on. */
  function FirstFree(users: seq<User>, base: string, k: nat): (r: nat)
    requires 1 <= k && TakenBelow(users, base, k)
    ensures k <= r <= |users| + 1 && TakenBelow(users, base, r) && !Taken(users, Candidate(base, r))
    decreases |users| + 1 - k
  {
    TakenAtMost(users, base, k);
    if Taken(users, Candidate(base, k)) then
      NextTaken(users, base, k);
      FirstFree(users, base, k + 1)
    else k
  }

  function UniqueName(users: seq<User>, base: string): string { Candidate(base, FirstFree(users, base, 1)) }

  // ---------------------------------------------------------------- operations

  function CountOwners(users: seq<User>): nat {
    if users == [] then 0 else (if users[0].role.Owner? then 1 else 0) + CountOwners(users[1..])
  }

  function FindId(users: seq<User>, id: string): (r: Option<User>)
    ensures r.Some? ==> r.value in users && r.value.id == id
    ensures r.None? ==> forall u <- users :: u.id != id
  {
    if users == [] then None else if users[0].id == id then Some(users[0]) else FindId(users[1..], id)
  }

  function Replace(users: seq<User>, id: string, user: User): seq<User> {
    if users == [] then [] else [if users[0].id == id then user else users[0]] + Replace(users[1..], id, user)
  }

  function Without(users: seq<User>, id: string): seq<User> {
    if users == [] then [] else (if users[0].id == id then [] else [users[0]]) + Without(users[1..], id)
  }

  function Lower(s: string): string {
    if s == "" then "" else [if 'A' <= s[0] <= 'Z' then (s[0] as int + 32) as char else s[0]] + Lower(s[1..])
  }

  predicate HasSubject(u: User, subject: string) { u.provider == Some(Oidc) && u.subject == Some(subject) }

  predicate HasEmail(u: User, email: string) {
    u.provider == Some(Oidc) && u.email.Some? && Lower(u.email.value) == Lower(email)
  }

  function FindSubject(users: seq<User>, subject: string): (r: Option<User>)
    ensures r.Some? ==> r.value in users && HasSubject(r.value, subject)
    ensures r.None? ==> forall u <- users :: !HasSubject(u, subject)
  {
    if users == [] then None
    else if HasSubject(users[0], subject) then Some(users[0]) else FindSubject(users[1..], subject)
  }

  function FindEmail(users: seq<User>, email: string): (r: Option<User>)
    ensures r.Some? ==> r.value in users && HasEmail(r.value, email)
  {
    if users == [] then None else if HasEmail(users[0], email) then Some(users[0]) else FindEmail(users[1..], email)
  }

  /** The account a login belongs to: by subject, else by e-mail address. */
  function Existing(users: seq<User>, login: Login): (r: Option<User>)
    ensures r.Some? ==> r.value in users
  {
    var bySubject := FindSubject(users, login.subject);
    if bySubject.Some? then bySubject
    else if login.email.Some? then FindEmail(users, login.email.value) else None
  }

  function SetUp(users: seq<User>, id: string, username: string): Outcome {
    if users != [] then Failed(AlreadySetUp) else
      var u := User(id, username, Owner, None, None, Some(Local), None);
      Ok([u], u)
  }

  function Create(users: seq<User>, id: string, username: string, role: Role): Outcome {
    if Taken(users, username) then Failed(UsernameTaken) else
      var u := User(id, username, role, None, None, Some(Local), None);
      Ok(users + [u], u)
  }

  function ChangeRole(users: seq<User>, id: string, role: Role): Outcome {
    var found := FindId(users, id);
    if found.None? then Failed(NoSuchUser)
    else if found.value.role.Owner? && !role.Owner? && CountOwners(users) <= 1 then Failed(LastOwner)
    else Ok(Replace(users, id, found.value.(role := role)), found.value.(role := role))
  }

  function Delete(users: seq<User>, id: string): Outcome {
    var found := FindId(users, id);
    if found.None? then Failed(NoSuchUser)
    else if found.value.role.Owner? && CountOwners(users) <= 1 then Failed(LastOwner)
    else Ok(Without(users, id), found.value)
  }

  /** The account after a login of an existing user: profile and subject are taken over. */
  function Refreshed(u: User, login: Login): User {
    u.(email := if login.email.Some? then login.email else u.email, displayName := Some(login.displayName),
       provider := Some(Oidc), subject := Some(login.subject))
  }

  function OidcLogin(users: seq<User>, id: string, login: Login): Outcome {
    var existing := Existing(users, login);
    if existing.Some? then
      var u := Refreshed(existing.value, login);
      Ok(Replace(users, u.id, u), u)
    else if !login.autoCreate then Failed(AutoCreateOff)
    else
      var u := User(id, UniqueName(users, login.base), login.defaultRole,
          login.email, Some(login.displayName), Some(Oidc), Some(login.subject));
      Ok(users + [u], u)
  }

  // ---------------------------------------------------------------- password logins

  /** The directory, and what each login that awaits its password check has read. */
  datatype State = State(users: seq<User>, logins: map<nat, seq<User>>)

  datatype Action = Other(step: Step) | Start(call: nat, username: string) | Finish(call: nat, verified: bool)

  /** A login reads the directory before the password check, and writes back what it has read after it. */
  function Act(s: State, a: Action): State {
    match a
    case Other(step) => s.(users := Apply(s.users, step))
    case Start(call, username) => if Taken(s.users, username) then s.(logins := s.logins[call := s.users]) else s
    case Finish(call, verified) =>
      if call !in s.logins then s
      else State(if verified then s.logins[call] else s.users, s.logins - {call})
  }

  // ---------------------------------------------------------------- the store

  class AuthStore {
    var users: seq<User>
    /** The password logins that await the password check, with the users they read. */
    var logins: map<nat, seq<User>>

    ghost function Now(): State
      reads this
    {
      State(users, logins)
    }

    constructor ()
      ensures Now() == State([], map[])
    {
      users, logins := [], map[];
    }

    /** `verifyLogin` up to the password check. */
    method StartLogin(call: nat, username: string) returns (waits: bool)
      modifies this`logins
      ensures Now() == Act(old(Now()), Start(call, username))
      ensures waits == Taken(users, username)
    {
      waits := Taken(users, username);
      if waits {
        logins := logins[call := users];
      }
    }

    /** And from it on; the whole list that was read is written back. */
    method FinishLogin(call: nat, verified: bool)
      requires call in logins
      modifies this
      ensures Now() == Act(old(Now()), Finish(call, verified))
      ensures verified ==> users == old(logins)[call]
    {
      if verified {
        users := logins[call];
      }
      logins := logins - {call};
    }

    static method UniqueOidcUsername(users: seq<User>, base: string) returns (candidate: string)
      ensures candidate == UniqueName(users, base) && !Taken(users, candidate)
    {
      candidate := base;
      var index := 2;
      while Taken(users, candidate)
        invariant 2 <= index && TakenBelow(users, base, index - 1) && candidate == Candidate(base, index - 1)
        invariant FirstFree(users, base, index - 1) == FirstFree(users, base, 1)
        decreases |users| + 2 - index
      {
        NextTaken(users, base, index - 1);
        candidate := base + "-" + Digits(index, 10);
        index := index + 1;
      }
    }

    method CreateInitialAdmin(id: string, username: string) returns (error: Option<Error>)
      modifies this`users
      ensures match SetUp(old(users), id, username)
        case Ok(updated, _) => error == None && users == updated
        case Failed(e) => error == Some(e) && users == old(users)
    {
      if |users| > 0 {
        return Some(AlreadySetUp);
      }
      users := [User(id, username, Owner, None, None, Some(Local), None)];
      error := None;
    }

    method CreateUser(id: string, username: string, role: Role) returns (error: Option<Error>)
      modifies this`users
      ensures match Create(old(users), id, username, role)
        case Ok(updated, _) => error == None && users == updated
        case Failed(e) => error == Some(e) && users == old(users)
    {
      if Taken(users, username) {
        return Some(UsernameTaken);
      }
      users := users + [User(id, username, role, None, None, Some(Local), None)];
      error := None;
    }

    method UpdateUserRole(id: string, role: Role) returns (error: Option<Error>)
      modifies this`users
      ensures match ChangeRole(old(users), id, role)
        case Ok(updated, _) => error == None && users == updated
        case Failed(e) => error == Some(e) && users == old(users)
    {
      var user := FindId(users, id);
      if user.None? {
        return Some(NoSuchUser);
      }
      if user.value.role == Owner && role != Owner && CountOwners(users) <= 1 {
        return Some(LastOwner);
      }
      users := Replace(users, id, user.value.(role := role));
      error := None;
    }

    method DeleteUser(id: string) returns (error: Option<Error>)
      modifies this`users
      ensures match Delete(old(users), id)
        case Ok(updated, _) => error == None && users == updated
        case Failed(e) => error == Some(e) && users == old(users)
    {
      var user := FindId(users, id);
      if user.None? {
        return Some(NoSuchUser);
      }
      if user.value.role == Owner && CountOwners(users) <= 1 {
        return Some(LastOwner);
      }
      users := Without(users, id);
      error := None;
    }

    /** The update step of `completeOidcLogin`; `id` is fresh. */
    method CompleteOidcLogin(id: string, login: Login) returns (error: Option<Error>, user: Option<User>, created: bool)
      modifies this`users
      ensures created == (Existing(old(users), login).None? && login.autoCreate)
      ensures match OidcLogin(old(users), id, login)
        case Ok(updated, u) => error == None && user == Some(u) && users == updated
        case Failed(e) => error == Some(e) && user == None && users == old(users)
    {
      var existing := Existing(users, login);
      if existing.None? && !login.autoCreate {
        return Some(AutoCreateOff), None, false;
      }
      var updated: User;
      if existing.Some? {
        updated := Refreshed(existing.value, login);
        users := Replace(users, existing.value.id, updated);
      } else {
        var name := UniqueOidcUsername(users, login.base);
        updated := User(id, name, login.defaultRole, login.email, Some(login.displayName), Some(Oidc),
            Some(login.subject));
        users := users + [updated];
      }
      return None, Some(updated), existing.None?;
    }
  }

  // ---------------------------------------------------------------- runs

  datatype Step =
    | DoSetUp(id: string, username: string)
    | DoCreate(id: string, username: string, role: Role)
    | DoChangeRole(id: string, role: Role)
    | DoDelete(id: string)
    | DoLogin(id: string, login: Login)

  function OutcomeOf(users: seq<User>, step: Step): Outcome {
    match step
    case DoSetUp(id, username) => SetUp(users, id, username)
    case DoCreate(id, username, role) => Create(users, id, username, role)
    case DoChangeRole(id, role) => ChangeRole(users, id, role)
    case DoDelete(id) => Delete(users, id)
    case DoLogin(id, login) => OidcLogin(users, id, login)
  }

  function Apply(users: seq<User>, step: Step): seq<User> {
    var outcome := OutcomeOf(users, step);
    if outcome.Ok? then outcome.users else users
  }

  /** Ids are generated fresh. */
  predicate Fresh(users: seq<User>, step: Step) {
    step.DoSetUp? || step.DoCreate? || step.DoLogin? ==> forall u <- users :: u.id != step.id
  }

  function Run(users: seq<User>, steps: seq<Step>): seq<User>
    decreases |steps|
  {
    if steps == [] then users else Run(Apply(users, steps[0]), steps[1..])
  }

  predicate RunFresh(users: seq<User>, steps: seq<Step>)
    decreases |steps|
  {
    steps == [] || (Fresh(users, steps[0]) && RunFresh(Apply(users, steps[0]), steps[1..]))
  }

  predicate Differ(u: User, v: User) {
    && u.id != v.id && u.username != v.username
    && !(u.provider == Some(Oidc) && v.provider == Some(Oidc) && u.subject.Some? && u.subject == v.subject)
  }

  predicate AllDiffer(users: seq<User>) {
    forall i, j :: 0 <= i < j < |users| ==> Differ(users[i], users[j])
  }

  /** From setup on: ids, usernames and OIDC subjects are unique, and there is an owner. */
  predicate Valid(users: seq<User>) { AllDiffer(users) && CountOwners(users) >= 1 }

  lemma TailDiffers(users: seq<User>)
    requires AllDiffer(users) && users != []
    ensures AllDiffer(users[1..])
  {
    forall i, j | 0 <= i < j < |users[1..]| ensures Differ(users[1..][i], users[1..][j]) {
      assert Differ(users[i + 1], users[j + 1]);
    }
  }

  lemma {:induction false} AppendUser(users: seq<User>, u: User)
    requires AllDiffer(users) && forall v <- users :: Differ(v, u)
    ensures AllDiffer(users + [u]) && CountOwners(users + [u]) == CountOwners(users) + if u.role.Owner? then 1 else 0
  {
    AppendOwners(users, u);
  }

  lemma {:induction false} AppendOwners(users: seq<User>, u: User)
    ensures CountOwners(users + [u]) == CountOwners(users) + if u.role.Owner? then 1 else 0
  {
    var all := users + [u];
    if users == [] {
      assert all[1..] == [];
    } else {
      assert all[1..] == users[1..] + [u];
      AppendOwners(users[1..], u);
    }
  }

  lemma {:induction false} ReplaceUser(users: seq<User>, k: nat, u: User)
    requires AllDiffer(users) && k < |users| && u.id == users[k].id
    ensures Replace(users, u.id, u) == users[k := u]
    ensures CountOwners(users[k := u]) ==
      CountOwners(users) - (if users[k].role.Owner? then 1 else 0) + if u.role.Owner? then 1 else 0
  {
    var r := users[k := u];
    forall i | 0 <= i < |users| && i != k ensures users[i].id != u.id {
      if i < k { assert Differ(users[i], users[k]); } else { assert Differ(users[k], users[i]); }
    }
    if k == 0 {
      ReplaceNone(users[1..], u.id, u);
      assert r[1..] == users[1..];
    } else {
      TailDiffers(users);
      ReplaceUser(users[1..], k - 1, u);
      assert r[1..] == users[1..][k - 1 := u];
      assert r == [users[0]] + r[1..];
    }
  }

  lemma {:induction false} ReplaceNone(users: seq<User>, id: string, u: User)
    requires forall v <- users :: v.id != id
    ensures Replace(users, id, u) == users && Without(users, id) == users
  {
    if users != [] {
      assert users[0] in users && forall v <- users[1..] :: v in users;
      ReplaceNone(users[1..], id, u);
    }
  }

  /** Replacing an account by one that differs from all others. */
  lemma ReplaceDiffers(users: seq<User>, k: nat, u: User)
    requires AllDiffer(users) && k < |users| && u.id == users[k].id
    requires forall i :: 0 <= i < |users| && i != k ==> Differ(users[i], u)
    ensures AllDiffer(Replace(users, u.id, u)) && Replace(users, u.id, u) == users[k := u]
  {
    ReplaceUser(users, k, u);
    var r := users[k := u];
    forall i, j | 0 <= i < j < |r| ensures Differ(r[i], r[j]) {
      assert Differ(users[i], users[j]);
    }
  }

  lemma HeadDiffers(users: seq<User>)
    requires AllDiffer(users) && users != []
    ensures forall v <- users[1..] :: v.id != users[0].id
  {
    forall v | v in users[1..] ensures v.id != users[0].id {
      var i :| 0 <= i < |users[1..]| && users[1..][i] == v;
      assert Differ(users[0], users[i + 1]);
    }
  }

  lemma WithoutDiffers(users: seq<User>, k: nat)
    requires AllDiffer(users) && k < |users|
    ensures AllDiffer(users[..k] + users[k + 1..])
  {
    var rest := users[..k] + users[k + 1..];
    forall i, j | 0 <= i < j < |rest| ensures Differ(rest[i], rest[j]) {
      assert Differ(users[if i < k then i else i + 1], users[if j < k then j else j + 1]);
    }
  }

  lemma LeaveOut(users: seq<User>, k: nat)
    requires 0 < k < |users|
    ensures users[..k] + users[k + 1..] == [users[0]] + (users[1..][..k - 1] + users[1..][k..])
  {
  }

  lemma {:induction false} WithoutUser(users: seq<User>, k: nat)
    requires AllDiffer(users) && k < |users|
    ensures Without(users, users[k].id) == users[..k] + users[k + 1..]
    ensures CountOwners(users[..k] + users[k + 1..]) == CountOwners(users) - if users[k].role.Owner? then 1 else 0
  {
    var rest := users[..k] + users[k + 1..];
    if k == 0 {
      assert rest == users[1..];
      HeadDiffers(users);
      ReplaceNone(users[1..], users[0].id, users[0]);
    } else {
      assert Differ(users[0], users[k]);
      TailDiffers(users);
      WithoutUser(users[1..], k - 1);
      LeaveOut(users, k);
      assert rest[1..] == users[1..][..k - 1] + users[1..][k..];
    }
  }

  lemma IndexOf(users: seq<User>, u: User) returns (k: nat)
    requires u in users
    ensures k < |users| && users[k] == u
  {
    k :| 0 <= k < |users| && users[k] == u;
  }

  lemma ChangeRoleValid(users: seq<User>, id: string, role: Role)
    requires Valid(users)
    ensures Valid(Apply(users, DoChangeRole(id, role)))
  {
    var found := FindId(users, id);
    if ChangeRole(users, id, role).Ok? {
      var k := IndexOf(users, found.value);
      forall i | 0 <= i < |users| && i != k ensures Differ(users[i], found.value.(role := role)) {
        assert if i < k then Differ(users[i], users[k]) else Differ(users[k], users[i]);
      }
      ReplaceDiffers(users, k, found.value.(role := role));
      ReplaceUser(users, k, found.value.(role := role));
    }
  }

  lemma DeleteValid(users: seq<User>, id: string)
    requires Valid(users)
    ensures Valid(Apply(users, DoDelete(id)))
  {
    if Delete(users, id).Ok? {
      var k := IndexOf(users, FindId(users, id).value);
      WithoutUser(users, k);
      WithoutDiffers(users, k);
    }
  }

  lemma LoginExisting(users: seq<User>, login: Login)
    requires Valid(users) && Existing(users, login).Some?
    ensures var u := Refreshed(Existing(users, login).value, login);
      Valid(Replace(users, u.id, u)) && u in Replace(users, u.id, u)
  {
    var e := Existing(users, login).value;
    var u := Refreshed(e, login);
    var k := IndexOf(users, e);
    forall i | 0 <= i < |users| && i != k ensures Differ(users[i], u) {
      assert if i < k then Differ(users[i], users[k]) else Differ(users[k], users[i]);
      assert users[i] in users;
    }
    ReplaceDiffers(users, k, u);
    ReplaceUser(users, k, u);
    assert users[k := u][k] == u;
  }

  /** Every operation keeps usernames and subjects unique and an owner in place. */
  lemma StepValid(users: seq<User>, step: Step)
    requires Valid(users) && Fresh(users, step)
    ensures Valid(Apply(users, step))
  {
    match step
    case DoSetUp(id, username) =>
    case DoCreate(id, username, role) =>
      if Create(users, id, username, role).Ok? {
        AppendUser(users, User(id, username, role, None, None, Some(Local), None));
      }
    case DoChangeRole(id, role) =>
      ChangeRoleValid(users, id, role);
    case DoDelete(id) =>
      DeleteValid(users, id);
    case DoLogin(id, login) =>
      LoginValid(users, id, login);
  }

  lemma LoginValid(users: seq<User>, id: string, login: Login)
    requires Valid(users) && Fresh(users, DoLogin(id, login))
    ensures Valid(Apply(users, DoLogin(id, login)))
  {
    if Existing(users, login).Some? {
      LoginExisting(users, login);
    } else if login.autoCreate {
      var name := UniqueName(users, login.base);
      AppendUser(users, User(id, name, login.defaultRole, login.email, Some(login.displayName), Some(Oidc),
          Some(login.subject)));
    }
  }

  lemma {:induction false} RunValid(users: seq<User>, steps: seq<Step>)
    requires Valid(users) && RunFresh(users, steps)
    ensures Valid(Run(users, steps))
    decreases |steps|
  {
    if steps != [] {
      StepValid(users, steps[0]);
      RunValid(Apply(users, steps[0]), steps[1..]);
    }
  }

  /** Setup works once, on the empty directory, and starts a valid one. */
  lemma SetUpStarts(users: seq<User>, id: string, username: string)
    ensures SetUp(users, id, username).Ok? <==> users == []
    ensures SetUp(users, id, username).Ok? ==> Valid(SetUp(users, id, username).users)
  {
    if users == [] {
      var u := User(id, username, Owner, None, None, Some(Local), None);
      assert [u][1..] == [];
      assert CountOwners([u]) == 1;
    }
  }

  /** Whatever happens after setup, names and subjects stay unique and an owner stays. */
  lemma EveryRun(id: string, username: string, steps: seq<Step>)
    requires RunFresh(Apply([], DoSetUp(id, username)), steps)
    ensures Valid(Run(Apply([], DoSetUp(id, username)), steps))
  {
    SetUpStarts([], id, username);
    RunValid(Apply([], DoSetUp(id, username)), steps);
  }

  // ---------------------------------------------------------------- linked accounts

  /** The account `id` answers to the subject. */
  predicate Linked(users: seq<User>, subject: string, id: string) {
    exists u <- users :: u.id == id && HasSubject(u, subject)
  }

  /** What can end a link: deleting the account, or a login with another subject that is matched to it by e-mail. */
  predicate Unlinks(users: seq<User>, step: Step, subject: string, id: string) {
    || (step == DoDelete(id) && Delete(users, id).Ok?)
    || (step.DoLogin? && step.login.subject != subject && Existing(users, step.login).Some? &&
        Existing(users, step.login).value.id == id)
  }

  lemma UniqueById(users: seq<User>, u: User, v: User)
    requires AllDiffer(users) && u in users && v in users && u.id == v.id
    ensures u == v
  {
    var i := IndexOf(users, u);
    var j := IndexOf(users, v);
  }

  lemma UniqueBySubject(users: seq<User>, u: User, v: User, subject: string)
    requires AllDiffer(users) && u in users && v in users && HasSubject(u, subject) && HasSubject(v, subject)
    ensures u == v
  {
    var i := IndexOf(users, u);
    var j := IndexOf(users, v);
  }

  lemma {:induction false} ReplaceMembers(users: seq<User>, id: string, u: User, v: User)
    ensures v in Replace(users, id, u) <==> (v in users && v.id != id) || (v == u && exists w <- users :: w.id == id)
    ensures v in Without(users, id) <==> v in users && v.id != id
  {
    if users != [] {
      assert forall w :: w in users <==> w == users[0] || w in users[1..];
      ReplaceMembers(users[1..], id, u, v);
    }
  }

  /** An account keeps its name for good, and its role until it is itself given another one: no login,
      creation or deletion changes anybody's role. */
  lemma AccountsKept(users: seq<User>, step: Step, u: User, v: User)
    requires Valid(users) && Fresh(users, step) && u in users && v in Apply(users, step) && u.id == v.id
    ensures v.username == u.username
    ensures v.role == if step.DoChangeRole? && step.id == u.id && OutcomeOf(users, step).Ok? then step.role else u.role
  {
    if v in users {
      UniqueById(users, u, v);
    }
    match step {
      case DoChangeRole(id, role) =>
        if ChangeRole(users, id, role).Ok? {
          RewrittenAccount(users, FindId(users, id).value, FindId(users, id).value.(role := role), u, v);
        }
      case DoDelete(id) =>
        if Delete(users, id).Ok? {
          ReplaceMembers(users, id, u, v);
        }
      case DoLogin(_, login) =>
        if Existing(users, login).Some? {
          RewrittenAccount(users, Existing(users, login).value, Refreshed(Existing(users, login).value, login), u, v);
        }
      case _ =>
    }
  }

  lemma RewrittenAccount(users: seq<User>, found: User, updated: User, u: User, v: User)
    requires AllDiffer(users) && found in users && updated.id == found.id
    requires u in users && v in Replace(users, found.id, updated) && u.id == v.id
    ensures if u.id == found.id then u == found && v == updated else v == u
  {
    ReplaceMembers(users, found.id, updated, v);
    if u.id == found.id {
      UniqueById(users, u, found);
    } else {
      UniqueById(users, u, v);
    }
  }

  /** A link survives a step exactly when the step is none of those that end it. */
  lemma LinkStep(users: seq<User>, step: Step, subject: string, u: User)
    requires Valid(users) && Fresh(users, step) && u in users && HasSubject(u, subject)
    ensures Linked(Apply(users, step), subject, u.id) <==> !Unlinks(users, step, subject, u.id)
  {
    StepValid(users, step);
    var after := Apply(users, step);
    match step {
      case DoSetUp(_, _) =>
        assert u in after;
      case DoCreate(_, _, _) =>
        assert u in after;
      case DoChangeRole(id, role) =>
        if ChangeRole(users, id, role).Ok? {
          var f := FindId(users, id).value;
          ReplaceMembers(users, id, f.(role := role), u);
          ReplaceMembers(users, id, f.(role := role), f.(role := role));
          if id == u.id {
            UniqueById(users, f, u);
          }
        }
      case DoDelete(id) =>
        if Delete(users, id).Ok? {
          forall v | v in after ensures v in users && v.id != id {
            ReplaceMembers(users, id, u, v);
          }
          ReplaceMembers(users, id, u, u);
        }
      case DoLogin(id, login) =>
        if Existing(users, login).Some? {
          LinkLogin(users, id, login, subject, u);
        } else {
          assert u in after;
        }
    }
  }

  lemma LinkLogin(users: seq<User>, id: string, login: Login, subject: string, u: User)
    requires Valid(users) && u in users && HasSubject(u, subject) && Existing(users, login).Some?
    ensures Linked(Apply(users, DoLogin(id, login)), subject, u.id) <==>
        !Unlinks(users, DoLogin(id, login), subject, u.id)
  {
    var e := Existing(users, login).value;
    var r := Refreshed(e, login);
    var after := Apply(users, DoLogin(id, login));
    ReplaceMembers(users, r.id, r, u);
    ReplaceMembers(users, r.id, r, r);
    if e.id == u.id {
      UniqueById(users, e, u);
      forall v | v in after && v.id == u.id ensures v == r {
        ReplaceMembers(users, r.id, r, v);
      }
    }
  }

  /** The directory right after a login links its subject to the account it returned. */
  lemma LoginLinks(users: seq<User>, id: string, login: Login)
    requires Valid(users) && OidcLogin(users, id, login).Ok?
    ensures var o := OidcLogin(users, id, login); o.user in o.users && HasSubject(o.user, login.subject)
  {
    if Existing(users, login).Some? {
      LoginExisting(users, login);
    }
  }

  predicate NeverUnlinked(users: seq<User>, steps: seq<Step>, subject: string, id: string)
    decreases |steps|
  {
    steps == [] || (!Unlinks(users, steps[0], subject, id) &&
        NeverUnlinked(Apply(users, steps[0]), steps[1..], subject, id))
  }

  /** After a login, however long ago, the same subject logs into the same account and creates none,
      provided no step in between ended the link. */
  lemma {:induction false} LoginAgain(users: seq<User>, steps: seq<Step>, u: User, id: string, login: Login)
    requires Valid(users) && RunFresh(users, steps) && u in users && HasSubject(u, login.subject)
    requires NeverUnlinked(users, steps, login.subject, u.id)
    ensures var later := Run(users, steps);
      && OidcLogin(later, id, login).Ok? && OidcLogin(later, id, login).user.id == u.id
      && |OidcLogin(later, id, login).users| == |later|
    decreases |steps|
  {
    if steps == [] {
      var f := FindSubject(users, login.subject).value;
      UniqueBySubject(users, f, u, login.subject);
      var k := IndexOf(users, u);
      ReplaceUser(users, k, Refreshed(u, login));
    } else {
      StepValid(users, steps[0]);
      LinkStep(users, steps[0], login.subject, u);
      var next := Apply(users, steps[0]);
      var v :| v in next && v.id == u.id && HasSubject(v, login.subject);
      LoginAgain(next, steps[1..], v, id, login);
    }
  }
}
