/** Password logins among the other operations on the user directory. A login reads the directory, awaits
    the password check, and then writes back all that it read. */
module PasswordLogins {
  import opened Users

  predicate Allowed(s: State, a: Action) { a.Other? ==> Fresh(s.users, a.step) }

  function RunAll(s: State, actions: seq<Action>): State
    decreases |actions|
  {
    if actions == [] then s else RunAll(Act(s, actions[0]), actions[1..])
  }

  predicate AllAllowed(s: State, actions: seq<Action>)
    decreases |actions|
  {
    actions == [] || (Allowed(s, actions[0]) && AllAllowed(Act(s, actions[0]), actions[1..]))
  }

  predicate ValidState(s: State) { Valid(s.users) && forall call <- s.logins :: Valid(s.logins[call]) }

  /** Whatever overlaps, after setup names and subjects stay unique and an owner stays: a login brings back
      an earlier directory, and that had them too. */
  lemma {:induction false} RunKeeps(s: State, actions: seq<Action>)
    requires ValidState(s) && AllAllowed(s, actions)
    ensures ValidState(RunAll(s, actions))
    decreases |actions|
  {
    if actions != [] {
      if actions[0].Other? {
        StepValid(s.users, actions[0].step);
      }
      RunKeeps(Act(s, actions[0]), actions[1..]);
    }
  }

  /** In particular from setup on. */
  lemma EveryRun(id: string, username: string, actions: seq<Action>)
    requires AllAllowed(State(Apply([], DoSetUp(id, username)), map[]), actions)
    ensures Valid(RunAll(State(Apply([], DoSetUp(id, username)), map[]), actions).users)
  {
    SetUpStarts([], id, username);
    RunKeeps(State(Apply([], DoSetUp(id, username)), map[]), actions);
  }

  /** A login of an unknown name ends at once, and one that fails its password check changes no account and
      waits no longer. */
  lemma LoginFails(s: State, call: nat, username: string)
    ensures (forall u <- s.users :: u.username != username) ==> Act(s, Start(call, username)) == s
    ensures var t := Act(s, Finish(call, false)); t.users == s.users && t.logins == s.logins - {call}
  {
    if call !in s.logins {
      assert s.logins - {call} == s.logins;
    }
  }

  predicate Leaves(actions: seq<Action>, call: nat) {
    forall a <- actions :: !a.Other? ==> a.call != call
  }

  lemma {:induction false} StillWaits(s: State, actions: seq<Action>, call: nat)
    requires call in s.logins && Leaves(actions, call)
    ensures call in RunAll(s, actions).logins && RunAll(s, actions).logins[call] == s.logins[call]
    decreases |actions|
  {
    if actions != [] {
      assert actions[0] in actions && forall a <- actions[1..] :: a in actions;
      StillWaits(Act(s, actions[0]), actions[1..], call);
    }
  }

  lemma {:induction false} RunConcat(s: State, x: seq<Action>, y: seq<Action>)
    ensures RunAll(s, x + y) == RunAll(RunAll(s, x), y)
    decreases |x|
  {
    if x == [] {
      assert x + y == y;
    } else {
      assert (x + y)[1..] == x[1..] + y;
      RunConcat(Act(s, x[0]), x[1..], y);
    }
  }

  /** A successful login undoes everything done to the directory while it checked the password. */
  lemma LoginRestores(s: State, call: nat, username: string, actions: seq<Action>)
    requires Taken(s.users, username) && Leaves(actions, call)
    ensures RunAll(s, [Start(call, username)] + actions + [Finish(call, true)]).users == s.users
  {
    var first, last := [Start(call, username)], [Finish(call, true)];
    RunConcat(s, first + actions, last);
    RunConcat(s, first, actions);
    assert RunAll(s, first) == Act(s, first[0]);
    StillWaits(Act(s, first[0]), actions, call);
  }

  /** So an account deleted meanwhile is back, and a role taken away meanwhile is held again. */
  lemma LoginRevives(s: State, call: nat, username: string, u: User, step: Step)
    requires Valid(s.users) && Taken(s.users, username) && u in s.users
    requires step == DoDelete(u.id) || (step.DoChangeRole? && step.id == u.id && step.role != u.role)
    requires OutcomeOf(s.users, step).Ok?
    ensures u !in Act(s, Other(step)).users
    ensures u in RunAll(s, [Start(call, username)] + [Other(step)] + [Finish(call, true)]).users
  {
    LoginRestores(s, call, username, [Other(step)]);
    if u in Act(s, Other(step)).users {
      if step.DoDelete? {
        ReplaceMembers(s.users, u.id, u, u);
      } else {
        AccountsKept(s.users, step, u, u);
      }
    }
  }
}
