/** Updates and rollbacks that overlap: other calls may make accesses between any two of one call's. What
    becomes of the stacked versions, and of the content saved under them. */
module DeploymentOverlap {
  import opened Collections
  import opened Deployments
  import opened DeploymentUndo
  import opened Wrappers

  function Run(s: Store, accesses: seq<Access>): Store
    decreases |accesses|
  {
    if accesses == [] then s else Run(Act(s, accesses[0]), accesses[1..])
  }

  lemma {:induction false} RunConcat(s: Store, x: seq<Access>, y: seq<Access>)
    ensures Run(s, x + y) == Run(Run(s, x), y)
    decreases |x|
  {
    if x == [] {
      assert x + y == y;
    } else {
      assert (x + y)[1..] == x[1..] + y;
      RunConcat(Act(s, x[0]), x[1..], y);
    }
  }

  lemma RunOne(s: Store, a: Access)
    ensures Run(s, [a]) == Act(s, a)
  {
    assert [a][1..] == [];
    assert Run(Act(s, a), []) == Act(s, a);
  }

  // ---------------------------------------------------------------- nothing in between

  function Nexts(call: nat, n: nat): seq<Access> {
    if n == 0 then [] else [Next(call)] + Nexts(call, n - 1)
  }

  lemma RunNext(s: Store, call: nat, n: nat)
    requires n > 0
    ensures Run(s, Nexts(call, n)) == Run(Act(s, Next(call)), Nexts(call, n - 1))
  {
    assert Nexts(call, n)[1..] == Nexts(call, n - 1);
  }

  lemma RunBegin(s: Store, begin: Access, call: nat, n: nat)
    ensures Run(s, [begin] + Nexts(call, n)) == Run(Act(s, begin), Nexts(call, n))
  {
    RunConcat(s, [begin], Nexts(call, n));
    RunOne(s, begin);
  }

  /** One call and no other. */
  function Alone(s: State, call: nat, c: Call): Store { Store(s, map[call := c]) }

  lemma AloneNext(s: State, call: nat, c: Call)
    ensures Act(Alone(s, call, c), Next(call)) ==
      match c.stage
      case ToRead =>
        if SourceFile(c) !in s.files then Store(s, map[])
        else Alone(s, call, c.(stage := Gathered(c, s.files[SourceFile(c)])))
      case ToSave(compose) =>
        Alone(s.(files := s.files[SavedAs(c.seen).composePath := compose]), call, c.(stage := Rendered(c, compose)))
      case ToWrite(content) =>
        Alone(s.(files := s.files[c.seen.composePath := content]), call, c.(stage := ToStore))
      case ToStore =>
        var found := Find(s.records, c.seen.id);
        Store(if found.None? then s else s.(records := Replace(s.records, c.seen.id, Stored(found.value, c))), map[])
  {
    forall next: Call ensures map[call := c][call := next] == map[call := next] {
    }
    assert map[call := c] - {call} == map[];
  }

  lemma {:induction false} Nothing(s: State, call: nat, n: nat)
    ensures Run(Store(s, map[]), Nexts(call, n)) == Store(s, map[])
  {
    if n > 0 {
      RunNext(Store(s, map[]), call, n);
      Nothing(s, call, n - 1);
    }
  }

  /** An update that nothing interrupts is the update of the atomic model. */
  lemma UninterruptedUpdate(s: State, d: Record, call: nat, template: Option<Template>, input: Variables)
    requires Valid(s) && Find(s.records, d.id) == Some(d)
    ensures Run(Store(s, map[]), [BeginUpdate(call, d.id, template, input)] + Nexts(call, 4)) ==
      Store(if Update(s, d.id, template, input).Ok? then Update(s, d.id, template, input).state else s, map[])
  {
    RunBegin(Store(s, map[]), BeginUpdate(call, d.id, template, input), call, 4);
    UpdateIs(s, d, template, input);
    var vars := NewVariables(template, d.variables + input);
    if vars.Some? {
      var c := Call(d, Render(vars.value, template.value.render(vars.value)), ToRead);
      UpdateProceeds(s, call, c);
      assert Stored(d, c) == Updated(d, vars.value);
    } else {
      Nothing(s, call, 4);
    }
  }

  lemma UpdateProceeds(s: State, call: nat, c: Call)
    requires c.plan.Render? && c.stage == ToRead
    requires Find(s.records, c.seen.id) == Some(c.seen) && c.seen.composePath in s.files
    ensures Run(Alone(s, call, c), Nexts(call, 4)) ==
      Store(State(Replace(s.records, c.seen.id, Stored(c.seen, c)), UpdatedFiles(c.seen, s.files, c.plan.content)),
          map[])
  {
    var d, compose := c.seen, s.files[c.seen.composePath];
    RunNext(Alone(s, call, c), call, 4);
    AloneNext(s, call, c);
    var c1 := c.(stage := ToSave(compose));
    RunNext(Alone(s, call, c1), call, 3);
    AloneNext(s, call, c1);
    var s2, c2 := s.(files := s.files[SavedAs(d).composePath := compose]), c.(stage := ToWrite(c.plan.content));
    RunNext(Alone(s2, call, c2), call, 2);
    AloneNext(s2, call, c2);
    var s3, c3 := s2.(files := UpdatedFiles(d, s.files, c.plan.content)), c.(stage := ToStore);
    RunNext(Alone(s3, call, c3), call, 1);
    AloneNext(s3, call, c3);
  }

  /** And so is a rollback. */
  lemma UninterruptedRollback(s: State, id: string, call: nat)
    ensures Run(Store(s, map[]), [BeginRollback(call, id)] + Nexts(call, 3)) ==
      Store(if Rollback(s, id).Ok? then Rollback(s, id).state else s, map[])
  {
    RunBegin(Store(s, map[]), BeginRollback(call, id), call, 3);
    var found := Find(s.records, id);
    if found.Some? && found.value.revisions != [] {
      RollbackProceeds(s, call, Call(found.value, Restore(found.value.revisions[|found.value.revisions| - 1]), ToRead));
    } else {
      Nothing(s, call, 3);
    }
  }

  lemma RollbackProceeds(s: State, call: nat, c: Call)
    requires c.plan.Restore? && c.stage == ToRead && Find(s.records, c.seen.id) == Some(c.seen)
    requires c.seen.revisions != [] && c.plan.revision == c.seen.revisions[|c.seen.revisions| - 1]
    ensures Run(Alone(s, call, c), Nexts(call, 3)) ==
      Store(if Rollback(s, c.seen.id).Ok? then Rollback(s, c.seen.id).state else s, map[])
  {
    RunNext(Alone(s, call, c), call, 3);
    AloneNext(s, call, c);
    if c.plan.revision.composePath in s.files {
      var compose := s.files[c.plan.revision.composePath];
      var c1 := c.(stage := ToWrite(compose));
      RunNext(Alone(s, call, c1), call, 2);
      AloneNext(s, call, c1);
      var s2, c2 := s.(files := s.files[c.seen.composePath := compose]), c.(stage := ToStore);
      RunNext(Alone(s2, call, c2), call, 1);
      AloneNext(s2, call, c2);
    } else {
      Nothing(s, call, 2);
    }
  }

  // ---------------------------------------------------------------- stacked versions

  /** The stacked versions are consecutive and end just below the current one. */
  predicate Consecutive(d: Record) {
    forall i :: 0 <= i < |d.revisions| ==> d.revisions[i].version + (|d.revisions| - i) == d.version
  }

  /** What a rollback has read was consecutive, and not empty. */
  predicate FromStack(c: Call) {
    c.plan.Restore? ==>
      && Consecutive(c.seen) && c.seen.revisions != []
      && c.plan.revision == c.seen.revisions[|c.seen.revisions| - 1]
  }

  /** The version was not changed since the call's read, or too little is stacked for it to matter. */
  predicate IsTimely(d: Record, c: Call) {
    d.version == c.seen.version || |d.revisions| <= if c.plan.Render? then 0 else 1
  }

  /** Storing keeps the versions consecutive if and only if it is timely. */
  lemma StoreKeeps(d: Record, c: Call)
    requires Consecutive(d) && |d.revisions| <= MAX_REVISIONS && FromStack(c)
    ensures Consecutive(Stored(d, c)) <==> IsTimely(d, c)
  {
    match c.plan
    case Render(_, _) => UpdateStoreKeeps(d, c);
    case Restore(_) => RollbackStoreKeeps(d, c);
  }

  lemma UpdateStoreKeeps(d: Record, c: Call)
    requires Consecutive(d) && |d.revisions| <= MAX_REVISIONS && c.plan.Render?
    ensures Consecutive(Stored(d, c)) <==> IsTimely(d, c)
  {
    var t := Stored(d, c);
    var all := d.revisions + [SavedAs(c.seen)];
    var drop := |all| - |t.revisions|;
    assert forall i :: 0 <= i < |t.revisions| ==> t.revisions[i] == all[i + drop];
    if d.revisions != [] {
      var i := |t.revisions| - 2;
      assert t.revisions[i] == d.revisions[|d.revisions| - 1];
    }
  }

  lemma RollbackStoreKeeps(d: Record, c: Call)
    requires Consecutive(d) && c.plan.Restore? && FromStack(c)
    ensures Consecutive(Stored(d, c)) <==> IsTimely(d, c)
  {
    var t := Stored(d, c);
    assert c.plan.revision.version + 1 == c.seen.version;
    if |d.revisions| > 1 {
      assert t.revisions[|t.revisions| - 1] == d.revisions[|d.revisions| - 2];
    }
  }

  predicate AllConsecutive(records: seq<Record>) {
    forall d <- records :: Consecutive(d) && |d.revisions| <= MAX_REVISIONS
  }

  predicate Orderly(s: Store) {
    AllConsecutive(s.state.records) && forall call <- s.calls :: FromStack(s.calls[call])
  }

  predicate Stores(s: Store, a: Access) { a.Next? && a.call in s.calls && s.calls[a.call].stage.ToStore? }

  /** An access that stores does so in time. */
  predicate TimelyAccess(s: Store, a: Access) {
    Stores(s, a) ==>
      var d := Find(s.state.records, s.calls[a.call].seen.id);
      d.Some? ==> IsTimely(d.value, s.calls[a.call])
  }

  predicate AllTimely(s: Store, accesses: seq<Access>)
    decreases |accesses|
  {
    accesses == [] || (TimelyAccess(s, accesses[0]) && AllTimely(Act(s, accesses[0]), accesses[1..]))
  }

  /** At every moment of the run. */
  predicate StayConsecutive(s: Store, accesses: seq<Access>)
    decreases |accesses|
  {
    AllConsecutive(s.state.records) && (accesses == [] || StayConsecutive(Act(s, accesses[0]), accesses[1..]))
  }

  lemma ReplacedConsecutive(records: seq<Record>, d: Record, e: Record)
    requires AllConsecutive(records) && d in records && e.id == d.id && |e.revisions| <= MAX_REVISIONS
    ensures AllConsecutive(Replace(records, d.id, e)) <==> Consecutive(e)
  {
    var i :| 0 <= i < |records| && records[i] == d;
    assert Replace(records, d.id, e)[i] == e;
  }

  lemma BeginOrderly(s: Store, a: Access)
    requires Orderly(s) && !Stores(s, a)
    ensures Orderly(Act(s, a)) && TimelyAccess(s, a)
  {
  }

  lemma StepOrderly(s: Store, a: Access)
    requires Orderly(s)
    ensures TimelyAccess(s, a) ==> Orderly(Act(s, a))
    ensures !TimelyAccess(s, a) ==> !AllConsecutive(Act(s, a).state.records)
  {
    if Stores(s, a) {
      var c := s.calls[a.call];
      var found := Find(s.state.records, c.seen.id);
      if found.Some? {
        StoreKeeps(found.value, c);
        ReplacedConsecutive(s.state.records, found.value, Stored(found.value, c));
      }
    } else {
      BeginOrderly(s, a);
    }
  }

  /** In any interleaving of updates and rollbacks the stacked versions stay consecutive at every moment if
      and only if every store is timely. */
  lemma {:induction false} OverlappedVersions(s: Store, accesses: seq<Access>)
    requires Orderly(s)
    ensures StayConsecutive(s, accesses) <==> AllTimely(s, accesses)
    decreases |accesses|
  {
    if accesses != [] {
      StepOrderly(s, accesses[0]);
      if TimelyAccess(s, accesses[0]) {
        OverlappedVersions(Act(s, accesses[0]), accesses[1..]);
      } else {
        assert !StayConsecutive(Act(s, accesses[0]), accesses[1..]);
      }
    }
  }

  // ---------------------------------------------------------------- saved content

  /** The file an access writes, and what it writes there. */
  function WrittenBy(s: Store, a: Access): Option<(string, string)> {
    if !a.Next? || a.call !in s.calls then None else
      var c := s.calls[a.call];
      match c.stage
      case ToSave(compose) => Some((SavedAs(c.seen).composePath, compose))
      case ToWrite(content) => Some((c.seen.composePath, content))
      case _ => None
  }

  predicate WritesTo(s: Store, a: Access, path: string) {
    WrittenBy(s, a).Some? && WrittenBy(s, a).value.0 == path
  }

  /** No access of the run writes the file. */
  predicate Untouched(s: Store, accesses: seq<Access>, path: string)
    decreases |accesses|
  {
    accesses == [] || (!WritesTo(s, accesses[0], path) && Untouched(Act(s, accesses[0]), accesses[1..], path))
  }

  /** Every write to the file brings something else. */
  predicate Differing(s: Store, accesses: seq<Access>, path: string, content: string)
    decreases |accesses|
  {
    accesses == [] || ((WritesTo(s, accesses[0], path) ==> WrittenBy(s, accesses[0]).value.1 != content) &&
        Differing(Act(s, accesses[0]), accesses[1..], path, content))
  }

  lemma ActFile(s: Store, a: Access, path: string)
    ensures var files, after := s.state.files, Act(s, a).state.files;
      if WritesTo(s, a, path) then path in after && after[path] == WrittenBy(s, a).value.1
      else (path in files <==> path in after) && (path in files ==> after[path] == files[path])
  {
  }

  lemma {:induction false} FileKept(s: Store, accesses: seq<Access>, path: string)
    requires Untouched(s, accesses, path)
    ensures var files, after := s.state.files, Run(s, accesses).state.files;
      (path in files <==> path in after) && (path in files ==> after[path] == files[path])
    decreases |accesses|
  {
    if accesses != [] {
      ActFile(s, accesses[0], path);
      FileKept(Act(s, accesses[0]), accesses[1..], path);
    }
  }

  lemma {:induction false} NeverBack(s: Store, accesses: seq<Access>, path: string, content: string)
    requires path in s.state.files && s.state.files[path] != content && Differing(s, accesses, path, content)
    ensures path in Run(s, accesses).state.files && Run(s, accesses).state.files[path] != content
    decreases |accesses|
  {
    if accesses != [] {
      ActFile(s, accesses[0], path);
      NeverBack(Act(s, accesses[0]), accesses[1..], path, content);
    }
  }

  /** When every write brings something else, a file has its content exactly until the first one. */
  lemma {:induction false} KeptIffUntouched(s: Store, accesses: seq<Access>, path: string)
    requires path in s.state.files && Differing(s, accesses, path, s.state.files[path])
    ensures path in Run(s, accesses).state.files
    ensures Run(s, accesses).state.files[path] == s.state.files[path] <==> Untouched(s, accesses, path)
    decreases |accesses|
  {
    if accesses != [] {
      ActFile(s, accesses[0], path);
      if WritesTo(s, accesses[0], path) {
        NeverBack(Act(s, accesses[0]), accesses[1..], path, s.state.files[path]);
      } else {
        KeptIffUntouched(Act(s, accesses[0]), accesses[1..], path);
      }
    }
  }

  predicate LeavesCall(accesses: seq<Access>, call: nat) {
    forall i :: 0 <= i < |accesses| ==> accesses[i].call != call
  }

  lemma {:induction false} CallWaits(s: Store, accesses: seq<Access>, call: nat)
    requires call in s.calls && LeavesCall(accesses, call)
    ensures call in Run(s, accesses).calls && Run(s, accesses).calls[call] == s.calls[call]
    decreases |accesses|
  {
    if accesses != [] {
      CallWaits(Act(s, accesses[0]), accesses[1..], call);
    }
  }

  /** The run of one save: `before` it reads, `between` its read and its write, and `after`. */
  function AroundSave(call: nat, before: seq<Access>, between: seq<Access>, after: seq<Access>): seq<Access> {
    before + ([Next(call)] + (between + ([Next(call)] + after)))
  }

  lemma RunAroundSave(s: Store, call: nat, before: seq<Access>, between: seq<Access>, after: seq<Access>)
    ensures Run(s, AroundSave(call, before, between, after)) ==
      Run(Act(Run(Act(Run(s, before), Next(call)), between), Next(call)), after)
  {
    var last := [Next(call)] + after;
    RunConcat(s, before, [Next(call)] + (between + last));
    var s1 := Run(s, before);
    RunConcat(s1, [Next(call)], between + last);
    RunOne(s1, Next(call));
    RunConcat(Act(s1, Next(call)), between, last);
    var s2 := Run(Act(s1, Next(call)), between);
    RunConcat(s2, [Next(call)], after);
    RunOne(s2, Next(call));
  }

  /** In any interleaving, the file of a version holds what the last call that saved to it had read. It is the
      content the version had when the run began if and only if no call wrote the compose file before that
      read. */
  lemma SavedContent(s: Store, call: nat, before: seq<Access>, between: seq<Access>, after: seq<Access>)
    requires var t := Run(s, before); call in t.calls && t.calls[call].plan.Render? && t.calls[call].stage == ToRead
    requires LeavesCall(between, call)
    requires var path := Run(s, before).calls[call].seen.composePath;
      path in s.state.files && Differing(s, before, path, s.state.files[path])
    requires Untouched(Act(Run(Act(Run(s, before), Next(call)), between), Next(call)), after,
        SavedAs(Run(s, before).calls[call].seen).composePath)
    ensures var d := Run(s, before).calls[call].seen;
      var files := Run(s, AroundSave(call, before, between, after)).state.files;
      && SavedAs(d).composePath in files
      && (files[SavedAs(d).composePath] == s.state.files[d.composePath] <==> Untouched(s, before, d.composePath))
  {
    var s1 := Run(s, before);
    var d := s1.calls[call].seen;
    KeptIffUntouched(s, before, d.composePath);
    var s2 := Act(s1, Next(call));
    CallWaits(s2, between, call);
    var s3 := Run(s2, between);
    var s4 := Act(s3, Next(call));
    assert s4.state.files[SavedAs(d).composePath] == s1.state.files[d.composePath];
    FileKept(s4, after, SavedAs(d).composePath);
    RunAroundSave(s, call, before, between, after);
  }

  // ---------------------------------------------------------------- two at a time

  predicate Goes(a: Access, x: nat, y: nat) { a.Next? && (a.call == x || a.call == y) }

  /** These two calls go on, in any order, and no other. */
  predicate Only(accesses: seq<Access>, x: nat, y: nat) {
    forall i :: 0 <= i < |accesses| ==> Goes(accesses[i], x, y)
  }

  /** The stage of a call; one that has stored is past them all. */
  function StageOf(s: Store, call: nat): Option<Stage> {
    if call in s.calls then Some(s.calls[call].stage) else None
  }

  /** Holding what it has read from the compose file, and not yet writing over it. */
  predicate Holds(s: Store, call: nat) {
    call in s.calls && (s.calls[call].stage.ToSave? || s.calls[call].stage.ToWrite?)
  }

  /** At some moment both calls hold what they have read. */
  predicate Meet(s: Store, accesses: seq<Access>, x: nat, y: nat)
    decreases |accesses|
  {
    (Holds(s, x) && Holds(s, y)) || (accesses != [] && Meet(Act(s, accesses[0]), accesses[1..], x, y))
  }

  /** The call updates `d`, if it has not stored yet. */
  predicate Updates(s: Store, call: nat, d: Record, variables: Variables, content: string) {
    call in s.calls ==>
      && s.calls[call] == Call(d, Render(variables, content), s.calls[call].stage)
      && (s.calls[call].stage.ToWrite? ==> s.calls[call].stage.content == content)
  }

  /** Two updates of the same record `d`, and nothing else. */
  datatype Pair = Pair(d: Record, compose: string, vx: Variables, cx: string, vy: Variables, cy: string)

  function Flip(p: Pair): Pair { Pair(p.d, p.compose, p.vy, p.cy, p.vx, p.cx) }

  predicate IsPair(s: Store, x: nat, y: nat, p: Pair) {
    && x != y && Updates(s, x, p.d, p.vx, p.cx) && Updates(s, y, p.d, p.vy, p.cy)
    && p.d.composePath in s.state.files && SavedAs(p.d).composePath != p.d.composePath
    && p.cx != p.compose && p.cy != p.compose
  }

  predicate Saved(s: Store, p: Pair, content: string) {
    SavedAs(p.d).composePath in s.state.files && s.state.files[SavedAs(p.d).composePath] == content
  }

  lemma PairStays(s: Store, x: nat, y: nat, p: Pair, a: Access)
    requires IsPair(s, x, y, p) && Goes(a, x, y)
    ensures IsPair(Act(s, a), x, y, p)
  {
  }

  /** Neither has written the compose file, and not both have read it. */
  predicate Apart(s: Store, x: nat, y: nat, p: Pair) {
    && p.d.composePath in s.state.files && s.state.files[p.d.composePath] == p.compose
    && (StageOf(s, x) == Some(ToRead) || StageOf(s, y) == Some(ToRead))
    && Unwritten(s, x, p) && Unwritten(s, y, p)
  }

  predicate Unwritten(s: Store, call: nat, p: Pair) {
    call in s.calls && !s.calls[call].stage.ToStore? &&
        (s.calls[call].stage.ToRead? || HasRead(s, call, p, p.compose))
  }

  /** Both have read the original content, and what has been saved is the original content. */
  predicate Met(s: Store, x: nat, y: nat, p: Pair) {
    && HasRead(s, x, p, p.compose) && HasRead(s, y, p, p.compose)
  }

  predicate HasRead(s: Store, call: nat, p: Pair, content: string) {
    && (call in s.calls ==> !s.calls[call].stage.ToRead?)
    && if Saving(s, call) then s.calls[call].stage.compose == content else Saved(s, p, content)
  }

  predicate Saving(s: Store, call: nat) { call in s.calls && s.calls[call].stage.ToSave? }

  /** `x` has written the compose file before `y` read it. */
  predicate Missed(s: Store, x: nat, y: nat, p: Pair) {
    && (x in s.calls ==> s.calls[x].stage.ToStore?)
    && p.d.composePath in s.state.files
    && if StageOf(s, y) == Some(ToRead) then s.state.files[p.d.composePath] == p.cx else HasRead(s, y, p, p.cx)
  }

  lemma MetStays(s: Store, x: nat, y: nat, p: Pair, a: Access)
    requires IsPair(s, x, y, p) && Met(s, x, y, p) && Goes(a, x, y)
    ensures Met(Act(s, a), x, y, p)
  {
  }

  lemma MissedStays(s: Store, x: nat, y: nat, p: Pair, a: Access)
    requires IsPair(s, x, y, p) && Missed(s, x, y, p) && Goes(a, x, y)
    ensures Missed(Act(s, a), x, y, p)
  {
  }

  lemma ApartStep(s: Store, x: nat, y: nat, p: Pair, a: Access)
    requires IsPair(s, x, y, p) && Apart(s, x, y, p) && Goes(a, x, y)
    ensures var t := Act(s, a);
      Apart(t, x, y, p) || (Met(t, x, y, p) && Holds(t, x) && Holds(t, y)) || Missed(t, x, y, p) ||
      Missed(t, y, x, Flip(p))
  {
  }

  lemma {:induction false} MetEnds(s: Store, accesses: seq<Access>, x: nat, y: nat, p: Pair)
    requires IsPair(s, x, y, p) && Met(s, x, y, p) && Only(accesses, x, y)
    ensures IsPair(Run(s, accesses), x, y, p) && Met(Run(s, accesses), x, y, p)
    decreases |accesses|
  {
    if accesses != [] {
      PairStays(s, x, y, p, accesses[0]);
      MetStays(s, x, y, p, accesses[0]);
      MetEnds(Act(s, accesses[0]), accesses[1..], x, y, p);
    }
  }

  lemma {:induction false} MissedEnds(s: Store, accesses: seq<Access>, x: nat, y: nat, p: Pair)
    requires IsPair(s, x, y, p) && Missed(s, x, y, p) && Only(accesses, x, y)
    ensures IsPair(Run(s, accesses), x, y, p) && Missed(Run(s, accesses), x, y, p)
    ensures !Meet(s, accesses, x, y) && !Meet(s, accesses, y, x)
    decreases |accesses|
  {
    if accesses != [] {
      PairStays(s, x, y, p, accesses[0]);
      MissedStays(s, x, y, p, accesses[0]);
      MissedEnds(Act(s, accesses[0]), accesses[1..], x, y, p);
    }
  }
  lemma {:induction false} ApartEnds(s: Store, accesses: seq<Access>, x: nat, y: nat, p: Pair)
    requires IsPair(s, x, y, p) && Apart(s, x, y, p) && Only(accesses, x, y)
    requires x !in Run(s, accesses).calls && y !in Run(s, accesses).calls
    ensures SavedAs(p.d).composePath in Run(s, accesses).state.files
    ensures Saved(Run(s, accesses), p, p.compose) <==> Meet(s, accesses, x, y)
    decreases |accesses|
  {
    if accesses != [] {
      var t, rest := Act(s, accesses[0]), accesses[1..];
      PairStays(s, x, y, p, accesses[0]);
      ApartStep(s, x, y, p, accesses[0]);
      if Apart(t, x, y, p) {
        ApartEnds(t, rest, x, y, p);
      } else if Met(t, x, y, p) {
        MetEnds(t, rest, x, y, p);
      } else if Missed(t, x, y, p) {
        MissedEnds(t, rest, x, y, p);
      } else {
        MissedEnds(t, rest, y, x, Flip(p));
      }
    }
  }

  /** How many of the two calls have stored. */
  function Gone(s: Store, x: nat, y: nat): nat {
    (if x in s.calls then 0 else 1) + if y in s.calls then 0 else 1
  }

  function Copies(r: Revision, n: nat): seq<Revision> { seq(n, _ => r) }

  /** As many copies of the version read are stacked as calls have stored. */
  predicate Stacked(s: Store, p: Pair, n: nat) {
    var found := Find(s.state.records, p.d.id);
    && found.Some? && found.value.version == (if n == 0 then p.d.version else p.d.version + 1)
    && found.value.revisions == Last(p.d.revisions + Copies(SavedAs(p.d), n), MAX_REVISIONS)
  }

  lemma LastTwice(r: seq<Revision>, x: Revision, n: nat)
    ensures Last(Last(r + Copies(x, n), MAX_REVISIONS) + [x], MAX_REVISIONS) ==
      Last(r + Copies(x, n + 1), MAX_REVISIONS)
  {
    assert r + Copies(x, n + 1) == (r + Copies(x, n)) + [x];
  }

  lemma StoredAgain(e: Record, p: Pair, c: Call, n: nat)
    requires c.seen == p.d && c.plan.Render?
    requires e.revisions == Last(p.d.revisions + Copies(SavedAs(p.d), n), MAX_REVISIONS)
    ensures Stored(e, c).version == p.d.version + 1
    ensures Stored(e, c).revisions == Last(p.d.revisions + Copies(SavedAs(p.d), n + 1), MAX_REVISIONS)
  {
    LastTwice(p.d.revisions, SavedAs(p.d), n);
  }

  lemma StackedStore(s: Store, p: Pair, call: nat, n: nat)
    requires Stacked(s, p, n) && call in s.calls && s.calls[call].stage.ToStore?
    requires s.calls[call].seen == p.d && s.calls[call].plan.Render?
    ensures Stacked(Act(s, Next(call)), p, n + 1)
  {
    var e, c := Find(s.state.records, p.d.id).value, s.calls[call];
    StoredAgain(e, p, c, n);
    ReplacedFound(s.state.records, p.d.id, Stored(e, c));
  }

  lemma GoneStep(s: Store, x: nat, y: nat, a: Access)
    requires x != y && Goes(a, x, y) && (a.call in s.calls && s.calls[a.call].stage.ToRead? ==>
      SourceFile(s.calls[a.call]) in s.state.files)
    ensures Gone(Act(s, a), x, y) == Gone(s, x, y) + if Stores(s, a) then 1 else 0
    ensures !Stores(s, a) ==> Act(s, a).state.records == s.state.records
  {
  }

  lemma StackedSame(s: Store, t: Store, p: Pair, n: nat)
    requires Stacked(s, p, n) && t.state.records == s.state.records
    ensures Stacked(t, p, n)
  {
  }

  lemma {:induction false} StackedEnds(s: Store, accesses: seq<Access>, x: nat, y: nat, p: Pair)
    requires IsPair(s, x, y, p) && Only(accesses, x, y) && Stacked(s, p, Gone(s, x, y))
    ensures Stacked(Run(s, accesses), p, Gone(Run(s, accesses), x, y))
    decreases |accesses|
  {
    if accesses != [] {
      PairStays(s, x, y, p, accesses[0]);
      GoneStep(s, x, y, accesses[0]);
      if Stores(s, accesses[0]) {
        StackedStore(s, p, accesses[0].call, Gone(s, x, y));
      } else {
        StackedSame(s, Act(s, accesses[0]), p, Gone(s, x, y));
      }
      StackedEnds(Act(s, accesses[0]), accesses[1..], x, y, p);
    }
  }

  /** Two updates that have both read the record before either goes on, in any interleaving up to their ends:
      the version they read is stacked twice, under one file, and that file holds its content if and only
      if at some moment both had read the compose file and neither had written it. */
  lemma TwoUpdates(s: Store, accesses: seq<Access>, x: nat, y: nat, p: Pair)
    requires IsPair(s, x, y, p) && StageOf(s, x) == StageOf(s, y) == Some(ToRead) && Only(accesses, x, y)
    requires Find(s.state.records, p.d.id) == Some(p.d) && |p.d.revisions| <= MAX_REVISIONS
    requires s.state.files[p.d.composePath] == p.compose
    requires x !in Run(s, accesses).calls && y !in Run(s, accesses).calls
    ensures var t := Run(s, accesses).state;
      && Find(t.records, p.d.id).Some?
      && var e := Find(t.records, p.d.id).value;
         e.version == p.d.version + 1
         && e.revisions == Last(p.d.revisions + [SavedAs(p.d), SavedAs(p.d)], MAX_REVISIONS)
         && SavedAs(p.d).composePath in t.files
         && (t.files[SavedAs(p.d).composePath] == p.compose <==> Meet(s, accesses, x, y))
  {
    ApartEnds(s, accesses, x, y, p);
    assert p.d.revisions + Copies(SavedAs(p.d), 0) == p.d.revisions;
    StackedEnds(s, accesses, x, y, p);
    assert Copies(SavedAs(p.d), 2) == [SavedAs(p.d), SavedAs(p.d)];
  }

  // ---------------------------------------------------------------- two rollbacks

  predicate GoesBack(s: Store, call: nat, d: Record, revision: Revision, compose: string) {
    if call !in s.calls then HasCompose(s, d, compose) else
      && s.calls[call] == Call(d, Restore(revision), s.calls[call].stage)
      && match s.calls[call].stage
         case ToRead => true
         case ToSave(_) => false
         case ToWrite(content) => content == compose
         case ToStore => HasCompose(s, d, compose)
  }

  predicate HasCompose(s: Store, d: Record, compose: string) {
    d.composePath in s.state.files && s.state.files[d.composePath] == compose
  }

  /** Two rollbacks of the same record, and nothing else. */
  predicate IsRollbackPair(s: Store, x: nat, y: nat, d: Record, compose: string) {
    && x != y && d.revisions != []
    && var revision := d.revisions[|d.revisions| - 1];
       && revision.composePath != d.composePath
       && revision.composePath in s.state.files && s.state.files[revision.composePath] == compose
       && GoesBack(s, x, d, revision, compose) && GoesBack(s, y, d, revision, compose)
  }

  /** As many revisions are gone as calls have stored. */
  predicate Popped(s: Store, d: Record, n: nat)
    requires d.revisions != []
  {
    var found := Find(s.state.records, d.id);
    && found.Some?
    && found.value.version == (if n == 0 then d.version else d.revisions[|d.revisions| - 1].version)
    && found.value.revisions == if n <= |d.revisions| then d.revisions[..|d.revisions| - n] else []
  }

  lemma PoppedOnce(e: Record, d: Record, c: Call, n: nat)
    requires d.revisions != [] && c.plan == Restore(d.revisions[|d.revisions| - 1])
    requires e.revisions == if n <= |d.revisions| then d.revisions[..|d.revisions| - n] else []
    ensures Stored(e, c).version == d.revisions[|d.revisions| - 1].version
    ensures Stored(e, c).revisions == if n + 1 <= |d.revisions| then d.revisions[..|d.revisions| - n - 1] else []
  {
  }

  lemma PoppedStore(s: Store, d: Record, call: nat, n: nat)
    requires d.revisions != [] && Popped(s, d, n) && call in s.calls && s.calls[call].stage.ToStore?
    requires s.calls[call].seen == d && s.calls[call].plan == Restore(d.revisions[|d.revisions| - 1])
    ensures Popped(Act(s, Next(call)), d, n + 1)
  {
    var e, c := Find(s.state.records, d.id).value, s.calls[call];
    PoppedOnce(e, d, c, n);
    ReplacedFound(s.state.records, d.id, Stored(e, c));
  }

  lemma RollbackStep(s: Store, x: nat, y: nat, d: Record, compose: string, a: Access)
    requires IsRollbackPair(s, x, y, d, compose) && Goes(a, x, y)
    ensures IsRollbackPair(Act(s, a), x, y, d, compose)
  {
  }

  lemma {:induction false} RollbacksEnd(s: Store, accesses: seq<Access>, x: nat, y: nat, d: Record, compose: string)
    requires IsRollbackPair(s, x, y, d, compose) && Only(accesses, x, y) && Popped(s, d, Gone(s, x, y))
    ensures var t := Run(s, accesses); IsRollbackPair(t, x, y, d, compose) && Popped(t, d, Gone(t, x, y))
    decreases |accesses|
  {
    if accesses != [] {
      var a := accesses[0];
      RollbackStep(s, x, y, d, compose, a);
      GoneStep(s, x, y, a);
      if Stores(s, a) {
        PoppedStore(s, d, a.call, Gone(s, x, y));
      }
      RollbacksEnd(Act(s, accesses[0]), accesses[1..], x, y, d, compose);
    }
  }

  /** Two rollbacks that have both read the record before either goes on, in any interleaving up to their ends:
      both go back to the same revision and two are taken off, which leaves the versions consecutive if and
      only if at most two were stacked. */
  lemma TwoRollbacks(s: Store, accesses: seq<Access>, x: nat, y: nat, d: Record, compose: string)
    requires IsRollbackPair(s, x, y, d, compose) && StageOf(s, x) == StageOf(s, y) == Some(ToRead)
    requires Only(accesses, x, y) && Find(s.state.records, d.id) == Some(d) && Consecutive(d)
    requires x !in Run(s, accesses).calls && y !in Run(s, accesses).calls
    ensures var t, n := Run(s, accesses).state, |d.revisions|;
      && Find(t.records, d.id).Some?
      && var e := Find(t.records, d.id).value;
         e.version == d.version - 1 && e.revisions == (if n == 1 then [] else d.revisions[..n - 2])
         && (Consecutive(e) <==> n <= 2)
         && d.composePath in t.files && t.files[d.composePath] == compose
  {
    RollbacksEnd(s, accesses, x, y, d, compose);
    var n := |d.revisions|;
    if n > 2 {
      assert d.revisions[..n - 2][n - 3].version + 3 == d.version;
    }
  }
}
