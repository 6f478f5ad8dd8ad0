/** When overlapping is harmless: if no two calls for the same deployment overlap, then every run acts on each
    deployment like the undo stack, however calls for different deployments are interleaved. */
module DeploymentLocks {
  import opened Deployments
  import opened DeploymentUndo
  import opened DeploymentOverlap
  import opened Wrappers

  predicate Busy(s: Store, id: string) { exists call <- s.calls :: s.calls[call].seen.id == id }

  /** A call begins under a number of its own, when no other call for its deployment is in progress. */
  predicate Locked(s: Store, a: Access) { !a.Next? ==> a.call !in s.calls && !Busy(s, a.id) }

  predicate AllLocked(s: Store, accesses: seq<Access>)
    decreases |accesses|
  {
    accesses == [] || (Locked(s, accesses[0]) && AllLocked(Act(s, accesses[0]), accesses[1..]))
  }

  /** The operations of a run, in the order in which their calls begin. */
  function OpsOf(accesses: seq<Access>): seq<Op> {
    if accesses == [] then [] else
      (match accesses[0]
       case BeginUpdate(_, id, template, input) => [DoUpdate(id, template, input)]
       case BeginRollback(_, id) => [DoRollback(id)]
       case Next(_) => []) + OpsOf(accesses[1..])
  }

  // ---------------------------------------------------------------- a call in progress

  function SavedFile(d: Record): string { SavedAs(d).composePath }

  predicate HasFile(files: map<string, string>, path: string, content: string) {
    path in files && files[path] == content
  }

  /** What an update has done so far: until it stores, the version it will push is saved or still running. */
  predicate GoodRender(files: map<string, string>, d: Record, content: string, stage: Stage)
    requires d.composePath in files
  {
    match stage
    case ToRead => true
    case ToSave(compose) => files[d.composePath] == compose
    case ToWrite(rendered) => rendered == content && HasFile(files, SavedFile(d), files[d.composePath])
    case ToStore => SavedFile(d) in files && files[d.composePath] == content
  }

  predicate GoodRestore(files: map<string, string>, d: Record, revision: Revision, stage: Stage)
    requires d.composePath in files
  {
    match stage
    case ToRead => true
    case ToSave(_) => false
    case ToWrite(content) => HasFile(files, revision.composePath, content)
    case ToStore => HasFile(files, revision.composePath, files[d.composePath])
  }

  /** The record is still the one the call has read, and the files are as far as the call has come. */
  predicate GoodCall(s: State, c: Call) {
    && Find(s.records, c.seen.id) == Some(c.seen) && GoodRecord(c.seen, s.files)
    && match c.plan
       case Render(_, content) => GoodRender(s.files, c.seen, content, c.stage)
       case Restore(revision) =>
         && c.seen.revisions != [] && revision == c.seen.revisions[|c.seen.revisions| - 1]
         && GoodRestore(s.files, c.seen, revision, c.stage)
  }

  predicate Good(s: Store) {
    && Valid(s.state) && (forall call <- s.calls :: GoodCall(s.state, s.calls[call]))
    && forall x, y :: x in s.calls && y in s.calls && x != y ==> s.calls[x].seen.id != s.calls[y].seen.id
  }

  /** The content of the version that an update will push. */
  function Replaced(files: map<string, string>, c: Call): string
    requires c.seen.composePath in files && (c.stage.ToStore? ==> SavedFile(c.seen) in files)
  {
    if c.stage.ToStore? then files[SavedFile(c.seen)] else files[c.seen.composePath]
  }

  /** The stack that the deployment will show when the call is through. */
  function Promised(s: State, c: Call): Stack
    requires GoodCall(s, c)
  {
    match c.plan
    case Render(variables, content) =>
      var shown := View(c.seen, s.files);
      Push(shown.(current := shown.current.(content := Replaced(s.files, c))),
          Level(c.seen.version + 1, variables, content))
    case Restore(_) => Pop(View(c.seen, s.files))
  }

  /** The deployment shows this stack, or will when the call in progress for it is through. */
  predicate Promises(s: Store, id: string, stack: Stack)
    requires Good(s)
  {
    && Find(s.state.records, id).Some?
    && (forall call <- s.calls :: s.calls[call].seen.id == id ==> Promised(s.state, s.calls[call]) == stack)
    && (!Busy(s, id) ==> View(Find(s.state.records, id).value, s.state.files) == stack)
  }

  // ---------------------------------------------------------------- calls for other deployments

  /** Nothing the deployment has, or its next save would write, differs. */
  predicate SameFor(e: Record, s: State, t: State) {
    && Find(s.records, e.id) == Find(t.records, e.id) == Some(e)
    && GoodRecord(e, s.files) && GoodRecord(e, t.files) && View(e, t.files) == View(e, s.files)
    && (SavedFile(e) in s.files <==> SavedFile(e) in t.files)
    && (SavedFile(e) in s.files ==> s.files[SavedFile(e)] == t.files[SavedFile(e)])
  }

  lemma CallSame(s: State, t: State, c: Call)
    requires SameFor(c.seen, s, t) && GoodCall(s, c)
    ensures GoodCall(t, c) && Promised(t, c) == Promised(s, c)
  {
    var d := c.seen;
    assert View(d, s.files).current.content == View(d, t.files).current.content;
    if c.plan.Restore? {
      var n := |d.revisions| - 1;
      assert GoodRevision(d, n, s.files) && GoodRevision(d, n, t.files);
      assert View(d, s.files).undo[n] == View(d, t.files).undo[n];
    }
  }

  /** What a call for `d` writes is in the directory of `d`. */
  lemma OthersSame(s: State, d: Record, e: Record, backup: string, content: string)
    requires Valid(s) && d in s.records && e in s.records && d.id != e.id
    ensures SameFor(e, s, s.(files := s.files[SavedFile(d) := backup]))
    ensures SameFor(e, s, s.(files := s.files[d.composePath := content]))
  {
    var files := s.files;
    FindUnique(s, e);
    SameId(s, d, e);
    OtherUntouched(d, e, d.version, files, backup, files[d.composePath]);
    OtherUntouched(d, e, d.version, files, backup, content);
    RevisionFile(d, e, d.version, e.version);
    RevisionFile(e, d, e.version, d.version);
    assert SavedFile(d) != d.composePath;
    assert files[SavedFile(d) := backup][d.composePath := files[d.composePath]] == files[SavedFile(d) := backup];
  }

  // ---------------------------------------------------------------- one access

  /** A save or write of a call leaves the deployment's record good, and changes its view as far as it must. */
  lemma OwnSame(d: Record, files: map<string, string>, content: string)
    requires GoodRecord(d, files)
    ensures SavedFile(d) != d.composePath
    ensures var saved := files[SavedFile(d) := content]; GoodRecord(d, saved) && View(d, saved) == View(d, files)
    ensures var written := files[d.composePath := content];
      GoodRecord(d, written) && View(d, written) == View(d, files).(current := Level(d.version, d.variables, content))
  {
    var saved, written := files[SavedFile(d) := content], files[d.composePath := content];
    RevisionFile(d, d, d.version, d.version);
    forall i | 0 <= i < |d.revisions|
      ensures d.revisions[i].composePath in files
      ensures GoodRevision(d, i, saved) && saved[d.revisions[i].composePath] == files[d.revisions[i].composePath]
      ensures GoodRevision(d, i, written) && written[d.revisions[i].composePath] == files[d.revisions[i].composePath]
    {
      assert GoodRevision(d, i, files);
      RevisionFile(d, d, d.version, d.revisions[i].version);
    }
    assert View(d, saved).undo == View(d, files).undo;
    assert View(d, written).undo == View(d, files).undo;
  }

  /** Files changed in the directory of `d` only. */
  predicate OnlyFor(s: State, t: State, d: Record) {
    forall e <- s.records :: e.id != d.id ==> SameFor(e, s, t)
  }

  lemma FileValid(s: State, t: State, d: Record)
    requires Valid(s) && d in s.records && t.records == s.records && GoodRecord(d, t.files) && OnlyFor(s, t, d)
    ensures Valid(t)
  {
    forall e | e in t.records ensures GoodRecord(e, t.files) {
      SameId(s, d, e);
    }
  }

  lemma RecordOf(s: State, c: Call)
    requires Valid(s) && GoodCall(s, c)
    ensures c.seen in s.records
    ensures c.plan.Restore? ==> c.plan.revision.composePath in s.files
  {
    if c.plan.Restore? {
      assert GoodRevision(c.seen, |c.seen.revisions| - 1, s.files);
    }
  }

  /** An access other than the store brings a call on and promises the same. */
  lemma OwnAccess(s: State, c: Call)
    requires Valid(s) && GoodCall(s, c) && !c.stage.ToStore? && SourceFile(c) in s.files
    ensures var (t, next) := Accessed(s, c);
      t.records == s.records && GoodRecord(c.seen, t.files) && GoodCall(t, next) && Promised(t, next) == Promised(s, c)
  {
    match c.stage
    case ToRead =>
    case ToSave(compose) => OwnSame(c.seen, s.files, compose);
    case ToWrite(content) => OwnWrite(s, c, content);
  }

  lemma OwnWrite(s: State, c: Call, content: string)
    requires Valid(s) && GoodCall(s, c) && c.stage == ToWrite(content)
    ensures var (t, next) := Accessed(s, c);
      t.records == s.records && GoodRecord(c.seen, t.files) && GoodCall(t, next) && Promised(t, next) == Promised(s, c)
  {
    OwnSame(c.seen, s.files, content);
    if c.plan.Restore? {
      var n := |c.seen.revisions| - 1;
      assert GoodRevision(c.seen, n, s.files);
      RevisionFile(c.seen, c.seen, 0, c.seen.revisions[n].version);
    }
  }

  /** The state and the call after an access that is not the store. */
  function Accessed(s: State, c: Call): (State, Call)
    requires !c.stage.ToStore? && SourceFile(c) in s.files
  {
    match c.stage
    case ToRead => (s, c.(stage := Gathered(c, s.files[SourceFile(c)])))
    case ToSave(compose) => (s.(files := s.files[SavedFile(c.seen) := compose]), c.(stage := Rendered(c, compose)))
    case ToWrite(content) => (s.(files := s.files[c.seen.composePath := content]), c.(stage := ToStore))
  }

  lemma OthersAccess(s: State, c: Call)
    requires Valid(s) && GoodCall(s, c) && !c.stage.ToStore? && SourceFile(c) in s.files
    ensures OnlyFor(s, Accessed(s, c).0, c.seen)
  {
    RecordOf(s, c);
    forall e | e in s.records && e.id != c.seen.id ensures SameFor(e, s, Accessed(s, c).0) {
      match c.stage
      case ToRead => FindUnique(s, e);
      case ToSave(compose) => OthersSame(s, c.seen, e, compose, "");
      case ToWrite(content) => OthersSame(s, c.seen, e, "", content);
    }
  }

  /** The store of a call makes the deployment show what the call promised. */
  lemma OwnStore(s: State, c: Call)
    requires Valid(s) && GoodCall(s, c) && c.stage.ToStore?
    ensures var t := s.(records := Replace(s.records, c.seen.id, Stored(c.seen, c)));
      Valid(t) && OthersKept(s, t, c.seen.id) && Shows(t, c.seen.id, Promised(s, c))
  {
    match c.plan
    case Render(_, _) => RenderStore(s, c);
    case Restore(_) => RestoreStore(s, c);
  }

  lemma RestoreStore(s: State, c: Call)
    requires Valid(s) && GoodCall(s, c) && c.stage.ToStore? && c.plan.Restore?
    ensures var t := s.(records := Replace(s.records, c.seen.id, Stored(c.seen, c)));
      Valid(t) && OthersKept(s, t, c.seen.id) && Shows(t, c.seen.id, Promised(s, c))
  {
    RollbackPops(s, c.seen.id);
    var d := c.seen;
    assert s.files[d.composePath := s.files[c.plan.revision.composePath]] == s.files;
    assert Rollback(s, d.id).Ok?;
  }

  /** The state as if the compose file had not been written yet. */
  function Rewound(s: State, c: Call): State
    requires GoodCall(s, c) && c.plan.Render?
  {
    s.(files := s.files[c.seen.composePath := Replaced(s.files, c)])
  }

  lemma RewoundValid(s: State, c: Call)
    requires Valid(s) && GoodCall(s, c) && c.plan.Render?
    ensures Valid(Rewound(s, c))
    ensures var shown := View(c.seen, s.files);
      View(c.seen, Rewound(s, c).files) == shown.(current := shown.current.(content := Replaced(s.files, c)))
  {
    var d := c.seen;
    RecordOf(s, c);
    OwnSame(d, s.files, Replaced(s.files, c));
    forall e | e in s.records && e.id != d.id ensures SameFor(e, s, Rewound(s, c)) {
      OthersSame(s, d, e, "", Replaced(s.files, c));
    }
    FileValid(s, Rewound(s, c), d);
  }

  lemma RewoundFiles(s: State, c: Call)
    requires GoodCall(s, c) && c.stage.ToStore? && c.plan.Render?
    ensures UpdatedFiles(c.seen, Rewound(s, c).files, c.plan.content) == s.files
  {
    OwnSame(c.seen, s.files, "");
  }

  lemma RenderStore(s: State, c: Call)
    requires Valid(s) && GoodCall(s, c) && c.stage.ToStore? && c.plan.Render?
    ensures var t := s.(records := Replace(s.records, c.seen.id, Stored(c.seen, c)));
      Valid(t) && OthersKept(s, t, c.seen.id) && Shows(t, c.seen.id, Promised(s, c))
  {
    var d := c.seen;
    var s0, t := Rewound(s, c), s.(records := Replace(s.records, d.id, Stored(d, c)));
    RecordOf(s, c);
    RewoundValid(s, c);
    RewoundFiles(s, c);
    assert Stored(d, c) == Updated(d, c.plan.variables);
    UpdatedState(s0, d, c.plan.variables, c.plan.content);
    StoredKept(s, s0, t, d.id);
  }

  lemma StoredKept(s: State, s0: State, t: State, id: string)
    requires Valid(s) && Valid(s0) && Valid(t) && s0.records == s.records && t.files == s.files
    requires OthersKept(s0, t, id)
    ensures OthersKept(s, t, id)
  {
  }

  // ---------------------------------------------------------------- one step

  /** The stack a deployment shows or has been promised, after an access. */
  function OnAccess(stack: Stack, a: Access, id: string): Stack {
    match a
    case BeginUpdate(_, i, template, input) => OnStack(stack, DoUpdate(i, template, input), id)
    case BeginRollback(_, i) => OnStack(stack, DoRollback(i), id)
    case Next(_) => stack
  }

  /** A new call, or an old one brought on, beside the others as they were. */
  predicate CallsAre(s: Store, t: Store, call: nat, c: Call) { t.calls == s.calls[call := c] }

  /** The same calls as before, each of them good and promising what it did. */
  predicate CallsKept(s: Store, t: Store)
    requires Good(s)
  {
    t.calls.Keys == s.calls.Keys && forall x <- s.calls :: CallKept(s.state, s.calls[x], t.state, t.calls[x])
  }

  predicate CallKept(s: State, c: Call, t: State, next: Call)
    requires GoodCall(s, c)
  {
    next.seen == c.seen && GoodCall(t, next) && Promised(t, next) == Promised(s, c)
  }

  /** One call goes on, and the files of no other deployment change. */
  lemma ProceedKept(s: Store, t: Store, call: nat, next: Call)
    requires Good(s) && call in s.calls && CallsAre(s, t, call, next) && OnlyFor(s.state, t.state, next.seen)
    requires CallKept(s.state, s.calls[call], t.state, next)
    ensures CallsKept(s, t)
  {
    forall x | x in s.calls ensures CallKept(s.state, s.calls[x], t.state, t.calls[x]) {
      if x != call {
        RecordOf(s.state, s.calls[x]);
        CallSame(s.state, t.state, s.calls[x]);
      }
    }
  }

  /** The calls for the deployment promise what they did before, if any is left. */
  predicate SamePromises(s: Store, t: Store, id: string)
    requires Good(s) && Good(t)
  {
    && (Busy(s, id) ==> Busy(t, id))
    && forall x <- t.calls :: t.calls[x].seen.id == id ==>
        x in s.calls && s.calls[x].seen.id == id && Promised(t.state, t.calls[x]) == Promised(s.state, s.calls[x])
  }

  lemma StillPromises(s: Store, t: Store, id: string, stack: Stack)
    requires Good(s) && Good(t) && SamePromises(s, t, id) && Promises(s, id, stack)
    requires Find(t.state.records, id) == Find(s.state.records, id)
    requires !Busy(s, id) ==>
      View(Find(s.state.records, id).value, t.state.files) == View(Find(s.state.records, id).value, s.state.files)
    ensures Promises(t, id, stack)
  {
  }

  lemma KeptGood(s: Store, t: Store)
    requires Good(s) && CallsKept(s, t) && Valid(t.state)
    ensures Good(t)
  {
    assert forall x <- s.calls :: CallKept(s.state, s.calls[x], t.state, t.calls[x]);
  }

  lemma KeptSamePromises(s: Store, t: Store, id: string)
    requires Good(s) && CallsKept(s, t) && Good(t)
    ensures SamePromises(s, t, id)
  {
    assert forall x <- s.calls :: CallKept(s.state, s.calls[x], t.state, t.calls[x]);
    SameBusy(s, t, id);
  }

  /** A call for `d` is in progress, and only files of `d` have changed. */
  predicate OnlyFilesOf(s: Store, t: Store, d: Record) {
    t.state.records == s.state.records && Busy(s, d.id) && OnlyFor(s.state, t.state, d)
  }

  lemma KeptPromises(s: Store, t: Store, d: Record, id: string, stack: Stack)
    requires Good(s) && CallsKept(s, t) && Valid(t.state)
    ensures Good(t)
    ensures OnlyFilesOf(s, t, d) && Promises(s, id, stack) ==> Promises(t, id, stack)
  {
    KeptGood(s, t);
    KeptSamePromises(s, t, id);
    if OnlyFilesOf(s, t, d) && Promises(s, id, stack) {
      assert id != d.id ==> SameFor(Find(s.state.records, id).value, s.state, t.state);
      StillPromises(s, t, id, stack);
    }
  }

  lemma SameBusy(s: Store, t: Store, id: string)
    requires t.calls.Keys == s.calls.Keys && forall x <- s.calls :: t.calls[x].seen == s.calls[x].seen
    ensures Busy(t, id) <==> Busy(s, id)
  {
    if Busy(s, id) {
      var x :| x in s.calls && s.calls[x].seen.id == id;
      assert x in t.calls && t.calls[x].seen.id == id;
    }
  }

  lemma KeptSame(s: State, t: State, id: string, e: Record)
    requires Valid(s) && Valid(t) && OthersKept(s, t, id) && t.files == s.files && e in s.records && e.id != id
    ensures SameFor(e, s, t)
  {
    FindUnique(s, e);
    FindUnique(t, e);
  }

  /** What a store leaves: its own call is gone, and the others are as they were. */
  predicate AfterStore(s: Store, t: Store, call: nat)
    requires Good(s) && call in s.calls
  {
    && t.calls == s.calls - {call} && t.state.files == s.state.files && Valid(t.state)
    && OthersKept(s.state, t.state, s.calls[call].seen.id)
    && Shows(t.state, s.calls[call].seen.id, Promised(s.state, s.calls[call]))
  }

  lemma StoreLeaves(s: Store, call: nat)
    requires Good(s) && call in s.calls && s.calls[call].stage.ToStore?
    ensures AfterStore(s, Act(s, Next(call)), call)
  {
    var c := s.calls[call];
    OwnStore(s.state, c);
    assert Act(s, Next(call)) ==
      Store(s.state.(records := Replace(s.state.records, c.seen.id, Stored(c.seen, c))), s.calls - {call});
  }

  lemma OtherCallKept(s: Store, t: Store, call: nat, x: nat)
    requires Good(s) && call in s.calls && x in s.calls
    ensures AfterStore(s, t, call) && x in t.calls ==> CallKept(s.state, s.calls[x], t.state, t.calls[x])
  {
    if AfterStore(s, t, call) && x in t.calls {
      RecordOf(s.state, s.calls[x]);
      KeptSame(s.state, t.state, s.calls[call].seen.id, s.calls[x].seen);
      CallSame(s.state, t.state, s.calls[x]);
    }
  }

  lemma StoreGood(s: Store, t: Store, call: nat)
    requires Good(s) && call in s.calls && AfterStore(s, t, call)
    ensures Good(t) && forall x <- t.calls :: CallKept(s.state, s.calls[x], t.state, t.calls[x])
  {
    forall x | x in t.calls ensures CallKept(s.state, s.calls[x], t.state, t.calls[x]) {
      OtherCallKept(s, t, call, x);
    }
  }

  lemma StoreSamePromises(s: Store, t: Store, call: nat, id: string)
    requires Good(s) && call in s.calls && t.calls == s.calls - {call}
    requires Good(t) && forall x <- t.calls :: CallKept(s.state, s.calls[x], t.state, t.calls[x])
    ensures if id == s.calls[call].seen.id then !Busy(t, id) else SamePromises(s, t, id)
  {
    assert forall x <- s.calls :: x == call || x in t.calls;
  }

  lemma StorePromises(s: Store, call: nat, id: string, stack: Stack)
    requires Good(s) && Promises(s, id, stack) && call in s.calls && s.calls[call].stage.ToStore?
    ensures Good(Act(s, Next(call))) && Promises(Act(s, Next(call)), id, stack)
  {
    var own, t := s.calls[call].seen.id, Act(s, Next(call));
    StoreLeaves(s, call);
    StoreGood(s, t, call);
    StoreSamePromises(s, t, call, id);
    if id != own {
      KeptSame(s.state, t.state, own, Find(s.state.records, id).value);
      StillPromises(s, t, id, stack);
    }
  }

  lemma NextPromises(s: Store, call: nat, id: string, stack: Stack)
    requires Good(s) && Promises(s, id, stack)
    ensures Good(Act(s, Next(call))) && Promises(Act(s, Next(call)), id, stack)
  {
    if call in s.calls {
      var c := s.calls[call];
      RecordOf(s.state, c);
      if c.stage.ToStore? {
        StorePromises(s, call, id, stack);
      } else {
        var (state, next) := Accessed(s.state, c);
        OwnAccess(s.state, c);
        OthersAccess(s.state, c);
        assert Act(s, Next(call)) == Store(state, s.calls[call := next]);
        ProceedKept(s, Act(s, Next(call)), call, next);
        FileValid(s.state, state, c.seen);
        KeptPromises(s, Act(s, Next(call)), c.seen, id, stack);
      }
    }
  }

  lemma BeginGood(s: Store, call: nat, c: Call)
    requires Good(s) && call !in s.calls && !Busy(s, c.seen.id)
    requires c.stage == ToRead && GoodCall(s.state, c)
    ensures Good(Begun(s, call, c))
  {
  }

  /** Another call beside those in progress. */
  function Begun(s: Store, call: nat, c: Call): Store { s.(calls := s.calls[call := c]) }

  lemma BegunBusy(s: Store, call: nat, c: Call, id: string)
    requires call !in s.calls
    ensures Busy(Begun(s, call, c), id) <==> id == c.seen.id || Busy(s, id)
  {
    var t := Begun(s, call, c);
    assert call in t.calls && t.calls[call] == c;
    if Busy(s, id) {
      var x :| x in s.calls && s.calls[x].seen.id == id;
      assert x in t.calls && t.calls[x].seen.id == id;
    }
  }

  lemma BeginPromises(s: Store, call: nat, c: Call, id: string, stack: Stack)
    requires Good(s) && call !in s.calls && !Busy(s, c.seen.id) && Promises(s, id, stack)
    requires c.stage == ToRead && GoodCall(s.state, c)
    ensures Good(Begun(s, call, c))
    ensures Promises(Begun(s, call, c), id, if id == c.seen.id then Promised(s.state, c) else stack)
  {
    BeginGood(s, call, c);
    BegunBusy(s, call, c, id);
    if id != c.seen.id {
      StillPromises(s, Begun(s, call, c), id, stack);
    }
  }

  /** A call that begins promises what its operation does to the stack; one that is refused does nothing to it. */
  lemma NewPromise(s: State, a: Access)
    requires Valid(s) && !a.Next? && Find(s.records, a.id).Some?
    ensures var d, c := Find(s.records, a.id).value, NewCall(s, a);
      if c.None? then OnAccess(View(d, s.files), a, a.id) == View(d, s.files)
      else
        && c.value.seen == d && c.value.stage == ToRead && GoodCall(s, c.value)
        && Promised(s, c.value) == OnAccess(View(d, s.files), a, a.id)
  {
    match a
    case BeginUpdate(_, id, template, input) =>
      StackUpdate(View(Find(s.records, id).value, s.files), id, template, input);
    case BeginRollback(_, _) =>
  }

  lemma RefusedOrBegun(s: Store, a: Access, id: string, stack: Stack)
    requires Good(s) && Locked(s, a) && !a.Next? && Promises(s, id, stack)
    ensures Good(Act(s, a)) && Promises(Act(s, a), id, OnAccess(stack, a, id))
  {
    if Find(s.state.records, a.id).Some? {
      NewPromise(s.state, a);
      var c := NewCall(s.state, a);
      if c.Some? {
        BeginPromises(s, a.call, c.value, id, stack);
      }
    }
  }

  lemma StepPromises(s: Store, a: Access, id: string, stack: Stack)
    requires Good(s) && Locked(s, a) && Promises(s, id, stack)
    ensures Good(Act(s, a)) && Promises(Act(s, a), id, OnAccess(stack, a, id))
  {
    if a.Next? {
      NextPromises(s, a.call, id, stack);
    } else {
      RefusedOrBegun(s, a, id, stack);
    }
  }

  // ---------------------------------------------------------------- every run

  lemma OnOps(stack: Stack, accesses: seq<Access>, id: string)
    requires accesses != []
    ensures AllOnStack(stack, OpsOf(accesses), id) ==
      AllOnStack(OnAccess(stack, accesses[0], id), OpsOf(accesses[1..]), id)
  {
    var rest := OpsOf(accesses[1..]);
    match accesses[0]
    case BeginUpdate(_, i, template, input) => assert ([DoUpdate(i, template, input)] + rest)[1..] == rest;
    case BeginRollback(_, i) => assert ([DoRollback(i)] + rest)[1..] == rest;
    case Next(_) => assert [] + rest == rest;
  }

  lemma {:induction false} RunPromises(s: Store, accesses: seq<Access>, id: string, stack: Stack)
    requires Good(s) && AllLocked(s, accesses) && Promises(s, id, stack)
    ensures Good(Run(s, accesses))
    ensures Promises(Run(s, accesses), id, AllOnStack(stack, OpsOf(accesses), id))
    decreases |accesses|
  {
    if accesses != [] {
      StepPromises(s, accesses[0], id, stack);
      OnOps(stack, accesses, id);
      RunPromises(Act(s, accesses[0]), accesses[1..], id, OnAccess(stack, accesses[0], id));
    }
  }

  /** If no two calls for one deployment overlap, every interleaving of updates and rollbacks acts on each
      deployment exactly like the undo stack, given the operations in the order in which they began: so it
      shows whenever no call for it is in progress. */
  lemma OneAtATime(s: State, accesses: seq<Access>, d: Record)
    requires Valid(s) && d in s.records && AllLocked(Store(s, map[]), accesses)
    requires !Busy(Run(Store(s, map[]), accesses), d.id)
    ensures Shows(Run(Store(s, map[]), accesses).state, d.id,
        AllOnStack(View(d, s.files), OpsOf(accesses), d.id))
  {
    FindUnique(s, d);
    RunPromises(Store(s, map[]), accesses, d.id, View(d, s.files));
  }
}
