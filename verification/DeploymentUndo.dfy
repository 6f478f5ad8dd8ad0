/** Updates and rollbacks of a deployment are the push and pop of an undo stack of depth twenty
    over version, variables and compose content, although it is kept in files named by version. */
module DeploymentUndo {
  import opened Collections
  import opened Deployments
  import opened Numerals
  import opened Wrappers

  datatype Level = Level(version: nat, variables: Variables, content: string)

  datatype Stack = Stack(current: Level, undo: seq<Level>)

  function Push(s: Stack, next: Level): Stack {
    Stack(next, Last(s.undo + [s.current], MAX_REVISIONS))
  }

  function Pop(s: Stack): Stack
    requires s.undo != []
  {
    Stack(s.undo[|s.undo| - 1], s.undo[..|s.undo| - 1])
  }

  // ---------------------------------------------------------------- the invariant

  function Dir(d: Record): string
    requires EndsWith(d.composePath, COMPOSE)
  {
    d.composePath[..|d.composePath| - |COMPOSE|]
  }

  predicate IsDir(s: string) { s != "" && s[|s| - 1] == '/' }

  predicate NoSlash(s: string) { forall i :: 0 <= i < |s| ==> s[i] != '/' }

  /** A revision on the stack has the version of its place, and its file is still there. */
  predicate GoodRevision(d: Record, i: nat, files: map<string, string>)
    requires i < |d.revisions| < d.version && EndsWith(d.composePath, COMPOSE)
  {
    var r := d.revisions[i];
    r.version == d.version - |d.revisions| + i && r.composePath == Dir(d) + RevisionName(r.version) &&
        r.composePath in files
  }

  predicate GoodRecord(d: Record, files: map<string, string>) {
    && EndsWith(d.composePath, COMPOSE) && IsDir(Dir(d)) && d.composePath in files
    && |d.revisions| < d.version && |d.revisions| <= MAX_REVISIONS
    && forall i :: 0 <= i < |d.revisions| ==> GoodRevision(d, i, files)
  }

  predicate Valid(s: State) {
    && (forall d <- s.records :: GoodRecord(d, s.files))
    && forall i, j :: 0 <= i < j < |s.records| ==> Apart(s.records[i], s.records[j])
  }

  predicate Apart(d: Record, e: Record) {
    && d.id != e.id && EndsWith(d.composePath, COMPOSE) && EndsWith(e.composePath, COMPOSE) && Dir(d) != Dir(e)
  }

  function View(d: Record, files: map<string, string>): Stack
    requires GoodRecord(d, files)
  {
    Stack(Level(d.version, d.variables, files[d.composePath]),
          seq(|d.revisions|, i requires 0 <= i < |d.revisions| => LevelOf(d, i, files)))
  }

  function LevelOf(d: Record, i: nat, files: map<string, string>): Level
    requires GoodRecord(d, files) && i < |d.revisions|
  {
    var r := d.revisions[i];
    assert GoodRevision(d, i, files);
    Level(r.version, r.variables, files[r.composePath])
  }

  // ---------------------------------------------------------------- paths

  lemma PathsApart(d1: string, n1: string, d2: string, n2: string)
    requires IsDir(d1) && IsDir(d2) && NoSlash(n1) && NoSlash(n2) && d1 + n1 == d2 + n2
    ensures d1 == d2 && n1 == n2
  {
    var p := d1 + n1;
    assert p[|d1| - 1] == '/' && p[|d2| - 1] == '/';
    assert forall i :: |d1| <= i < |p| ==> p[i] == n1[i - |d1|];
    assert forall i :: |d2| <= i < |p| ==> p[i] == n2[i - |d2|];
    assert |d1| == |d2|;
    assert d1 == p[..|d1|] && d2 == p[..|d2|] && n1 == p[|d1|..] && n2 == p[|d2|..];
  }

  lemma NumberedName(a: nat)
    ensures var x, n := RevisionName(a), |Digits(a, 10)|;
      |x| == 20 + n && x[16..16 + n] == Digits(a, 10) && x[15] == 'v' && x[..16] == "docker-compose.v" &&
          x[16 + n..] == ".yml"
  {
    assert RevisionName(a) == "docker-compose.v" + (Digits(a, 10) + ".yml");
  }

  lemma NameHasNoSlash(a: nat)
    ensures NoSlash(RevisionName(a))
  {
    NumberedName(a);
    var x, n := RevisionName(a), |Digits(a, 10)|;
    assert NoSlash("docker-compose.v") && NoSlash(".yml");
    forall i | 0 <= i < |x| ensures x[i] != '/' {
      if i < 16 {
        assert x[i] == x[..16][i];
      } else if i < 16 + n {
        assert x[i] == x[16..16 + n][i - 16];
        assert IsDigit(x[i], 10);
      } else {
        assert x[i] == x[16 + n..][i - 16 - n];
      }
    }
  }

  lemma RevisionNames(a: nat, b: nat)
    ensures NoSlash(RevisionName(a)) && NoSlash(COMPOSE) && RevisionName(a) != COMPOSE
    ensures RevisionName(a) == RevisionName(b) ==> a == b
  {
    NameHasNoSlash(a);
    NumberedName(a);
    NumberedName(b);
    assert COMPOSE[15] == 'y';
    if RevisionName(a) == RevisionName(b) {
      DigitsInjective(a, b, 10);
    }
  }

  lemma PathOf(d: Record, v: nat)
    requires EndsWith(d.composePath, COMPOSE)
    ensures d.composePath == Dir(d) + COMPOSE && Dir(d) + RevisionName(v) == RevisionPath(d.composePath, v)
  {
  }

  /** Files of another deployment, or of another version, are different files. */
  lemma RevisionFile(d: Record, e: Record, v: nat, w: nat)
    requires EndsWith(d.composePath, COMPOSE) && EndsWith(e.composePath, COMPOSE) && IsDir(Dir(d)) && IsDir(Dir(e))
    ensures Dir(d) + RevisionName(v) == RevisionPath(d.composePath, v)
    ensures Dir(e) + RevisionName(w) != d.composePath
    ensures Dir(e) + RevisionName(w) == Dir(d) + RevisionName(v) ==> Dir(e) == Dir(d) && v == w
    ensures Dir(e) != Dir(d) ==> e.composePath != d.composePath && e.composePath != Dir(d) + RevisionName(v)
  {
    PathOf(d, v);
    PathOf(e, w);
    FilesApart(Dir(d), Dir(e), v, w);
    FilesApart(Dir(e), Dir(d), w, v);
  }

  lemma FilesApart(dir: string, other: string, v: nat, w: nat)
    requires IsDir(dir) && IsDir(other)
    ensures other + RevisionName(w) != dir + COMPOSE
    ensures other + RevisionName(w) == dir + RevisionName(v) ==> other == dir && v == w
    ensures other + COMPOSE == dir + COMPOSE ==> other == dir
  {
    RevisionNames(v, w);
    RevisionNames(w, v);
    if other + RevisionName(w) == dir + COMPOSE {
      PathsApart(other, RevisionName(w), dir, COMPOSE);
    }
    if other + RevisionName(w) == dir + RevisionName(v) {
      PathsApart(other, RevisionName(w), dir, RevisionName(v));
    }
    if other + COMPOSE == dir + COMPOSE {
      PathsApart(other, COMPOSE, dir, COMPOSE);
    }
  }

  /** Writing into one deployment's directory leaves every other deployment as it was. */
  lemma OtherUntouched(d: Record, e: Record, v: nat, files: map<string, string>, backup: string, content: string)
    requires GoodRecord(e, files) && EndsWith(d.composePath, COMPOSE) && IsDir(Dir(d)) && Dir(d) != Dir(e)
    ensures var after := files[RevisionPath(d.composePath, v) := backup][d.composePath := content];
      GoodRecord(e, after) && View(e, after) == View(e, files)
    ensures var after := files[d.composePath := content];
      GoodRecord(e, after) && View(e, after) == View(e, files)
  {
    RevisionFile(d, e, v, 0);
    var after1 := files[RevisionPath(d.composePath, v) := backup][d.composePath := content];
    var after2 := files[d.composePath := content];
    forall i | 0 <= i < |e.revisions|
      ensures e.revisions[i].composePath in files && GoodRevision(e, i, after1)
          && after1[e.revisions[i].composePath] == files[e.revisions[i].composePath]
      ensures GoodRevision(e, i, after2) && after2[e.revisions[i].composePath] == files[e.revisions[i].composePath]
    {
      assert GoodRevision(e, i, files);
      RevisionFile(d, e, v, e.revisions[i].version);
    }
    assert View(e, after1) == View(e, files);
    assert View(e, after2) == View(e, files);
  }

  // ---------------------------------------------------------------- one operation

  lemma FindUnique(s: State, d: Record)
    requires Valid(s) && d in s.records
    ensures Find(s.records, d.id) == Some(d)
  {
    var f := Find(s.records, d.id).value;
    var i, j :| 0 <= i < |s.records| && 0 <= j < |s.records| && s.records[i] == d && s.records[j] == f;
    assert i < j ==> Apart(s.records[i], s.records[j]);
    assert j < i ==> Apart(s.records[j], s.records[i]);
  }

  lemma ReplaceApart(s: State, d: Record, d': Record)
    requires Valid(s) && d in s.records && d'.id == d.id && d'.composePath == d.composePath
    ensures var records := Replace(s.records, d.id, d');
      forall i, j :: 0 <= i < j < |records| ==> Apart(records[i], records[j])
    ensures d' in Replace(s.records, d.id, d')
  {
    var records := Replace(s.records, d.id, d');
    forall i, j | 0 <= i < j < |records| ensures Apart(records[i], records[j]) {
      assert Apart(s.records[i], s.records[j]);
      SameId(s, s.records[i], d);
      SameId(s, s.records[j], d);
    }
    var k :| 0 <= k < |s.records| && s.records[k] == d;
    assert records[k] == d';
  }

  lemma ReplaceMembers(records: seq<Record>, id: string, d': Record)
    ensures forall e <- Replace(records, id, d') :: e == d' || (e in records && e.id != id)
    ensures forall e <- records :: e.id != id ==> e in Replace(records, id, d')
  {
    forall e | e in records && e.id != id ensures e in Replace(records, id, d') {
      var i :| 0 <= i < |records| && records[i] == e;
      assert Replace(records, id, d')[i] == e;
    }
  }

  /** Replacing one record, and writing only into its directory, keeps the state valid and the others as they were. */
  lemma ReplaceKeeps(s: State, d: Record, d': Record, files: map<string, string>)
    requires Valid(s) && d in s.records && d'.id == d.id && d'.composePath == d.composePath
    requires GoodRecord(d', files)
    requires forall e <- s.records :: e.id != d.id ==> GoodRecord(e, files) && View(e, files) == View(e, s.files)
    ensures var t := State(Replace(s.records, d.id, d'), files);
      Valid(t) && Find(t.records, d.id) == Some(d') && (forall e <- s.records :: e.id != d.id ==> e in t.records)
  {
    ReplaceApart(s, d, d');
    ReplaceMembers(s.records, d.id, d');
    FindUnique(State(Replace(s.records, d.id, d'), files), d');
  }

  lemma SameId(s: State, d: Record, e: Record)
    requires Valid(s) && d in s.records && e in s.records
    ensures d.id == e.id ==> d == e
    ensures d.id != e.id ==> Dir(d) != Dir(e)
  {
    FindUnique(s, d);
    FindUnique(s, e);
    if d.id != e.id {
      var i, j :| 0 <= i < |s.records| && 0 <= j < |s.records| && s.records[i] == d && s.records[j] == e;
      if i < j {
        assert Apart(s.records[i], s.records[j]);
      } else {
        assert Apart(s.records[j], s.records[i]);
      }
    }
  }

  /** The deployment `id` is there and reads as the undo stack `stack`. */
  predicate Shows(s: State, id: string, stack: Stack) {
    Valid(s) && Find(s.records, id).Some? && View(Find(s.records, id).value, s.files) == stack
  }

  /** What every operation leaves of the deployments it does not name. */
  predicate OthersKept(s: State, t: State, id: string)
    requires Valid(s) && Valid(t)
  {
    forall d <- s.records :: d.id != id ==> d in t.records && View(d, t.files) == View(d, s.files)
  }

  lemma UpdatedRevision(d: Record, vars: Variables, files: map<string, string>, content: string, i: nat)
    requires GoodRecord(d, files) && i < |Updated(d, vars).revisions|
    ensures var after, d', k := UpdatedFiles(d, files, content), Updated(d, vars),
        i + |d.revisions| + 1 - |Updated(d, vars).revisions|;
      && GoodRevision(d', i, after)
      && if k < |d.revisions|
         then d'.revisions[i] == d.revisions[k] && GoodRevision(d, k, files)
             && after[d.revisions[k].composePath] == files[d.revisions[k].composePath]
         else d'.revisions[i].variables == d.variables && after[d'.revisions[i].composePath] == files[d.composePath]
  {
    var k := i + |d.revisions| + 1 - |Updated(d, vars).revisions|;
    if k < |d.revisions| {
      assert GoodRevision(d, k, files);
      RevisionFile(d, d, d.version, d.revisions[k].version);
    } else {
      RevisionFile(d, d, d.version, d.version);
    }
  }

  lemma UpdatedRecord(d: Record, vars: Variables, files: map<string, string>, content: string)
    requires GoodRecord(d, files)
    ensures var after := UpdatedFiles(d, files, content);
      GoodRecord(Updated(d, vars), after)
      && View(Updated(d, vars), after) == Push(View(d, files), Level(d.version + 1, vars, content))
  {
    var after, d' := UpdatedFiles(d, files, content), Updated(d, vars);
    forall i | 0 <= i < |d'.revisions| ensures GoodRevision(d', i, after) {
      UpdatedRevision(d, vars, files, content, i);
    }
    UpdatedUndo(d, vars, files, content);
  }

  lemma UpdatedUndo(d: Record, vars: Variables, files: map<string, string>, content: string)
    requires GoodRecord(d, files) && GoodRecord(Updated(d, vars), UpdatedFiles(d, files, content))
    ensures View(Updated(d, vars), UpdatedFiles(d, files, content)).undo ==
      Last(View(d, files).undo + [View(d, files).current], MAX_REVISIONS)
  {
    var after, d', shown := UpdatedFiles(d, files, content), Updated(d, vars), View(d, files);
    var target := Last(shown.undo + [shown.current], MAX_REVISIONS);
    forall i | 0 <= i < |d'.revisions| ensures LevelOf(d', i, after) == target[i] {
      UpdatedRevision(d, vars, files, content, i);
    }
  }

  lemma UpdatedState(s: State, d: Record, vars: Variables, content: string)
    requires Valid(s) && d in s.records
    ensures var t := State(Replace(s.records, d.id, Updated(d, vars)), UpdatedFiles(d, s.files, content));
      Valid(t) && OthersKept(s, t, d.id) && Shows(t, d.id, Push(View(d, s.files), Level(d.version + 1, vars, content)))
  {
    var files := UpdatedFiles(d, s.files, content);
    UpdatedRecord(d, vars, s.files, content);
    forall e | e in s.records && e.id != d.id ensures GoodRecord(e, files) && View(e, files) == View(e, s.files) {
      SameId(s, d, e);
      OtherUntouched(d, e, d.version, s.files, s.files[d.composePath], content);
    }
    ReplaceKeeps(s, d, Updated(d, vars), files);
  }

  lemma UpdateIs(s: State, d: Record, template: Option<Template>, input: Variables)
    requires Find(s.records, d.id) == Some(d) && d.composePath in s.files
    ensures var vars := NewVariables(template, d.variables + input);
      && (Update(s, d.id, template, input).Ok? <==> vars.Some?)
      && (vars.Some? ==>
          var files := UpdatedFiles(d, s.files, template.value.render(vars.value));
          Update(s, d.id, template, input).state == State(Replace(s.records, d.id, Updated(d, vars.value)), files))
  {
  }

  /** An update of a known deployment pushes, exactly when its template is known and the variables are accepted. */
  lemma UpdatePushes(s: State, d: Record, template: Option<Template>, input: Variables)
    requires Valid(s) && Find(s.records, d.id) == Some(d)
    ensures var vars := NewVariables(template, d.variables + input);
      && (Update(s, d.id, template, input).Ok? <==> vars.Some?)
      && (vars.Some? ==>
          var t := Update(s, d.id, template, input).state;
          && Valid(t) && OthersKept(s, t, d.id)
          && Shows(t, d.id, Push(View(d, s.files), Level(d.version + 1, vars.value,
              template.value.render(vars.value)))))
  {
    UpdateIs(s, d, template, input);
    var vars := NewVariables(template, d.variables + input);
    if vars.Some? {
      UpdatedState(s, d, vars.value, template.value.render(vars.value));
    }
  }

  lemma RolledBackRecord(d: Record, files: map<string, string>)
    requires GoodRecord(d, files) && d.revisions != []
    ensures var n := |d.revisions| - 1;
      var r := d.revisions[n];
      && r.composePath in files
      && var after := files[d.composePath := files[r.composePath]];
         var d' := Record(d.id, r.version, n, d.revisions[..n], d.composePath, r.variables);
         GoodRecord(d', after) && View(d', after) == Pop(View(d, files))
  {
    var n := |d.revisions| - 1;
    var r := d.revisions[n];
    assert GoodRevision(d, n, files);
    var after := files[d.composePath := files[r.composePath]];
    var d' := Record(d.id, r.version, n, d.revisions[..n], d.composePath, r.variables);
    forall i | 0 <= i < n
      ensures GoodRevision(d', i, after) && GoodRevision(d, i, files)
      ensures after[d.revisions[i].composePath] == files[d.revisions[i].composePath]
    {
      assert GoodRevision(d, i, files);
      RevisionFile(d, d, 0, d.revisions[i].version);
    }
    var target := Pop(View(d, files));
    assert forall i :: 0 <= i < n ==> View(d', after).undo[i] == target.undo[i];
  }

  /** A rollback pops, and fails exactly when the deployment is unknown or its public revision count is zero. */
  lemma RollbackPops(s: State, id: string)
    requires Valid(s)
    ensures var found := Find(s.records, id);
      && (Rollback(s, id).Ok? <==> found.Some? && PublicRevisionCount(found.value) > 0)
      && (found.Some? ==> PublicRevisionCount(found.value) == |View(found.value, s.files).undo|)
      && (Rollback(s, id).Ok? ==>
          var t := Rollback(s, id).state;
          Valid(t) && OthersKept(s, t, id) && Shows(t, id, Pop(View(found.value, s.files))))
  {
    var found := Find(s.records, id);
    if found.Some? && found.value.revisions != [] {
      var d := found.value;
      var n := |d.revisions| - 1;
      var r := d.revisions[n];
      RolledBackRecord(d, s.files);
      var after := s.files[d.composePath := s.files[r.composePath]];
      forall e | e in s.records && e.id != id ensures GoodRecord(e, after) && View(e, after) == View(e, s.files) {
        SameId(s, d, e);
        OtherUntouched(d, e, 0, s.files, "", s.files[r.composePath]);
      }
      ReplaceKeeps(s, d, Record(d.id, r.version, n, d.revisions[..n], d.composePath, r.variables), after);
    }
  }

  lemma AppendedApart(records: seq<Record>, d: Record)
    requires EndsWith(d.composePath, COMPOSE)
    requires forall i, j :: 0 <= i < j < |records| ==> Apart(records[i], records[j])
    requires forall e <- records :: Apart(e, d)
    ensures var all := records + [d]; forall i, j :: 0 <= i < j < |all| ==> Apart(all[i], all[j])
  {
  }

  lemma NewRecord(s: State, d: Record, content: string)
    requires Valid(s) && EndsWith(d.composePath, COMPOSE) && IsDir(Dir(d)) && d.revisions == [] && d.version > 0
    requires forall e <- s.records :: e.id != d.id && Dir(e) != Dir(d)
    ensures var t := State(s.records + [d], s.files[d.composePath := content]);
      Valid(t) && OthersKept(s, t, d.id) && Shows(t, d.id, Stack(Level(d.version, d.variables, content), []))
  {
    var t := State(s.records + [d], s.files[d.composePath := content]);
    forall e | e in s.records ensures GoodRecord(e, t.files) && View(e, t.files) == View(e, s.files) {
      OtherUntouched(d, e, 0, s.files, "", content);
    }
    AppendedApart(s.records, d);
    assert d == t.records[|s.records|];
    FindUnique(t, d);
    assert View(d, t.files).undo == [];
  }

  /** Creating a deployment under a fresh id in a fresh directory starts it with nothing to undo. */
  lemma CreateStarts(s: State, id: string, dir: string, template: Option<Template>, input: Variables)
    requires Valid(s) && Create(s, id, dir, template, input).Ok? && IsDir(dir)
    requires forall e <- s.records :: e.id != id && Dir(e) != dir
    ensures var t := Create(s, id, dir, template, input).state;
      var vars := Merge(template.value.variables, input).value;
      Valid(t) && OthersKept(s, t, id) && Shows(t, id, Stack(Level(1, vars, template.value.render(vars)), []))
  {
    var vars := Merge(template.value.variables, input).value;
    var d := Record(id, 1, 0, [], dir + COMPOSE, vars);
    assert Dir(d) == dir;
    NewRecord(s, d, template.value.render(vars));
  }

  // ---------------------------------------------------------------- runs

  datatype Op =
    | DoCreate(id: string, dir: string, template: Option<Template>, input: Variables)
    | DoUpdate(id: string, template: Option<Template>, input: Variables)
    | DoRollback(id: string)

  /** An operation that fails leaves the store as it was. */
  function Apply(s: State, op: Op): State {
    var outcome := match op
      case DoCreate(id, dir, template, input) => Create(s, id, dir, template, input)
      case DoUpdate(id, template, input) => Update(s, id, template, input)
      case DoRollback(id) => Rollback(s, id);
    if outcome.Ok? then outcome.state else s
  }

  function ApplyAll(s: State, ops: seq<Op>): State
    decreases |ops|
  {
    if ops == [] then s else ApplyAll(Apply(s, ops[0]), ops[1..])
  }

  /** New ids are generated, and each deployment gets a directory of its own, named after its id. */
  predicate Allowed(s: State, op: Op) {
    op.DoCreate? ==> IsDir(op.dir) && forall e <- s.records :: e.id != op.id && e.composePath != op.dir + COMPOSE
  }

  predicate RunAllowed(s: State, ops: seq<Op>)
    decreases |ops|
  {
    ops == [] || (Allowed(s, ops[0]) && RunAllowed(Apply(s, ops[0]), ops[1..]))
  }

  /** The same operation on the undo stack of the deployment `id`; it knows nothing of files. */
  function OnStack(s: Stack, op: Op, id: string): Stack {
    if op.id != id then s else
      match op
      case DoCreate(_, _, _, _) => s
      case DoRollback(_) => if s.undo == [] then s else Pop(s)
      case DoUpdate(_, template, input) =>
        var vars := NewVariables(template, s.current.variables + input);
        if vars.None? then s else Push(s, Level(s.current.version + 1, vars.value, template.value.render(vars.value)))
  }

  function AllOnStack(s: Stack, ops: seq<Op>, id: string): Stack
    decreases |ops|
  {
    if ops == [] then s else AllOnStack(OnStack(s, ops[0], id), ops[1..], id)
  }

  /** Every operation keeps the stacked versions consecutive and their files in place, and leaves
      every deployment it does not name as it was. */
  lemma StepValid(s: State, op: Op)
    requires Valid(s) && Allowed(s, op)
    ensures Valid(Apply(s, op)) && OthersKept(s, Apply(s, op), op.id)
  {
    match op
    case DoCreate(id, dir, template, input) =>
      if Create(s, id, dir, template, input).Ok? {
        forall e | e in s.records ensures Dir(e) != dir {
          PathOf(e, 0);
        }
        CreateStarts(s, id, dir, template, input);
      }
    case DoUpdate(id, template, input) =>
      if Find(s.records, id).Some? {
        UpdatePushes(s, Find(s.records, id).value, template, input);
      }
    case DoRollback(id) =>
      RollbackPops(s, id);
  }

  lemma UpdateRefines(s: State, d: Record, template: Option<Template>, input: Variables)
    requires Valid(s) && Find(s.records, d.id) == Some(d)
    ensures var op := DoUpdate(d.id, template, input);
      Shows(Apply(s, op), d.id, OnStack(View(d, s.files), op, d.id))
  {
    UpdatePushes(s, d, template, input);
    StackUpdate(View(d, s.files), d.id, template, input);
  }

  lemma StackUpdate(s: Stack, id: string, template: Option<Template>, input: Variables)
    ensures var vars := NewVariables(template, s.current.variables + input);
      OnStack(s, DoUpdate(id, template, input), id) ==
        if vars.None? then s else Push(s, Level(s.current.version + 1, vars.value, template.value.render(vars.value)))
  {
  }

  lemma StepRefines(s: State, op: Op, d: Record)
    requires Valid(s) && d in s.records && Allowed(s, op)
    ensures Shows(Apply(s, op), d.id, OnStack(View(d, s.files), op, d.id))
  {
    FindUnique(s, d);
    if op.id != d.id {
      StepValid(s, op);
      FindUnique(Apply(s, op), d);
    } else if op.DoUpdate? {
      UpdateRefines(s, d, op.template, op.input);
    } else if op.DoRollback? {
      RollbackPops(s, d.id);
    }
  }

  /** Any run of creations, updates and rollbacks, of this and of other deployments and failing ones
      included, acts on a deployment exactly like the undo stack. */
  lemma {:induction false} RunRefines(s: State, ops: seq<Op>, d: Record)
    requires Valid(s) && d in s.records && RunAllowed(s, ops)
    ensures Shows(ApplyAll(s, ops), d.id, AllOnStack(View(d, s.files), ops, d.id))
    decreases |ops|
  {
    FindUnique(s, d);
    if ops != [] {
      StepRefines(s, ops[0], d);
      var t := Apply(s, ops[0]);
      RunRefines(t, ops[1..], Find(t.records, d.id).value);
    }
  }

  lemma {:induction false} RunValid(s: State, ops: seq<Op>)
    requires Valid(s) && RunAllowed(s, ops)
    ensures Valid(ApplyAll(s, ops))
    decreases |ops|
  {
    if ops != [] {
      StepValid(s, ops[0]);
      RunValid(Apply(s, ops[0]), ops[1..]);
    }
  }

  /** Whatever happens to a store that started empty: stacked versions are consecutive and end just
      below the current one, and the file the next update saves to is on no stack. */
  lemma EveryRun(ops: seq<Op>, d: Record, i: nat)
    requires RunAllowed(State([], map[]), ops)
    requires d in ApplyAll(State([], map[]), ops).records && i < |d.revisions|
    ensures |d.revisions| <= 20 && d.revisions[i].version + (|d.revisions| - i) == d.version
    ensures d.revisions[i].composePath in ApplyAll(State([], map[]), ops).files
    ensures d.revisions[i].composePath != RevisionPath(d.composePath, d.version)
  {
    var t := ApplyAll(State([], map[]), ops);
    RunValid(State([], map[]), ops);
    assert GoodRevision(d, i, t.files);
    RevisionFile(d, d, d.version, d.revisions[i].version);
  }

  // ---------------------------------------------------------------- the stored count

  /** The stored count is one too high exactly after an update that found the stack full. */
  lemma StoredCount(d: Record, vars: Variables)
    requires |d.revisions| <= MAX_REVISIONS
    ensures Updated(d, vars).revisionCount == PublicRevisionCount(Updated(d, vars)) <==> |d.revisions| < 20
    ensures |d.revisions| == 20 ==> Updated(d, vars).revisionCount == 21
  {
  }

  predicate Counted(d: Record) {
    d.revisionCount == |d.revisions| || (|d.revisions| == MAX_REVISIONS && d.revisionCount == MAX_REVISIONS + 1)
  }

  lemma StepCounted(s: State, op: Op)
    requires Valid(s) && Allowed(s, op) && forall d <- s.records :: Counted(d)
    ensures forall d <- Apply(s, op).records :: Counted(d)
  {
    if op.DoUpdate? && Find(s.records, op.id).Some? {
      var d := Find(s.records, op.id).value;
      UpdateIs(s, d, op.template, op.input);
    }
  }

  lemma {:induction false} RunCounted(s: State, ops: seq<Op>)
    requires Valid(s) && RunAllowed(s, ops) && forall d <- s.records :: Counted(d)
    ensures forall d <- ApplyAll(s, ops).records :: Counted(d)
    decreases |ops|
  {
    if ops != [] {
      StepValid(s, ops[0]);
      StepCounted(s, ops[0]);
      RunCounted(Apply(s, ops[0]), ops[1..]);
    }
  }

  /** In every reachable store the stored count is the number of revisions, or 21 on a full stack of 20; and
      an accepted update leaves it right if and only if the stack was not full. */
  lemma CountDrifts(ops: seq<Op>, d: Record, template: Option<Template>, input: Variables)
    requires RunAllowed(State([], map[]), ops)
    requires d in ApplyAll(State([], map[]), ops).records && NewVariables(template, d.variables + input).Some?
    ensures Counted(d)
    ensures var next := Find(Apply(ApplyAll(State([], map[]), ops), DoUpdate(d.id, template, input)).records, d.id);
      next.Some? && (next.value.revisionCount == PublicRevisionCount(next.value) <==>
          PublicRevisionCount(d) < 20)
  {
    var t := ApplyAll(State([], map[]), ops);
    RunValid(State([], map[]), ops);
    RunCounted(State([], map[]), ops);
    FindUnique(t, d);
    UpdateIs(t, d, template, input);
    var vars := NewVariables(template, d.variables + input).value;
    UpdatedState(t, d, vars, template.value.render(vars));
    ReplacedFound(t.records, d.id, Updated(d, vars));
    StoredCount(d, vars);
  }

  lemma {:induction false} ReplacedFound(records: seq<Record>, id: string, d: Record)
    requires d.id == id && exists e <- records :: e.id == id
    ensures Find(Replace(records, id, d), id) == Some(d)
  {
    if records[0].id != id {
      assert Replace(records, id, d)[1..] == Replace(records[1..], id, d);
      ReplacedFound(records[1..], id, d);
    }
  }

  // ---------------------------------------------------------------- undoing

  function Pushes(s: Stack, levels: seq<Level>): Stack {
    if levels == [] then s else Push(Pushes(s, levels[..|levels| - 1]), levels[|levels| - 1])
  }

  /** As many pops as asked for, none when nothing is left. */
  function Pops(s: Stack, k: nat): Stack
    decreases k
  {
    if k == 0 || s.undo == [] then s else Pops(Pop(s), k - 1)
  }

  /** Up to twenty updates are undone by as many rollbacks: version, variables and content are back,
      and what was below them on the stack is still there as far as the depth allows. */
  lemma {:induction false} UndoRestores(s: Stack, levels: seq<Level>)
    requires |levels| <= 20 && |s.undo| <= 20
    ensures Pops(Pushes(s, levels), |levels|) == Stack(s.current, Last(s.undo, 20 - |levels|))
    ensures |Pushes(s, levels).undo| ==
      if |s.undo| + |levels| <= 20 then |s.undo| + |levels| else 20
    decreases |levels|
  {
    PushesKeep(s, levels);
    PopsOf(Pushes(s, levels), |levels|);
    var all := s.undo + Currents(s, levels);
    var n := |s.undo|;
    if levels != [] {
      assert all[n] == s.current;
    }
    assert all[..n] == s.undo;
  }

  /** The level before each push. */
  function Currents(s: Stack, levels: seq<Level>): (r: seq<Level>)
    ensures |r| == |levels|
  {
    if levels == [] then [] else [s.current] + levels[..|levels| - 1]
  }

  lemma {:induction false} PushesKeep(s: Stack, levels: seq<Level>)
    requires |s.undo| <= MAX_REVISIONS
    ensures Pushes(s, levels).undo == Last(s.undo + Currents(s, levels), MAX_REVISIONS)
    ensures Pushes(s, levels).current == if levels == [] then s.current else levels[|levels| - 1]
    decreases |levels|
  {
    if levels == [] {
      assert s.undo + [] == s.undo;
    } else {
      var init := levels[..|levels| - 1];
      PushesKeep(s, init);
      var c := Pushes(s, init).current;
      assert Currents(s, levels) == Currents(s, init) + [c];
      assert s.undo + Currents(s, levels) == (s.undo + Currents(s, init)) + [c];
      LastAppend(s.undo + Currents(s, init), c);
    }
  }

  lemma LastAppend(x: seq<Level>, c: Level)
    ensures Last(Last(x, MAX_REVISIONS) + [c], MAX_REVISIONS) == Last(x + [c], MAX_REVISIONS)
  {
  }

  lemma {:induction false} PopsOf(s: Stack, k: nat)
    requires k <= |s.undo|
    ensures Pops(s, k) == if k == 0 then s else Stack(s.undo[|s.undo| - k], s.undo[..|s.undo| - k])
    decreases k
  {
    if k > 0 {
      PopsOf(Pop(s), k - 1);
    }
  }

  // ---------------------------------------------------------------- undoing on disk

  function Rollbacks(id: string, k: nat): seq<Op> {
    if k == 0 then [] else [DoRollback(id)] + Rollbacks(id, k - 1)
  }

  /** The levels that updates of `id` push when each is accepted; none when one is not. */
  function Levels(s: Stack, ops: seq<Op>, id: string): Option<seq<Level>>
    decreases |ops|
  {
    if ops == [] then Some([])
    else if !ops[0].DoUpdate? || ops[0].id != id then None else
      var vars := NewVariables(ops[0].template, s.current.variables + ops[0].input);
      if vars.None? then None else
        var level := Level(s.current.version + 1, vars.value, ops[0].template.value.render(vars.value));
        var rest := Levels(Push(s, level), ops[1..], id);
        if rest.None? then None else Some([level] + rest.value)
  }

  lemma {:induction false} PushesCons(s: Stack, level: Level, rest: seq<Level>)
    ensures Pushes(s, [level] + rest) == Pushes(Push(s, level), rest)
    decreases |rest|
  {
    var all := [level] + rest;
    if rest == [] {
      assert all[..0] == [];
    } else {
      assert all[..|all| - 1] == [level] + rest[..|rest| - 1];
      PushesCons(s, level, rest[..|rest| - 1]);
    }
  }

  lemma {:induction false} AcceptedPush(s: Stack, ops: seq<Op>, id: string)
    requires Levels(s, ops, id).Some?
    ensures |Levels(s, ops, id).value| == |ops| && AllOnStack(s, ops, id) == Pushes(s, Levels(s, ops, id).value)
    decreases |ops|
  {
    if ops != [] {
      var levels := Levels(s, ops, id).value;
      StackUpdate(s, id, ops[0].template, ops[0].input);
      AcceptedPush(Push(s, levels[0]), ops[1..], id);
      PushesCons(s, levels[0], levels[1..]);
      assert levels == [levels[0]] + levels[1..];
    }
  }

  lemma {:induction false} RollbacksPop(s: Stack, id: string, k: nat)
    ensures AllOnStack(s, Rollbacks(id, k), id) == Pops(s, k)
    decreases k
  {
    if k > 0 {
      assert Rollbacks(id, k)[1..] == Rollbacks(id, k - 1);
      RollbacksPop(OnStack(s, DoRollback(id), id), id, k - 1);
      if s.undo == [] {
        assert Pops(s, k - 1) == s;
      }
    }
  }

  lemma {:induction false} StackConcat(s: Stack, x: seq<Op>, y: seq<Op>, id: string)
    ensures AllOnStack(s, x + y, id) == AllOnStack(AllOnStack(s, x, id), y, id)
    decreases |x|
  {
    if x == [] {
      assert x + y == y;
    } else {
      assert (x + y)[1..] == x[1..] + y;
      StackConcat(OnStack(s, x[0], id), x[1..], y, id);
    }
  }

  lemma {:induction false} NoCreateAllowed(s: State, ops: seq<Op>)
    requires forall op <- ops :: !op.DoCreate?
    ensures RunAllowed(s, ops)
    decreases |ops|
  {
    if ops != [] {
      assert ops[0] in ops && forall op <- ops[1..] :: op in ops;
      NoCreateAllowed(Apply(s, ops[0]), ops[1..]);
    }
  }

  lemma {:induction false} RollbacksOnly(id: string, k: nat)
    ensures |Rollbacks(id, k)| == k && forall op <- Rollbacks(id, k) :: op == DoRollback(id)
    decreases k
  {
    if k > 0 {
      RollbacksOnly(id, k - 1);
    }
  }

  lemma {:induction false} AcceptedOnly(s: Stack, ops: seq<Op>, id: string)
    requires Levels(s, ops, id).Some?
    ensures forall op <- ops :: op.DoUpdate?
    decreases |ops|
  {
    if ops != [] {
      AcceptedOnly(Push(s, Levels(s, ops, id).value[0]), ops[1..], id);
      assert forall op <- ops :: op == ops[0] || op in ops[1..];
    }
  }

  /** On the store itself: up to twenty accepted updates of a deployment, then as many rollbacks,
      bring back its version, its variables and the content of its compose file. */
  lemma UndoOnDisk(s: State, d: Record, updates: seq<Op>)
    requires Valid(s) && d in s.records && |updates| <= 20
    requires Levels(View(d, s.files), updates, d.id).Some?
    ensures var t := ApplyAll(s, updates + Rollbacks(d.id, |updates|));
      && Valid(t) && Find(t.records, d.id).Some?
      && var e := Find(t.records, d.id).value;
         e.version == d.version && e.variables == d.variables
         && d.composePath in s.files && e.composePath in t.files && t.files[e.composePath] == s.files[d.composePath]
  {
    var stack, k := View(d, s.files), |updates|;
    var ops := updates + Rollbacks(d.id, k);
    AcceptedOnly(stack, updates, d.id);
    RollbacksOnly(d.id, k);
    NoCreateAllowed(s, ops);
    RunRefines(s, ops, d);
    AcceptedPush(stack, updates, d.id);
    StackConcat(stack, updates, Rollbacks(d.id, k), d.id);
    RollbacksPop(AllOnStack(stack, updates, d.id), d.id, k);
    UndoRestores(stack, Levels(stack, updates, d.id).value);
  }
}
