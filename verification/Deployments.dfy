/** App deployments: an update saves the running compose file beside it and pushes a revision, a
    rollback copies the last one back. The record lives in the panel state, the contents on disk. */
module Deployments {
  import opened Collections
  import opened Numerals
  import opened Wrappers

  const MAX_REVISIONS: nat := 20

  type Variables = map<string, string>

  datatype Revision = Revision(version: nat, composePath: string, variables: Variables)

  datatype Record = Record(id: string, version: nat, revisionCount: nat,
      revisions: seq<Revision>, composePath: string, variables: Variables)

  datatype VariableSpec = VariableSpec(key: string, defaultValue: string, required: bool)

  datatype Template = Template(variables: seq<VariableSpec>, render: Variables -> string)

  datatype State = State(records: seq<Record>, files: map<string, string>)

  datatype Error = NoDeployment | NoTemplate | MissingVariable | InvalidVariable | NothingToRollBack | FileMissing

  datatype Outcome = Ok(state: State) | Failed(error: Error)

  // ---------------------------------------------------------------- variables

  function Chosen(v: VariableSpec, input: Variables): string {
    if v.key in input then input[v.key] else v.defaultValue
  }

  /** `mergeVariables`: input over defaults, for the keys of the template; none when a required one is empty. */
  function Merge(specs: seq<VariableSpec>, input: Variables): Option<Variables> {
    if specs == [] then Some(map[]) else
      var v := specs[|specs| - 1];
      var before := Merge(specs[..|specs| - 1], input);
      if before.None? || (v.required && Chosen(v, input) == "") then None
      else Some(before.value[v.key := Chosen(v, input)])
  }

  predicate KeyChar(c: char) { 'A' <= c <= 'Z' || '0' <= c <= '9' || c == '_' }

  predicate ValueChar(c: char) { c != '\r' && c != '\n' && c != '\0' }

  predicate ValidVariables(vars: Variables) {
    forall k <- vars ::
      (forall i :: 0 <= i < |k| ==> KeyChar(k[i])) && (forall i :: 0 <= i < |vars[k]| ==> ValueChar(vars[k][i]))
  }

  /** The variables of the next version, if the template is known and they are accepted. */
  function NewVariables(template: Option<Template>, input: Variables): (r: Option<Variables>)
    ensures r.Some? ==> template.Some?
  {
    if template.None? then None else
      var vars := Merge(template.value.variables, input);
      if vars.Some? && ValidVariables(vars.value) then vars else None
  }

  // ---------------------------------------------------------------- paths and records

  const COMPOSE: string := "docker-compose.yml"

  predicate EndsWith(s: string, tail: string) { |tail| <= |s| && s[|s| - |tail|..] == tail }

  function RevisionName(version: nat): string { "docker-compose.v" + Digits(version, 10) + ".yml" }

  /** The compose file's name replaced at the end of its path; other paths stay as they are. */
  function RevisionPath(composePath: string, version: nat): string {
    if EndsWith(composePath, COMPOSE) then composePath[..|composePath| - |COMPOSE|] + RevisionName(version)
    else composePath
  }

  function Find(records: seq<Record>, id: string): (r: Option<Record>)
    ensures r.Some? ==> r.value in records && r.value.id == id
    ensures r.None? ==> forall d <- records :: d.id != id
  {
    if records == [] then None else if records[0].id == id then Some(records[0]) else Find(records[1..], id)
  }

  /** `records.map(item => item.id === id ? replacement : item)`. */
  function Replace(records: seq<Record>, id: string, replacement: Record): (r: seq<Record>)
    ensures |r| == |records|
    ensures forall i :: 0 <= i < |r| ==> r[i] == if records[i].id == id then replacement else records[i]
  {
    seq(|records|, i requires 0 <= i < |records| => if records[i].id == id then replacement else records[i])
  }

  // ---------------------------------------------------------------- operations

  function Create(s: State, id: string, dir: string, template: Option<Template>, input: Variables): Outcome {
    if template.None? then Failed(NoTemplate) else
      var vars := Merge(template.value.variables, input);
      if vars.None? then Failed(MissingVariable)
      else if !ValidVariables(vars.value) then Failed(InvalidVariable)
      else Ok(State(s.records + [Record(id, 1, 0, [], dir + COMPOSE, vars.value)],
                    s.files[dir + COMPOSE := template.value.render(vars.value)]))
  }

  /** The revision an update pushes: the version it has read, under the file it saves it to. */
  function SavedAs(d: Record): Revision {
    Revision(d.version, RevisionPath(d.composePath, d.version), d.variables)
  }

  /** The record after an update: the version it had is pushed as a revision. */
  function Updated(d: Record, vars: Variables): Record {
    Record(d.id, d.version + 1, |d.revisions| + 1, Last(d.revisions + [SavedAs(d)], MAX_REVISIONS), d.composePath, vars)
  }

  function UpdatedFiles(d: Record, files: map<string, string>, content: string): map<string, string>
    requires d.composePath in files
  {
    files[RevisionPath(d.composePath, d.version) := files[d.composePath]][d.composePath := content]
  }

  function Update(s: State, id: string, template: Option<Template>, input: Variables): Outcome {
    var found := Find(s.records, id);
    if found.None? then Failed(NoDeployment)
    else if template.None? then Failed(NoTemplate)
    else
      var d := found.value;
      var vars := Merge(template.value.variables, d.variables + input);
      if vars.None? then Failed(MissingVariable)
      else if !ValidVariables(vars.value) then Failed(InvalidVariable)
      else if d.composePath !in s.files then Failed(FileMissing)
      else
        Ok(State(Replace(s.records, id, Updated(d, vars.value)),
            UpdatedFiles(d, s.files, template.value.render(vars.value))))
  }

  function Rollback(s: State, id: string): Outcome {
    var found := Find(s.records, id);
    if found.None? || found.value.revisions == [] then Failed(NothingToRollBack)
    else
      var d := found.value;
      var revision := d.revisions[|d.revisions| - 1];
      if revision.composePath !in s.files then Failed(FileMissing)
      else
        var remaining := d.revisions[..|d.revisions| - 1];
        Ok(State(Replace(s.records, id, Record(id, revision.version, |remaining|, remaining, d.composePath,
            revision.variables)),
                 s.files[d.composePath := s.files[revision.composePath]]))
  }

  /** The `revisionCount` that clients see. */
  function PublicRevisionCount(d: Record): nat { |d.revisions| }

  // ---------------------------------------------------------------- one access at a time

  /** The access a call makes next, with the content it holds for it. */
  datatype Stage = ToRead | ToSave(compose: string) | ToWrite(content: string) | ToStore

  /** What an update renders, or the revision a rollback goes back to. */
  datatype Plan = Render(variables: Variables, content: string) | Restore(revision: Revision)

  /** A call in progress: the record it has read, what it makes of it, and how far it has come. */
  datatype Call = Call(seen: Record, plan: Plan, stage: Stage)

  datatype Store = Store(state: State, calls: map<nat, Call>)

  /** A call begins with its read of the record, and then makes one access after the other. */
  datatype Access =
    | BeginUpdate(call: nat, id: string, template: Option<Template>, input: Variables)
    | BeginRollback(call: nat, id: string)
    | Next(call: nat)

  /** The file a call reads: the running compose file, or the one of the revision it goes back to. */
  function SourceFile(c: Call): string {
    match c.plan
    case Render(_, _) => c.seen.composePath
    case Restore(revision) => revision.composePath
  }

  /** The record a call stores: the stack is the current one, the version is told by the one it has read. */
  function Stored(d: Record, c: Call): Record {
    match c.plan
    case Render(variables, _) =>
      Record(d.id, c.seen.version + 1, |d.revisions| + 1, Last(d.revisions + [SavedAs(c.seen)], MAX_REVISIONS),
          d.composePath, variables)
    case Restore(revision) =>
      var remaining := ButLast(d.revisions);
      Record(d.id, revision.version, |remaining|, remaining, d.composePath, revision.variables)
  }

  /** `slice(0, -1)`. */
  function ButLast<T>(s: seq<T>): seq<T> { if s == [] then [] else s[..|s| - 1] }

  /** After its read an update saves what it has read, and a rollback writes it. */
  function Gathered(c: Call, compose: string): Stage {
    if c.plan.Render? then ToSave(compose) else ToWrite(compose)
  }

  /** After its save an update writes what it has rendered. */
  function Rendered(c: Call, compose: string): Stage {
    ToWrite(if c.plan.Render? then c.plan.content else compose)
  }

  /** The one access of a call that is next. */
  function Proceeded(s: Store, call: nat, c: Call): Store {
    match c.stage
    case ToRead =>
      if SourceFile(c) !in s.state.files then s.(calls := s.calls - {call}) else
        var compose := s.state.files[SourceFile(c)];
        s.(calls := s.calls[call := c.(stage := Gathered(c, compose))])
    case ToSave(compose) =>
      Store(s.state.(files := s.state.files[SavedAs(c.seen).composePath := compose]),
          s.calls[call := c.(stage := Rendered(c, compose))])
    case ToWrite(content) =>
      Store(s.state.(files := s.state.files[c.seen.composePath := content]), s.calls[call := c.(stage := ToStore)])
    case ToStore =>
      var found := Find(s.state.records, c.seen.id);
      if found.None? then s.(calls := s.calls - {call})
      else Store(s.state.(records := Replace(s.state.records, c.seen.id, Stored(found.value, c))), s.calls - {call})
  }

  /** The call that begins, unless it is refused. */
  function NewCall(s: State, a: Access): Option<Call> {
    match a
    case BeginUpdate(_, id, template, input) =>
      var found := Find(s.records, id);
      if found.None? then None else
        var vars := NewVariables(template, found.value.variables + input);
        if vars.None? then None
        else Some(Call(found.value, Render(vars.value, template.value.render(vars.value)), ToRead))
    case BeginRollback(_, id) =>
      var found := Find(s.records, id);
      if found.None? || found.value.revisions == [] then None
      else Some(Call(found.value, Restore(found.value.revisions[|found.value.revisions| - 1]), ToRead))
    case Next(_) => None
  }

  function Act(s: Store, a: Access): Store {
    if a.Next? then if a.call in s.calls then Proceeded(s, a.call, s.calls[a.call]) else s
    else
      var c := NewCall(s.state, a);
      if c.None? then s else s.(calls := s.calls[a.call := c.value])
  }

  // ---------------------------------------------------------------- the store

  class AppStore {
    var records: seq<Record>
    var files: map<string, string>
    /** The calls that wait between two accesses. */
    var calls: map<nat, Call>

    ghost function Now(): State
      reads this
    {
      State(records, files)
    }

    ghost function Overlapped(): Store
      reads this
    {
      Store(Now(), calls)
    }

    constructor ()
      ensures Overlapped() == Store(State([], map[]), map[])
    {
      records, files, calls := [], map[], map[];
    }

    /** `updateDeployment` up to its first file access. */
    method StartUpdate(call: nat, id: string, template: Option<Template>, input: Variables)
      returns (error: Option<Error>)
      requires call !in calls
      modifies this`calls
      ensures Overlapped() == Act(old(Overlapped()), BeginUpdate(call, id, template, input))
      ensures error == None <==> call in calls
    {
      var found := Find(records, id);
      if found.None? {
        return Some(NoDeployment);
      }
      if template.None? {
        return Some(NoTemplate);
      }
      var vars := MergeVariables(template.value.variables, found.value.variables + input);
      if vars.None? {
        return Some(MissingVariable);
      }
      if !ValidVariables(vars.value) {
        return Some(InvalidVariable);
      }
      calls := calls[call := Call(found.value, Render(vars.value, template.value.render(vars.value)), ToRead)];
      error := None;
    }

    /** `rollbackDeployment` up to its first file access. */
    method StartRollback(call: nat, id: string) returns (error: Option<Error>)
      requires call !in calls
      modifies this`calls
      ensures Overlapped() == Act(old(Overlapped()), BeginRollback(call, id))
      ensures error == None <==> call in calls
    {
      var found := Find(records, id);
      if found.None? || found.value.revisions == [] {
        return Some(NothingToRollBack);
      }
      var revision := found.value.revisions[|found.value.revisions| - 1];
      calls := calls[call := Call(found.value, Restore(revision), ToRead)];
      error := None;
    }

    /** The next access of a waiting call, up to the next await. */
    method Proceed(call: nat) returns (error: Option<Error>)
      requires call in calls
      modifies this
      ensures Overlapped() == Act(old(Overlapped()), Next(call))
      ensures error == Some(FileMissing) <==> old(calls[call].stage).ToRead? && call !in calls
      ensures error == Some(NoDeployment) <==>
        old(calls[call].stage).ToStore? && Find(old(records), old(calls[call]).seen.id).None?
      ensures error == None || error == Some(FileMissing) || error == Some(NoDeployment)
    {
      var c := calls[call];
      error := None;
      match c.stage
      case ToRead =>
        if SourceFile(c) !in files {
          calls := calls - {call};
          return Some(FileMissing);
        }
        var compose := files[SourceFile(c)];
        calls := calls[call := c.(stage := Gathered(c, compose))];
      case ToSave(compose) =>
        files := files[SavedAs(c.seen).composePath := compose];
        calls := calls[call := c.(stage := Rendered(c, compose))];
      case ToWrite(content) =>
        files := files[c.seen.composePath := content];
        calls := calls[call := c.(stage := ToStore)];
      case ToStore =>
        calls := calls - {call};
        var found := Find(records, c.seen.id);
        if found.None? {
          return Some(NoDeployment);
        }
        records := Replace(records, c.seen.id, Stored(found.value, c));
    }

    static method MergeVariables(specs: seq<VariableSpec>, input: Variables) returns (result: Option<Variables>)
      ensures result == Merge(specs, input)
    {
      var merged: Variables := map[];
      for i := 0 to |specs|
        invariant Merge(specs[..i], input) == Some(merged)
      {
        var value := Chosen(specs[i], input);
        assert specs[..i + 1][..i] == specs[..i];
        if specs[i].required && value == "" {
          MergeStops(specs, input, i + 1);
          return None;
        }
        merged := merged[specs[i].key := value];
      }
      assert specs[..|specs|] == specs;
      result := Some(merged);
    }

    method CreateDeployment(id: string, dir: string, template: Option<Template>, input: Variables)
      returns (error: Option<Error>)
      modifies this`records, this`files
      ensures match Create(old(Now()), id, dir, template, input)
        case Ok(s) => error == None && Now() == s
        case Failed(e) => error == Some(e) && Now() == old(Now())
    {
      if template.None? {
        return Some(NoTemplate);
      }
      var vars := MergeVariables(template.value.variables, input);
      if vars.None? {
        return Some(MissingVariable);
      }
      if !ValidVariables(vars.value) {
        return Some(InvalidVariable);
      }
      var composePath := dir + COMPOSE;
      files := files[composePath := template.value.render(vars.value)];
      records := records + [Record(id, 1, 0, [], composePath, vars.value)];
      error := None;
    }

    method UpdateDeployment(id: string, template: Option<Template>, input: Variables) returns (error: Option<Error>)
      modifies this`records, this`files
      ensures match Update(old(Now()), id, template, input)
        case Ok(s) => error == None && Now() == s
        case Failed(e) => error == Some(e) && Now() == old(Now())
    {
      var found := Find(records, id);
      if found.None? {
        return Some(NoDeployment);
      }
      if template.None? {
        return Some(NoTemplate);
      }
      var d := found.value;
      var vars := MergeVariables(template.value.variables, d.variables + input);
      if vars.None? {
        return Some(MissingVariable);
      }
      if !ValidVariables(vars.value) {
        return Some(InvalidVariable);
      }
      if d.composePath !in files {
        return Some(FileMissing);
      }
      var revision := SaveRevision(d);
      files := files[d.composePath := template.value.render(vars.value)];
      assert files == UpdatedFiles(d, old(files), template.value.render(vars.value));
      var updated := Record(d.id, d.version + 1, |d.revisions| + 1, Last(d.revisions + [revision], MAX_REVISIONS),
                            d.composePath, vars.value);
      assert updated == Updated(d, vars.value);
      records := Replace(records, id, updated);
      error := None;
    }

    method SaveRevision(d: Record) returns (revision: Revision)
      requires d.composePath in files
      modifies this`files
      ensures revision == SavedAs(d)
      ensures files == old(files)[revision.composePath := old(files)[d.composePath]]
    {
      var revisionPath := RevisionPath(d.composePath, d.version);
      var compose := files[d.composePath];
      files := files[revisionPath := compose];
      revision := Revision(d.version, revisionPath, d.variables);
    }

    method RollbackDeployment(id: string) returns (error: Option<Error>)
      modifies this`records, this`files
      ensures match Rollback(old(Now()), id)
        case Ok(s) => error == None && Now() == s
        case Failed(e) => error == Some(e) && Now() == old(Now())
    {
      var found := Find(records, id);
      if found.None? || found.value.revisions == [] {
        return Some(NothingToRollBack);
      }
      var d := found.value;
      var revision := d.revisions[|d.revisions| - 1];
      if revision.composePath !in files {
        return Some(FileMissing);
      }
      var compose := files[revision.composePath];
      files := files[d.composePath := compose];
      var remaining := d.revisions[..|d.revisions| - 1];
      records := Replace(records, id, Record(id, revision.version, |remaining|, remaining, d.composePath,
          revision.variables));
      error := None;
    }
  }

  /** Merging fails exactly when a required variable is empty. */
  lemma {:induction false} MergeFails(specs: seq<VariableSpec>, input: Variables)
    ensures Merge(specs, input).None? <==>
      exists v <- specs :: v.required && (if v.key in input then input[v.key] else v.defaultValue) == ""
  {
    if specs != [] {
      var n := |specs| - 1;
      MergeFails(specs[..n], input);
      assert specs[n] in specs && forall v <- specs[..n] :: v in specs;
      assert forall v <- specs :: v == specs[n] || v in specs[..n];
    }
  }

  /** Otherwise it gives a value to exactly the template's keys. */
  lemma {:induction false} MergedKeys(specs: seq<VariableSpec>, input: Variables)
    requires Merge(specs, input).Some?
    ensures Merge(specs, input).value.Keys == (set v <- specs :: v.key)
  {
    if specs != [] {
      var n := |specs| - 1;
      MergedKeys(specs[..n], input);
      assert forall v <- specs :: v == specs[n] || v in specs[..n];
      assert forall v <- specs[..n] :: v in specs;
      assert (set v <- specs :: v.key) == (set v <- specs[..n] :: v.key) + {specs[n].key};
    }
  }

  /** The last variable of a key decides its value: the input's, else that variable's default. */
  lemma {:induction false} MergedValue(specs: seq<VariableSpec>, input: Variables, i: nat)
    requires Merge(specs, input).Some? && i < |specs|
    requires forall j :: i < j < |specs| ==> specs[j].key != specs[i].key
    ensures specs[i].key in Merge(specs, input).value
    ensures Merge(specs, input).value[specs[i].key] ==
      if specs[i].key in input then input[specs[i].key] else specs[i].defaultValue
  {
    if i < |specs| - 1 {
      MergedValue(specs[..|specs| - 1], input, i);
    }
  }

  lemma {:induction false} MergeStops(specs: seq<VariableSpec>, input: Variables, k: nat)
    requires k <= |specs| && Merge(specs[..k], input).None?
    ensures Merge(specs, input).None?
    decreases |specs| - k
  {
    if k < |specs| {
      assert specs[..k + 1][..k] == specs[..k];
      MergeStops(specs, input, k + 1);
    } else {
      assert specs[..k] == specs;
    }
  }
}
