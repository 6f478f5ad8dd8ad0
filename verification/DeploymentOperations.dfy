/** When each operation on deployments is refused, and for what reason. */
module DeploymentOperations {
  import opened Deployments
  import opened Numerals
  import opened Wrappers

  // ---------------------------------------------------------------- variables

  function GivenOr(v: VariableSpec, input: Variables): string {
    if v.key in input then input[v.key] else v.defaultValue
  }

  /** Some required variable is given as empty, or is not given and has an empty default. */
  predicate LacksRequired(specs: seq<VariableSpec>, input: Variables) {
    exists v <- specs :: v.required && GivenOr(v, input) == ""
  }

  predicate Upper(c: char) { 'A' <= c <= 'Z' }

  /** A name of capital letters, digits and underscores. */
  predicate GoodKey(key: string) {
    forall i :: 0 <= i < |key| ==> Upper(key[i]) || '0' <= key[i] <= '9' || key[i] == '_'
  }

  /** A text without line ends and NUL. */
  predicate GoodValue(value: string) {
    forall i :: 0 <= i < |value| ==> value[i] as int != 13 && value[i] as int != 10 && value[i] as int != 0
  }

  /** `i` is the last variable of its key, the one that counts. */
  predicate Counts(specs: seq<VariableSpec>, i: nat)
    requires i < |specs|
  {
    forall j :: i < j < |specs| ==> specs[j].key != specs[i].key
  }

  predicate AllGood(specs: seq<VariableSpec>, input: Variables) {
    forall i :: 0 <= i < |specs| && Counts(specs, i) ==> GoodKey(specs[i].key) && GoodValue(GivenOr(specs[i], input))
  }

  lemma {:induction false} LastOfKey(specs: seq<VariableSpec>, key: string) returns (i: nat)
    requires exists v <- specs :: v.key == key
    ensures i < |specs| && Counts(specs, i) && specs[i].key == key
  {
    var n := |specs| - 1;
    if specs[n].key == key {
      i := n;
    } else {
      var v :| v in specs && v.key == key;
      assert v in specs[..n];
      i := LastOfKey(specs[..n], key);
    }
  }

  /** Variables that are merged are accepted exactly if every key and value is of the allowed characters. */
  lemma AcceptedIff(specs: seq<VariableSpec>, input: Variables)
    requires Merge(specs, input).Some?
    ensures ValidVariables(Merge(specs, input).value) <==> AllGood(specs, input)
  {
    var vars := Merge(specs, input).value;
    MergedKeys(specs, input);
    forall i | 0 <= i < |specs| && Counts(specs, i)
      ensures specs[i].key in vars && vars[specs[i].key] == GivenOr(specs[i], input)
    {
      MergedValue(specs, input, i);
    }
    if AllGood(specs, input) {
      forall k | k in vars ensures GoodKey(k) && GoodValue(vars[k]) {
        var i := LastOfKey(specs, k);
      }
    }
    if ValidVariables(vars) {
      forall i | 0 <= i < |specs| && Counts(specs, i)
        ensures GoodKey(specs[i].key) && GoodValue(GivenOr(specs[i], input))
      {
        assert specs[i].key in vars;
      }
    }
  }

  /** The variables of the next version are the merged ones, if the template is known, no required one is
      missing, and all are of the allowed characters. */
  lemma NewVariablesIff(template: Option<Template>, input: Variables)
    ensures NewVariables(template, input).Some? <==>
      template.Some? && !LacksRequired(template.value.variables, input) && AllGood(template.value.variables, input)
  {
    if template.Some? {
      MergeFails(template.value.variables, input);
      if Merge(template.value.variables, input).Some? {
        AcceptedIff(template.value.variables, input);
      }
    }
  }

  // ---------------------------------------------------------------- refusals

  /** Creating is refused for the first of these reasons, and otherwise succeeds. */
  lemma CreateRefusals(s: State, id: string, dir: string, template: Option<Template>, input: Variables)
    ensures var outcome := Create(s, id, dir, template, input);
      if template == None then outcome == Failed(NoTemplate)
      else if LacksRequired(template.value.variables, input) then outcome == Failed(MissingVariable)
      else if !AllGood(template.value.variables, input) then outcome == Failed(InvalidVariable)
      else outcome.Ok?
  {
    if template.Some? {
      MergeFails(template.value.variables, input);
      if Merge(template.value.variables, input).Some? {
        AcceptedIff(template.value.variables, input);
      }
    }
  }

  /** So is updating, where the input goes over the variables the deployment has. */
  lemma UpdateRefusals(s: State, id: string, template: Option<Template>, input: Variables)
    ensures var outcome, found := Update(s, id, template, input), Find(s.records, id);
      if forall d <- s.records :: d.id != id then outcome == Failed(NoDeployment)
      else if template == None then outcome == Failed(NoTemplate)
      else
        var specs, given := template.value.variables, found.value.variables + input;
        if LacksRequired(specs, given) then outcome == Failed(MissingVariable)
        else if !AllGood(specs, given) then outcome == Failed(InvalidVariable)
        else if found.value.composePath !in s.files then outcome == Failed(FileMissing)
        else outcome.Ok?
  {
    var found := Find(s.records, id);
    if found.Some? && template.Some? {
      var given := found.value.variables + input;
      MergeFails(template.value.variables, given);
      if Merge(template.value.variables, given).Some? {
        AcceptedIff(template.value.variables, given);
      }
    }
  }

  /** And rolling back. */
  lemma RollbackRefusals(s: State, id: string)
    ensures var outcome, found := Rollback(s, id), Find(s.records, id);
      if found == None || found.value.revisions == [] then outcome == Failed(NothingToRollBack)
      else if found.value.revisions[|found.value.revisions| - 1].composePath !in s.files
      then outcome == Failed(FileMissing)
      else outcome.Ok?
  {
  }

  // ---------------------------------------------------------------- files

  /** A deployment runs from the compose file in its directory, and a version is saved beside it under its number. */
  lemma FileNames(s: State, id: string, dir: string, template: Option<Template>, input: Variables, version: nat)
    ensures Create(s, id, dir, template, input).Ok? ==>
      var t := Create(s, id, dir, template, input).state;
      && t.records != [] && t.records[..|t.records| - 1] == s.records
      && var d := t.records[|t.records| - 1];
         && d.id == id && d.composePath == dir + "docker-compose.yml"
         && SavedAs(d.(version := version)).composePath == dir + ("docker-compose.v" + Digits(version, 10) + ".yml")
  {
    var path := dir + "docker-compose.yml";
    assert path[|path| - |COMPOSE|..] == COMPOSE && path[..|path| - |COMPOSE|] == dir;
  }
}
