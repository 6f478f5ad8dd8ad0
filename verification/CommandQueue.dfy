/** The connector command queue: signed commands are queued, claimed by their connector, completed,
    and created in bulk by upgrades. A signature is a free constructor over secret and payload. */
module CommandQueue {
  import opened AgentVersion
  import CanonicalJson
  import opened Collections
  import opened Wrappers

  const MAX_COMMANDS: nat := 500

  datatype Signature = Signed(secret: string, payload: string)

  datatype Status = Queued | Running | Success | Failure

  datatype Connector = Connector(
    id: string, tokenHash: string, version: Option<string>,
    upgradeStatus: Option<Compatibility>, upgradeTargetVersion: Option<string>)

  /** `fields` are the signed ones. */
  datatype Record = Record(fields: CanonicalJson.Command, payload: string, signature: Signature, status: Status,
      output: Option<string>)

  datatype State = State(connectors: seq<Connector>, commands: seq<Record>)

  datatype Result = Result(fields: CanonicalJson.CommandResult, signature: Option<Signature>)

  function FindId(connectors: seq<Connector>, id: string): (r: Option<Connector>)
    ensures r.Some? ==> r.value in connectors && r.value.id == id
    ensures r.None? ==> forall c <- connectors :: c.id != id
  {
    if connectors == [] then None
    else if connectors[0].id == id then Some(connectors[0]) else FindId(connectors[1..], id)
  }

  function FindToken(connectors: seq<Connector>, tokenHash: string): (r: Option<Connector>)
    ensures r.Some? ==> r.value in connectors && r.value.tokenHash == tokenHash
    ensures r.None? ==> forall c <- connectors :: c.tokenHash != tokenHash
  {
    if connectors == [] then None
    else if connectors[0].tokenHash == tokenHash then Some(connectors[0]) else FindToken(connectors[1..], tokenHash)
  }

  function FindCommand(commands: seq<Record>, id: string): (r: Option<Record>)
    ensures r.Some? ==> r.value in commands && r.value.fields.id == id
    ensures r.None? ==> forall c <- commands :: c.fields.id != id
  {
    if commands == [] then None
    else if commands[0].fields.id == id then Some(commands[0]) else FindCommand(commands[1..], id)
  }

  /** A new command, signed with its connector's token hash. */
  function Issue(c: Connector, id: string, command: string, args: seq<string>, now: string, actor: string): Record {
    var fields := CanonicalJson.Command(id, c.id, command, args, now, actor);
    var payload := CanonicalJson.CommandPayload(fields);
    Record(fields, payload, Signed(c.tokenHash, payload), Queued, None)
  }

  predicate IsQueuedFor(r: Record, connector: string) { r.fields.connectorId == connector && r.status.Queued? }

  /** The ids of the first `limit` commands queued for a connector. */
  function ClaimIds(commands: seq<Record>, connector: string, limit: nat): seq<string> {
    if commands == [] || limit == 0 then []
    else if IsQueuedFor(commands[0], connector)
    then [commands[0].fields.id] + ClaimIds(commands[1..], connector, limit - 1)
    else ClaimIds(commands[1..], connector, limit)
  }

  function Started(command: Record, ids: seq<string>): Record {
    if command.fields.id in ids then command.(status := Running) else command
  }

  function StartClaimed(commands: seq<Record>, ids: seq<string>): (r: seq<Record>)
    ensures |r| == |commands|
    ensures forall i :: 0 <= i < |r| ==> r[i] == Started(commands[i], ids)
  {
    seq(|commands|, i requires 0 <= i < |commands| => Started(commands[i], ids))
  }

  function Finish(commands: seq<Record>, id: string, updated: Record): (r: seq<Record>)
    ensures |r| == |commands|
    ensures forall i :: 0 <= i < |r| ==> r[i] == if commands[i].fields.id == id then updated else commands[i]
  {
    seq(|commands|, i requires 0 <= i < |commands| => if commands[i].fields.id == id then updated else commands[i])
  }

  /** Whether a result may complete a command: right connector, and a given signature must be right. */
  predicate Accepts(connector: Connector, command: Record, result: Result) {
    && command.fields.connectorId == connector.id
    && (result.signature.Some? ==>
          result.signature.value == Signed(connector.tokenHash, CanonicalJson.ResultPayload(result.fields)))
  }

  /** What `completeCommand` answers: nothing, an error, or the completed command. */
  datatype Completion = NoMatch | BadSignature | Done(record: Record)

  function CompletionOf(s: State, tokenHash: string, result: Result): Completion {
    var found, command := FindToken(s.connectors, tokenHash), FindCommand(s.commands, result.fields.commandId);
    if found.None? || command.None? || command.value.fields.connectorId != found.value.id then NoMatch
    else if !Accepts(found.value, command.value, result) then BadSignature
    else Done(Completed(command.value, result))
  }

  function Completed(command: Record, result: Result): Record {
    command.(status := if result.fields.status == "success" then Success else Failure,
        output := Some(result.fields.stdoutTail))
  }

  // ---------------------------------------------------------------- upgrades

  datatype Candidate = Candidate(connectorId: string, compatibility: Compatibility, target: string, eligible: bool)

  datatype UpgradeRequest = UpgradeRequest(connectorId: Option<string>, channel: string, target: string, percent: nat)

  /** `connectorCompatibility`: a target stored in the record goes before the requested one. */
  function Judge(c: Connector, target: string, percent: nat): Candidate {
    var desired := if c.upgradeTargetVersion.Some? then c.upgradeTargetVersion.value else target;
    var base := CompatibilityFor(c.version, desired);
    Candidate(c.id, if c.upgradeStatus == Some(Scheduled) && !base.Current? then Scheduled else base,
        desired, RolloutEligible(c.id, percent))
  }

  predicate Wanted(c: Connector, request: UpgradeRequest) {
    request.connectorId.None? || c.id == request.connectorId.value
  }

  predicate IsSelected(c: Connector, request: UpgradeRequest) {
    Wanted(c, request) && Judge(c, request.target, request.percent).eligible
        && !Judge(c, request.target, request.percent).compatibility.Current?
  }

  function Selected(connectors: seq<Connector>, request: UpgradeRequest): seq<Connector> {
    if connectors == [] then []
    else (if IsSelected(connectors[0], request) then [connectors[0]] else []) + Selected(connectors[1..], request)
  }

  function Skipped(connectors: seq<Connector>, request: UpgradeRequest): seq<Connector> {
    if connectors == [] then []
    else
      var others := Skipped(connectors[1..], request);
      if Wanted(connectors[0], request) && !IsSelected(connectors[0], request) then [connectors[0]] + others else others
  }

  function UpgradeCommands(selected: seq<Connector>, request: UpgradeRequest, ids: seq<string>,
      now: string, actor: string): (r: seq<Record>)
    requires |ids| == |selected|
    ensures |r| == |selected|
  {
    seq(|selected|, i requires 0 <= i < |selected| =>
      Issue(selected[i], ids[i], "agent.upgrade", [request.target, request.channel], now, actor))
  }

  function MarkScheduled(connectors: seq<Connector>, request: UpgradeRequest): (r: seq<Connector>)
    ensures |r| == |connectors|
    ensures forall i :: 0 <= i < |r| ==> r[i].id == connectors[i].id && r[i].tokenHash == connectors[i].tokenHash
  {
    seq(|connectors|, i requires 0 <= i < |connectors| =>
      if IsSelected(connectors[i], request)
      then connectors[i].(upgradeStatus := Some(Scheduled), upgradeTargetVersion := Some(request.target))
      else connectors[i])
  }

  /** A heartbeat stores the reported version and the target it was judged by. */
  function Beat(c: Connector, version: Option<string>): Connector {
    var reported := if version.Some? && version.value != "" then c.(version := version) else c;
    var judged := Judge(reported, RECOMMENDED, 100);
    reported.(upgradeStatus := Some(judged.compatibility), upgradeTargetVersion := Some(judged.target))
  }

  // ---------------------------------------------------------------- operations

  datatype Step =
    | Enroll(id: string, tokenHash: string)
    | Heartbeat(tokenHash: string, version: Option<string>)
    | Create(connectorId: string, id: string, command: string, args: seq<string>, now: string, actor: string)
    | Claim(tokenHash: string, limit: nat)
    | Complete(tokenHash: string, result: Result)
    | Upgrade(request: UpgradeRequest, ids: seq<string>, now: string, actor: string)

  /** The new state, and the ids of the commands handed out by a claim. */
  function Apply(s: State, step: Step): (r: (State, seq<string>)) {
    match step
    case Enroll(id, tokenHash) => (s.(connectors := s.connectors + [Connector(id, tokenHash, None, None, None)]), [])
    case Heartbeat(tokenHash, version) =>
      var found := FindToken(s.connectors, tokenHash);
      if found.None? then (s, []) else (s.(connectors := Update(s.connectors, Beat(found.value, version))), [])
    case Create(connectorId, id, command, args, now, actor) =>
      var found := FindId(s.connectors, connectorId);
      if found.None? then (s, [])
      else (s.(commands := Last(s.commands + [Issue(found.value, id, command, args, now, actor)], MAX_COMMANDS)), [])
    case Claim(tokenHash, limit) =>
      var found := FindToken(s.connectors, tokenHash);
      if found.None? then (s, []) else
        var ids := ClaimIds(s.commands, found.value.id, limit);
        (s.(commands := StartClaimed(s.commands, ids)), ids)
    case Complete(tokenHash, result) =>
      var found := FindToken(s.connectors, tokenHash);
      var command := FindCommand(s.commands, result.fields.commandId);
      if found.None? || command.None? || !Accepts(found.value, command.value, result) then (s, [])
      else (s.(commands := Finish(s.commands, command.value.fields.id, Completed(command.value, result))), [])
    case Upgrade(request, ids, now, actor) =>
      var selected := Selected(s.connectors, request);
      if |ids| != |selected| then (s, [])
      else (State(MarkScheduled(s.connectors, request),
          Last(s.commands + UpgradeCommands(selected, request, ids, now, actor), MAX_COMMANDS)), [])
  }

  function Update(connectors: seq<Connector>, c: Connector): (r: seq<Connector>)
    ensures |r| == |connectors|
    ensures forall i :: 0 <= i < |r| ==> r[i] == if connectors[i].id == c.id then c else connectors[i]
  {
    seq(|connectors|, i requires 0 <= i < |connectors| => if connectors[i].id == c.id then c else connectors[i])
  }

  class ConnectorStore {
    var connectors: seq<Connector>
    var commands: seq<Record>

    ghost function Now(): State
      reads this
    {
      State(connectors, commands)
    }

    constructor ()
      ensures Now() == State([], [])
    {
      connectors, commands := [], [];
    }

    /** `create`; `id` and the token behind `tokenHash` are freshly generated. */
    method EnrollConnector(id: string, tokenHash: string)
      modifies this
      ensures Now() == Apply(old(Now()), Enroll(id, tokenHash)).0
    {
      connectors := connectors + [Connector(id, tokenHash, None, None, None)];
    }

    method RecordHeartbeat(tokenHash: string, version: Option<string>) returns (known: bool)
      modifies this
      ensures Now() == Apply(old(Now()), Heartbeat(tokenHash, version)).0
      ensures known <==> FindToken(old(connectors), tokenHash).Some?
    {
      var connector := FindToken(connectors, tokenHash);
      if connector.None? {
        return false;
      }
      connectors := Update(connectors, Beat(connector.value, version));
      known := true;
    }

    method CreateCommand(connectorId: string, id: string, command: string, args: seq<string>, now: string,
        actor: string)
      returns (created: Option<Record>)
      modifies this
      ensures Now() == Apply(old(Now()), Create(connectorId, id, command, args, now, actor)).0
      ensures created.Some? <==> FindId(connectors, connectorId).Some?
    {
      var connector := FindId(connectors, connectorId);
      if connector.None? {
        return None;
      }
      var record := Issue(connector.value, id, command, args, now, actor);
      commands := Last(commands + [record], MAX_COMMANDS);
      created := Some(record);
    }

    method ClaimCommands(tokenHash: string, limit: nat) returns (claimed: seq<string>)
      modifies this
      ensures (Now(), claimed) == Apply(old(Now()), Claim(tokenHash, limit))
    {
      var connector := FindToken(connectors, tokenHash);
      if connector.None? {
        return [];
      }
      claimed := ClaimIds(commands, connector.value.id, limit);
      commands := StartClaimed(commands, claimed);
    }

    method CompleteCommand(tokenHash: string, result: Result) returns (completion: Completion)
      modifies this
      ensures Now() == Apply(old(Now()), Complete(tokenHash, result)).0
      ensures completion == CompletionOf(old(Now()), tokenHash, result)
      ensures completion.Done? ==> completion.record in commands
      ensures completion.Done? ==> completion.record.fields.id == result.fields.commandId
      ensures !completion.Done? ==> Now() == old(Now())
    {
      var connector := FindToken(connectors, tokenHash);
      var command := FindCommand(commands, result.fields.commandId);
      if connector.None? || command.None? || command.value.fields.connectorId != connector.value.id {
        return NoMatch;
      }
      if result.signature.Some? &&
         result.signature.value != Signed(connector.value.tokenHash, CanonicalJson.ResultPayload(result.fields)) {
        return BadSignature;
      }
      var updated := Completed(command.value, result);
      ghost var i :| 0 <= i < |commands| && commands[i] == command.value;
      commands := Finish(commands, command.value.fields.id, updated);
      assert commands[i] == updated;
      completion := Done(updated);
    }

    method ScheduleUpgrade(request: UpgradeRequest, ids: seq<string>, now: string, actor: string)
      returns (selected: seq<Connector>, skipped: seq<Connector>)
      requires |ids| == |Selected(connectors, request)|
      modifies this
      ensures Now() == Apply(old(Now()), Upgrade(request, ids, now, actor)).0
      ensures selected == Selected(old(connectors), request) && skipped == Skipped(old(connectors), request)
    {
      selected := Selected(connectors, request);
      skipped := Skipped(connectors, request);
      commands := Last(commands + UpgradeCommands(selected, request, ids, now, actor), MAX_COMMANDS);
      connectors := MarkScheduled(connectors, request);
    }
  }
}
