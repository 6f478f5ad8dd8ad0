/** What each operation of the command queue does, told by the records it leaves. */
module CommandOperations {
  import opened AgentVersion
  import CanonicalJson
  import opened Collections
  import opened CommandQueue
  import opened CommandQueueRuns
  import opened Wrappers

  function Handed(r: Record, ids: seq<string>): Record {
    if r.fields.id in ids then Record(r.fields, r.payload, r.signature, Running, r.output) else r
  }

  /** A claim hands a known connector the oldest commands queued for it, as many as it asked for or all
      there are, and makes exactly these running; an unknown token gets nothing. */
  lemma ClaimHandsOut(h: History, tokenHash: string, limit: nat)
    requires Valid(h)
    ensures var (after, ids) := Apply(h.state, Claim(tokenHash, limit));
      && after.connectors == h.state.connectors && |after.commands| == |h.state.commands|
      && (forall i :: 0 <= i < |after.commands| ==> after.commands[i] == Handed(h.state.commands[i], ids))
      && (forall c <- h.state.connectors :: c.tokenHash == tokenHash ==>
            Oldest(h.issued, h.state.commands, c.id, ids, limit))
      && ((forall c <- h.state.connectors :: c.tokenHash != tokenHash) ==> ids == [])
  {
    var found := FindToken(h.state.connectors, tokenHash);
    if found.Some? {
      ClaimTakesOldest(h.issued, h.state.commands, found.value.id, limit);
      forall c | c in h.state.connectors && c.tokenHash == tokenHash ensures c == found.value {
        OnlyConnector(h.state.connectors, c, found.value);
      }
    }
  }

  /** A new connector is found by its token and has reported nothing yet; all others are found as before. */
  lemma EnrollAdds(h: History, id: string, tokenHash: string, other: string)
    requires Valid(h) && Allowed(h, Enroll(id, tokenHash))
    ensures var after := Apply(h.state, Enroll(id, tokenHash)).0;
      && after.commands == h.state.commands
      && FindToken(after.connectors, other) ==
         if other == tokenHash then Some(Connector(id, tokenHash, None, None, None))
         else FindToken(h.state.connectors, other)
  {
    FindAppended(h.state.connectors, Connector(id, tokenHash, None, None, None), other);
  }

  lemma {:induction false} FindAppended(connectors: seq<Connector>, c: Connector, tokenHash: string)
    ensures FindToken(connectors + [c], tokenHash) ==
      if FindToken(connectors, tokenHash).Some? then FindToken(connectors, tokenHash)
      else if c.tokenHash == tokenHash then Some(c) else None
  {
    var all := connectors + [c];
    if connectors == [] {
      assert all == [c] && all[1..] == [];
    } else {
      assert all[0] == connectors[0] && all[1..] == connectors[1..] + [c];
      FindAppended(connectors[1..], c, tokenHash);
    }
  }

  /** A heartbeat changes the connector with this token only: a version that is given replaces the old one, a
      stored target stays and is otherwise the recommended version, and the status is how the version stands
      to the target, except that a scheduled upgrade stays so until the target is reached. */
  lemma HeartbeatSets(h: History, tokenHash: string, version: Option<string>, i: nat)
    requires Valid(h) && i < |h.state.connectors|
    ensures var after, c := Apply(h.state, Heartbeat(tokenHash, version)).0, h.state.connectors[i];
      && after.commands == h.state.commands && |after.connectors| == |h.state.connectors|
      && var d := after.connectors[i];
         if c.tokenHash != tokenHash then d == c
         else
           && d.id == c.id && d.tokenHash == c.tokenHash
           && d.version == (if version == None || version == Some("") then c.version else version)
           && d.upgradeTargetVersion ==
              Some(if c.upgradeTargetVersion.Some? then c.upgradeTargetVersion.value else "node-agent-0.2")
           && var stands := CompatibilityFor(d.version, d.upgradeTargetVersion.value);
              d.upgradeStatus == Some(if c.upgradeStatus == Some(Scheduled) && stands != Current then Scheduled
                                      else stands)
  {
    var connectors := h.state.connectors;
    var found := FindToken(connectors, tokenHash);
    if found.Some? && (connectors[i].tokenHash == tokenHash || connectors[i].id == found.value.id) {
      OnlyConnector(connectors, connectors[i], found.value);
    }
  }

  /** A created command is the newest: it carries what was given, is signed under its connector's key over
      these fields, and waits to be claimed; for an unknown connector nothing changes. */
  lemma CreateQueues(s: State, step: Step)
    requires step.Create?
    ensures var after, found := Apply(s, step).0, FindId(s.connectors, step.connectorId);
      && after.connectors == s.connectors
      && if found.None? then after == s
         else
           && after.commands != [] && after.commands[..|after.commands| - 1] == Last(s.commands, 499)
           && var r := after.commands[|after.commands| - 1];
              && r.fields.id == step.id && r.fields.connectorId == step.connectorId
              && r.fields.command == step.command && r.fields.args == step.args
              && r.fields.createdAt == step.now && r.fields.createdBy == step.actor
              && r.payload == CanonicalJson.CommandPayload(r.fields)
              && r.signature == Signed(found.value.tokenHash, r.payload) && r.status.Queued? && r.output == None
  {
  }

  lemma FoundCommand(h: History, r: Record)
    requires Valid(h) && r in h.state.commands
    ensures FindCommand(h.state.commands, r.fields.id) == Some(r)
    ensures forall q <- h.state.commands :: q.fields.id == r.fields.id ==> q == r
  {
    var i :| 0 <= i < |h.state.commands| && h.state.commands[i] == r;
    forall k | 0 <= k < |h.state.commands| && h.state.commands[k].fields.id == r.fields.id ensures k == i {
      OnlyOne(h, k, i);
    }
  }

  lemma FoundConnector(h: History, c: Connector)
    requires Valid(h) && c in h.state.connectors
    ensures FindToken(h.state.connectors, c.tokenHash) == Some(c)
  {
    OnlyConnector(h.state.connectors, c, FindToken(h.state.connectors, c.tokenHash).value);
  }

  /** A result completes a command exactly if its token is that of the command's connector and its signature, if
      it has one, is right: the command then takes the result's status and output. */
  lemma CompletesIff(h: History, c: Connector, r: Record, result: Result)
    requires Valid(h) && c in h.state.connectors && r in h.state.commands && r.fields.id == result.fields.commandId
    ensures CompletionOf(h.state, c.tokenHash, result) ==
      if r.fields.connectorId != c.id then NoMatch
      else if result.signature.Some? &&
          result.signature != Some(Signed(c.tokenHash, CanonicalJson.ResultPayload(result.fields))) then BadSignature
      else Done(Record(r.fields, r.payload, r.signature, if result.fields.status == "success" then Success else Failure,
          Some(result.fields.stdoutTail)))
  {
    FoundConnector(h, c);
    FoundCommand(h, r);
  }

  /** And exactly this record changes, and only if it was completed. */
  lemma CompletesOne(h: History, c: Connector, r: Record, result: Result, i: nat)
    requires Valid(h) && c in h.state.connectors && r in h.state.commands && r.fields.id == result.fields.commandId
    requires i < |h.state.commands|
    ensures var after, completion := Apply(h.state, Complete(c.tokenHash, result)).0,
        CompletionOf(h.state, c.tokenHash, result);
      && after.connectors == h.state.connectors && |after.commands| == |h.state.commands|
      && after.commands[i] ==
         if completion.Done? && h.state.commands[i] == r then completion.record else h.state.commands[i]
  {
    FoundConnector(h, c);
    FoundCommand(h, r);
  }

  /** And a token or a command id that is not known matches nothing. */
  lemma CompletesNothing(s: State, tokenHash: string, result: Result)
    requires (forall c <- s.connectors :: c.tokenHash != tokenHash) ||
        forall r <- s.commands :: r.fields.id != result.fields.commandId
    ensures CompletionOf(s, tokenHash, result) == NoMatch && Apply(s, Complete(tokenHash, result)).0 == s
  {
  }
}
