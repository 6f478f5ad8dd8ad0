/** What holds of the command queue in every run: each command is handed out at most once, first in
    first out per connector, its phase never goes back, and its signature stays right. */
module CommandQueueRuns {
  import opened AgentVersion
  import CanonicalJson
  import opened Collections
  import opened CommandQueue
  import opened Wrappers

  /** When a command was created, counting from zero, and for which connector. */
  datatype Entry = Entry(serial: nat, connectorId: string)

  datatype Handout = Handout(connectorId: string, id: string)

  /** The state, every command id ever issued, and every command ever handed out, in order. */
  datatype History = History(state: State, issued: map<string, Entry>, handouts: seq<Handout>)

  function Register(issued: map<string, Entry>, records: seq<Record>, start: nat): map<string, Entry>
    decreases |records|
  {
    if records == [] then issued
    else Register(issued[records[0].fields.id := Entry(start, records[0].fields.connectorId)], records[1..], start + 1)
  }

  /** The records a step adds. */
  function Added(s: State, step: Step): seq<Record> {
    match step
    case Create(connectorId, id, command, args, now, actor) =>
      var found := FindId(s.connectors, connectorId);
      if found.None? then [] else [Issue(found.value, id, command, args, now, actor)]
    case Upgrade(request, ids, now, actor) =>
      var selected := Selected(s.connectors, request);
      if |ids| != |selected| then [] else UpgradeCommands(selected, request, ids, now, actor)
    case _ => []
  }

  function Handouts(connector: string, ids: seq<string>): (r: seq<Handout>)
    ensures |r| == |ids|
  {
    seq(|ids|, i requires 0 <= i < |ids| => Handout(connector, ids[i]))
  }

  function Advance(h: History, step: Step): History {
    var r := Apply(h.state, step);
    var owner := if step.Claim? && FindToken(h.state.connectors, step.tokenHash).Some?
                 then FindToken(h.state.connectors, step.tokenHash).value.id else "";
    History(r.0, Register(h.issued, Added(h.state, step), |h.issued|), h.handouts + Handouts(owner, r.1))
  }

  /** Generated ids and tokens are fresh. */
  predicate Allowed(h: History, step: Step) {
    match step
    case Enroll(id, tokenHash) => forall c <- h.state.connectors :: c.id != id && c.tokenHash != tokenHash
    case Create(_, id, _, _, _, _) => id !in h.issued
    case Upgrade(_, ids, _, _) =>
      (forall id <- ids :: id !in h.issued) && forall i, j :: 0 <= i < j < |ids| ==> ids[i] != ids[j]
    case _ => true
  }

  // ---------------------------------------------------------------- the invariant

  predicate DistinctConnectors(connectors: seq<Connector>) {
    forall i, j :: 0 <= i < j < |connectors| ==>
      connectors[i].id != connectors[j].id && connectors[i].tokenHash != connectors[j].tokenHash
  }

  /** The record is signed over its own fields under its own connector's key. */
  predicate WellSigned(connectors: seq<Connector>, r: Record) {
    && r.payload == CanonicalJson.CommandPayload(r.fields)
    && exists c <- connectors :: c.id == r.fields.connectorId && r.signature == Signed(c.tokenHash, r.payload)
  }

  predicate AllSigned(connectors: seq<Connector>, commands: seq<Record>) {
    forall r <- commands :: WellSigned(connectors, r)
  }

  predicate Serials(issued: map<string, Entry>) {
    && (forall id <- issued :: issued[id].serial < |issued|)
    && forall x, y :: x in issued && y in issued && x != y ==> issued[x].serial != issued[y].serial
  }

  predicate Registered(issued: map<string, Entry>, r: Record) {
    r.fields.id in issued && issued[r.fields.id].connectorId == r.fields.connectorId
  }

  /** Stored in creation order. */
  predicate Ordered(issued: map<string, Entry>, commands: seq<Record>) {
    && (forall i :: 0 <= i < |commands| ==> Registered(issued, commands[i]))
    && forall i, j :: 0 <= i < j < |commands| ==>
        issued[commands[i].fields.id].serial < issued[commands[j].fields.id].serial
  }

  predicate KnownHandout(issued: map<string, Entry>, x: Handout) {
    x.id in issued && issued[x.id].connectorId == x.connectorId
  }

  /** First in, first out: a connector's handouts follow creation order, and all it got is older than
      all that is still queued for it. */
  predicate Fifo(issued: map<string, Entry>, handouts: seq<Handout>, commands: seq<Record>)
    requires Ordered(issued, commands)
  {
    && (forall k :: 0 <= k < |handouts| ==> KnownHandout(issued, handouts[k]))
    && (forall k, l :: 0 <= k < l < |handouts| && handouts[k].connectorId == handouts[l].connectorId ==>
          issued[handouts[k].id].serial < issued[handouts[l].id].serial)
    && (forall k, i :: 0 <= k < |handouts| && 0 <= i < |commands| && IsQueuedFor(commands[i], handouts[k].connectorId)
          ==> issued[handouts[k].id].serial < issued[commands[i].fields.id].serial)
  }

  predicate Valid(h: History) {
    && DistinctConnectors(h.state.connectors)
    && AllSigned(h.state.connectors, h.state.commands)
    && |h.state.commands| <= MAX_COMMANDS
    && Serials(h.issued) && Ordered(h.issued, h.state.commands) && Fifo(h.issued, h.handouts, h.state.commands)
  }

  /** No command is handed out twice. */
  lemma HandedOutOnce(h: History, k: nat, l: nat)
    requires Valid(h) && k < l < |h.handouts|
    ensures h.handouts[k].id != h.handouts[l].id
  {
    assert KnownHandout(h.issued, h.handouts[k]) && KnownHandout(h.issued, h.handouts[l]);
  }

  // ---------------------------------------------------------------- claiming

  function SerialOf(issued: map<string, Entry>, id: string): nat { if id in issued then issued[id].serial else 0 }

  predicate IsClaimable(commands: seq<Record>, connector: string, id: string) {
    exists r <- commands :: r.fields.id == id && IsQueuedFor(r, connector)
  }

  lemma OrderedTail(issued: map<string, Entry>, commands: seq<Record>)
    requires Ordered(issued, commands) && commands != []
    ensures Ordered(issued, commands[1..])
    ensures forall r <- commands[1..] :: SerialOf(issued, commands[0].fields.id) < SerialOf(issued, r.fields.id)
  {
    var rest := commands[1..];
    forall i, j | 0 <= i < j < |rest| ensures issued[rest[i].fields.id].serial < issued[rest[j].fields.id].serial {
      assert rest[i] == commands[i + 1] && rest[j] == commands[j + 1];
    }
    forall r | r in rest ensures SerialOf(issued, commands[0].fields.id) < SerialOf(issued, r.fields.id) {
      var i :| 0 <= i < |rest| && rest[i] == r;
      assert commands[i + 1] == r;
      assert Registered(issued, commands[0]) && Registered(issued, commands[i + 1]);
    }
  }

  predicate AllClaimable(commands: seq<Record>, connector: string, ids: seq<string>) {
    forall id <- ids :: IsClaimable(commands, connector, id)
  }

  predicate InOrder(issued: map<string, Entry>, ids: seq<string>) {
    forall k, l :: 0 <= k < l < |ids| ==> SerialOf(issued, ids[k]) < SerialOf(issued, ids[l])
  }

  /** What stays queued for the connector is newer. */
  predicate LeftAreNewer(issued: map<string, Entry>, commands: seq<Record>, connector: string, ids: seq<string>) {
    forall r <- commands :: LeftQueued(r, connector, ids) ==>
        forall id <- ids :: SerialOf(issued, id) < SerialOf(issued, r.fields.id)
  }

  /** `ids` are, in creation order, the oldest commands queued for the connector, and all of them when
      fewer than `limit`. */
  predicate Oldest(issued: map<string, Entry>, commands: seq<Record>, connector: string, ids: seq<string>, limit: nat) {
    && |ids| <= limit && AllClaimable(commands, connector, ids) && InOrder(issued, ids)
    && LeftAreNewer(issued, commands, connector, ids)
    && (|ids| < limit ==> forall r <- commands :: !LeftQueued(r, connector, ids))
  }

  predicate LeftQueued(r: Record, connector: string, ids: seq<string>) {
    IsQueuedFor(r, connector) && r.fields.id !in ids
  }

  lemma TailClaimable(commands: seq<Record>, connector: string, id: string)
    requires commands != [] && IsClaimable(commands[1..], connector, id)
    ensures IsClaimable(commands, connector, id)
  {
    var r :| r in commands[1..] && r.fields.id == id && IsQueuedFor(r, connector);
    assert r in commands;
  }

  lemma LeftInTail(commands: seq<Record>, connector: string, rest: seq<string>, r: Record)
    requires commands != [] && r in commands && LeftQueued(r, connector, [commands[0].fields.id] + rest)
    ensures r in commands[1..] && LeftQueued(r, connector, rest)
  {
    NotPrepended(commands[0].fields.id, rest, r.fields.id);
  }

  lemma NotPrepended(head: string, rest: seq<string>, id: string)
    requires id !in [head] + rest
    ensures id != head && id !in rest
  {
    assert head == ([head] + rest)[0];
    assert forall k :: 0 <= k < |rest| ==> rest[k] == ([head] + rest)[k + 1];
  }

  lemma ClaimableHead(issued: map<string, Entry>, commands: seq<Record>, connector: string, rest: seq<string>)
    requires Ordered(issued, commands) && commands != [] && IsQueuedFor(commands[0], connector)
    requires AllClaimable(commands[1..], connector, rest)
    ensures AllClaimable(commands, connector, [commands[0].fields.id] + rest)
    ensures forall id <- rest :: SerialOf(issued, commands[0].fields.id) < SerialOf(issued, id)
  {
    assert commands[0] in commands;
    OrderedTail(issued, commands);
    forall id | id in rest ensures IsClaimable(commands, connector, id) {
      TailClaimable(commands, connector, id);
    }
  }

  lemma HeadInOrder(issued: map<string, Entry>, head: string, rest: seq<string>)
    requires InOrder(issued, rest) && forall id <- rest :: SerialOf(issued, head) < SerialOf(issued, id)
    ensures InOrder(issued, [head] + rest)
  {
  }

  lemma HeadIsOlder(issued: map<string, Entry>, commands: seq<Record>, connector: string, rest: seq<string>)
    requires Ordered(issued, commands) && commands != []
    requires LeftAreNewer(issued, commands[1..], connector, rest)
    ensures LeftAreNewer(issued, commands, connector, [commands[0].fields.id] + rest)
  {
    OrderedTail(issued, commands);
    forall r | r in commands && LeftQueued(r, connector, [commands[0].fields.id] + rest)
      ensures forall id <- [commands[0].fields.id] + rest :: SerialOf(issued, id) < SerialOf(issued, r.fields.id)
    {
      LeftInTail(commands, connector, rest, r);
    }
  }

  lemma TakeHead(issued: map<string, Entry>, commands: seq<Record>, connector: string, rest: seq<string>, limit: nat)
    requires Ordered(issued, commands) && commands != [] && IsQueuedFor(commands[0], connector)
    requires Oldest(issued, commands[1..], connector, rest, limit)
    ensures Oldest(issued, commands, connector, [commands[0].fields.id] + rest, limit + 1)
  {
    ClaimableHead(issued, commands, connector, rest);
    HeadInOrder(issued, commands[0].fields.id, rest);
    HeadIsOlder(issued, commands, connector, rest);
    forall r | r in commands && LeftQueued(r, connector, [commands[0].fields.id] + rest)
      ensures r in commands[1..] && LeftQueued(r, connector, rest)
    {
      LeftInTail(commands, connector, rest, r);
    }
  }

  lemma SkipHead(issued: map<string, Entry>, commands: seq<Record>, connector: string, ids: seq<string>, limit: nat)
    requires commands != [] && !IsQueuedFor(commands[0], connector)
    requires Oldest(issued, commands[1..], connector, ids, limit)
    ensures Oldest(issued, commands, connector, ids, limit)
  {
    forall id | id in ids ensures IsClaimable(commands, connector, id) {
      TailClaimable(commands, connector, id);
    }
    assert forall r <- commands :: r == commands[0] || r in commands[1..];
  }

  /** A claim hands out, in creation order, the oldest commands queued for the connector, and stops
      short of the limit only when there are no more. */
  lemma {:induction false} ClaimTakesOldest(issued: map<string, Entry>, commands: seq<Record>, connector: string,
      limit: nat)
    requires Ordered(issued, commands)
    ensures Oldest(issued, commands, connector, ClaimIds(commands, connector, limit), limit)
  {
    if commands != [] && limit > 0 {
      OrderedTail(issued, commands);
      if IsQueuedFor(commands[0], connector) {
        ClaimTakesOldest(issued, commands[1..], connector, limit - 1);
        TakeHead(issued, commands, connector, ClaimIds(commands[1..], connector, limit - 1), limit - 1);
      } else {
        ClaimTakesOldest(issued, commands[1..], connector, limit);
        SkipHead(issued, commands, connector, ClaimIds(commands[1..], connector, limit), limit);
      }
    }
  }

  // ---------------------------------------------------------------- one step

  predicate SameIdentities(before: seq<Connector>, after: seq<Connector>) {
    |before| <= |after| &&
    forall i :: 0 <= i < |before| ==> after[i].id == before[i].id && after[i].tokenHash == before[i].tokenHash
  }

  /** Connectors that keep their ids and keys keep every signature right. */
  lemma KeysKept(before: seq<Connector>, after: seq<Connector>, commands: seq<Record>)
    requires SameIdentities(before, after) && AllSigned(before, commands)
    ensures AllSigned(after, commands)
  {
    forall r | r in commands ensures WellSigned(after, r) {
      var i :| 0 <= i < |before| && before[i].id == r.fields.connectorId &&
          r.signature == Signed(before[i].tokenHash, r.payload);
      assert after[i] in after;
    }
  }

  lemma ConnectorsValid(h: History, connectors: seq<Connector>)
    requires Valid(h) && SameIdentities(h.state.connectors, connectors) && DistinctConnectors(connectors)
    ensures Valid(h.(state := h.state.(connectors := connectors)))
  {
    KeysKept(h.state.connectors, connectors, h.state.commands);
  }

  predicate Kept(issued: map<string, Entry>, all: map<string, Entry>) {
    forall id <- issued :: id in all && all[id] == issued[id]
  }

  /** The records are registered one after the other. */
  predicate EntriesFrom(all: map<string, Entry>, records: seq<Record>, start: nat) {
    forall i :: 0 <= i < |records| ==>
      records[i].fields.id in all && all[records[i].fields.id] == Entry(start + i, records[i].fields.connectorId)
  }

  lemma EntriesCons(all: map<string, Entry>, records: seq<Record>, start: nat)
    requires records != [] && EntriesFrom(all, records[1..], start + 1)
    requires records[0].fields.id in all && all[records[0].fields.id] == Entry(start, records[0].fields.connectorId)
    ensures EntriesFrom(all, records, start)
  {
    forall i | 0 < i < |records|
      ensures records[i].fields.id in all
      ensures all[records[i].fields.id] == Entry(start + i, records[i].fields.connectorId)
    {
      assert records[i] == records[1..][i - 1];
    }
  }

  lemma {:induction false} RegisterNew(issued: map<string, Entry>, records: seq<Record>)
    requires Serials(issued)
    requires forall i :: 0 <= i < |records| ==> records[i].fields.id !in issued
    requires forall i, j :: 0 <= i < j < |records| ==> records[i].fields.id != records[j].fields.id
    ensures var all := Register(issued, records, |issued|);
      Serials(all) && |all| == |issued| + |records| && Kept(issued, all) && EntriesFrom(all, records, |issued|)
    decreases |records|
  {
    if records != [] {
      var next := issued[records[0].fields.id := Entry(|issued|, records[0].fields.connectorId)];
      RegisterOne(issued, records[0]);
      RegisterNew(next, records[1..]);
      EntriesCons(Register(issued, records, |issued|), records, |issued|);
    }
  }

  lemma RegisterOne(issued: map<string, Entry>, r: Record)
    requires Serials(issued) && r.fields.id !in issued
    ensures var next := issued[r.fields.id := Entry(|issued|, r.fields.connectorId)];
      Serials(next) && |next| == |issued| + 1
  {
    var next := issued[r.fields.id := Entry(|issued|, r.fields.connectorId)];
    assert next.Keys == issued.Keys + {r.fields.id};
  }

  lemma LaterEntries(issued: map<string, Entry>, all: map<string, Entry>, handouts: seq<Handout>, commands: seq<Record>)
    requires Kept(issued, all) && Ordered(issued, commands) && Fifo(issued, handouts, commands)
    ensures Ordered(all, commands) && Fifo(all, handouts, commands)
  {
  }

  /** Appending freshly registered commands. */
  lemma AppendOrdered(all: map<string, Entry>, handouts: seq<Handout>, commands: seq<Record>, records: seq<Record>,
      start: nat)
    requires Ordered(all, commands) && Fifo(all, handouts, commands)
    requires forall i :: 0 <= i < |commands| ==> all[commands[i].fields.id].serial < start
    requires forall k :: 0 <= k < |handouts| ==> all[handouts[k].id].serial < start
    requires EntriesFrom(all, records, start)
    ensures Ordered(all, commands + records) && Fifo(all, handouts, commands + records)
  {
    var joined := commands + records;
    assert forall i :: 0 <= i < |joined| ==>
      joined[i] == if i < |commands| then commands[i] else records[i - |commands|];
  }

  lemma LastOrdered(all: map<string, Entry>, handouts: seq<Handout>, commands: seq<Record>)
    requires Ordered(all, commands) && Fifo(all, handouts, commands)
    ensures Ordered(all, Last(commands, MAX_COMMANDS)) && Fifo(all, handouts, Last(commands, MAX_COMMANDS))
  {
    var kept := Last(commands, MAX_COMMANDS);
    var drop := |commands| - |kept|;
    assert forall i :: 0 <= i < |kept| ==> kept[i] == commands[i + drop];
  }

  lemma {:induction false} AddOrdered(h: History, records: seq<Record>)
    requires Valid(h)
    requires forall i :: 0 <= i < |records| ==> records[i].fields.id !in h.issued
    requires forall i, j :: 0 <= i < j < |records| ==> records[i].fields.id != records[j].fields.id
    ensures var all := Register(h.issued, records, |h.issued|);
      var commands := Last(h.state.commands + records, MAX_COMMANDS);
      Serials(all) && Ordered(all, commands) && Fifo(all, h.handouts, commands)
  {
    var commands := h.state.commands;
    var all := Register(h.issued, records, |h.issued|);
    RegisterNew(h.issued, records);
    LaterEntries(h.issued, all, h.handouts, commands);
    forall i | 0 <= i < |commands| ensures all[commands[i].fields.id].serial < |h.issued| {
      assert Registered(h.issued, commands[i]);
    }
    forall k | 0 <= k < |h.handouts| ensures all[h.handouts[k].id].serial < |h.issued| {
      assert KnownHandout(h.issued, h.handouts[k]);
    }
    AppendOrdered(all, h.handouts, commands, records, |h.issued|);
    LastOrdered(all, h.handouts, commands + records);
  }

  lemma LastWithin(commands: seq<Record>)
    ensures |Last(commands, MAX_COMMANDS)| <= MAX_COMMANDS && forall r <- Last(commands, MAX_COMMANDS) :: r in commands
  {
  }

  lemma AddValid(h: History, connectors: seq<Connector>, records: seq<Record>)
    requires Valid(h) && DistinctConnectors(connectors) && SameIdentities(h.state.connectors, connectors)
    requires AllSigned(connectors, records) && forall i :: 0 <= i < |records| ==> records[i].fields.id !in h.issued
    requires forall i, j :: 0 <= i < j < |records| ==> records[i].fields.id != records[j].fields.id
    ensures Valid(History(State(connectors, Last(h.state.commands + records, MAX_COMMANDS)),
                          Register(h.issued, records, |h.issued|), h.handouts))
  {
    AddOrdered(h, records);
    KeysKept(h.state.connectors, connectors, h.state.commands);
    LastWithin(h.state.commands + records);
  }

  lemma IssueSigned(connectors: seq<Connector>, c: Connector, known: Connector,
      id: string, command: string, args: seq<string>, now: string, actor: string)
    requires c in connectors && c.id == known.id && c.tokenHash == known.tokenHash
    ensures WellSigned(connectors, Issue(known, id, command, args, now, actor))
  {
  }

  /** Records changed in place, none of them queued anew, keep order and fairness. */
  lemma ChangeOrdered(issued: map<string, Entry>, handouts: seq<Handout>, before: seq<Record>, after: seq<Record>)
    requires Ordered(issued, before) && Fifo(issued, handouts, before) && |after| == |before|
    requires forall i :: 0 <= i < |before| ==>
      after[i].fields == before[i].fields && (after[i].status.Queued? ==> before[i].status.Queued?)
    ensures Ordered(issued, after) && Fifo(issued, handouts, after)
  {
    forall i | 0 <= i < |after| ensures Registered(issued, after[i]) {
      assert Registered(issued, before[i]);
    }
    forall k, i | 0 <= k < |handouts| && 0 <= i < |after| && IsQueuedFor(after[i], handouts[k].connectorId)
      ensures issued[handouts[k].id].serial < issued[after[i].fields.id].serial
    {
      assert IsQueuedFor(before[i], handouts[k].connectorId);
    }
  }

  lemma ChangedSigned(connectors: seq<Connector>, before: seq<Record>, after: seq<Record>)
    requires AllSigned(connectors, before) && |after| == |before|
    requires forall i :: 0 <= i < |before| ==>
      after[i].fields == before[i].fields && after[i].payload == before[i].payload &&
          after[i].signature == before[i].signature
    ensures AllSigned(connectors, after)
  {
    forall i | 0 <= i < |after| ensures WellSigned(connectors, after[i]) {
      assert WellSigned(connectors, before[i]);
    }
  }

  lemma ClaimedKnown(issued: map<string, Entry>, commands: seq<Record>, connector: string, id: string)
    requires Ordered(issued, commands) && IsClaimable(commands, connector, id)
    ensures id in issued && issued[id].connectorId == connector
  {
    var i :| 0 <= i < |commands| && commands[i].fields.id == id && IsQueuedFor(commands[i], connector);
    assert Registered(issued, commands[i]);
  }

  /** Handing out ids that are newer than what the connector got and older than what it has queued. */
  lemma FifoAppend(issued: map<string, Entry>, handouts: seq<Handout>, commands: seq<Record>, connector: string,
      ids: seq<string>)
    requires Ordered(issued, commands) && Fifo(issued, handouts, commands)
    requires forall k :: 0 <= k < |ids| ==> KnownHandout(issued, Handout(connector, ids[k]))
    requires forall k, l :: 0 <= k < l < |ids| ==> SerialOf(issued, ids[k]) < SerialOf(issued, ids[l])
    requires forall k, l :: 0 <= k < |handouts| && 0 <= l < |ids| && handouts[k].connectorId == connector ==>
      SerialOf(issued, handouts[k].id) < SerialOf(issued, ids[l])
    requires forall k, i :: 0 <= k < |ids| && 0 <= i < |commands| && IsQueuedFor(commands[i], connector) ==>
      SerialOf(issued, ids[k]) < SerialOf(issued, commands[i].fields.id)
    ensures Fifo(issued, handouts + Handouts(connector, ids), commands)
  {
    var all, n := handouts + Handouts(connector, ids), |handouts|;
    forall k | 0 <= k < |all| ensures KnownHandout(issued, all[k]) {
      assert all[k] == if k < n then handouts[k] else Handout(connector, ids[k - n]);
    }
    forall k, l | 0 <= k < l < |all| && all[k].connectorId == all[l].connectorId
      ensures issued[all[k].id].serial < issued[all[l].id].serial
    {
      if k >= n {
        assert SerialOf(issued, ids[k - n]) < SerialOf(issued, ids[l - n]);
      } else if l >= n {
        assert SerialOf(issued, handouts[k].id) < SerialOf(issued, ids[l - n]);
      }
    }
    forall k, i | 0 <= k < |all| && 0 <= i < |commands| && IsQueuedFor(commands[i], all[k].connectorId)
      ensures issued[all[k].id].serial < issued[commands[i].fields.id].serial
    {
      assert Registered(issued, commands[i]);
      if k >= n {
        assert SerialOf(issued, ids[k - n]) < SerialOf(issued, commands[i].fields.id);
      }
    }
  }

  lemma ClaimFifo(h: History, connector: string, limit: nat)
    requires Valid(h)
    ensures var ids := ClaimIds(h.state.commands, connector, limit);
      var commands := StartClaimed(h.state.commands, ids);
      Ordered(h.issued, commands) && Fifo(h.issued, h.handouts + Handouts(connector, ids), commands)
  {
    var before := h.state.commands;
    var ids := ClaimIds(before, connector, limit);
    var after := StartClaimed(before, ids);
    ClaimTakesOldest(h.issued, before, connector, limit);
    ChangeOrdered(h.issued, h.handouts, before, after);
    forall k | 0 <= k < |ids| ensures KnownHandout(h.issued, Handout(connector, ids[k])) {
      ClaimedKnown(h.issued, before, connector, ids[k]);
    }
    forall k, l | 0 <= k < |h.handouts| && 0 <= l < |ids| && h.handouts[k].connectorId == connector
      ensures SerialOf(h.issued, h.handouts[k].id) < SerialOf(h.issued, ids[l])
    {
      OldHandout(h, k, ids[l]);
    }
    forall k, i | 0 <= k < |ids| && 0 <= i < |after| && IsQueuedFor(after[i], connector)
      ensures SerialOf(h.issued, ids[k]) < SerialOf(h.issued, after[i].fields.id)
    {
      assert before[i] in before && LeftQueued(before[i], connector, ids);
    }
    FifoAppend(h.issued, h.handouts, after, connector, ids);
  }

  lemma NothingHandedOut(handouts: seq<Handout>)
    ensures handouts + Handouts("", []) == handouts
  {
  }

  lemma OldHandout(h: History, k: nat, id: string)
    requires Valid(h) && k < |h.handouts| && IsClaimable(h.state.commands, h.handouts[k].connectorId, id)
    ensures SerialOf(h.issued, h.handouts[k].id) < SerialOf(h.issued, id)
  {
    var commands := h.state.commands;
    var i :| 0 <= i < |commands| && commands[i].fields.id == id && IsQueuedFor(commands[i], h.handouts[k].connectorId);
    assert KnownHandout(h.issued, h.handouts[k]) && Registered(h.issued, commands[i]);
  }

  lemma ClaimValid(h: History, tokenHash: string, limit: nat)
    requires Valid(h)
    ensures Valid(Advance(h, Claim(tokenHash, limit)))
  {
    var found := FindToken(h.state.connectors, tokenHash);
    if found.Some? {
      ClaimFifo(h, found.value.id, limit);
      var after := StartClaimed(h.state.commands, ClaimIds(h.state.commands, found.value.id, limit));
      ChangedSigned(h.state.connectors, h.state.commands, after);
    } else {
      NothingHandedOut(h.handouts);
    }
  }

  lemma OnlyOne(h: History, i: nat, j: nat)
    requires Valid(h) && i < |h.state.commands| && j < |h.state.commands|
    requires h.state.commands[i].fields.id == h.state.commands[j].fields.id
    ensures i == j
  {
    assert Registered(h.issued, h.state.commands[i]) && Registered(h.issued, h.state.commands[j]);
  }

  lemma CompleteValid(h: History, tokenHash: string, result: Result)
    requires Valid(h)
    ensures Valid(Advance(h, Complete(tokenHash, result)))
  {
    NothingHandedOut(h.handouts);
    var command := FindCommand(h.state.commands, result.fields.commandId);
    if command.Some? {
      FinishValid(h, command.value, Completed(command.value, result));
    }
  }

  lemma FinishValid(h: History, command: Record, updated: Record)
    requires Valid(h) && command in h.state.commands && !updated.status.Queued?
    requires updated.fields == command.fields && updated.payload == command.payload &&
        updated.signature == command.signature
    ensures Valid(h.(state := h.state.(commands := Finish(h.state.commands, command.fields.id, updated))))
  {
    var before := h.state.commands;
    var after := Finish(before, command.fields.id, updated);
    var j :| 0 <= j < |before| && before[j] == command;
    forall i | 0 <= i < |after| && before[i].fields.id == command.fields.id ensures i == j {
      OnlyOne(h, i, j);
    }
    ChangeOrdered(h.issued, h.handouts, before, after);
    ChangedSigned(h.state.connectors, before, after);
  }

  lemma EnrollValid(h: History, id: string, tokenHash: string)
    requires Valid(h) && Allowed(h, Enroll(id, tokenHash))
    ensures Valid(Advance(h, Enroll(id, tokenHash)))
  {
    NothingHandedOut(h.handouts);
    ConnectorsValid(h, h.state.connectors + [Connector(id, tokenHash, None, None, None)]);
  }

  lemma UpdateIdentities(connectors: seq<Connector>, found: Connector, updated: Connector)
    requires DistinctConnectors(connectors) && found in connectors && updated.id == found.id &&
        updated.tokenHash == found.tokenHash
    ensures var after := Update(connectors, updated); SameIdentities(connectors, after) && DistinctConnectors(after)
  {
    var after := Update(connectors, updated);
    var j :| 0 <= j < |connectors| && connectors[j] == found;
    forall i | 0 <= i < |connectors|
      ensures after[i].id == connectors[i].id && after[i].tokenHash == connectors[i].tokenHash
    {
      assert connectors[i].id == found.id ==> i == j;
    }
  }

  lemma HeartbeatValid(h: History, tokenHash: string, version: Option<string>)
    requires Valid(h)
    ensures Valid(Advance(h, Heartbeat(tokenHash, version)))
  {
    NothingHandedOut(h.handouts);
    var found := FindToken(h.state.connectors, tokenHash);
    if found.Some? {
      var updated := Beat(found.value, version);
      UpdateIdentities(h.state.connectors, found.value, updated);
      ConnectorsValid(h, Update(h.state.connectors, updated));
    }
  }

  lemma CreateValid(h: History, step: Step)
    requires Valid(h) && Allowed(h, step) && step.Create?
    ensures Valid(Advance(h, step))
  {
    NothingHandedOut(h.handouts);
    var found := FindId(h.state.connectors, step.connectorId);
    if found.Some? {
      IssueSigned(h.state.connectors, found.value, found.value, step.id, step.command, step.args, step.now, step.actor);
      AddValid(h, h.state.connectors, Added(h.state, step));
    }
  }

  lemma {:induction false} SelectedMembers(connectors: seq<Connector>, request: UpgradeRequest, c: Connector)
    ensures c in Selected(connectors, request) <==> c in connectors && IsSelected(c, request)
    ensures c in Skipped(connectors, request) <==> c in connectors && Wanted(c, request) && !IsSelected(c, request)
  {
    if connectors != [] {
      SelectedMembers(connectors[1..], request, c);
      assert c in connectors <==> c == connectors[0] || c in connectors[1..];
    }
  }

  lemma UpgradeSigned(s: State, step: Step)
    requires step.Upgrade?
    ensures forall r <- Added(s, step) :: WellSigned(MarkScheduled(s.connectors, step.request), r)
  {
    var selected := Selected(s.connectors, step.request);
    var after := MarkScheduled(s.connectors, step.request);
    if |step.ids| == |selected| {
      forall i | 0 <= i < |selected| ensures WellSigned(after, Added(s, step)[i]) {
        SelectedMembers(s.connectors, step.request, selected[i]);
        var j :| 0 <= j < |s.connectors| && s.connectors[j] == selected[i];
        IssueSigned(after, after[j], selected[i], step.ids[i], "agent.upgrade",
            [step.request.target, step.request.channel], step.now, step.actor);
      }
    }
  }

  lemma UpgradeValid(h: History, step: Step)
    requires Valid(h) && Allowed(h, step) && step.Upgrade?
    ensures Valid(Advance(h, step))
  {
    NothingHandedOut(h.handouts);
    if |step.ids| == |Selected(h.state.connectors, step.request)| {
      UpgradeSigned(h.state, step);
      AddValid(h, MarkScheduled(h.state.connectors, step.request), Added(h.state, step));
    }
  }

  /** Every step keeps the queue first-in first-out, in creation order, within its size, and every
      signature right. */
  lemma StepValid(h: History, step: Step)
    requires Valid(h) && Allowed(h, step)
    ensures Valid(Advance(h, step))
  {
    match step
    case Enroll(id, tokenHash) => EnrollValid(h, id, tokenHash);
    case Heartbeat(tokenHash, version) => HeartbeatValid(h, tokenHash, version);
    case Create(_, _, _, _, _, _) => CreateValid(h, step);
    case Claim(tokenHash, limit) => ClaimValid(h, tokenHash, limit);
    case Complete(tokenHash, result) => CompleteValid(h, tokenHash, result);
    case Upgrade(_, _, _, _) => UpgradeValid(h, step);
  }

  function Run(h: History, steps: seq<Step>): History
    decreases |steps|
  {
    if steps == [] then h else Run(Advance(h, steps[0]), steps[1..])
  }

  predicate RunAllowed(h: History, steps: seq<Step>)
    decreases |steps|
  {
    steps == [] || (Allowed(h, steps[0]) && RunAllowed(Advance(h, steps[0]), steps[1..]))
  }

  lemma {:induction false} RunValid(h: History, steps: seq<Step>)
    requires Valid(h) && RunAllowed(h, steps)
    ensures Valid(Run(h, steps))
    decreases |steps|
  {
    if steps != [] {
      StepValid(h, steps[0]);
      RunValid(Advance(h, steps[0]), steps[1..]);
    }
  }

  /** Whatever happens to a store that started empty, the invariant holds. */
  lemma EveryRun(steps: seq<Step>)
    requires RunAllowed(History(State([], []), map[], []), steps)
    ensures Valid(Run(History(State([], []), map[], []), steps))
  {
    RunValid(History(State([], []), map[], []), steps);
  }

  // ---------------------------------------------------------------- phases

  function Phase(status: Status): nat {
    match status
    case Queued => 0
    case Running => 1
    case _ => 2
  }

  /** The same command at a later time: only further on in its life, and signed as it was. */
  predicate Follows(r: Record, q: Record) {
    q.fields.id == r.fields.id ==>
      Phase(r.status) <= Phase(q.status) && q.fields == r.fields && q.payload == r.payload && q.signature == r.signature
  }

  predicate AllFollow(r: Record, commands: seq<Record>) { forall q <- commands :: Follows(r, q) }

  lemma AddFollows(h: History, step: Step, r: Record, q: Record)
    requires Allowed(h, step) && r.fields.id in h.issued && q in Added(h.state, step)
    ensures Follows(r, q)
  {
    assert q.fields.id !in h.issued;
  }

  lemma CompleteFollows(s: State, tokenHash: string, result: Result, r: Record, q: Record)
    requires q in Apply(s, Complete(tokenHash, result)).0.commands
    requires AllFollow(r, s.commands)
    ensures Follows(r, q)
  {
    if q !in s.commands {
      var command := FindCommand(s.commands, result.fields.commandId).value;
      assert Follows(r, command);
      assert q == Completed(command, result);
    }
  }

  lemma StepFollows(h: History, step: Step, r: Record)
    requires Valid(h) && Allowed(h, step) && r.fields.id in h.issued
    requires AllFollow(r, h.state.commands)
    ensures AllFollow(r, Advance(h, step).state.commands)
  {
    forall q | q in Advance(h, step).state.commands ensures Follows(r, q) {
      match step
      case Claim(tokenHash, limit) =>
        var found := FindToken(h.state.connectors, tokenHash);
        if found.Some? {
          ClaimFollows(h, found.value.id, limit, r, q);
        }
      case Complete(tokenHash, result) =>
        CompleteFollows(h.state, tokenHash, result, r, q);
      case _ =>
        if q !in h.state.commands {
          AddedOrKept(h.state, step, q);
          AddFollows(h, step, r, q);
        }
    }
  }

  lemma AddedOrKept(s: State, step: Step, q: Record)
    ensures !step.Claim? && !step.Complete? && q in Apply(s, step).0.commands ==> q in s.commands || q in Added(s, step)
  {
  }

  lemma ClaimFollows(h: History, connector: string, limit: nat, r: Record, q: Record)
    requires Valid(h) && q in StartClaimed(h.state.commands, ClaimIds(h.state.commands, connector, limit))
    requires AllFollow(r, h.state.commands)
    ensures Follows(r, q)
  {
    var before := h.state.commands;
    var ids := ClaimIds(before, connector, limit);
    var after := StartClaimed(before, ids);
    var i :| 0 <= i < |after| && after[i] == q;
    assert Follows(r, before[i]);
    if before[i].fields.id in ids {
      ClaimTakesOldest(h.issued, before, connector, limit);
      var k :| 0 <= k < |ids| && ids[k] == before[i].fields.id;
      var j :| 0 <= j < |before| && before[j].fields.id == ids[k] && IsQueuedFor(before[j], connector);
      OnlyOne(h, i, j);
    }
  }

  /** In every run a command's phase never goes back, and its signed fields and signature never change. */
  lemma {:induction false} PhasesNeverGoBack(h: History, steps: seq<Step>, r: Record)
    requires Valid(h) && RunAllowed(h, steps)
    ensures r.fields.id in h.issued && AllFollow(r, h.state.commands) ==> AllFollow(r, Run(h, steps).state.commands)
    decreases |steps|
  {
    if steps != [] && r.fields.id in h.issued && AllFollow(r, h.state.commands) {
      StepValid(h, steps[0]);
      StepFollows(h, steps[0], r);
      StillIssued(h, steps[0], r.fields.id);
      PhasesNeverGoBack(Advance(h, steps[0]), steps[1..], r);
    }
  }

  lemma {:induction false} RegisterKeeps(issued: map<string, Entry>, records: seq<Record>, start: nat, id: string)
    requires id in issued
    ensures id in Register(issued, records, start)
    decreases |records|
  {
    if records != [] {
      RegisterKeeps(issued[records[0].fields.id := Entry(start, records[0].fields.connectorId)], records[1..],
          start + 1, id);
    }
  }

  lemma StillIssued(h: History, step: Step, id: string)
    requires id in h.issued
    ensures id in Advance(h, step).issued
  {
    RegisterKeeps(h.issued, Added(h.state, step), |h.issued|, id);
  }

  /** An acceptable result is stored whatever the command's status, so that a second one replaces the
      first; any other result changes nothing, and no result touches another command. */
  lemma CompleteOverwrites(s: State, tokenHash: string, result: Result, r: Record)
    requires FindCommand(s.commands, result.fields.commandId) == Some(r)
    ensures var found, after := FindToken(s.connectors, tokenHash), Apply(s, Complete(tokenHash, result)).0;
      && (forall q <- s.commands :: q.fields.id != r.fields.id ==> q in after.commands)
      && if found.Some? && Accepts(found.value, r, result)
         then Record(r.fields, r.payload, r.signature, if result.fields.status == "success" then Success else Failure,
                     Some(result.fields.stdoutTail)) in after.commands
         else after == s
  {
    var found := FindToken(s.connectors, tokenHash);
    if found.Some? && Accepts(found.value, r, result) {
      var after := Finish(s.commands, r.fields.id, Completed(r, result));
      forall q | q in s.commands ensures (if q.fields.id == r.fields.id then Completed(r, result) else q) in after {
        var i :| 0 <= i < |s.commands| && s.commands[i] == q;
        assert after[i] == if q.fields.id == r.fields.id then Completed(r, result) else q;
      }
    }
  }

  /** A claim makes exactly the commands it hands out running; they were queued, and every other
      command stays as it was. */
  lemma ClaimStarts(h: History, tokenHash: string, limit: nat, r: Record)
    requires Valid(h) && r in h.state.commands
    ensures var (after, ids) := Apply(h.state, Claim(tokenHash, limit));
      if r.fields.id in ids then r.status.Queued? && r.(status := Running) in after.commands else r in after.commands
  {
    var found := FindToken(h.state.connectors, tokenHash);
    if found.Some? {
      var before := h.state.commands;
      var ids := ClaimIds(before, found.value.id, limit);
      var i :| 0 <= i < |before| && before[i] == r;
      assert StartClaimed(before, ids)[i] in StartClaimed(before, ids);
      if r.fields.id in ids {
        ClaimedWasQueued(h, found.value.id, limit, i);
      }
    }
  }

  lemma ClaimedWasQueued(h: History, connector: string, limit: nat, i: nat)
    requires Valid(h) && i < |h.state.commands|
    requires h.state.commands[i].fields.id in ClaimIds(h.state.commands, connector, limit)
    ensures h.state.commands[i].status.Queued?
  {
    var before := h.state.commands;
    ClaimTakesOldest(h.issued, before, connector, limit);
    assert IsClaimable(before, connector, before[i].fields.id);
    var j :| 0 <= j < |before| && before[j].fields.id == before[i].fields.id && IsQueuedFor(before[j], connector);
    OnlyOne(h, i, j);
  }

  lemma OnlyConnector(connectors: seq<Connector>, c: Connector, e: Connector)
    requires DistinctConnectors(connectors) && c in connectors && e in connectors
    requires c.id == e.id || c.tokenHash == e.tokenHash
    ensures c == e
  {
    var i, j :| 0 <= i < |connectors| && 0 <= j < |connectors| && connectors[i] == c && connectors[j] == e;
  }
}
