/** Bulk upgrades over every run: whom they select, which target decides, and which of their commands
    reach the queue. */
module UpgradeRuns {
  import opened AgentVersion
  import CanonicalJson
  import opened Collections
  import opened CommandQueue
  import opened CommandQueueRuns
  import opened Wrappers

  // ---------------------------------------------------------------- one upgrade

  /** An upgrade splits the wanted connectors into selected and skipped, and makes the selected ones
      exactly one command each, in order, naming the requested target. */
  lemma UpgradeSplits(s: State, request: UpgradeRequest, ids: seq<string>, now: string, actor: string)
    requires |ids| == |Selected(s.connectors, request)|
    ensures var selected, skipped := Selected(s.connectors, request), Skipped(s.connectors, request);
      && (forall c :: c in s.connectors && Wanted(c, request) <==> c in selected || c in skipped)
      && (forall c <- selected :: c !in skipped)
      && var added := Added(s, Upgrade(request, ids, now, actor));
         |added| == |selected| && forall i :: 0 <= i < |added| ==>
           && added[i].fields == CanonicalJson.Command(ids[i], selected[i].id, "agent.upgrade",
                  [request.target, request.channel], now, actor)
           && added[i].signature == Signed(selected[i].tokenHash, CanonicalJson.CommandPayload(added[i].fields))
           && added[i].status.Queued?
  {
    forall c: Connector
      ensures c in s.connectors && Wanted(c, request) <==>
              c in Selected(s.connectors, request) || c in Skipped(s.connectors, request)
    {
      SelectedMembers(s.connectors, request, c);
    }
    forall c | c in Selected(s.connectors, request) ensures c !in Skipped(s.connectors, request) {
      SelectedMembers(s.connectors, request, c);
    }
  }

  /** Both are in the order of the connectors. */
  lemma {:induction false} SplitInOrder(connectors: seq<Connector>, c: Connector, request: UpgradeRequest)
    ensures Selected(connectors + [c], request) ==
      Selected(connectors, request) + if IsSelected(c, request) then [c] else []
    ensures Skipped(connectors + [c], request) ==
      Skipped(connectors, request) + if Wanted(c, request) && !IsSelected(c, request) then [c] else []
  {
    var all := connectors + [c];
    if connectors == [] {
      assert all == [c] && all[1..] == [];
    } else {
      assert all[0] == connectors[0] && all[1..] == connectors[1..] + [c];
      SplitInOrder(connectors[1..], c, request);
    }
  }

  /** Raising the rollout percentage only adds connectors. */
  lemma RolloutGrows(connectors: seq<Connector>, request: UpgradeRequest, more: nat, c: Connector)
    requires request.percent <= more && c in Selected(connectors, request)
    ensures c in Selected(connectors, request.(percent := more))
  {
    SelectedMembers(connectors, request, c);
    SelectedMembers(connectors, request.(percent := more), c);
  }

  // ---------------------------------------------------------------- the cut to 500

  predicate Apart(commands: seq<Record>) {
    forall i, j :: 0 <= i < j < |commands| ==> commands[i].fields.id != commands[j].fields.id
  }

  lemma AddedApart(h: History, step: Step)
    requires Valid(h) && Allowed(h, step)
    ensures Apart(h.state.commands + Added(h.state, step))
  {
    var commands, added := h.state.commands, Added(h.state, step);
    var all := commands + added;
    forall i, j | 0 <= i < j < |all| ensures all[i].fields.id != all[j].fields.id {
      if i < |commands| {
        assert Registered(h.issued, commands[i]);
      }
    }
  }

  lemma LastMembers(all: seq<Record>, i: nat)
    requires Apart(all) && i < |all|
    ensures all[i] in Last(all, MAX_COMMANDS) <==> |all| - i <= MAX_COMMANDS
  {
    var kept := Last(all, MAX_COMMANDS);
    var drop := |all| - |kept|;
    if i >= drop {
      assert kept[i - drop] == all[i];
    } else {
      forall j | 0 <= j < |kept| ensures kept[j].fields.id != all[i].fields.id {
        assert kept[j] == all[j + drop];
      }
    }
  }

  /** Adding commands drops exactly those that have 500 or more newer ones, queued or not, and the newly
      made ones among them. */
  lemma CutKeeps(h: History, step: Step, i: nat)
    requires Valid(h) && Allowed(h, step) && (step.Create? || step.Upgrade?)
    requires i < |h.state.commands + Added(h.state, step)|
    ensures var all := h.state.commands + Added(h.state, step);
      all[i] in Apply(h.state, step).0.commands <==> |all| - i <= 500
  {
    var all := h.state.commands + Added(h.state, step);
    AddedApart(h, step);
    LastMembers(all, i);
    if Added(h.state, step) == [] {
      assert all == h.state.commands;
    } else {
      assert Apply(h.state, step).0.commands == Last(all, MAX_COMMANDS);
    }
  }

  /** Every selected connector is marked as scheduled for the requested target, and the command made for
      it is in the queue if and only if fewer than 500 were made after it. */
  lemma UpgradeReaches(h: History, step: Step, i: nat)
    requires Valid(h) && Allowed(h, step) && step.Upgrade?
    requires |step.ids| == |Selected(h.state.connectors, step.request)| && i < |step.ids|
    ensures var after, c := Apply(h.state, step).0, Selected(h.state.connectors, step.request)[i];
      && c.(upgradeStatus := Some(Scheduled), upgradeTargetVersion := Some(step.request.target)) in after.connectors
      && (Added(h.state, step)[i] in after.commands <==> |step.ids| - i <= 500)
  {
    var connectors, commands := h.state.connectors, h.state.commands;
    var c := Selected(connectors, step.request)[i];
    CutKeeps(h, step, |commands| + i);
    assert (commands + Added(h.state, step))[|commands| + i] == Added(h.state, step)[i];
    SelectedMembers(connectors, step.request, c);
    var j :| 0 <= j < |connectors| && connectors[j] == c;
    assert MarkScheduled(connectors, step.request)[j] ==
      c.(upgradeStatus := Some(Scheduled), upgradeTargetVersion := Some(step.request.target));
  }

  /** An upgrade marks exactly the selected connectors, and nothing else of any connector changes. */
  lemma UpgradeMarks(s: State, step: Step, i: nat)
    requires step.Upgrade? && |step.ids| == |Selected(s.connectors, step.request)| && i < |s.connectors|
    ensures var after, c := Apply(s, step).0, s.connectors[i];
      |after.connectors| == |s.connectors| && after.connectors[i] ==
        if c in Selected(s.connectors, step.request)
        then Connector(c.id, c.tokenHash, c.version, Some(Scheduled), Some(step.request.target)) else c
  {
    SelectedMembers(s.connectors, step.request, s.connectors[i]);
  }

  // ---------------------------------------------------------------- which target decides

  /** Only a heartbeat stores a version, and it stores a target with it. */
  predicate Judged(c: Connector) { c.upgradeTargetVersion.None? ==> c.version.None? }

  lemma {:induction false} RunJudged(h: History, steps: seq<Step>)
    requires forall c <- h.state.connectors :: Judged(c)
    ensures forall c <- Run(h, steps).state.connectors :: Judged(c)
    decreases |steps|
  {
    if steps != [] {
      StepJudged(h.state, steps[0]);
      RunJudged(Advance(h, steps[0]), steps[1..]);
    }
  }

  lemma StepJudged(s: State, step: Step)
    requires forall c <- s.connectors :: Judged(c)
    ensures forall c <- Apply(s, step).0.connectors :: Judged(c)
  {
    var after := Apply(s, step).0.connectors;
    forall i | 0 <= i < |after| && i < |s.connectors| ensures Judged(after[i]) {
      assert Judged(s.connectors[i]);
    }
  }

  /** In every reachable state the requested target decides nothing: one that was stored goes before it, and
      without a stored one there is no version to compare with it. */
  lemma TargetIgnored(steps: seq<Step>, c: Connector, request: UpgradeRequest, other: string)
    requires c in Run(History(State([], []), map[], []), steps).state.connectors
    ensures IsSelected(c, request) <==> IsSelected(c, request.(target := other))
    ensures IsSelected(c, request) <==>
      && Wanted(c, request) && RolloutEligible(c.id, request.percent)
      && (c.upgradeTargetVersion.Some? ==> !CompatibilityFor(c.version, c.upgradeTargetVersion.value).Current?)
  {
    RunJudged(History(State([], []), map[], []), steps);
    assert Judged(c);
  }

  /** The requested target can decide only for a record that has a version and no target, as one written by
      an earlier version of the panel may: exactly then, if the version is supported, another target gives
      another answer. */
  lemma RequestedTargetDecides(c: Connector, request: UpgradeRequest)
    ensures (exists other :: IsSelected(c, request.(target := other)) != IsSelected(c, request)) <==>
      Wanted(c, request) && RolloutEligible(c.id, request.percent) && IsOpen(c)
  {
    forall target ensures IsSelected(c, request.(target := target)) <==>
      Wanted(c, request) && RolloutEligible(c.id, request.percent) && !JudgedBy(c, target).Current?
    {
    }
    assert request == request.(target := request.target);
    var other := OtherAnswer(c, request.target);
    assert IsOpen(c) ==> JudgedBy(c, other).Current? != JudgedBy(c, request.target).Current?;
  }

  /** A supported version and no stored target. */
  predicate IsOpen(c: Connector) {
    && c.upgradeTargetVersion.None? && c.version.Some? && c.version.value != ""
    && Compare(c.version.value, MINIMUM_SUPPORTED) >= 0
  }

  function JudgedBy(c: Connector, target: string): Compatibility {
    CompatibilityFor(c.version, if c.upgradeTargetVersion.Some? then c.upgradeTargetVersion.value else target)
  }

  lemma OtherAnswer(c: Connector, target: string) returns (other: string)
    ensures if IsOpen(c) then JudgedBy(c, other).Current? != JudgedBy(c, target).Current?
            else forall t :: JudgedBy(c, t).Current? == JudgedBy(c, target).Current?
  {
    other := MINIMUM_SUPPORTED;
    if IsOpen(c) && Compare(c.version.value, target) >= 0 {
      other := Above(c.version.value);
    }
  }

  /** Some target is above any version. */
  lemma Above(version: string) returns (target: string)
    ensures Compare(version, target) < 0
  {
    var first := Part(ParseVersion(version), 0) + 1;
    target := "" + PrintParts([first]);
    ParsePrinted("", [first]);
    assert Part([first], 0) == first;
  }

  /** A heartbeat that is the first to store a target stores the recommended one. */
  lemma HeartbeatStores(c: Connector, version: Option<string>)
    ensures var b := Beat(c, version);
      b.upgradeTargetVersion == Some(if c.upgradeTargetVersion.Some? then c.upgradeTargetVersion.value else RECOMMENDED)
  {
  }

  // ---------------------------------------------------------------- no second upgrade

  /** The connector's version has reached the target stored for it. */
  predicate Reached(c: Connector) {
    c.upgradeTargetVersion.Some? && CompatibilityFor(c.version, c.upgradeTargetVersion.value).Current?
  }

  predicate Reports(step: Step, tokenHash: string) {
    step.Heartbeat? && step.tokenHash == tokenHash && step.version.Some? && step.version.value != ""
  }

  /** The versions its agent reports do not fall below the target again. */
  predicate StaysUp(steps: seq<Step>, tokenHash: string, target: string) {
    forall step <- steps :: Reports(step, tokenHash) ==> CompatibilityFor(step.version, target).Current?
  }

  /** The connector with this id and key is there and is where it was with its upgrades. */
  predicate StillReached(s: State, c: Connector) {
    exists e <- s.connectors :: e.id == c.id && e.tokenHash == c.tokenHash &&
        e.upgradeTargetVersion == c.upgradeTargetVersion && Reached(e)
  }

  /** The connector has reached its target, and its agent does not fall back in these steps. */
  predicate Settled(s: State, steps: seq<Step>, c: Connector) {
    c in s.connectors && Reached(c) && StaysUp(steps, c.tokenHash, c.upgradeTargetVersion.value)
  }

  lemma BeatReached(h: History, step: Step, c: Connector)
    requires Valid(h) && step.Heartbeat?
    ensures Settled(h.state, [step], c) ==> StillReached(Apply(h.state, step).0, c)
  {
    var connectors := h.state.connectors;
    var found := FindToken(connectors, step.tokenHash);
    if Settled(h.state, [step], c) && found.Some? {
      assert step in [step];
      var i :| 0 <= i < |connectors| && connectors[i] == c;
      assert Update(connectors, Beat(found.value, step.version))[i] in Apply(h.state, step).0.connectors;
      if c.id == found.value.id {
        OnlyConnector(connectors, c, found.value);
      }
    }
  }

  lemma NotMarked(s: State, step: Step, c: Connector)
    requires !step.Heartbeat?
    ensures c in s.connectors && Reached(c) ==> c in Apply(s, step).0.connectors
  {
    if c in s.connectors && Reached(c) {
      var i :| 0 <= i < |s.connectors| && s.connectors[i] == c;
      match step
      case Enroll(_, _) => assert Apply(s, step).0.connectors[i] == c;
      case Upgrade(request, _, _, _) => assert MarkScheduled(s.connectors, request)[i] == c;
      case Heartbeat(_, _) =>
      case _ => assert Apply(s, step).0.connectors == s.connectors;
    }
  }

  lemma StepReached(h: History, step: Step, c: Connector)
    requires Valid(h)
    ensures Settled(h.state, [step], c) ==> StillReached(Apply(h.state, step).0, c)
  {
    if step.Heartbeat? {
      BeatReached(h, step, c);
    } else {
      NotMarked(h.state, step, c);
    }
  }

  /** A connector that has reached the target stored for it keeps that target in every run in which its
      agent does not fall back, whatever upgrades are requested. */
  lemma {:induction false} StaysReached(h: History, steps: seq<Step>, c: Connector)
    requires Valid(h) && RunAllowed(h, steps)
    ensures Settled(h.state, steps, c) ==> StillReached(Run(h, steps).state, c)
    decreases |steps|
  {
    if steps != [] && Settled(h.state, steps, c) {
      assert steps[0] in steps && forall step <- steps[1..] :: step in steps;
      StepReached(h, steps[0], c);
      StepValid(h, steps[0]);
      var e :| e in Advance(h, steps[0]).state.connectors && e.id == c.id && e.tokenHash == c.tokenHash &&
          e.upgradeTargetVersion == c.upgradeTargetVersion && Reached(e);
      StaysReached(Advance(h, steps[0]), steps[1..], e);
    }
  }

  /** So no upgrade to a later version ever selects it again: none makes a command for it. */
  lemma NeverAgain(h: History, steps: seq<Step>, c: Connector, request: UpgradeRequest, e: Connector)
    requires Valid(h) && RunAllowed(h, steps)
    ensures Settled(h.state, steps, c) && e in Selected(Run(h, steps).state.connectors, request) ==> e.id != c.id
  {
    var connectors := Run(h, steps).state.connectors;
    StaysReached(h, steps, c);
    RunValid(h, steps);
    SelectedMembers(connectors, request, e);
    if Settled(h.state, steps, c) && e in connectors && e.id == c.id {
      var f :| f in connectors && f.id == c.id && Reached(f);
      OnlyConnector(connectors, e, f);
    }
  }
}
