/** Appends and prunes that overlap. Each reads the log file, awaits, and then writes, so that other
    calls may write between its two accesses. */
module AuditOverlap {
  import opened AuditChain
  import opened Wrappers

  function LastOf(events: seq<Event>): Option<Event> {
    if events == [] then None else Some(events[|events| - 1])
  }

  // ---------------------------------------------------------------- one write

  /** The issue an append's write adds: it lost its link unless the hash it was chained to is still the
      latest. This holds of any log, broken and legacy ones included. */
  lemma WriteIssue(lines: seq<Line>, seen: seq<Event>, draft: Draft, id: string, now: int)
    ensures var events, e := ReadEvents(lines), Chained(draft, id, now, seen);
      Issues(ReadEvents(lines + [Parsed(e)])) ==
        Issues(events) + if Latest(events) == Latest(seen) then [] else [PreviousMismatch(id)]
  {
    var events, e := ReadEvents(lines), Chained(draft, id, now, seen);
    ReadAppended(lines, e);
    assert (events + [e])[..|events|] == events;
  }

  /** Every event carries the hash over itself, as all that the panel writes do. */
  predicate Hashed(events: seq<Event>) { forall e <- events :: e.chainHash == Some(Hash(e.content)) }

  lemma LatestDecides(a: seq<Event>, b: seq<Event>)
    requires Hashed(a) && Hashed(b)
    ensures Latest(a) == Latest(b) <==> LastOf(a) == LastOf(b)
  {
    assert a != [] ==> a[|a| - 1] in a;
    assert b != [] ==> b[|b| - 1] in b;
  }

  // ---------------------------------------------------------------- every run

  predicate SoundCall(c: Call) {
    && Hashed(c.seen)
    && match c
       case Appending(seen, e) => e.chainHash == Some(Hash(e.content)) && e.content.previousHash == Latest(seen)
       case Pruning(_, remaining) => Hashed(remaining)
  }

  predicate Sound(s: State) {
    Hashed(ReadEvents(s.file)) && forall call <- s.calls :: SoundCall(s.calls[call])
  }

  function Run(s: State, accesses: seq<Access>): State
    decreases |accesses|
  {
    if accesses == [] then s else Run(Step(s, accesses[0]), accesses[1..])
  }

  lemma StepSound(s: State, a: Access)
    requires Sound(s)
    ensures Sound(Step(s, a))
  {
    match a
    case ReadToAppend(_, _, _, _) =>
    case WriteAppend(call) =>
      if call in s.calls && s.calls[call].Appending? {
        ReadAppended(s.file, s.calls[call].event);
      }
    case ReadToPrune(_, retainDays, now) =>
      forall e | e in Retained(ReadEvents(s.file), Cutoff(retainDays, now)) ensures e in ReadEvents(s.file) {
        RetainedMembers(ReadEvents(s.file), Cutoff(retainDays, now), e);
      }
    case WritePrune(call) =>
      if call in s.calls && s.calls[call].Pruning? {
        ReadParsed(s.calls[call].remaining, Parse(s.calls[call].remaining));
      }
  }

  lemma {:induction false} RunSound(s: State, accesses: seq<Access>)
    requires Sound(s)
    ensures Sound(Run(s, accesses))
    decreases |accesses|
  {
    if accesses != [] {
      StepSound(s, accesses[0]);
      RunSound(Step(s, accesses[0]), accesses[1..]);
    }
  }

  lemma HashedWrite(lines: seq<Line>, seen: seq<Event>, e: Event)
    requires Hashed(ReadEvents(lines)) && Hashed(seen)
    requires e.chainHash == Some(Hash(e.content)) && e.content.previousHash == Latest(seen)
    ensures Issues(ReadEvents(lines + [Parsed(e)])) == Issues(ReadEvents(lines)) +
      if LastOf(ReadEvents(lines)) == LastOf(seen) then [] else [PreviousMismatch(e.content.id)]
  {
    var events := ReadEvents(lines);
    LatestDecides(events, seen);
    ReadAppended(lines, e);
    assert (events + [e])[..|events|] == events;
  }

  lemma SoundWrite(s: State, call: nat)
    requires Sound(s) && call in s.calls && s.calls[call].Appending?
    ensures Issues(ReadEvents(Step(s, WriteAppend(call)).file)) == Issues(ReadEvents(s.file)) +
      if LastOf(ReadEvents(s.file)) == LastOf(s.calls[call].seen) then []
      else [PreviousMismatch(s.calls[call].event.content.id)]
  {
    assert SoundCall(s.calls[call]);
    HashedWrite(s.file, s.calls[call].seen, s.calls[call].event);
  }

  /** In every interleaving of appends and prunes on a log the panel has written, a waiting append will
      add no issue if and only if the last event at its write is the one it read, and otherwise
      exactly one. */
  lemma OverlapIssue(s: State, accesses: seq<Access>, call: nat)
    requires Sound(s) && call in Run(s, accesses).calls && Run(s, accesses).calls[call].Appending?
    ensures var t := Run(s, accesses);
      var before, after := ReadEvents(t.file), ReadEvents(Step(t, WriteAppend(call)).file);
      Issues(after) == Issues(before) +
        if LastOf(before) == LastOf(t.calls[call].seen) then [] else [PreviousMismatch(t.calls[call].event.content.id)]
  {
    RunSound(s, accesses);
    SoundWrite(Run(s, accesses), call);
  }

  // ---------------------------------------------------------------- overlapping appends

  predicate IsAppend(a: Access) { a.ReadToAppend? || a.WriteAppend? }

  predicate DistinctIds(events: seq<Event>) {
    forall i, j :: 0 <= i < j < |events| ==> events[i].content.id != events[j].content.id
  }

  /** Generated ids are fresh, and a call is a new one. */
  predicate Allowed(s: State, a: Access) {
    a.ReadToAppend? ==>
      && a.call !in s.calls
      && (forall e <- ReadEvents(s.file) :: e.content.id != a.id)
      && (forall call <- s.calls :: s.calls[call].Appending? ==> s.calls[call].event.content.id != a.id)
  }

  predicate AppendsOnly(s: State, accesses: seq<Access>)
    decreases |accesses|
  {
    accesses == [] || (IsAppend(accesses[0]) && Allowed(s, accesses[0]) &&
        AppendsOnly(Step(s, accesses[0]), accesses[1..]))
  }

  /** What every waiting append has read is still the front of the log, and its own id is in it nowhere. */
  predicate Waiting(s: State) {
    && DistinctIds(ReadEvents(s.file))
    && (forall call <- s.calls :: s.calls[call].Appending? ==> WaitingCall(s, s.calls[call]))
    && (forall x, y :: x in s.calls && y in s.calls && x != y && s.calls[x].Appending? && s.calls[y].Appending? ==>
          s.calls[x].event.content.id != s.calls[y].event.content.id)
  }

  predicate WaitingCall(s: State, c: Call)
    requires c.Appending?
  {
    c.seen <= ReadEvents(s.file) && forall e <- ReadEvents(s.file) :: e.content.id != c.event.content.id
  }

  lemma ReadWaits(s: State, a: Access)
    requires Waiting(s) && a.ReadToAppend? && Allowed(s, a)
    ensures Waiting(Step(s, a))
  {
    var t := Step(s, a);
    forall call | call in t.calls && t.calls[call].Appending? ensures WaitingCall(t, t.calls[call]) {
      if call != a.call {
        assert WaitingCall(s, s.calls[call]);
      }
    }
  }

  lemma WriteWaits(s: State, call: nat)
    requires Waiting(s) && call in s.calls && s.calls[call].Appending?
    ensures Waiting(Step(s, WriteAppend(call)))
  {
    var t, e := Step(s, WriteAppend(call)), s.calls[call].event;
    ReadAppended(s.file, e);
    assert WaitingCall(s, s.calls[call]);
    forall x | x in t.calls && t.calls[x].Appending? ensures WaitingCall(t, t.calls[x]) {
      assert WaitingCall(s, s.calls[x]);
    }
  }

  lemma AppendWaits(s: State, a: Access)
    requires Waiting(s) && IsAppend(a) && Allowed(s, a)
    ensures Waiting(Step(s, a))
  {
    if a.ReadToAppend? {
      ReadWaits(s, a);
    } else if a.call in s.calls && s.calls[a.call].Appending? {
      WriteWaits(s, a.call);
    }
  }

  /** With unique ids the last event is the one that was read exactly when the log has not grown since. */
  lemma SameLast(seen: seq<Event>, events: seq<Event>)
    requires seen <= events && DistinctIds(events)
    ensures LastOf(seen) == LastOf(events) <==> |seen| == |events|
  {
    if seen != [] && |seen| < |events| {
      assert events[|seen| - 1].content.id != events[|events| - 1].content.id;
    }
  }

  /** The link lost by this access: a write that comes after another one since its own read loses one. */
  function LostLink(s: State, a: Access): seq<Issue> {
    if a.WriteAppend? && a.call in s.calls && s.calls[a.call].Appending?
       && |s.calls[a.call].seen| < |ReadEvents(s.file)|
    then [PreviousMismatch(s.calls[a.call].event.content.id)] else []
  }

  function LostLinks(s: State, accesses: seq<Access>): seq<Issue>
    decreases |accesses|
  {
    if accesses == [] then [] else LostLink(s, accesses[0]) + LostLinks(Step(s, accesses[0]), accesses[1..])
  }

  lemma AppendIssues(s: State, a: Access)
    requires Sound(s) && Waiting(s) && IsAppend(a)
    ensures Issues(ReadEvents(Step(s, a).file)) == Issues(ReadEvents(s.file)) + LostLink(s, a)
  {
    if a.WriteAppend? && a.call in s.calls && s.calls[a.call].Appending? {
      SoundWrite(s, a.call);
      assert WaitingCall(s, s.calls[a.call]);
      SameLast(s.calls[a.call].seen, ReadEvents(s.file));
    }
  }

  lemma Regroup(x: seq<Issue>, y: seq<Issue>, z: seq<Issue>)
    ensures x + y + z == x + (y + z) && x + [] == x
  {
  }

  /** Any interleaving of appends with fresh ids adds exactly these issues: none if and only if no append
      writes between the read and the write of another. */
  lemma {:induction false} OverlappedAppends(s: State, accesses: seq<Access>)
    requires Sound(s) && Waiting(s) && AppendsOnly(s, accesses)
    ensures Issues(ReadEvents(Run(s, accesses).file)) == Issues(ReadEvents(s.file)) + LostLinks(s, accesses)
    decreases |accesses|
  {
    Regroup(Issues(ReadEvents(s.file)), [], []);
    if accesses != [] {
      var a, t := accesses[0], Step(s, accesses[0]);
      StepSound(s, a);
      AppendWaits(s, a);
      AppendIssues(s, a);
      OverlappedAppends(t, accesses[1..]);
      Regroup(Issues(ReadEvents(s.file)), LostLink(s, a), LostLinks(t, accesses[1..]));
    }
  }

  /** In particular from a new log. */
  lemma NewLog(accesses: seq<Access>)
    requires AppendsOnly(State([], map[]), accesses)
    ensures Issues(ReadEvents(Run(State([], map[]), accesses).file)) == LostLinks(State([], map[]), accesses)
  {
    OverlappedAppends(State([], map[]), accesses);
  }

  /** The smallest case: two appends to any such log that both read before either writes. */
  lemma TwoAppends(lines: seq<Line>, x: Submission, y: Submission)
    requires Hashed(ReadEvents(lines)) && DistinctIds(ReadEvents(lines)) && x.id != y.id
    requires forall e <- ReadEvents(lines) :: e.content.id != x.id && e.content.id != y.id
    ensures var accesses := [ReadToAppend(1, x.draft, x.id, x.now), ReadToAppend(2, y.draft, y.id, y.now),
        WriteAppend(1), WriteAppend(2)];
      Issues(ReadEvents(Run(State(lines, map[]), accesses).file)) ==
        Issues(ReadEvents(lines)) + [PreviousMismatch(y.id)]
  {
    var events := ReadEvents(lines);
    var e, f := Chained(x.draft, x.id, x.now, events), Chained(y.draft, y.id, y.now, events);
    BothRead(lines, x, y);
    BothWrite(lines, events, e, f);
    AppendNeutral(lines, x.draft, x.id, x.now);
    WriteIssue(lines + [Parsed(e)], events, y.draft, y.id, y.now);
    ReadAppended(lines, e);
    NewLatest(events, e);
  }

  lemma BothRead(lines: seq<Line>, x: Submission, y: Submission)
    ensures var events, a1, a2 := ReadEvents(lines), ReadToAppend(1, x.draft, x.id, x.now),
        ReadToAppend(2, y.draft, y.id, y.now);
      Run(State(lines, map[]), [a1, a2, WriteAppend(1), WriteAppend(2)]) ==
        Run(State(lines, map[1 := Appending(events, Chained(x.draft, x.id, x.now, events)),
            2 := Appending(events, Chained(y.draft, y.id, y.now, events))]), [WriteAppend(1), WriteAppend(2)])
  {
    var s, events := State(lines, map[]), ReadEvents(lines);
    var a1, a2 := ReadToAppend(1, x.draft, x.id, x.now), ReadToAppend(2, y.draft, y.id, y.now);
    RunFirst(s, a1, [a2, WriteAppend(1), WriteAppend(2)]);
    RunFirst(Step(s, a1), a2, [WriteAppend(1), WriteAppend(2)]);
    assert Step(Step(s, a1), a2).calls == map[1 := Appending(events, Chained(x.draft, x.id, x.now, events)),
        2 := Appending(events, Chained(y.draft, y.id, y.now, events))];
  }

  lemma BothWrite(lines: seq<Line>, seen: seq<Event>, e: Event, f: Event)
    ensures Run(State(lines, map[1 := Appending(seen, e), 2 := Appending(seen, f)]),
        [WriteAppend(1), WriteAppend(2)]).file == lines + [Parsed(e)] + [Parsed(f)]
  {
    var s := State(lines, map[1 := Appending(seen, e), 2 := Appending(seen, f)]);
    RunFirst(s, WriteAppend(1), [WriteAppend(2)]);
    RunFirst(Step(s, WriteAppend(1)), WriteAppend(2), []);
  }

  lemma RunFirst(s: State, a: Access, rest: seq<Access>)
    ensures Run(s, [a] + rest) == Run(Step(s, a), rest)
  {
    assert ([a] + rest)[1..] == rest;
  }

  /** A new event changes the latest hash. */
  lemma NewLatest(events: seq<Event>, e: Event)
    requires Hashed(events) && DistinctIds(events) && forall f <- events :: f.content.id != e.content.id
    requires e.chainHash == Some(Hash(e.content))
    ensures Latest(events + [e]) != Latest(events)
  {
    LatestDecides(events + [e], events);
    SameLast(events, events + [e]);
  }

  lemma {:induction false} RunSteps(s: State, x: seq<Access>, y: seq<Access>)
    ensures Run(s, x + y) == Run(Run(s, x), y)
    decreases |x|
  {
    if x == [] {
      assert x + y == y;
    } else {
      assert (x + y)[1..] == x[1..] + y;
      RunSteps(Step(s, x[0]), x[1..], y);
    }
  }

  // ---------------------------------------------------------------- overlapping prune

  /** Appends leave a waiting prune alone. */
  lemma {:induction false} PruneWaits(s: State, accesses: seq<Access>, call: nat)
    requires call in s.calls && s.calls[call].Pruning? && AppendsOnly(s, accesses)
    ensures call in Run(s, accesses).calls && Run(s, accesses).calls[call] == s.calls[call]
    decreases |accesses|
  {
    if accesses != [] {
      PruneWaits(Step(s, accesses[0]), accesses[1..], call);
    }
  }

  /** Whatever is appended between a prune's read and its write is gone: the log is what it would be
      without those appends. */
  lemma PruneLoses(s: State, call: nat, retainDays: int, now: int, accesses: seq<Access>)
    requires var t := Step(s, ReadToPrune(call, retainDays, now)); AppendsOnly(t, accesses)
    ensures ReadEvents(Run(s, [ReadToPrune(call, retainDays, now)] + accesses + [WritePrune(call)]).file) ==
      Retained(ReadEvents(s.file), Cutoff(retainDays, now))
  {
    var first, last := [ReadToPrune(call, retainDays, now)], [WritePrune(call)];
    var t := Step(s, first[0]);
    RunSteps(s, first + accesses, last);
    RunSteps(s, first, accesses);
    assert Run(s, first) == t;
    PruneWaits(t, accesses, call);
    ReadParsed(t.calls[call].remaining, Parse(t.calls[call].remaining));
  }

  lemma {:induction false} AppendsExtend(s: State, accesses: seq<Access>)
    requires AppendsOnly(s, accesses)
    ensures ReadEvents(s.file) <= ReadEvents(Run(s, accesses).file)
    decreases |accesses|
  {
    if accesses != [] {
      var a, t := accesses[0], Step(s, accesses[0]);
      if a.WriteAppend? && a.call in s.calls && s.calls[a.call].Appending? {
        ReadAppended(s.file, s.calls[a.call].event);
      }
      AppendsExtend(t, accesses[1..]);
    }
  }

  /** Right before its write the log is what the prune has read and all that was appended since; after it an
      event is in the log if and only if it was there when the prune read it, and is at most so many days old. */
  lemma LostEvent(s: State, call: nat, retainDays: int, now: int, accesses: seq<Access>, e: Event)
    requires var t := Step(s, ReadToPrune(call, retainDays, now)); AppendsOnly(t, accesses)
    ensures ReadEvents(s.file) <= ReadEvents(Run(s, [ReadToPrune(call, retainDays, now)] + accesses).file)
    ensures e in ReadEvents(Run(s, [ReadToPrune(call, retainDays, now)] + accesses + [WritePrune(call)]).file) <==>
      e in ReadEvents(s.file) && now - e.content.time <= retainDays * 86_400_000
  {
    var first := [ReadToPrune(call, retainDays, now)];
    PruneLoses(s, call, retainDays, now, accesses);
    KeptDays(ReadEvents(s.file), retainDays, now, e);
    RunSteps(s, first, accesses);
    assert Run(s, first) == Step(s, first[0]);
    AppendsExtend(Step(s, first[0]), accesses);
  }

  /** And the check does not notice: if the log was intact and nothing was old enough to go, it is intact
      afterwards, with the latest hash it had before the lost appends. */
  lemma LossUnnoticed(s: State, call: nat, retainDays: int, now: int, accesses: seq<Access>)
    requires var t := Step(s, ReadToPrune(call, retainDays, now)); AppendsOnly(t, accesses)
    requires var events := ReadEvents(s.file);
      Intact(events) && forall e <- events :: now - e.content.time <= retainDays * 86_400_000
    ensures var after := ReadEvents(Run(s, [ReadToPrune(call, retainDays, now)] + accesses + [WritePrune(call)]).file);
      Intact(after) && Latest(after) == Latest(ReadEvents(s.file))
  {
    PruneLoses(s, call, retainDays, now, accesses);
    AllRetained(ReadEvents(s.file), Cutoff(retainDays, now));
  }

  lemma {:induction false} AllRetained(events: seq<Event>, cutoff: int)
    requires forall e <- events :: e.content.time >= cutoff
    ensures Retained(events, cutoff) == events
  {
    if events != [] {
      assert events[0] in events && forall e <- events[1..] :: e in events;
      AllRetained(events[1..], cutoff);
    }
  }
}
