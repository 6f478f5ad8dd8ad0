/** The hash-chained audit log: appending, pruning and the integrity check. A digest is a free
    constructor applied to the hashed event, so that equal digests mean equal events; any
    other text a stored hash field may hold is `Raw`. */
module AuditChain {
  import opened Wrappers

  datatype Digest = Hash(event: Content) | Raw(text: string)

  datatype Status = Success | Denied | Error

  /** What an event's hash covers: every field except `chainHash`. */
  datatype Content = Content(
    id: string, time: int, actor: string, action: string, target: string, ip: Option<string>,
    status: Status, detail: Option<string>, previousHash: Option<Digest>)

  datatype Event = Event(content: Content, chainHash: Option<Digest>)

  /** What a caller of `append` supplies. */
  datatype Draft = Draft(actor: string, action: string, target: string, ip: Option<string>, status: Status,
      detail: Option<string>)

  /** One line of the log file; a line that does not parse as an event is skipped when reading. */
  datatype Line = Parsed(event: Event) | Unreadable(text: string)

  datatype Issue = Legacy(id: string) | PreviousMismatch(id: string) | ChainMismatch(id: string)

  datatype Report = Report(total: nat, ok: bool, firstBrokenId: Option<string>, latestHash: Option<Digest>,
      issues: seq<Issue>)

  datatype PruneResult = PruneResult(removed: int, remaining: nat)

  // ---------------------------------------------------------------- the check

  /** JavaScript truthiness of an optional hash: absent and empty both read as none. */
  function Truthy(h: Option<Digest>): Option<Digest> {
    if h == Some(Raw("")) then None else h
  }

  function ReadEvents(lines: seq<Line>): seq<Event> {
    if lines == [] then []
    else (match lines[0] case Parsed(e) => [e] case Unreadable(_) => []) + ReadEvents(lines[1..])
  }

  /** What the check has to say about `e` when the hash before it is `previous`. */
  function EventIssues(e: Event, previous: Option<Digest>): seq<Issue> {
    if Truthy(e.chainHash).None? then [Legacy(e.content.id)]
    else
      (if e.content.previousHash != previous then [PreviousMismatch(e.content.id)] else [])
      + (if e.chainHash != Some(Hash(e.content)) then [ChainMismatch(e.content.id)] else [])
  }

  /** The hash carried past the last event. */
  function Latest(events: seq<Event>): Option<Digest> {
    if events == [] then None else Truthy(events[|events| - 1].chainHash)
  }

  function Issues(events: seq<Event>): seq<Issue> {
    if events == [] then [] else
      var init := events[..|events| - 1];
      Issues(init) + EventIssues(events[|events| - 1], Latest(init))
  }

  /** A log the check reports as intact: every event is hashed over itself and its predecessor's hash. */
  predicate Intact(events: seq<Event>) {
    forall i :: 0 <= i < |events| ==> Linked(events, i)
  }

  predicate Linked(events: seq<Event>, i: nat)
    requires i < |events|
  {
    && events[i].chainHash == Some(Hash(events[i].content))
    && events[i].content.previousHash == if i == 0 then None else events[i - 1].chainHash
  }

  // ---------------------------------------------------------------- file accesses

  /** A call between its two file accesses: the events it read, and what it is about to write. */
  datatype Call = Appending(seen: seq<Event>, event: Event) | Pruning(seen: seq<Event>, remaining: seq<Event>)

  /** The log file and the calls that have read it and not yet written. */
  datatype State = State(file: seq<Line>, calls: map<nat, Call>)

  datatype Access =
    | ReadToAppend(call: nat, draft: Draft, id: string, now: int)
    | WriteAppend(call: nat)
    | ReadToPrune(call: nat, retainDays: int, now: int)
    | WritePrune(call: nat)

  function Cutoff(retainDays: int, now: int): int { now - retainDays * 24 * 60 * 60 * 1000 }

  function Parse(events: seq<Event>): (lines: seq<Line>)
    ensures |lines| == |events|
  {
    seq(|events|, i requires 0 <= i < |events| => Parsed(events[i]))
  }

  function Step(s: State, a: Access): State {
    match a
    case ReadToAppend(call, draft, id, now) =>
      var events := ReadEvents(s.file);
      s.(calls := s.calls[call := Appending(events, Chained(draft, id, now, events))])
    case WriteAppend(call) =>
      if call in s.calls && s.calls[call].Appending?
      then State(s.file + [Parsed(s.calls[call].event)], s.calls - {call}) else s
    case ReadToPrune(call, retainDays, now) =>
      var events := ReadEvents(s.file);
      s.(calls := s.calls[call := Pruning(events, Retained(events, Cutoff(retainDays, now)))])
    case WritePrune(call) =>
      if call in s.calls && s.calls[call].Pruning?
      then State(Parse(s.calls[call].remaining), s.calls - {call}) else s
  }

  class AuditLog {
    var file: seq<Line>
    var calls: map<nat, Call>

    ghost function Now(): State
      reads this
    {
      State(file, calls)
    }

    constructor (lines: seq<Line>)
      ensures Now() == State(lines, map[])
    {
      file, calls := lines, map[];
    }

    /** `append` up to its write: the event is chained to the last readable one; `id` and `now` are generated. */
    method StartAppend(call: nat, draft: Draft, id: string, now: int)
      modifies this
      ensures Now() == Step(old(Now()), ReadToAppend(call, draft, id, now))
    {
      var events := ReadEvents(file);
      var previous := if events == [] then None else Truthy(events[|events| - 1].chainHash);
      var content := Content(id, now, draft.actor, draft.action, draft.target, draft.ip, draft.status, draft.detail,
                             previous);
      calls := calls[call := Appending(events, Event(content, Some(Hash(content))))];
    }

    method FinishAppend(call: nat)
      requires call in calls && calls[call].Appending?
      modifies this
      ensures Now() == Step(old(Now()), WriteAppend(call))
    {
      file := file + [Parsed(calls[call].event)];
      calls := calls - {call};
    }

    /** An append that nothing interrupts. */
    method Append(call: nat, draft: Draft, id: string, now: int)
      requires call !in calls
      modifies this
      ensures file == old(file) + [Parsed(Chained(draft, id, now, ReadEvents(old(file))))] && calls == old(calls)
    {
      StartAppend(call, draft, id, now);
      FinishAppend(call);
    }

    /** `prune` up to its write. */
    method StartPrune(call: nat, retainDays: int, now: int)
      modifies this
      ensures Now() == Step(old(Now()), ReadToPrune(call, retainDays, now))
    {
      var events := ReadEvents(file);
      calls := calls[call := Pruning(events, Retained(events, now - retainDays * 24 * 60 * 60 * 1000))];
    }

    method FinishPrune(call: nat) returns (result: PruneResult)
      requires call in calls && calls[call].Pruning?
      modifies this
      ensures Now() == Step(old(Now()), WritePrune(call))
      ensures result.remaining == |ReadEvents(file)| && result.removed + result.remaining == |old(calls)[call].seen|
    {
      var remaining := calls[call].remaining;
      result := PruneResult(|calls[call].seen| - |remaining|, |remaining|);
      file := Parse(remaining);
      calls := calls - {call};
      ReadParsed(remaining, file);
    }

    /** A prune that nothing interrupts. */
    method Prune(call: nat, retainDays: int, now: int) returns (result: PruneResult)
      requires call !in calls
      modifies this
      ensures ReadEvents(file) == Retained(ReadEvents(old(file)), Cutoff(retainDays, now)) && calls == old(calls)
      ensures forall e :: e in ReadEvents(file) <==>
        e in ReadEvents(old(file)) && now - e.content.time <= retainDays * 86_400_000
      ensures forall l <- file :: l.Parsed?
      ensures result.remaining == |ReadEvents(file)|
      ensures result.removed + result.remaining == |ReadEvents(old(file))|
    {
      ReadParsed(Retained(ReadEvents(file), Cutoff(retainDays, now)),
          Parse(Retained(ReadEvents(file), Cutoff(retainDays, now))));
      forall e ensures e in Retained(ReadEvents(file), Cutoff(retainDays, now)) <==>
        e in ReadEvents(file) && now - e.content.time <= retainDays * 86_400_000
      {
        KeptDays(ReadEvents(file), retainDays, now, e);
      }
      StartPrune(call, retainDays, now);
      result := FinishPrune(call);
    }

    method VerifyIntegrity() returns (report: Report)
      ensures var events := ReadEvents(file);
        && report.total == |events|
        && report.issues == Issues(events)
        && report.ok == Intact(events)
        && report.latestHash == Latest(events)
        && report.firstBrokenId ==
           if Issues(events) == [] || Issues(events)[0].id == "" then None else Some(Issues(events)[0].id)
    {
      var events := ReadEvents(file);
      var issues: seq<Issue> := [];
      var previousHash: Option<Digest> := None;
      var firstBrokenId: Option<string> := None;
      for i := 0 to |events|
        invariant Checked(events[..i], issues, previousHash, firstBrokenId)
      {
        var event := events[i];
        CheckNext(events, i, issues, previousHash, firstBrokenId);
        if Truthy(event.chainHash).None? {
          issues := issues + [Legacy(event.content.id)];
          firstBrokenId := OrElse(firstBrokenId, event.content.id);
          previousHash := None;
          continue;
        }
        if event.content.previousHash != previousHash {
          issues := issues + [PreviousMismatch(event.content.id)];
          firstBrokenId := OrElse(firstBrokenId, event.content.id);
        }
        if event.chainHash != Some(Hash(event.content)) {
          issues := issues + [ChainMismatch(event.content.id)];
          firstBrokenId := OrElse(firstBrokenId, event.content.id);
        }
        previousHash := event.chainHash;
      }
      assert events[..|events|] == events;
      IntactIsNoIssues(events);
      report := Report(|events|, issues == [], if firstBrokenId == Some("") then None else firstBrokenId, previousHash,
                       issues);
    }
  }

  /** What the check knows after these events. */
  ghost predicate Checked(events: seq<Event>, issues: seq<Issue>, previousHash: Option<Digest>,
      firstBrokenId: Option<string>) {
    && issues == Issues(events)
    && previousHash == Latest(events)
    && firstBrokenId == if issues == [] then None else Some(issues[0].id)
  }

  lemma CheckNext(events: seq<Event>, i: nat, issues: seq<Issue>, previousHash: Option<Digest>,
      firstBrokenId: Option<string>)
    requires i < |events| && Checked(events[..i], issues, previousHash, firstBrokenId)
    ensures var e, id := events[i], events[i].content.id;
      if Truthy(e.chainHash).None? then Checked(events[..i + 1], issues + [Legacy(id)], None, OrElse(firstBrokenId, id))
      else
        var unlinked, changed := e.content.previousHash != previousHash, e.chainHash != Some(Hash(e.content));
        var after := if unlinked then issues + [PreviousMismatch(id)] else issues;
        Checked(events[..i + 1], if changed then after + [ChainMismatch(id)] else after, e.chainHash,
                if unlinked || changed then OrElse(firstBrokenId, id) else firstBrokenId)
  {
    var id := events[i].content.id;
    assert events[..i + 1] == events[..i] + [events[i]];
    IssuesAppend(events[..i], events[i]);
    AppendTwo(issues, PreviousMismatch(id), ChainMismatch(id));
  }

  lemma IssuesAppend(events: seq<Event>, e: Event)
    ensures Issues(events + [e]) == Issues(events) + EventIssues(e, Latest(events))
    ensures Latest(events + [e]) == Truthy(e.chainHash)
  {
    assert (events + [e])[..|events|] == events;
  }

  lemma AppendTwo(issues: seq<Issue>, x: Issue, y: Issue)
    ensures issues + ([x] + [y]) == issues + [x] + [y]
  {
  }

  /** `x ??= id`. */
  function OrElse(x: Option<string>, id: string): Option<string> {
    if x.Some? then x else Some(id)
  }

  function Chained(draft: Draft, id: string, now: int, events: seq<Event>): Event {
    var content := Content(id, now, draft.actor, draft.action, draft.target, draft.ip, draft.status, draft.detail,
        Latest(events));
    Event(content, Some(Hash(content)))
  }

  function Retained(events: seq<Event>, cutoff: int): seq<Event> {
    if events == [] then []
    else (if events[0].content.time >= cutoff then [events[0]] else []) + Retained(events[1..], cutoff)
  }

  lemma {:induction false} RetainedMembers(events: seq<Event>, cutoff: int, e: Event)
    ensures e in Retained(events, cutoff) <==> e in events && e.content.time >= cutoff
  {
    if events != [] {
      RetainedMembers(events[1..], cutoff, e);
      assert e in events <==> e == events[0] || e in events[1..];
    }
  }

  /** Retaining is by age: an event stays exactly if it is at most so many days of 86400 seconds old. */
  lemma KeptDays(events: seq<Event>, retainDays: int, now: int, e: Event)
    ensures e in Retained(events, Cutoff(retainDays, now)) <==>
      e in events && now - e.content.time <= retainDays * 86_400_000
  {
    RetainedMembers(events, Cutoff(retainDays, now), e);
  }

  /** And what stays is in the order it had: an event more at the end is one more at the end, or none. */
  lemma KeptInOrder(events: seq<Event>, e: Event, retainDays: int, now: int)
    ensures Retained(events + [e], Cutoff(retainDays, now)) ==
      Retained(events, Cutoff(retainDays, now)) + if now - e.content.time <= retainDays * 86_400_000 then [e] else []
  {
    RetainedConcat(events, [e], Cutoff(retainDays, now));
    assert [e][1..] == [];
  }

  lemma {:induction false} RetainedLength(events: seq<Event>, cutoff: int)
    ensures |Retained(events, cutoff)| <= |events|
  {
    if events != [] {
      RetainedLength(events[1..], cutoff);
    }
  }

  lemma {:induction false} ReadParsed(events: seq<Event>, lines: seq<Line>)
    requires |lines| == |events| && forall i :: 0 <= i < |events| ==> lines[i] == Parsed(events[i])
    ensures ReadEvents(lines) == events
  {
    if events != [] {
      ReadParsed(events[1..], lines[1..]);
    }
  }

  lemma {:induction false} IntactIsNoIssues(events: seq<Event>)
    ensures Intact(events) <==> Issues(events) == []
  {
    if events != [] {
      var n := |events| - 1;
      var init := events[..n];
      IntactIsNoIssues(init);
      assert forall i: nat :: i < n ==> Linked(events, i) == Linked(init, i);
      assert Intact(events) <==> Intact(init) && Linked(events, n);
      if Intact(init) {
        assert n > 0 ==> Linked(init, n - 1);
        assert Linked(events, n) <==> EventIssues(events[n], Latest(init)) == [];
      }
    }
  }

  // ---------------------------------------------------------------- what one event adds

  /** What the check says after one more event, and the hash it goes on with. An event without a hash, or with
      an empty one, is reported as old; any other is reported for each of two faults: that it does not name the
      hash of the event before it, no hash if that has none, and that its hash is not the one over itself. */
  lemma CheckedEvent(events: seq<Event>, e: Event)
    ensures var hash := if events == [] then None else events[|events| - 1].chainHash;
      var previous := if hash == Some(Raw("")) then None else hash;
      Issues(events + [e]) == Issues(events) +
        if e.chainHash == None || e.chainHash == Some(Raw("")) then [Legacy(e.content.id)]
        else (if e.content.previousHash == previous then [] else [PreviousMismatch(e.content.id)]) +
             (if e.chainHash == Some(Hash(e.content)) then [] else [ChainMismatch(e.content.id)])
    ensures Latest(events + [e]) == if e.chainHash == Some(Raw("")) then None else e.chainHash
    ensures Issues([]) == [] && Latest([]) == None
  {
    IssuesAppend(events, e);
  }

  /** An appended event says what was submitted, when and under which id; it names the hash of the last event
      if that has one, and is hashed over itself. */
  lemma AppendedEvent(draft: Draft, id: string, now: int, events: seq<Event>)
    ensures var e, hash := Chained(draft, id, now, events),
        if events == [] then None else events[|events| - 1].chainHash;
      && e.content.id == id && e.content.time == now
      && e.content.actor == draft.actor && e.content.action == draft.action && e.content.target == draft.target
      && e.content.ip == draft.ip && e.content.status == draft.status && e.content.detail == draft.detail
      && e.content.previousHash == (if hash == Some(Raw("")) then None else hash)
      && e.chainHash == Some(Hash(e.content))
  {
  }

  /** Reading takes the lines in their order and leaves out exactly those that are no event. */
  lemma ReadLine(lines: seq<Line>, l: Line)
    ensures ReadEvents(lines + [l]) == ReadEvents(lines) + (if l.Parsed? then [l.event] else [])
    ensures ReadEvents([]) == []
  {
    ReadConcat(lines, [l]);
    assert [l][1..] == [];
  }

  lemma {:induction false} ReadConcat(a: seq<Line>, b: seq<Line>)
    ensures ReadEvents(a + b) == ReadEvents(a) + ReadEvents(b)
  {
    if a == [] {
      assert a + b == b;
    } else {
      assert (a + b)[1..] == a[1..] + b;
      ReadConcat(a[1..], b);
    }
  }

  // ---------------------------------------------------------------- commitment

  /** The latest hash commits to the whole log: two intact, non-empty logs that share it are equal. */
  lemma {:induction false} ChainCommits(a: seq<Event>, b: seq<Event>)
    requires Intact(a) && Intact(b) && a != [] && b != []
    requires Latest(a) == Latest(b)
    ensures a == b
  {
    var m, n := |a| - 1, |b| - 1;
    assert Linked(a, m) && Linked(b, n);
    assert m > 0 ==> Linked(a, m - 1);
    assert n > 0 ==> Linked(b, n - 1);
    if m > 0 && n > 0 {
      IntactInit(a);
      IntactInit(b);
      assert Linked(a[..m], m - 1) && Linked(b[..n], n - 1);
      ChainCommits(a[..m], b[..n]);
    }
    assert a == a[..m] + [a[m]] && b == b[..n] + [b[n]];
  }

  lemma IntactInit(events: seq<Event>)
    requires Intact(events) && events != []
    ensures Intact(events[..|events| - 1])
  {
    var init := events[..|events| - 1];
    assert forall i: nat :: i < |init| ==> Linked(events, i) == Linked(init, i);
  }

  // ---------------------------------------------------------------- appending

  /** An append that nothing interrupts leaves the issue list of any log, intact or not, as it was. */
  lemma AppendNeutral(lines: seq<Line>, draft: Draft, id: string, now: int)
    ensures var events := ReadEvents(lines);
      var longer := ReadEvents(lines + [Parsed(Chained(draft, id, now, events))]);
      |longer| == |events| + 1 && Issues(longer) == Issues(events)
  {
    var events := ReadEvents(lines);
    var e := Chained(draft, id, now, events);
    ReadAppended(lines, e);
    assert (events + [e])[..|events|] == events;
  }

  lemma ReadAppended(lines: seq<Line>, e: Event)
    ensures ReadEvents(lines + [Parsed(e)]) == ReadEvents(lines) + [e]
  {
    ReadLine(lines, Parsed(e));
  }

  /** An append that nothing interrupts. */
  datatype Submission = Submission(draft: Draft, id: string, now: int)

  function AppendAll(lines: seq<Line>, todo: seq<Submission>): seq<Line>
    decreases |todo|
  {
    if todo == [] then lines
    else
      var a := todo[0];
      AppendAll(lines + [Parsed(Chained(a.draft, a.id, a.now, ReadEvents(lines)))], todo[1..])
  }

  lemma {:induction false} AppendAllNeutral(lines: seq<Line>, todo: seq<Submission>)
    ensures Issues(ReadEvents(AppendAll(lines, todo))) == Issues(ReadEvents(lines))
    decreases |todo|
  {
    if todo != [] {
      var a := todo[0];
      AppendNeutral(lines, a.draft, a.id, a.now);
      AppendAllNeutral(lines + [Parsed(Chained(a.draft, a.id, a.now, ReadEvents(lines)))], todo[1..]);
    }
  }

  // ---------------------------------------------------------------- pruning

  /** How deep the chain of hashes inside a digest goes. */
  function Depth(d: Option<Digest>): nat
  {
    match d
    case Some(Hash(c)) => 1 + Depth(c.previousHash)
    case _ => 0
  }

  lemma {:induction false} DepthInChain(events: seq<Event>, i: nat)
    requires Intact(events) && i < |events|
    ensures Depth(events[i].chainHash) == i + 1
  {
    assert Linked(events, i);
    if i > 0 {
      DepthInChain(events, i - 1);
    }
  }

  /** The retained events whose predecessor was removed, in order: each loses its link. */
  function Gaps(events: seq<Event>, cutoff: int): seq<Issue> {
    if events == [] then [] else
      var n := |events| - 1;
      Gaps(events[..n], cutoff)
      + if events[n].content.time >= cutoff && n > 0 && events[n - 1].content.time < cutoff
        then [PreviousMismatch(events[n].content.id)] else []
  }

  lemma {:induction false} RetainedConcat(a: seq<Event>, b: seq<Event>, cutoff: int)
    ensures Retained(a + b, cutoff) == Retained(a, cutoff) + Retained(b, cutoff)
  {
    if a == [] {
      assert a + b == b;
    } else {
      assert (a + b)[1..] == a[1..] + b;
      RetainedConcat(a[1..], b, cutoff);
    }
  }

  /** The last retained event of a chain sits at some index; all after it are removed. */
  lemma {:induction false} LastRetained(events: seq<Event>, cutoff: int) returns (i: int)
    ensures -1 <= i < |events|
    ensures i < 0 <==> Retained(events, cutoff) == []
    ensures i >= 0 ==> events[i].content.time >= cutoff
    ensures i >= 0 ==> Latest(Retained(events, cutoff)) == Truthy(events[i].chainHash)
    ensures forall j :: i < j < |events| ==> events[j].content.time < cutoff
  {
    if events == [] {
      i := -1;
    } else {
      var n := |events| - 1;
      assert events == events[..n] + [events[n]];
      RetainedConcat(events[..n], [events[n]], cutoff);
      assert [events[n]][1..] == [];
      if events[n].content.time >= cutoff {
        i := n;
      } else {
        i := LastRetained(events[..n], cutoff);
        assert Retained(events, cutoff) == Retained(events[..n], cutoff);
      }
    }
  }

  /** An event follows the last retained one in the chain exactly when no event between them was removed. */
  lemma LinkKept(events: seq<Event>, n: nat, i: int)
    requires Intact(events) && n < |events| && -1 <= i < n
    ensures events[n].content.previousHash == (if i < 0 then None else Truthy(events[i].chainHash)) <==> i == n - 1
  {
    assert Linked(events, n);
    DepthInChain(events, n);
    if i >= 0 {
      DepthInChain(events, i);
      assert Linked(events, i);
    }
    if n > 0 {
      DepthInChain(events, n - 1);
    }
  }

  /** Pruning an intact log breaks exactly one link per retained event whose predecessor went. */
  lemma {:induction false} PruneBreaksGaps(events: seq<Event>, cutoff: int)
    requires Intact(events)
    ensures Issues(Retained(events, cutoff)) == Gaps(events, cutoff)
  {
    if events != [] {
      var n := |events| - 1;
      IntactInit(events);
      PruneBreaksGaps(events[..n], cutoff);
      RetainedLast(events, cutoff);
      if events[n].content.time >= cutoff {
        var kept := Retained(events[..n], cutoff);
        var all := kept + [events[n]];
        assert all[..|all| - 1] == kept;
        assert Issues(all) == Issues(kept) + EventIssues(events[n], Latest(kept));
        var i := LastRetained(events[..n], cutoff);
        LinkKept(events, n, i);
        assert n > 0 ==> events[..n][n - 1] == events[n - 1];
        assert i >= 0 ==> events[..n][i] == events[i];
        assert Linked(events, n);
        assert EventIssues(events[n], Latest(kept)) ==
          if i == n - 1 then [] else [PreviousMismatch(events[n].content.id)];
        assert i == n - 1 <==> n == 0 || events[n - 1].content.time >= cutoff;
      } else {
        assert Retained(events, cutoff) == Retained(events[..n], cutoff);
      }
    }
  }

  lemma RetainedLast(events: seq<Event>, cutoff: int)
    requires events != []
    ensures var n := |events| - 1;
      Retained(events, cutoff) ==
        Retained(events[..n], cutoff) + if events[n].content.time >= cutoff then [events[n]] else []
  {
    var n := |events| - 1;
    assert events == events[..n] + [events[n]];
    RetainedConcat(events[..n], [events[n]], cutoff);
    assert [events[n]][1..] == [];
  }

  /** With times in order only the first retained event can lose its link, and later appends add nothing. */
  lemma PruneFront(events: seq<Event>, cutoff: int, lines: seq<Line>, todo: seq<Submission>)
    requires Intact(events)
    requires forall i, j :: 0 <= i < j < |events| ==> events[i].content.time <= events[j].content.time
    requires ReadEvents(lines) == Retained(events, cutoff)
    ensures var kept := Retained(events, cutoff);
      Issues(ReadEvents(AppendAll(lines, todo))) ==
        if 0 < |kept| < |events| then [PreviousMismatch(kept[0].content.id)] else []
  {
    AppendAllNeutral(lines, todo);
    PruneBreaksGaps(events, cutoff);
    OneGap(events, cutoff);
  }

  lemma {:induction false} OneGap(events: seq<Event>, cutoff: int)
    requires forall i, j :: 0 <= i < j < |events| ==> events[i].content.time <= events[j].content.time
    ensures var kept := Retained(events, cutoff);
      && Gaps(events, cutoff) == (if 0 < |kept| < |events| then [PreviousMismatch(kept[0].content.id)] else [])
      && (events != [] ==> (kept == [] <==> events[|events| - 1].content.time < cutoff))
  {
    if events != [] {
      OneGap(events[..|events| - 1], cutoff);
      RetainedLast(events, cutoff);
      RetainedLength(events[..|events| - 1], cutoff);
    }
  }
}
