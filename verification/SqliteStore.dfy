/** The SQLite state store: every operation shares one connection, and `update` awaits its mutator
    between BEGIN IMMEDIATE and COMMIT, so other operations run inside its open transaction. */
module SqliteStore {
  import opened Wrappers

  /** A mutator: the new state, or none when it throws. */
  type Mutator<!T> = T -> Option<T>

  datatype Event<!T> =
    | Start(id: nat)
    | Resume(id: nat, mutator: Mutator<T>)
    | Write(data: T)
    | Archive

  datatype Reply = Suspended | Done | Rejected

  /** What the store has durably taken, in commit order. */
  datatype Effect<!T> = Updated(mutator: Mutator<T>) | Wrote(data: T)

  /** `pending` is the connection's own view while a transaction is open; `calls` maps each `update`
      that awaits its mutator to the state it read; `log` collects the effects reported as done that took. */
  datatype State<!T> = State(committed: T, pending: Option<T>, calls: map<nat, T>, log: seq<Effect<T>>)

  function Begin<T>(s: State<T>): State<T> { s.(pending := Some(s.committed)) }

  function Put<T>(s: State<T>, data: T): State<T> {
    if s.pending.Some? then s.(pending := Some(data)) else s.(committed := data)
  }

  function Commit<T>(s: State<T>): State<T> {
    if s.pending.Some? then s.(committed := s.pending.value, pending := None) else s
  }

  function Rollback<T>(s: State<T>): State<T> { s.(pending := None) }

  /** `readSync`: the connection sees its own uncommitted write. */
  function Visible<T>(s: State<T>): T { if s.pending.Some? then s.pending.value else s.committed }

  function Step<T>(s: State<T>, e: Event<T>): (r: (State<T>, Reply)) {
    match e
    case Start(id) =>
      if s.pending.Some? then (s, Rejected)
      else (Begin(s).(calls := s.calls[id := s.committed]), Suspended)
    case Resume(id, mutator) =>
      if id !in s.calls then (s, Rejected) else
        var t := s.(calls := s.calls - {id});
        var next := mutator(s.calls[id]);
        if next.None? then (Rollback(t), Rejected)
        else if t.pending.Some? then (Commit(Put(t, next.value)).(log := s.log + [Updated(mutator)]), Done)
        else (Put(t, next.value), Rejected)
    case Write(data) =>
      (Put(s, data).(log := if s.pending.Some? then s.log else s.log + [Wrote(data)]), Done)
    case Archive =>
      if s.pending.Some? then (Rollback(s), Rejected) else (s, Done)
  }

  // ---------------------------------------------------------------- the class

  class SqliteStateStore<!T> {
    var committed: T
    var pending: Option<T>
    var calls: map<nat, T>
    ghost var log: seq<Effect<T>>

    ghost function Now(): State<T>
      reads this
    {
      State(committed, pending, calls, log)
    }

    constructor (initial: T)
      ensures Now() == State(initial, None, map[], [])
    {
      committed, pending, calls, log := initial, None, map[], [];
    }

    /** One SQL command on the connection; false when SQLite refuses it. */
    method ExecBegin() returns (ok: bool)
      modifies this`pending
      ensures ok == old(pending).None? && Now() == if ok then Begin(old(Now())) else old(Now())
    {
      if pending.Some? {
        return false;
      }
      pending := Some(committed);
      ok := true;
    }

    method ExecCommit() returns (ok: bool)
      modifies this`committed, this`pending
      ensures ok == old(pending).Some? && Now() == Commit(old(Now()))
    {
      if pending.None? {
        return false;
      }
      committed := pending.value;
      pending := None;
      ok := true;
    }

    method ExecRollback() returns (ok: bool)
      modifies this`pending
      ensures ok == old(pending).Some? && Now() == Rollback(old(Now()))
    {
      ok := pending.Some?;
      pending := None;
    }

    method WriteSync(data: T)
      modifies this`committed, this`pending
      ensures Now() == Put(old(Now()), data)
    {
      if pending.Some? {
        pending := Some(data);
      } else {
        committed := data;
      }
    }

    method ReadSync() returns (data: T)
      ensures data == Visible(Now())
    {
      data := if pending.Some? then pending.value else committed;
    }

    /** `update` up to its await. */
    method StartUpdate(id: nat) returns (reply: Reply)
      modifies this
      ensures (Now(), reply) == Step(old(Now()), Start(id))
    {
      var ok := ExecBegin();
      if !ok {
        return Rejected;
      }
      var current := ReadSync();
      calls := calls[id := current];
      reply := Suspended;
    }

    /** `update` from its await on. */
    method ResumeUpdate(id: nat, mutator: Mutator<T>) returns (reply: Reply)
      requires id in calls
      modifies this
      ensures (Now(), reply) == Step(old(Now()), Resume(id, mutator))
    {
      var next := mutator(calls[id]);
      calls := calls - {id};
      if next.Some? {
        WriteSync(next.value);
        var ok := ExecCommit();
        if ok {
          log := log + [Updated(mutator)];
          return Done;
        }
      }
      var _ := ExecRollback();
      reply := Rejected;
    }

    method WriteState(data: T) returns (reply: Reply)
      modifies this
      ensures (Now(), reply) == Step(old(Now()), Write(data))
    {
      if pending.None? {
        log := log + [Wrote(data)];
      }
      WriteSync(data);
      reply := Done;
    }

    /** `archiveRecords`, whose inserts touch another table; BEGIN is inside its try block. */
    method ArchiveRecords() returns (reply: Reply)
      modifies this
      ensures (Now(), reply) == Step(old(Now()), Archive)
    {
      var ok := ExecBegin();
      if ok {
        var committedNow := ExecCommit();
        return Done;
      }
      var _ := ExecRollback();
      reply := Rejected;
    }
  }

  // ---------------------------------------------------------------- runs

  /** The state the effects produce one after the other. */
  function Replay<T>(initial: T, log: seq<Effect<T>>): T {
    if log == [] then initial else Take(Replay(initial, log[..|log| - 1]), log[|log| - 1])
  }

  function Take<T>(before: T, e: Effect<T>): T {
    match e
    case Updated(mutator) => var next := mutator(before); if next.Some? then next.value else before
    case Wrote(data) => data
  }

  /** Either idle, or one open transaction owned by the one call that awaits its mutator and read
      the committed state; and what is committed is exactly the effects reported as done. */
  predicate Serial<T(==)>(s: State<T>, initial: T) {
    && s.committed == Replay(initial, s.log)
    && |s.calls| <= 1
    && (s.pending.Some? <==> s.calls != map[])
    && forall id <- s.calls :: s.calls[id] == s.committed
  }

  function Run<T>(s: State<T>, events: seq<Event<T>>): State<T>
    decreases |events|
  {
    if events == [] then s else Run(Step(s, events[0]).0, events[1..])
  }

  /** No archive call hits an open transaction. */
  predicate Undisturbed<T>(s: State<T>, events: seq<Event<T>>)
    decreases |events|
  {
    events == [] || ((events[0].Archive? ==> s.pending.None?) && Undisturbed(Step(s, events[0]).0, events[1..]))
  }

  lemma ReplayAppend<T>(initial: T, log: seq<Effect<T>>, e: Effect<T>)
    ensures Replay(initial, log + [e]) == Take(Replay(initial, log), e)
  {
    assert (log + [e])[..|log|] == log;
  }

  lemma NoOtherCall<T>(calls: map<nat, T>, id: nat)
    requires |calls| <= 1 && id in calls
    ensures calls - {id} == map[]
  {
    var rest := calls.Keys - {id};
    assert |rest| == |calls.Keys| - 1;
    assert (calls - {id}).Keys == {};
  }

  lemma StepSerial<T>(s: State<T>, e: Event<T>, initial: T)
    requires Serial(s, initial) && (e.Archive? ==> s.pending.None?)
    ensures Serial(Step(s, e).0, initial)
  {
    match e
    case Start(id) =>
    case Resume(id, mutator) =>
      if id in s.calls {
        NoOtherCall(s.calls, id);
        ReplayAppend(initial, s.log, Updated(mutator));
      }
    case Write(data) =>
      ReplayAppend(initial, s.log, Wrote(data));
    case Archive =>
  }

  /** Serialisability: in every interleaving in which no archive call hits an open transaction, the
      stored state is the replay, in commit order, of exactly the updates that returned normally and
      the writes issued while idle. */
  lemma {:induction false} RunSerial<T>(s: State<T>, events: seq<Event<T>>, initial: T)
    requires Serial(s, initial) && Undisturbed(s, events)
    ensures Serial(Run(s, events), initial)
    decreases |events|
  {
    if events != [] {
      StepSerial(s, events[0], initial);
      RunSerial(Step(s, events[0]).0, events[1..], initial);
    }
  }

  /** In particular from the moment the store is opened. */
  lemma EveryRun<T>(events: seq<Event<T>>, initial: T)
    requires Undisturbed(State(initial, None, map[], []), events)
    ensures Serial(Run(State(initial, None, map[], []), events), initial)
  {
    RunSerial(State(initial, None, map[], []), events, initial);
  }

  // ---------------------------------------------------------------- what callers are told

  function Replies<T>(s: State<T>, events: seq<Event<T>>): (r: seq<Reply>)
    ensures |r| == |events|
    decreases |events|
  {
    if events == [] then [] else [Step(s, events[0]).1] + Replies(Step(s, events[0]).0, events[1..])
  }

  /** The updates that wait for their mutator after this call was answered. */
  function WaitingAfter<T>(waiting: set<nat>, e: Event<T>, reply: Reply): set<nat> {
    match e
    case Start(id) => if reply.Suspended? then waiting + {id} else waiting
    case Resume(id, _) => waiting - {id}
    case _ => waiting
  }

  /** What a caller may count on after its answer: an update that returned normally, and a write that was
      reported as done while no update waited. */
  function Promised<T>(waiting: set<nat>, e: Event<T>, reply: Reply): seq<Effect<T>> {
    match e
    case Resume(_, mutator) => if reply.Done? then [Updated(mutator)] else []
    case Write(data) => if reply.Done? && waiting == {} then [Wrote(data)] else []
    case _ => []
  }

  /** The effects promised over a run, from the calls and their answers alone. */
  function AllPromised<T>(waiting: set<nat>, events: seq<Event<T>>, replies: seq<Reply>): seq<Effect<T>>
    requires |events| == |replies|
    decreases |events|
  {
    if events == [] then [] else
      Promised(waiting, events[0], replies[0]) +
          AllPromised(WaitingAfter(waiting, events[0], replies[0]), events[1..], replies[1..])
  }

  lemma StepPromised<T>(s: State<T>, e: Event<T>, initial: T)
    requires Serial(s, initial) && (e.Archive? ==> s.pending.None?)
    ensures var (t, reply) := Step(s, e);
      t.log == s.log + Promised(s.calls.Keys, e, reply) && t.calls.Keys == WaitingAfter(s.calls.Keys, e, reply)
  {
    assert s.calls == map[] <==> s.calls.Keys == {};
  }

  lemma {:induction false} RunPromised<T>(s: State<T>, events: seq<Event<T>>, initial: T)
    requires Serial(s, initial) && Undisturbed(s, events)
    ensures Run(s, events).log == s.log + AllPromised(s.calls.Keys, events, Replies(s, events))
    decreases |events|
  {
    if events != [] {
      var t := Step(s, events[0]).0;
      StepPromised(s, events[0], initial);
      StepSerial(s, events[0], initial);
      RunPromised(t, events[1..], initial);
      PromisedCons(s, events);
      Regroup(s.log, Promised(s.calls.Keys, events[0], Step(s, events[0]).1),
          AllPromised(t.calls.Keys, events[1..], Replies(t, events[1..])));
    } else {
      Regroup(s.log, [], []);
    }
  }

  lemma PromisedCons<T>(s: State<T>, events: seq<Event<T>>)
    requires events != []
    ensures var (t, reply) := Step(s, events[0]);
      AllPromised(s.calls.Keys, events, Replies(s, events)) ==
        Promised(s.calls.Keys, events[0], reply) +
            AllPromised(WaitingAfter(s.calls.Keys, events[0], reply), events[1..], Replies(t, events[1..]))
  {
    assert Replies(s, events)[1..] == Replies(Step(s, events[0]).0, events[1..]);
  }

  lemma Regroup<T>(a: seq<Effect<T>>, b: seq<Effect<T>>, c: seq<Effect<T>>)
    ensures (a + b) + c == a + (b + c) && a + [] == a && [] + a == a
  {
  }

  /** What is stored is what the callers were told: over every undisturbed run from the moment the store is
      opened the committed state is the composition, in the order of the answers, of the mutators of exactly
      the updates that returned normally and the data of exactly the writes reported as done while idle. */
  lemma RepliesTell<T>(events: seq<Event<T>>, initial: T)
    requires Undisturbed(State(initial, None, map[], []), events)
    ensures var s := State(initial, None, map[], []);
      Run(s, events).committed == Replay(initial, AllPromised({}, events, Replies(s, events)))
  {
    var s: State<T> := State(initial, None, map[], []);
    RunSerial(s, events, initial);
    RunPromised(s, events, initial);
    assert s.calls.Keys == {};
    Regroup(AllPromised({}, events, Replies(s, events)), [], []);
  }

  /** The answer to every call, and what it stores: an update that waits returns normally exactly when its
      mutator does not throw, and then its result is stored; one that begins is refused exactly when another
      one waits; a write succeeds, and is stored at once when none waits. */
  lemma Answers<T>(s: State<T>, e: Event<T>, initial: T)
    requires Serial(s, initial) && (e.Archive? ==> s.calls == map[])
    ensures var (t, reply) := Step(s, e);
      match e
      case Start(id) =>
        && reply == (if s.calls == map[] then Suspended else Rejected) && t.committed == s.committed
        && t.calls == if s.calls == map[] then map[id := s.committed] else s.calls
      case Resume(id, mutator) =>
        if id !in s.calls then reply == Rejected && t == s
        else
          var next := mutator(s.committed);
          && t.calls == map[]
          && if next.Some? then reply == Done && t.committed == next.value
             else reply == Rejected && t.committed == s.committed
      case Write(data) =>
        reply == Done && t.calls == s.calls && t.committed == if s.calls == map[] then data else s.committed
      case Archive => reply == Done && t == s
  {
    if e.Resume? && e.id in s.calls {
      NoOtherCall(s.calls, e.id);
    }
  }

  /** The stored state is what the effects reported as done make it. */
  predicate Faithful<T(==)>(s: State<T>, initial: T) { s.committed == Replay(initial, s.log) }

  /** Whatever follows, as long as no later archive call hits an open transaction. */
  ghost predicate StaysFaithful<T(!new)>(s: State<T>, initial: T) {
    forall events: seq<Event<T>> :: Undisturbed(s, events) ==> Faithful(Run(s, events), initial)
  }

  /** An archive call is harmless exactly when no transaction is open: then whatever follows it leaves the
      stored state faithful, and otherwise something that may follow does not. There are two states at least. */
  lemma ArchiveKeepsSerial<T(!new)>(s: State<T>, initial: T, a: T, b: T)
    requires Serial(s, initial) && a != b
    ensures StaysFaithful(Step(s, Archive).0, initial) <==> s.pending.None?
  {
    if s.pending.None? {
      forall events: seq<Event<T>> | Undisturbed(s, events) ensures Faithful(Run(s, events), initial) {
        RunSerial(s, events, initial);
      }
    } else {
      var id :| id in s.calls;
      var v := if a != s.committed then a else b;
      var mutator: Mutator<T> := _ => Some(v);
      ArchiveInterrupts(s, initial, id, mutator);
      RunOne(Step(s, Archive).0, Resume(id, mutator));
      assert !Faithful(Run(Step(s, Archive).0, [Resume(id, mutator)]), initial);
    }
  }

  lemma RunOne<T>(s: State<T>, e: Event<T>)
    requires !e.Archive?
    ensures Run(s, [e]) == Step(s, e).0 && Undisturbed(s, [e])
  {
    assert [e][1..] == [];
    assert Run(Step(s, e).0, [e][1..]) == Step(s, e).0;
    assert Undisturbed(Step(s, e).0, [e][1..]);
  }

  /** When it hits one, the interrupted update is rejected and its result is stored all the same. */
  lemma ArchiveInterrupts<T>(s: State<T>, initial: T, id: nat, mutator: Mutator<T>)
    requires Serial(s, initial) && id in s.calls && mutator(s.calls[id]).Some?
    ensures var r := Step(Step(s, Archive).0, Resume(id, mutator));
      r.1 == Rejected && r.0.log == s.log && r.0.committed == mutator(s.calls[id]).value
  {
  }

  /** A write reported as done during an open transaction never reaches the stored state. */
  lemma WriteLost<T>(s: State<T>, initial: T, data: T, id: nat, mutator: Mutator<T>)
    requires Serial(s, initial) && id in s.calls
    ensures var r := Step(s, Write(data));
      var t := Step(r.0, Resume(id, mutator)).0;
      r.1 == Done && t == Step(s, Resume(id, mutator)).0
  {
  }

  // ---------------------------------------------------------------- reads

  /** Nor does a write land in an open transaction. */
  predicate Clean<T>(s: State<T>, events: seq<Event<T>>)
    decreases |events|
  {
    events == [] || ((events[0].Archive? || events[0].Write? ==> s.pending.None?) &&
        Clean(Step(s, events[0]).0, events[1..]))
  }

  /** With neither, every read at any time returns a committed state. */
  lemma {:induction false} RunReads<T>(s: State<T>, events: seq<Event<T>>, initial: T)
    requires Serial(s, initial) && Visible(s) == s.committed && Clean(s, events)
    ensures var t := Run(s, events);
      Serial(t, initial) && Visible(t) == t.committed == Replay(initial, t.log)
    decreases |events|
  {
    if events != [] {
      StepSerial(s, events[0], initial);
      RunReads(Step(s, events[0]).0, events[1..], initial);
    }
  }

  /** A write inside a transaction shows uncommitted data to readers, unless it wrote what was there. */
  lemma DirtyRead<T>(s: State<T>, initial: T, data: T)
    requires Serial(s, initial) && Visible(s) == s.committed
    ensures var t := Step(s, Write(data)).0;
      Visible(t) == t.committed <==> s.pending.None? || data == s.committed
  {
  }

  function Add(n: int): Mutator<int> { x => Some(x + n) }

  /** Two updates and one archive call: the update that returned normally is lost, and the one that
      was rejected is stored. */
  lemma ArchiveExample()
    ensures var s := Run(State(0, None, map[], []),
        [Start(1), Archive, Start(2), Resume(1, Add(1)), Resume(2, Add(10))]);
      s.log == [Updated(Add(1))] && s.committed == 10 && s.pending.None? && s.calls == map[]
  {
    var s0: State<int> := State(0, None, map[], []);
    var s1 := Step(s0, Start(1)).0;
    var s2 := Step(s1, Archive).0;
    var s3 := Step(s2, Start(2)).0;
    var s4 := Step(s3, Resume(1, Add(1))).0;
    assert s4 == State(1, None, map[2 := 0], [Updated(Add(1))]);
    var s5 := Step(s4, Resume(2, Add(10))).0;
    assert s5 == State(10, None, map[], [Updated(Add(1))]);
    var e5: seq<Event<int>> := [Resume(2, Add(10))];
    var e4 := [Resume(1, Add(1))] + e5;
    var e3 := [Start(2)] + e4;
    var e2 := [Archive] + e3;
    assert Run(s4, e5) == s5;
    assert e4[1..] == e5 && e3[1..] == e4 && e2[1..] == e3;
    assert Run(s3, e4) == s5;
    assert Run(s2, e3) == s5;
    assert Run(s1, e2) == s5;
    assert [Start(1), Archive, Start(2), Resume(1, Add(1)), Resume(2, Add(10))] == [Start(1)] + e2;
  }
}
