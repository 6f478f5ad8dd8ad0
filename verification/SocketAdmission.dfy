/** Admission of terminal WebSockets. An upgrade checks the global limit, then awaits the session
    lookup, then checks the session's limit and inserts its socket; other upgrades run during the
    await. A JavaScript `Map` keeps its entries in insertion order, so it is a sequence here. */
module SocketAdmission {
  import opened Collections
  import opened Numerals

  const MAX_PER_SESSION: nat := 10
  const MAX_TOTAL: nat := 500

  type Socket = nat

  datatype Bucket = Bucket(session: string, sockets: set<Socket>)

  /** `waiting` holds the upgrades between the global check and the insertion. */
  datatype State = State(buckets: seq<Bucket>, waiting: set<Socket>)

  /** Where the session lookup leads: an error or no session, or the session found. */
  datatype Lookup = NoSession | Session(id: string)

  datatype Event =
    | Begin(socket: Socket)
    | Finish(socket: Socket, lookup: Lookup, hasKey: bool)
    | Close(socket: Socket, session: string)

  datatype Outcome = Awaiting | Admitted | Refused(status: nat)

  function Total(buckets: seq<Bucket>): nat {
    if buckets == [] then 0 else |buckets[0].sockets| + Total(buckets[1..])
  }

  /** `sockets.get(session)`, empty when there is no bucket. */
  function SocketsOf(buckets: seq<Bucket>, session: string): set<Socket> {
    if buckets == [] then {}
    else if buckets[0].session == session then buckets[0].sockets else SocketsOf(buckets[1..], session)
  }

  /** `sockets.set(session, value)`. */
  function Put(buckets: seq<Bucket>, session: string, value: set<Socket>): seq<Bucket> {
    if buckets == [] then [Bucket(session, value)]
    else if buckets[0].session == session then [Bucket(session, value)] + buckets[1..]
    else [buckets[0]] + Put(buckets[1..], session, value)
  }

  predicate HasBucket(buckets: seq<Bucket>, session: string) { exists b <- buckets :: b.session == session }

  function FinishOutcome(s: State, lookup: Lookup, hasKey: bool): Outcome {
    if lookup.NoSession? then Refused(404)
    else if |SocketsOf(s.buckets, lookup.id)| >= MAX_PER_SESSION then Refused(429)
    else if !hasKey then Refused(400)
    else Admitted
  }

  function Step(s: State, e: Event): State {
    match e
    case Begin(u) => if Total(s.buckets) >= MAX_TOTAL then s else s.(waiting := s.waiting + {u})
    case Finish(u, lookup, hasKey) =>
      if FinishOutcome(s, lookup, hasKey).Admitted?
      then State(Put(s.buckets, lookup.id, SocketsOf(s.buckets, lookup.id) + {u}), s.waiting - {u})
      else s.(waiting := s.waiting - {u})
    case Close(u, session) =>
      if !HasBucket(s.buckets, session) then s
      else s.(buckets := Put(s.buckets, session, SocketsOf(s.buckets, session) - {u}))
  }

  // ---------------------------------------------------------------- the handler

  class Terminals {
    var buckets: seq<Bucket>
    ghost var waiting: set<Socket>

    ghost function Now(): State
      reads this
    {
      State(buckets, waiting)
    }

    constructor ()
      ensures Now() == State([], {})
    {
      buckets, waiting := [], {};
    }

    /** The part of an upgrade up to its await. */
    method BeginUpgrade(socket: Socket) returns (outcome: Outcome)
      modifies this
      ensures Now() == Step(old(Now()), Begin(socket))
      ensures outcome == if Total(old(buckets)) >= MAX_TOTAL then Refused(503) else Awaiting
    {
      var totalConnections := 0;
      for i := 0 to |buckets|
        invariant buckets == old(buckets) && waiting == old(waiting)
        invariant totalConnections + Total(buckets[i..]) == Total(buckets)
      {
        totalConnections := totalConnections + |buckets[i].sockets|;
        assert buckets[i..][1..] == buckets[i + 1..];
      }
      if totalConnections >= MAX_TOTAL {
        return Refused(503);
      }
      waiting := waiting + {socket};
      outcome := Awaiting;
    }

    /** The part after it, with the session the lookup gave. */
    method FinishUpgrade(socket: Socket, lookup: Lookup, hasKey: bool) returns (outcome: Outcome)
      modifies this
      ensures Now() == Step(old(Now()), Finish(socket, lookup, hasKey))
      ensures outcome == FinishOutcome(old(Now()), lookup, hasKey)
    {
      waiting := waiting - {socket};
      if lookup.NoSession? {
        return Refused(404);
      }
      var bucket := SocketsOf(buckets, lookup.id);
      if |bucket| >= MAX_PER_SESSION {
        return Refused(429);
      }
      if !hasKey {
        return Refused(400);
      }
      buckets := Put(buckets, lookup.id, bucket + {socket});
      outcome := Admitted;
    }

    method CloseSocket(socket: Socket, session: string)
      modifies this
      ensures Now() == Step(old(Now()), Close(socket, session))
    {
      if HasBucket(buckets, session) {
        buckets := Put(buckets, session, SocketsOf(buckets, session) - {socket});
      }
    }
  }

  // ---------------------------------------------------------------- runs

  /** The steps a server can take: sockets are distinct objects, and only a waiting upgrade finishes. */
  predicate Enabled(s: State, e: Event) {
    match e
    case Begin(u) => u !in s.waiting && forall b <- s.buckets :: u !in b.sockets
    case Finish(u, _, _) => u in s.waiting
    case Close(_, _) => true
  }

  function Run(s: State, events: seq<Event>): State
    decreases |events|
  {
    if events == [] then s else Run(Step(s, events[0]), events[1..])
  }

  /** An enabled run in which never more than `m` upgrades wait. */
  predicate Legal(s: State, events: seq<Event>, m: nat)
    decreases |events|
  {
    |s.waiting| <= m &&
    (events != [] ==> Enabled(s, events[0]) && Legal(Step(s, events[0]), events[1..], m))
  }

  predicate SessionsBounded(buckets: seq<Bucket>) {
    forall i :: 0 <= i < |buckets| ==> |buckets[i].sockets| <= MAX_PER_SESSION
  }

  /** The invariant: either there is room, or the excess is paid for by upgrades that no longer wait. */
  predicate Safe(s: State, m: nat) {
    && SessionsBounded(s.buckets)
    && (Total(s.buckets) < MAX_TOTAL || Total(s.buckets) + |s.waiting| < MAX_TOTAL + m)
  }

  lemma {:induction false} PutTotal(buckets: seq<Bucket>, session: string, value: set<Socket>)
    ensures Total(Put(buckets, session, value)) == Total(buckets) - |SocketsOf(buckets, session)| + |value|
    ensures SessionsBounded(buckets) && |value| <= MAX_PER_SESSION ==> SessionsBounded(Put(buckets, session, value))
    ensures |SocketsOf(buckets, session)| <= Total(buckets)
  {
    if buckets != [] {
      PutTotal(buckets[1..], session, value);
      var r := Put(buckets, session, value);
      if buckets[0].session == session {
        assert r[1..] == buckets[1..];
      } else {
        assert r[1..] == Put(buckets[1..], session, value);
      }
      if SessionsBounded(buckets) {
        assert SessionsBounded(buckets[1..]);
      }
    }
  }

  // ---------------------------------------------------------------- each step

  lemma {:induction false} PutSockets(buckets: seq<Bucket>, session: string, value: set<Socket>, other: string)
    ensures SocketsOf(Put(buckets, session, value), other) ==
      if other == session then value else SocketsOf(buckets, other)
  {
    if buckets != [] {
      PutSockets(buckets[1..], session, value, other);
      var r := Put(buckets, session, value);
      assert r[1..] == if buckets[0].session == session then buckets[1..] else Put(buckets[1..], session, value);
    }
  }

  /** The total is that of all sessions. */
  lemma {:induction false} TotalOfMore(buckets: seq<Bucket>, b: Bucket)
    ensures Total(buckets + [b]) == Total(buckets) + |b.sockets| && Total([]) == 0
  {
    var all := buckets + [b];
    if buckets == [] {
      assert all == [b] && all[1..] == [];
    } else {
      assert all[0] == buckets[0] && all[1..] == buckets[1..] + [b];
      TotalOfMore(buckets[1..], b);
    }
  }

  /** An upgrade goes on to wait exactly below five hundred sockets. */
  lemma BegunUpgrade(s: State, u: Socket)
    ensures var t := Step(s, Begin(u));
      t.buckets == s.buckets && t.waiting == if Total(s.buckets) < 500 then s.waiting + {u} else s.waiting
  {
  }

  /** After its wait the socket joins its session exactly if that was found, has fewer than ten, and the request
      has a key; otherwise the status says which of these failed first. No other session changes. */
  lemma FinishedUpgrade(s: State, u: Socket, lookup: Lookup, hasKey: bool, other: string)
    ensures var t, outcome := Step(s, Finish(u, lookup, hasKey)), FinishOutcome(s, lookup, hasKey);
      && t.waiting == s.waiting - {u}
      && (outcome == Refused(404) <==> lookup == NoSession)
      && (outcome == Refused(429) <==> lookup.Session? && |SocketsOf(s.buckets, lookup.id)| >= 10)
      && (outcome == Refused(400) <==> lookup.Session? && |SocketsOf(s.buckets, lookup.id)| < 10 && !hasKey)
      && (outcome == Admitted <==> lookup.Session? && |SocketsOf(s.buckets, lookup.id)| < 10 && hasKey)
      && SocketsOf(t.buckets, other) ==
         SocketsOf(s.buckets, other) + (if outcome == Admitted && other == lookup.id then {u} else {})
      && Total(t.buckets) ==
         Total(s.buckets) + if outcome == Admitted && u !in SocketsOf(s.buckets, lookup.id) then 1 else 0
  {
    if lookup.Session? {
      var before := SocketsOf(s.buckets, lookup.id);
      PutSockets(s.buckets, lookup.id, before + {u}, other);
      PutTotal(s.buckets, lookup.id, before + {u});
      assert u in before ==> before + {u} == before;
    }
  }

  lemma {:induction false} NoBucket(buckets: seq<Bucket>, session: string)
    requires !HasBucket(buckets, session)
    ensures SocketsOf(buckets, session) == {}
  {
    if buckets != [] {
      assert buckets[0] in buckets && forall b <- buckets[1..] :: b in buckets;
      NoBucket(buckets[1..], session);
    }
  }

  /** A close takes this socket from its session, and nothing else from any. */
  lemma ClosedSocket(s: State, u: Socket, session: string, other: string)
    ensures var t := Step(s, Close(u, session));
      && t.waiting == s.waiting
      && SocketsOf(t.buckets, other) == SocketsOf(s.buckets, other) - (if other == session then {u} else {})
      && Total(t.buckets) == Total(s.buckets) - if u in SocketsOf(s.buckets, session) then 1 else 0
  {
    var before := SocketsOf(s.buckets, session);
    if HasBucket(s.buckets, session) {
      PutSockets(s.buckets, session, before - {u}, other);
      PutTotal(s.buckets, session, before - {u});
      assert |before - {u}| == |before| - if u in before then 1 else 0;
    } else {
      NoBucket(s.buckets, session);
    }
  }

  /** So a session that was full has room for another socket. */
  lemma RoomAgain(s: State, u: Socket, session: string)
    requires SessionsBounded(s.buckets) && u in SocketsOf(s.buckets, session)
    ensures FinishOutcome(Step(s, Close(u, session)), Session(session), true) == Admitted
  {
    ClosedSocket(s, u, session, session);
    SessionFits(s.buckets, session);
    var before := SocketsOf(s.buckets, session);
    assert |before - {u}| == |before| - 1;
  }

  // ---------------------------------------------------------------- every run

  lemma StepSafe(s: State, e: Event, m: nat)
    requires Safe(s, m) && |s.waiting| <= m && Enabled(s, e)
    ensures Safe(Step(s, e), m)
  {
    match e
    case Begin(u) =>
    case Finish(u, lookup, hasKey) =>
      assert |s.waiting - {u}| == |s.waiting| - 1;
      if FinishOutcome(s, lookup, hasKey).Admitted? {
        var before := SocketsOf(s.buckets, lookup.id);
        assert |before + {u}| <= |before| + 1;
        PutTotal(s.buckets, lookup.id, before + {u});
      }
    case Close(u, session) =>
      var before := SocketsOf(s.buckets, session);
      SubsetSize(before - {u}, before);
      SessionFits(s.buckets, session);
      PutTotal(s.buckets, session, before - {u});
  }

  lemma {:induction false} SessionFits(buckets: seq<Bucket>, session: string)
    requires SessionsBounded(buckets)
    ensures |SocketsOf(buckets, session)| <= MAX_PER_SESSION
  {
    if buckets != [] {
      SessionFits(buckets[1..], session);
    }
  }

  /** In every interleaving no session holds more than ten sockets, and with at most `m` upgrades
      waiting at a time the total stays below the limit plus `m`. */
  lemma {:induction false} RunSafe(s: State, events: seq<Event>, m: nat)
    requires Safe(s, m) && Legal(s, events, m)
    ensures var t := Run(s, events);
      (forall b <- t.buckets :: |b.sockets| <= 10) && Total(t.buckets) <= 499 + m
    decreases |events|
  {
    if events != [] {
      StepSafe(s, events[0], m);
      RunSafe(Step(s, events[0]), events[1..], m);
    }
  }

  /** In particular from the empty server; one upgrade at a time never exceeds the limit itself. */
  lemma EveryRun(events: seq<Event>, m: nat)
    requires Legal(State([], {}), events, m)
    ensures var t := Run(State([], {}), events);
      && (forall b <- t.buckets :: |b.sockets| <= 10) && Total(t.buckets) <= 499 + m
      && (m == 1 ==> Total(t.buckets) <= 500)
  {
    RunSafe(State([], {}), events, m);
  }

  // ---------------------------------------------------------------- the bound is reached

  /** `n` sockets, each in a session of its own. */
  function Singles(n: nat): (b: seq<Bucket>)
    ensures |b| == n
  {
    seq(n, i requires 0 <= i < n => Bucket(Digits(i, 10), {i}))
  }

  function Range(a: nat, b: nat): set<Socket>
    requires a <= b
  {
    if a == b then {} else Range(a, b - 1) + {b - 1}
  }

  lemma {:induction false} RangeIs(a: nat, b: nat)
    requires a <= b
    ensures |Range(a, b)| == b - a && forall i :: i in Range(a, b) <==> a <= i < b
  {
    if a < b {
      RangeIs(a, b - 1);
    }
  }

  function Admit(u: Socket): Event { Finish(u, Session(Digits(u, 10)), true) }

  function Begins(a: nat, b: nat): seq<Event>
    requires a <= b
    decreases b - a
  {
    if a == b then [] else [Begin(a)] + Begins(a + 1, b)
  }

  function Finishes(a: nat, b: nat): seq<Event>
    requires a <= b
    decreases b - a
  {
    if a == b then [] else [Admit(a)] + Finishes(a + 1, b)
  }

  function OneByOne(a: nat, b: nat): seq<Event>
    requires a <= b
    decreases b - a
  {
    if a == b then [] else [Begin(a), Admit(a)] + OneByOne(a + 1, b)
  }

  lemma {:induction false} AppendNew(buckets: seq<Bucket>, session: string, value: set<Socket>)
    requires forall i :: 0 <= i < |buckets| ==> buckets[i].session != session
    ensures SocketsOf(buckets, session) == {} && Put(buckets, session, value) == buckets + [Bucket(session, value)]
    ensures Total(buckets + [Bucket(session, value)]) == Total(buckets) + |value|
  {
    var longer := buckets + [Bucket(session, value)];
    if buckets == [] {
      assert longer[1..] == [];
    } else {
      assert longer[1..] == buckets[1..] + [Bucket(session, value)];
      AppendNew(buckets[1..], session, value);
    }
  }

  lemma NextSingle(n: nat)
    ensures SocketsOf(Singles(n), Digits(n, 10)) == {}
    ensures Put(Singles(n), Digits(n, 10), {n}) == Singles(n + 1)
    ensures Total(Singles(n + 1)) == Total(Singles(n)) + 1
  {
    forall i | 0 <= i < n ensures Singles(n)[i].session != Digits(n, 10) {
      if Digits(i, 10) == Digits(n, 10) {
        DigitsInjective(i, n, 10);
      }
    }
    AppendNew(Singles(n), Digits(n, 10), {n});
    assert Singles(n + 1) == Singles(n) + [Bucket(Digits(n, 10), {n})];
  }

  lemma {:induction false} SinglesTotal(n: nat)
    ensures Total(Singles(n)) == n
  {
    if n > 0 {
      SinglesTotal(n - 1);
      NextSingle(n - 1);
    }
  }

  /** Appending the runs of two stages. */
  lemma {:induction false} LegalConcat(s: State, x: seq<Event>, y: seq<Event>, m: nat)
    requires Legal(s, x, m) && Legal(Run(s, x), y, m)
    ensures Legal(s, x + y, m) && Run(s, x + y) == Run(Run(s, x), y)
    decreases |x|
  {
    if x == [] {
      assert x + y == y;
    } else {
      assert (x + y)[1..] == x[1..] + y;
      LegalConcat(Step(s, x[0]), x[1..], y, m);
    }
  }

  lemma LegalCons(s: State, e: Event, rest: seq<Event>, m: nat)
    requires |s.waiting| <= m && Enabled(s, e) && Legal(Step(s, e), rest, m)
    ensures Legal(s, [e] + rest, m) && Run(s, [e] + rest) == Run(Step(s, e), rest)
  {
    assert ([e] + rest)[1..] == rest;
  }

  lemma BeginStep(n: nat, a: nat)
    requires n < MAX_TOTAL && n <= a
    ensures var s := State(Singles(n), Range(n, a));
      Enabled(s, Begin(a)) && Step(s, Begin(a)) == State(Singles(n), Range(n, a + 1))
  {
    SinglesTotal(n);
    RangeIs(n, a);
    forall b | b in Singles(n) ensures a !in b.sockets {
      var i :| 0 <= i < n && b == Singles(n)[i];
    }
  }

  lemma FinishStep(a: nat, b: nat)
    requires a < b
    ensures var s := State(Singles(a), Range(a, b));
      Enabled(s, Admit(a)) && Step(s, Admit(a)) == State(Singles(a + 1), Range(a + 1, b))
  {
    NextSingle(a);
    RangeIs(a, b);
    RangeIs(a + 1, b);
    assert Range(a, b) - {a} == Range(a + 1, b);
  }

  lemma {:induction false} RunOneByOne(a: nat, b: nat, m: nat)
    requires a <= b < MAX_TOTAL && 1 <= m
    ensures var s := State(Singles(a), {});
      Legal(s, OneByOne(a, b), m) && Run(s, OneByOne(a, b)) == State(Singles(b), {})
    decreases b - a
  {
    if a < b {
      RunOneByOne(a + 1, b, m);
      OneStep(a);
      LegalCons(State(Singles(a), {a}), Admit(a), OneByOne(a + 1, b), m);
      LegalCons(State(Singles(a), {}), Begin(a), [Admit(a)] + OneByOne(a + 1, b), m);
      assert OneByOne(a, b) == [Begin(a)] + ([Admit(a)] + OneByOne(a + 1, b));
    }
  }

  lemma OneStep(a: nat)
    requires a < MAX_TOTAL
    ensures var s, t := State(Singles(a), {}), State(Singles(a), {a});
      Enabled(s, Begin(a)) && Step(s, Begin(a)) == t && Enabled(t, Admit(a)) &&
          Step(t, Admit(a)) == State(Singles(a + 1), {})
  {
    assert Range(a, a) == {} && Range(a, a + 1) == {a} && Range(a + 1, a + 1) == {};
    BeginStep(a, a);
    FinishStep(a, a + 1);
  }

  lemma {:induction false} RunBegins(n: nat, a: nat, b: nat, m: nat)
    requires n < MAX_TOTAL && n <= a <= b && b - n <= m
    ensures var s := State(Singles(n), Range(n, a));
      Legal(s, Begins(a, b), m) && Run(s, Begins(a, b)) == State(Singles(n), Range(n, b))
    decreases b - a
  {
    assert |Range(n, a)| <= m by { RangeIs(n, a); }
    if a < b {
      var s, t := State(Singles(n), Range(n, a)), State(Singles(n), Range(n, a + 1));
      assert Enabled(s, Begin(a)) && Step(s, Begin(a)) == t by { BeginStep(n, a); }
      RunBegins(n, a + 1, b, m);
      LegalCons(s, Begin(a), Begins(a + 1, b), m);
    }
  }

  lemma {:induction false} RunFinishes(a: nat, b: nat, m: nat)
    requires a <= b && b - a <= m
    ensures var s := State(Singles(a), Range(a, b));
      Legal(s, Finishes(a, b), m) && Run(s, Finishes(a, b)) == State(Singles(b), {})
    decreases b - a
  {
    assert |Range(a, b)| <= m by { RangeIs(a, b); }
    if a < b {
      FinishStep(a, b);
      RunFinishes(a + 1, b, m);
      LegalCons(State(Singles(a), Range(a, b)), Admit(a), Finishes(a + 1, b), m);
    } else {
      assert Range(a, b) == {};
    }
  }

  /** The bound is exact: for every `m` a legal run from the empty state ends with 499 + m sockets. */
  lemma BoundReached(m: nat) returns (events: seq<Event>)
    requires 1 <= m
    ensures Legal(State([], {}), events, m)
    ensures Total(Run(State([], {}), events).buckets) == 499 + m
  {
    var start, n := State([], {}), MAX_TOTAL - 1;
    assert Singles(0) == [] && Range(n, n) == {};
    RunOneByOne(0, n, m);
    RunBegins(n, n, n + m, m);
    RunFinishes(n, n + m, m);
    LegalConcat(start, OneByOne(0, n), Begins(n, n + m), m);
    events := OneByOne(0, n) + Begins(n, n + m);
    LegalConcat(start, events, Finishes(n, n + m), m);
    events := events + Finishes(n, n + m);
    SinglesTotal(n + m);
  }
}
