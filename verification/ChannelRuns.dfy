/** Notification channels over every run of creations, updates, deletions, rotations and restarts with
    another key: a channel delivers to the URL it was last given or not at all. */
module ChannelRuns {
  import opened SecretRotation
  import opened Wrappers

  datatype Step =
    | Create(id: string, name: string, url: Option<string>, allowed: bool, nonce: nat, now: int, actor: string)
    | Update(id: string, newName: Option<string>, url: Option<string>, allowed: bool, nonce: nat, now: int,
        actor: string)
    | Delete(id: string)
    | Rotate(previous: Option<Key>, nonces: seq<nat>, now: int, actor: string)
    | Restart(key: Option<Key>)

  /** The stored channels, the key of the running service, and the URL each id was last given. */
  datatype History = History(channels: seq<Channel>, key: Option<Key>, given: map<string, string>)

  function Given(h: History, id: string, url: Option<string>): map<string, string> {
    if url.Some? && url.value != "" then h.given[id := url.value] else h.given
  }

  function Apply(h: History, step: Step): History {
    match step
    case Create(id, name, url, allowed, nonce, now, actor) =>
      (match CreateOutcome(h.channels, h.key, id, name, url, allowed, nonce, now, actor)
       case Ok(updated) => h.(channels := updated, given := Given(h, id, url))
       case Rejected(_) => h)
    case Update(id, name, url, allowed, nonce, now, actor) =>
      (match UpdateOutcome(h.channels, h.key, id, name, url, allowed, nonce, now, actor)
       case Ok(updated) => h.(channels := updated, given := Given(h, id, url))
       case Rejected(_) => h)
    case Delete(id) => h.(channels := Deleted(h.channels, id))
    case Rotate(previous, nonces, now, actor) =>
      if h.key.None? || |nonces| != |h.channels| then h
      else h.(channels := AllAfter(h.channels, h.key.value, previous, nonces, now, actor))
    case Restart(key) => h.(key := key)
  }

  /** Generated ids are fresh. */
  predicate Allowed(h: History, step: Step) {
    step.Create? ==> step.id !in h.given && forall c <- h.channels :: c.id != step.id
  }

  function Run(h: History, steps: seq<Step>): History
    decreases |steps|
  {
    if steps == [] then h else Run(Apply(h, steps[0]), steps[1..])
  }

  predicate RunAllowed(h: History, steps: seq<Step>)
    decreases |steps|
  {
    steps == [] || (Allowed(h, steps[0]) && RunAllowed(Apply(h, steps[0]), steps[1..]))
  }

  // ---------------------------------------------------------------- the invariant

  /** The channel holds the URL it was last given, plain or sealed under some key, or none if it was given none. */
  predicate Holds(c: Channel, given: map<string, string>) {
    if c.id !in given then c.url == None && c.encryptedUrl == None
    else
      || (c.url == Some(given[c.id]) && c.encryptedUrl == None)
      || (c.url == None && c.encryptedUrl.Some? && c.encryptedUrl.value.Sealed? &&
          c.encryptedUrl.value.text == given[c.id])
  }

  predicate Valid(h: History) {
    (forall id <- h.given :: h.given[id] != "") && forall c <- h.channels :: Holds(c, h.given)
  }

  lemma CreateValid(h: History, step: Step)
    requires Valid(h) && step.Create? && Allowed(h, step)
    ensures Valid(Apply(h, step))
  {
    var given := Given(h, step.id, step.url);
    forall c | c in Apply(h, step).channels ensures Holds(c, Apply(h, step).given) {
      if c in h.channels {
        assert Holds(c, h.given);
      }
    }
  }

  lemma UpdateValid(h: History, step: Step)
    requires Valid(h) && step.Update?
    ensures Valid(Apply(h, step))
  {
    var found := Find(h.channels, step.id);
    if found.Some? {
      assert Holds(found.value, h.given);
      forall c | c in Apply(h, step).channels ensures Holds(c, Apply(h, step).given) {
        if c in h.channels {
          assert Holds(c, h.given);
        }
      }
    }
  }

  lemma {:induction false} DeletedWithin(channels: seq<Channel>, id: string)
    ensures forall c <- Deleted(channels, id) :: c in channels
  {
    if channels != [] {
      DeletedWithin(channels[1..], id);
    }
  }

  lemma HoldsAfter(c: Channel, given: map<string, string>, key: Key, previous: Option<Key>, nonce: nat, now: int,
      actor: string)
    requires Holds(c, given) && forall id <- given :: given[id] != ""
    ensures Holds(After(c, key, previous, nonce, now, actor), given)
  {
  }

  lemma RotateValid(h: History, step: Step)
    requires Valid(h) && step.Rotate?
    ensures Valid(Apply(h, step))
  {
    if h.key.Some? && |step.nonces| == |h.channels| {
      var next := AllAfter(h.channels, h.key.value, step.previous, step.nonces, step.now, step.actor);
      forall i | 0 <= i < |next| ensures Holds(next[i], h.given) {
        HoldsAfter(h.channels[i], h.given, h.key.value, step.previous, step.nonces[i], step.now, step.actor);
      }
    }
  }

  /** Every step keeps each channel's stored URL the one it was last given, in exactly one of the two fields. */
  lemma StepValid(h: History, step: Step)
    requires Valid(h) && Allowed(h, step)
    ensures Valid(Apply(h, step))
  {
    match step
    case Create(_, _, _, _, _, _, _) => CreateValid(h, step);
    case Update(_, _, _, _, _, _, _) => UpdateValid(h, step);
    case Delete(id) => DeletedWithin(h.channels, id);
    case Rotate(_, _, _, _) => RotateValid(h, step);
    case Restart(_) =>
  }

  lemma {:induction false} RunValid(h: History, steps: seq<Step>)
    requires Valid(h) && RunAllowed(h, steps)
    ensures Valid(Run(h, steps))
    decreases |steps|
  {
    if steps != [] {
      StepValid(h, steps[0]);
      RunValid(Apply(h, steps[0]), steps[1..]);
    }
  }

  // ---------------------------------------------------------------- what every run promises

  const START: History := History([], None, map[])

  /** No reachable channel holds both a plain and an encrypted URL, and under no key does one deliver
      anywhere but to the URL it was last given. */
  lemma NeverMisdelivers(steps: seq<Step>, c: Channel, key: Option<Key>)
    requires RunAllowed(START, steps) && c in Run(START, steps).channels
    ensures StoredUrl(c).None? || PlainUrl(c).None?
    ensures var given := Run(START, steps).given;
      ReadWebhookUrl(c, key).Some? ==> c.id in given && ReadWebhookUrl(c, key).value == given[c.id]
  {
    RunValid(START, steps);
    assert Holds(c, Run(START, steps).given);
  }

  /** In every reachable state rotation keeps the destination of every channel across a change of key: it
      goes where the channel delivered under the current key or the previous one, and a channel fails
      exactly when it delivered under neither. */
  lemma RotationKeeps(steps: seq<Step>, c: Channel, key: Key, previous: Option<Key>, nonce: nat, now: int,
      actor: string)
    requires RunAllowed(START, steps) && c in Run(START, steps).channels
    ensures ReadUrl(After(c, key, previous, nonce, now, actor), key) == Delivered(c, key, previous)
    ensures Judge(c, key, previous).Failed? <==> Delivered(c, key, previous).None?
  {
    NeverMisdelivers(steps, c, Some(key));
  }

  /** An update that gives no URL is refused exactly when the stored one cannot be read: a channel that
      never had one, such as an e-mail channel, or one sealed under another key. */
  lemma UpdateRefused(h: History, c: Channel, name: Option<string>, nonce: nat, now: int, actor: string)
    requires Valid(h) && Find(h.channels, c.id) == Some(c)
    ensures UpdateOutcome(h.channels, h.key, c.id, name, None, true, nonce, now, actor).Rejected? <==>
      c.id !in h.given || (c.encryptedUrl.Some? && (h.key.None? || c.encryptedUrl.value.key != h.key.value))
  {
    assert Holds(c, h.given);
  }
}
