/** Rotation of the webhook URLs of notification channels to the current encryption key. A sealed
    text opens under its own key only; anything else in the stored field does not open at all. */
module SecretRotation {
  import opened Wrappers

  type Key = string

  datatype Sealed = Sealed(key: Key, text: string, nonce: nat) | Other(raw: string)

  datatype Channel = Channel(id: string, name: string, url: Option<string>, encryptedUrl: Option<Sealed>,
      updatedAt: int, updatedBy: string)

  datatype Reason = NoUrl | NeedsPreviousSecret | CannotOpen

  datatype Issue = Issue(id: string, name: string, reason: Reason)

  datatype Report = Report(total: nat, rotated: nat, plaintextMigrated: nat, alreadyCurrent: nat, failed: nat,
      issues: seq<Issue>)

  // ---------------------------------------------------------------- secrets

  /** `decryptSecret`; an empty ciphertext is refused like any malformed text. */
  function Open(s: Sealed, key: Key): Option<string> {
    if s.Sealed? && s.key == key && s.text != "" then Some(s.text) else None
  }

  function PlainUrl(c: Channel): Option<string> {
    if c.url == Some("") then None else c.url
  }

  function StoredUrl(c: Channel): Option<Sealed> {
    if c.encryptedUrl == Some(Other("")) then None else c.encryptedUrl
  }

  /** `readWebhookUrl`: where a notification to the channel goes; without a key no ciphertext opens. */
  function ReadWebhookUrl(c: Channel, key: Option<Key>): Option<string> {
    if key.Some? then ReadUrl(c, key.value) else if StoredUrl(c).Some? then None else PlainUrl(c)
  }

  function ReadUrl(c: Channel, key: Key): Option<string> {
    if StoredUrl(c).Some? then Open(StoredUrl(c).value, key) else PlainUrl(c)
  }

  /** `toStoredUrl`, as the two fields it sets; none when there is nothing to store. */
  function StoredPair(url: Option<string>, key: Option<Key>, nonce: nat): (r: (Option<string>, Option<Sealed>)) {
    if url.None? || url.value == "" then (None, None)
    else if key.Some? then (None, Some(Sealed(key.value, url.value, nonce))) else (url, None)
  }

  /** `withStoredUrl`: a stored URL of one kind replaces that of the other. */
  function WithStored(c: Channel, stored: (Option<string>, Option<Sealed>)): Channel {
    if stored.1.Some? then c.(url := None, encryptedUrl := stored.1)
    else if stored.0.Some? then c.(url := stored.0, encryptedUrl := None) else c
  }

  datatype Error = NotAllowed | NoChannel | UrlUnreadable

  datatype Outcome = Ok(channels: seq<Channel>) | Rejected(error: Error)

  function Find(channels: seq<Channel>, id: string): (r: Option<Channel>)
    ensures r.Some? ==> r.value in channels && r.value.id == id
    ensures r.None? ==> forall c <- channels :: c.id != id
  {
    if channels == [] then None else if channels[0].id == id then Some(channels[0]) else Find(channels[1..], id)
  }

  function Replaced(channels: seq<Channel>, id: string, updated: Channel): (r: seq<Channel>)
    ensures |r| == |channels|
    ensures forall i :: 0 <= i < |r| ==> r[i] == if channels[i].id == id then updated else channels[i]
  {
    seq(|channels|, i requires 0 <= i < |channels| => if channels[i].id == id then updated else channels[i])
  }

  function Deleted(channels: seq<Channel>, id: string): seq<Channel> {
    if channels == [] then []
    else (if channels[0].id == id then [] else [channels[0]]) + Deleted(channels[1..], id)
  }

  /** `allowed` says whether the allowlist accepts the host of the URL. */
  function CreateOutcome(channels: seq<Channel>, key: Option<Key>, id: string, name: string, url: Option<string>,
      allowed: bool, nonce: nat, now: int, actor: string): Outcome {
    if !allowed then Rejected(NotAllowed) else
      var stored := StoredPair(url, key, nonce);
      Ok(channels + [Channel(id, name, stored.0, stored.1, now, actor)])
  }

  /** Without a new URL the stored one is read for the answer, and when that fails nothing is updated. */
  function UpdateOutcome(channels: seq<Channel>, key: Option<Key>, id: string, name: Option<string>,
      url: Option<string>,
      allowed: bool, nonce: nat, now: int, actor: string): Outcome {
    if url.Some? && url.value != "" && !allowed then Rejected(NotAllowed) else
      var found := Find(channels, id);
      if found.None? then Rejected(NoChannel)
      else if url.None? && ReadWebhookUrl(found.value, key).None? then Rejected(UrlUnreadable)
      else Ok(Replaced(channels, id, Renamed(found.value, name, StoredPair(url, key, nonce), now, actor)))
  }

  function Renamed(c: Channel, name: Option<string>, stored: (Option<string>, Option<Sealed>), now: int,
      actor: string): Channel {
    var named := if name.Some? && name.value != "" then c.(name := name.value) else c;
    WithStored(named.(updatedAt := now, updatedBy := actor), stored)
  }

  // ---------------------------------------------------------------- one channel

  datatype Verdict = Migrated(url: string) | Rotated(url: string) | Current | Failed(reason: Reason)

  function Judge(c: Channel, key: Key, previous: Option<Key>): Verdict {
    if PlainUrl(c).Some? then Migrated(PlainUrl(c).value)
    else if StoredUrl(c).None? then Failed(NoUrl)
    else if Open(StoredUrl(c).value, key).Some? then Current
    else if previous.None? then Failed(NeedsPreviousSecret)
    else
      var plain := Open(StoredUrl(c).value, previous.value);
      if plain.Some? then Rotated(plain.value) else Failed(CannotOpen)
  }

  function Resealed(c: Channel, url: string, key: Key, nonce: nat, now: int, actor: string): Channel {
    Channel(c.id, c.name, None, Some(Sealed(key, url, nonce)), now, actor)
  }

  function After(c: Channel, key: Key, previous: Option<Key>, nonce: nat, now: int, actor: string): Channel {
    match Judge(c, key, previous)
    case Migrated(url) => Resealed(c, url, key, nonce, now, actor)
    case Rotated(url) => Resealed(c, url, key, nonce, now, actor)
    case _ => c
  }

  // ---------------------------------------------------------------- all channels

  /** How many channels get a verdict of the chosen kinds. */
  function Count(channels: seq<Channel>, key: Key, previous: Option<Key>, kind: Verdict -> bool): nat {
    if channels == [] then 0
    else
      var one := if kind(Judge(channels[|channels| - 1], key, previous)) then 1 else 0;
      Count(channels[..|channels| - 1], key, previous, kind) + one
  }

  function Issues(channels: seq<Channel>, key: Key, previous: Option<Key>): seq<Issue> {
    if channels == [] then [] else
      var c := channels[|channels| - 1];
      var v := Judge(c, key, previous);
      Issues(channels[..|channels| - 1], key, previous) + if v.Failed? then [Issue(c.id, c.name, v.reason)] else []
  }

  predicate IsMigrated(v: Verdict) { v.Migrated? }
  predicate IsRotated(v: Verdict) { v.Migrated? || v.Rotated? }
  predicate IsCurrent(v: Verdict) { v.Current? }
  predicate IsFailed(v: Verdict) { v.Failed? }

  function ReportOf(channels: seq<Channel>, key: Key, previous: Option<Key>): Report {
    Report(|channels|, Count(channels, key, previous, IsRotated), Count(channels, key, previous, IsMigrated),
           Count(channels, key, previous, IsCurrent), Count(channels, key, previous, IsFailed),
               Issues(channels, key, previous))
  }

  function AllAfter(channels: seq<Channel>, key: Key, previous: Option<Key>, nonces: seq<nat>, now: int,
      actor: string): (r: seq<Channel>)
    requires |nonces| == |channels|
    ensures |r| == |channels|
  {
    seq(|channels|, i requires 0 <= i < |channels| => After(channels[i], key, previous, nonces[i], now, actor))
  }

  /** The report after one more channel. */
  function Counted(r: Report, c: Channel, v: Verdict): Report {
    Report(r.total + 1, if IsRotated(v) then r.rotated + 1 else r.rotated,
           if v.Migrated? then r.plaintextMigrated + 1 else r.plaintextMigrated,
           if v.Current? then r.alreadyCurrent + 1 else r.alreadyCurrent,
           if v.Failed? then r.failed + 1 else r.failed,
           if v.Failed? then r.issues + [Issue(c.id, c.name, v.reason)] else r.issues)
  }

  lemma RotateNext(channels: seq<Channel>, key: Key, previous: Option<Key>, nonces: seq<nat>, now: int,
      actor: string, i: nat)
    requires i < |channels| == |nonces|
    ensures var all := AllAfter(channels, key, previous, nonces, now, actor);
      all[..i + 1] == all[..i] + [After(channels[i], key, previous, nonces[i], now, actor)]
    ensures ReportOf(channels[..i + 1], key, previous) ==
      Counted(ReportOf(channels[..i], key, previous), channels[i], Judge(channels[i], key, previous))
  {
    assert channels[..i + 1][..i] == channels[..i];
  }

  class NotificationService {
    var channels: seq<Channel>
    const encryptionKey: Option<Key>

    /** The service as it starts on the stored channels. */
    constructor (stored: seq<Channel>, key: Option<Key>)
      ensures channels == stored && encryptionKey == key
    {
      channels, encryptionKey := stored, key;
    }

    method CreateChannel(id: string, name: string, url: Option<string>, allowed: bool, nonce: nat, now: int,
        actor: string)
      returns (error: Option<Error>)
      modifies this
      ensures match CreateOutcome(old(channels), encryptionKey, id, name, url, allowed, nonce, now, actor)
        case Ok(updated) => error == None && channels == updated
        case Rejected(e) => error == Some(e) && channels == old(channels)
    {
      if !allowed {
        return Some(NotAllowed);
      }
      var plain: Option<string>, encrypted: Option<Sealed> := None, None;
      if url.Some? && url.value != "" {
        if encryptionKey.Some? {
          encrypted := Some(Sealed(encryptionKey.value, url.value, nonce));
        } else {
          plain := url;
        }
      }
      channels := channels + [Channel(id, name, plain, encrypted, now, actor)];
      error := None;
    }

    method UpdateChannel(id: string, name: Option<string>, url: Option<string>, allowed: bool, nonce: nat, now: int,
        actor: string)
      returns (error: Option<Error>)
      modifies this
      ensures match UpdateOutcome(old(channels), encryptionKey, id, name, url, allowed, nonce, now, actor)
        case Ok(updated) => error == None && channels == updated
        case Rejected(e) => error == Some(e) && channels == old(channels)
    {
      if url.Some? && url.value != "" && !allowed {
        return Some(NotAllowed);
      }
      var existing := Find(channels, id);
      if existing.None? {
        return Some(NoChannel);
      }
      var updated := existing.value;
      if name.Some? && name.value != "" {
        updated := updated.(name := name.value);
      }
      updated := updated.(updatedAt := now, updatedBy := actor);
      if url.Some? && url.value != "" {
        updated := WithStored(updated, StoredPair(url, encryptionKey, nonce));
      }
      if url.None? && ReadWebhookUrl(existing.value, encryptionKey).None? {
        return Some(UrlUnreadable);
      }
      channels := Replaced(channels, id, updated);
      error := None;
    }

    method DeleteChannel(id: string) returns (removed: bool)
      modifies this
      ensures channels == Deleted(old(channels), id)
      ensures removed <==> |channels| != |old(channels)|
    {
      var next := Deleted(channels, id);
      removed := |next| != |channels|;
      channels := next;
    }

    /** `nonces` are the random initialisation vectors, one per channel; none without a key. */
    method RotateWebhookSecrets(previous: Option<Key>, nonces: seq<nat>, now: int, actor: string)
      returns (result: Option<Report>)
      requires |nonces| == |channels|
      modifies this
      ensures encryptionKey.None? ==> result == None && channels == old(channels)
      ensures encryptionKey.Some? ==>
        && result == Some(ReportOf(old(channels), encryptionKey.value, previous))
        && channels == AllAfter(old(channels), encryptionKey.value, previous, nonces, now, actor)
    {
      if encryptionKey.None? {
        return None;
      }
      var key := encryptionKey.value;
      var total := |channels|;
      var rotated, plaintextMigrated, alreadyCurrent, failed := 0, 0, 0, 0;
      var issues: seq<Issue> := [];
      var next: seq<Channel> := [];
      for i := 0 to total
        invariant channels == old(channels)
        invariant next == AllAfter(channels, key, previous, nonces, now, actor)[..i]
        invariant Report(i, rotated, plaintextMigrated, alreadyCurrent, failed, issues) ==
                  ReportOf(channels[..i], key, previous)
      {
        var channel := channels[i];
        RotateNext(channels, key, previous, nonces, now, actor, i);
        if PlainUrl(channel).Some? {
          rotated := rotated + 1;
          plaintextMigrated := plaintextMigrated + 1;
          next := next + [Resealed(channel, PlainUrl(channel).value, key, nonces[i], now, actor)];
        } else if StoredUrl(channel).Some? {
          var stored := StoredUrl(channel).value;
          if Open(stored, key).Some? {
            alreadyCurrent := alreadyCurrent + 1;
            next := next + [channel];
          } else if previous.None? {
            failed := failed + 1;
            issues := issues + [Issue(channel.id, channel.name, NeedsPreviousSecret)];
            next := next + [channel];
          } else {
            var plain := Open(stored, previous.value);
            if plain.Some? {
              rotated := rotated + 1;
              next := next + [Resealed(channel, plain.value, key, nonces[i], now, actor)];
            } else {
              failed := failed + 1;
              issues := issues + [Issue(channel.id, channel.name, CannotOpen)];
              next := next + [channel];
            }
          }
        } else {
          failed := failed + 1;
          issues := issues + [Issue(channel.id, channel.name, NoUrl)];
          next := next + [channel];
        }
      }
      assert channels[..total] == channels;
      channels := next;
      result := Some(Report(total, rotated, plaintextMigrated, alreadyCurrent, failed, issues));
    }
  }

  // ---------------------------------------------------------------- properties

  /** Every channel is counted once, and every failure has its issue. */
  lemma {:induction false} ReportBalances(channels: seq<Channel>, key: Key, previous: Option<Key>)
    ensures var r := ReportOf(channels, key, previous);
      r.total == r.rotated + r.alreadyCurrent + r.failed && r.plaintextMigrated <= r.rotated && |r.issues| == r.failed
  {
    if channels != [] {
      ReportBalances(channels[..|channels| - 1], key, previous);
    }
  }

  /** The URL a channel that does not fail stands for. */
  function Source(c: Channel, key: Key, previous: Option<Key>): string
    requires !Judge(c, key, previous).Failed?
  {
    match Judge(c, key, previous)
    case Migrated(url) => url
    case Rotated(url) => url
    case Current => Open(StoredUrl(c).value, key).value
  }

  /** Afterwards a channel that did not fail delivers to its URL under the current key, sealed, and a
      second rotation, with or without a previous key, finds it current. */
  lemma RotatedReads(c: Channel, key: Key, previous: Option<Key>, nonce: nat, now: int, actor: string,
      again: Option<Key>)
    requires !Judge(c, key, previous).Failed?
    ensures var d := After(c, key, previous, nonce, now, actor);
      && ReadUrl(d, key) == Some(Source(c, key, previous))
      && PlainUrl(d).None? && Judge(d, key, again) == Current
      && d.id == c.id && d.name == c.name
  {
  }

  /** Where the channel delivers under the current key or, failing that, delivered under the previous one. */
  function Delivered(c: Channel, key: Key, previous: Option<Key>): Option<string> {
    if ReadUrl(c, key).Some? || previous.None? then ReadUrl(c, key) else ReadUrl(c, previous.value)
  }

  /** A channel that delivered under either key keeps its destination exactly unless it also holds a
      different plain URL, which then silently replaces it. */
  lemma DestinationKept(c: Channel, key: Key, previous: Option<Key>, nonce: nat, now: int, actor: string)
    requires Delivered(c, key, previous).Some?
    ensures ReadUrl(After(c, key, previous, nonce, now, actor), key) == Delivered(c, key, previous) <==>
      StoredUrl(c).None? || PlainUrl(c).None? || PlainUrl(c) == Delivered(c, key, previous)
  {
  }

  /** A channel whose encrypted URL opens under neither key starts to deliver exactly when it holds a plain one. */
  lemma DestinationGained(c: Channel, key: Key, previous: Option<Key>, nonce: nat, now: int, actor: string)
    requires Delivered(c, key, previous).None?
    ensures ReadUrl(After(c, key, previous, nonce, now, actor), key) == PlainUrl(c)
  {
  }

  /** Rotating again with the same previous key touches nothing and reports everything that did not
      fail as current. */
  lemma {:induction false} SecondRotation(channels: seq<Channel>, key: Key, previous: Option<Key>,
      nonces: seq<nat>, now: int, actor: string,
      nonces': seq<nat>, now': int, actor': string)
    requires |nonces| == |channels| == |nonces'|
    ensures var next := AllAfter(channels, key, previous, nonces, now, actor);
      var first, second := ReportOf(channels, key, previous), ReportOf(next, key, previous);
      && AllAfter(next, key, previous, nonces', now', actor') == next
      && second.rotated == 0 && second.plaintextMigrated == 0
      && second.alreadyCurrent == first.rotated + first.alreadyCurrent
      && second.failed == first.failed && second.issues == first.issues
  {
    var next := AllAfter(channels, key, previous, nonces, now, actor);
    forall i | 0 <= i < |channels|
      ensures Judge(next[i], key, previous) ==
          if Judge(channels[i], key, previous).Failed? then Judge(channels[i], key, previous) else Current
    {
      if !Judge(channels[i], key, previous).Failed? {
        RotatedReads(channels[i], key, previous, nonces[i], now, actor, previous);
      }
    }
    if channels != [] {
      var n := |channels| - 1;
      SecondRotation(channels[..n], key, previous, nonces[..n], now, actor, nonces'[..n], now', actor');
      assert AllAfter(channels[..n], key, previous, nonces[..n], now, actor) == next[..n];
    }
  }
}
