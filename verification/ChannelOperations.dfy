/** What each operation on notification channels does, told by the channels it leaves. */
module ChannelOperations {
  import opened SecretRotation
  import opened Wrappers

  predicate IsGiven(url: Option<string>) { url.Some? && url.value != "" }

  /** Where a channel delivers: to its sealed URL if it has one, which takes the key it is sealed under, and else to
      its plain one. */
  lemma DeliversTo(c: Channel, key: Option<Key>)
    ensures ReadWebhookUrl(c, key) ==
      if c.encryptedUrl != None && c.encryptedUrl != Some(Other("")) then
        if key.Some? && Opens(c.encryptedUrl.value, key.value) then Some(c.encryptedUrl.value.text) else None
      else if IsGiven(c.url) then c.url else None
  {
  }

  /** A new channel is the last one, carries its name, and delivers at once to the URL it was given, which is not
      kept in the clear when there is a key. It is refused exactly for a host that is not allowed. */
  lemma Creates(channels: seq<Channel>, key: Option<Key>, id: string, name: string, url: Option<string>, allowed: bool,
      nonce: nat, now: int, actor: string)
    ensures var outcome := CreateOutcome(channels, key, id, name, url, allowed, nonce, now, actor);
      if !allowed then outcome == Rejected(NotAllowed)
      else
        && outcome.Ok? && |outcome.channels| == |channels| + 1 && outcome.channels[..|channels|] == channels
        && var c := outcome.channels[|channels|];
           && c.id == id && c.name == name && c.updatedAt == now && c.updatedBy == actor
           && ReadWebhookUrl(c, key) == (if IsGiven(url) then url else None)
           && (key.Some? ==> c.url == None)
  {
  }

  /** An update is refused for the first of these reasons: a new URL whose host is not allowed, no such channel,
      no new URL and an old one that cannot be read. */
  lemma UpdateRefusals(channels: seq<Channel>, key: Option<Key>, id: string, name: Option<string>, url: Option<string>,
      allowed: bool, nonce: nat, now: int, actor: string)
    ensures var outcome := UpdateOutcome(channels, key, id, name, url, allowed, nonce, now, actor);
      var bad, found := IsGiven(url) && !allowed, Find(channels, id);
      && (outcome == Rejected(NotAllowed) <==> bad)
      && (outcome == Rejected(NoChannel) <==> !bad && forall c <- channels :: c.id != id)
      && (outcome == Rejected(UrlUnreadable) <==>
            !bad && found.Some? && url == None && ReadWebhookUrl(found.value, key) == None)
  {
  }

  /** Otherwise it changes this channel only: a name that is given, and a URL that is given, to which the channel
      then delivers and which is not kept in the clear when there is a key; what is not given stays. */
  lemma Updates(channels: seq<Channel>, key: Option<Key>, id: string, name: Option<string>, url: Option<string>,
      allowed: bool, nonce: nat, now: int, actor: string, i: nat)
    requires UpdateOutcome(channels, key, id, name, url, allowed, nonce, now, actor).Ok? && i < |channels|
    requires channels[i].id == id ==> Find(channels, id) == Some(channels[i])
    ensures var after := UpdateOutcome(channels, key, id, name, url, allowed, nonce, now, actor).channels;
      var c := channels[i];
      && |after| == |channels|
      && if c.id != id then after[i] == c
         else
           var d := after[i];
           && d.id == id && d.name == (if IsGiven(name) then name.value else c.name)
           && d.updatedAt == now && d.updatedBy == actor
           && if IsGiven(url) then ReadWebhookUrl(d, key) == url && (key.Some? ==> d.url == None)
              else d.url == c.url && d.encryptedUrl == c.encryptedUrl
  {
  }

  /** A deletion leaves out this channel, and keeps the others in their order. */
  lemma {:induction false} Deletes(channels: seq<Channel>, c: Channel, id: string)
    ensures Deleted(channels + [c], id) == Deleted(channels, id) + (if c.id == id then [] else [c])
    ensures Deleted([], id) == []
  {
    var all := channels + [c];
    if channels == [] {
      assert all == [c] && all[1..] == [];
    } else {
      assert all[0] == channels[0] && all[1..] == channels[1..] + [c];
      Deletes(channels[1..], c, id);
    }
  }

  // ---------------------------------------------------------------- rotation

  /** What becomes of a channel: a plain URL is sealed; without one, a sealed URL that opens under the current key
      stays, one that opens under the previous key is sealed anew, and any other fails for the reason said. */
  lemma VerdictIs(c: Channel, key: Key, previous: Option<Key>)
    ensures var v, plain := Judge(c, key, previous), IsGiven(c.url);
      var stored := c.encryptedUrl != None && c.encryptedUrl != Some(Other(""));
      var current := stored && Opens(c.encryptedUrl.value, key);
      var before := stored && previous.Some? && Opens(c.encryptedUrl.value, previous.value);
      && (v.Migrated? <==> plain) && (v.Migrated? ==> c.url == Some(v.url))
      && (v.Current? <==> !plain && current)
      && (v.Rotated? <==> !plain && !current && before) && (v.Rotated? ==> c.encryptedUrl.value.text == v.url)
      && (v == Failed(NoUrl) <==> !plain && !stored)
      && (v == Failed(NeedsPreviousSecret) <==> !plain && stored && !current && previous == None)
      && (v == Failed(CannotOpen) <==> !plain && stored && !current && !before && previous.Some?)
  {
  }

  predicate Opens(s: Sealed, key: Key) { s.Sealed? && s.key == key && s.text != "" }

  /** A channel whose URL is sealed anew keeps id and name and nothing in the clear; any other stays as it is. */
  lemma RotatedChannel(c: Channel, key: Key, previous: Option<Key>, nonce: nat, now: int, actor: string)
    ensures var v := Judge(c, key, previous);
      After(c, key, previous, nonce, now, actor) ==
        if v.Migrated? || v.Rotated? then Channel(c.id, c.name, None, Some(Sealed(key, v.url, nonce)), now, actor)
        else c
  {
  }

  /** The report of one more channel: counted under its verdict, a sealed plain URL under two heads, and a failure
      listed last with the channel's id, its name, and the reason. */
  lemma ReportOneMore(channels: seq<Channel>, c: Channel, key: Key, previous: Option<Key>)
    ensures var r, s, v := ReportOf(channels, key, previous), ReportOf(channels + [c], key, previous),
        Judge(c, key, previous);
      && s.total == r.total + 1
      && s.rotated == r.rotated + (if v.Migrated? || v.Rotated? then 1 else 0)
      && s.plaintextMigrated == r.plaintextMigrated + (if v.Migrated? then 1 else 0)
      && s.alreadyCurrent == r.alreadyCurrent + (if v.Current? then 1 else 0)
      && s.failed == r.failed + (if v.Failed? then 1 else 0)
      && s.issues == r.issues + if v.Failed? then [Issue(c.id, c.name, v.reason)] else []
    ensures ReportOf([], key, previous) == Report(0, 0, 0, 0, 0, [])
  {
    assert (channels + [c])[..|channels|] == channels;
  }
}
