/** The `impact` command of bot/commands/impact.js: stream the contract's donation events
    into the first channel that asks, once. The first successful run binds that channel and
    subscribes one listener for good; a run from another channel afterwards is turned away
    before any chain read; a run that cannot read the chain registers nothing. */
module BotImpact {
  import opened JsSemantics
  import opened Donations

  const LISTENING := "\U{1F4A7} Listening for FlameBornEngine donations on Celo Alfajores..."
  const ELSEWHERE := "\U{1F501} Live donation updates are already streaming in another channel."
  const QUIET := "\U{1F56F}\U{FE0F} The chain is quiet for now. New donations will appear here in real time."
  const ACTIVATED := "\U{1F525} Live donation stream activated."
  const UNAVAILABLE := "\U{1F525} Unable to read donation events right now. Please try again later."

  /** How many blocks back the backfill looks. */
  const LOOKBACK := 5000

  /** The backfill's block range: from `max(0, latest - 5000)` to `latest`. */
  function Window(latest: nat): (w: (nat, nat))
    ensures w.1 == latest && w.0 <= w.1 && w.1 - w.0 <= LOOKBACK
    ensures w.1 - w.0 == LOOKBACK || w.0 == 0
  {
    (if latest - LOOKBACK > 0 then latest - LOOKBACK else 0, latest)
  }

  /** The query's answer: the chain's events whose block lies in the range, in chain order. */
  function InRange(chain: seq<Event>, w: (nat, nat)): (r: seq<Event>)
    ensures |r| <= |chain|
    ensures forall e :: e in r <==> e in chain && w.0 <= e.block <= w.1
    decreases |chain|
  {
    if chain == [] then []
    else
      var last := chain[|chain| - 1];
      var r := InRange(chain[..|chain| - 1], w) + (if w.0 <= last.block <= w.1 then [last] else []);
      assert chain == chain[..|chain| - 1] + [last];
      r
  }

  /** The query over two stretches of the chain answers the two queries one after the
      other: the answer keeps the chain's order and each event's multiplicity. */
  lemma {:induction false} InRangeAppend(a: seq<Event>, b: seq<Event>, w: (nat, nat))
    ensures InRange(a + b, w) == InRange(a, w) + InRange(b, w)
    decreases |b|
  {
    if b == [] {
      assert a + b == a;
    } else {
      var n := |b| - 1;
      assert (a + b)[..|a + b| - 1] == a + b[..n];
      InRangeAppend(a, b[..n], w);
    }
  }

  /** `fetchRecentDonations()`: the last three events of the last 5000 blocks, newest first. */
  function RecentDonations(chain: seq<Event>, latest: nat): (r: seq<Event>)
    ensures |r| <= DEFAULT_LIMIT
    ensures forall e :: e in r ==> e in chain && Window(latest).0 <= e.block <= latest
    ensures var found := InRange(chain, Window(latest));
            && |r| == (if DEFAULT_LIMIT <= |found| then DEFAULT_LIMIT else |found|)
            && forall i :: 0 <= i < |r| ==> r[i] == found[|found| - 1 - i]
  {
    var found := InRange(chain, Window(latest));
    LatestNewestFirst(found, DEFAULT_LIMIT);
    var r := Latest(found, DEFAULT_LIMIT);
    assert forall i :: 0 <= i < |r| ==> r[i] == found[|found| - 1 - i];
    assert forall i :: 0 <= i < |r| ==> r[i] in found;
    r
  }

  class DonationStream {
    var liveStreamChannelId: Option<ChannelId>
    var listenerRegistered: bool
    /** The channels the contract's `DonationProcessed` listeners post to. */
    var subscribers: seq<ChannelId>

    /** The flag and the bound channel are set together, and a registered stream has exactly
        one listener, posting to the bound channel. */
    ghost predicate Valid()
      reads this
    {
      && (listenerRegistered <==> liveStreamChannelId.Some?)
      && subscribers == (if listenerRegistered then [liveStreamChannelId.value] else [])
    }

    constructor()
      ensures Valid() && !listenerRegistered
    {
      liveStreamChannelId, listenerRegistered, subscribers := None, false, [];
    }

    /** `registerDonationListener`: the first call subscribes and binds the channel; every
        later call does nothing. */
    method RegisterDonationListener(channel: ChannelId)
      requires Valid()
      modifies this
      ensures Valid() && listenerRegistered
      ensures old(listenerRegistered) ==>
                liveStreamChannelId == old(liveStreamChannelId) && subscribers == old(subscribers)
      ensures !old(listenerRegistered) ==> liveStreamChannelId == Some(channel) && subscribers == [channel]
    {
      if listenerRegistered {
        return;
      }
      subscribers := subscribers + [channel];
      listenerRegistered := true;
      liveStreamChannelId := Some(channel);
    }

    /** `execute` from `channel`; `latest` is the chain's latest block, None when the chain
        cannot be read. Returns what is posted in the channel. */
    method Execute(channel: ChannelId, chain: seq<Event>, latest: Option<nat>) returns (posts: seq<Post>)
      requires Valid()
      modifies this
      ensures Valid()
      // set once, never reset
      ensures old(listenerRegistered) ==>
                listenerRegistered && liveStreamChannelId == old(liveStreamChannelId) && subscribers == old(subscribers)
      // another channel is turned away before the chain is read
      ensures old(listenerRegistered) && old(liveStreamChannelId) != Some(channel) ==>
                posts == [Text(LISTENING), Text(ELSEWHERE)]
      // a failed read registers nothing
      ensures !(old(listenerRegistered) && old(liveStreamChannelId) != Some(channel)) && latest.None? ==>
                posts == [Text(LISTENING), Text(UNAVAILABLE)]
                && listenerRegistered == old(listenerRegistered) && subscribers == old(subscribers)
      // otherwise backfill, then bind this channel (if nothing is bound yet)
      ensures !(old(listenerRegistered) && old(liveStreamChannelId) != Some(channel)) && latest.Some? ==>
                var recent := RecentDonations(chain, latest.value);
                && posts == [Text(LISTENING)] + (if recent == [] then [Text(QUIET)] else Embeds(recent))
                            + [Text(ACTIVATED)]
                && liveStreamChannelId == Some(channel)
    {
      posts := [Text(LISTENING)];
      if listenerRegistered && liveStreamChannelId != Some(channel) {
        posts := posts + [Text(ELSEWHERE)];
        return;
      }
      if latest.None? {
        posts := posts + [Text(UNAVAILABLE)];
        return;
      }
      var recent := RecentDonations(chain, latest.value);
      var backfill := SendBackfill(recent, QUIET);
      posts := posts + backfill;
      RegisterDonationListener(channel);
      posts := posts + [Text(ACTIVATED)];
    }
  }
}
