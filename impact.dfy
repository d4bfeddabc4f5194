/** The `impact` command of commands/impact.js: share the latest donations, then make sure
    live updates stream into one channel. Unlike bot/commands/impact.js it backfills before
    looking at the binding, so a channel other than the bound one still gets the backfill,
    followed by the notice that updates stream elsewhere. */
module Impact {
  import opened JsSemantics
  import opened Donations

  const GATHERING := "\U{1F30D} Listening to the ledger. Gathering the latest ripples of impact..."
  const QUIET := "\U{1F56F}\U{FE0F} No recent donations found on the chain. The next spark will light this channel."
  const VEILED := "\U{1F525} The ledger is veiled right now. Please try again soon."
  const ELSEWHERE := "\U{1F501} Live donation updates are already streaming in another channel. Ask a Guardian to move them if needed."
  const IGNITED := "\U{1F4A7} Live donation stream ignited \U{2014} every new act of care will appear here."

  /** `fetchLatestDonations(limit)` on the query's events: nothing for no events, otherwise
      the last `limit` of them, newest first. */
  function LatestDonations(events: seq<Event>, limit: int): (r: seq<Event>)
    ensures r == Latest(events, limit)
  {
    if |events| == 0 then [] else Latest(events, limit)
  }

  class LiveUpdates {
    var liveUpdatesChannelId: Option<ChannelId>
    var liveUpdatesRegistered: bool
    /** The channels the router's `DonationProcessed` listeners post to. */
    var subscribers: seq<ChannelId>

    ghost predicate Valid()
      reads this
    {
      && (liveUpdatesRegistered <==> liveUpdatesChannelId.Some?)
      && subscribers == (if liveUpdatesRegistered then [liveUpdatesChannelId.value] else [])
    }

    constructor()
      ensures Valid() && !liveUpdatesRegistered
    {
      liveUpdatesChannelId, liveUpdatesRegistered, subscribers := None, false, [];
    }

    /** `ensureLiveUpdates`: the first call subscribes, binds the channel and says so; later
        calls change nothing, and from another channel say that updates stream elsewhere. */
    method EnsureLiveUpdates(channel: ChannelId) returns (posts: seq<Post>)
      requires Valid()
      modifies this
      ensures Valid() && liveUpdatesRegistered
      ensures old(liveUpdatesRegistered) ==>
                && liveUpdatesChannelId == old(liveUpdatesChannelId) && subscribers == old(subscribers)
                && posts == (if old(liveUpdatesChannelId) != Some(channel) then [Text(ELSEWHERE)] else [])
      ensures !old(liveUpdatesRegistered) ==>
                liveUpdatesChannelId == Some(channel) && subscribers == [channel] && posts == [Text(IGNITED)]
    {
      if liveUpdatesRegistered {
        if liveUpdatesChannelId != Some(channel) {
          return [Text(ELSEWHERE)];
        }
        return [];
      }
      subscribers := subscribers + [channel];
      liveUpdatesChannelId := Some(channel);
      liveUpdatesRegistered := true;
      posts := [Text(IGNITED)];
    }

    /** `execute` from `channel`; `queried` is the answer of the 5000-block query, None when it
        fails. Returns what is posted in the channel. */
    method Execute(channel: ChannelId, queried: Option<seq<Event>>) returns (posts: seq<Post>)
      requires Valid()
      modifies this
      ensures Valid()
      ensures old(liveUpdatesRegistered) ==>
                liveUpdatesRegistered && liveUpdatesChannelId == old(liveUpdatesChannelId)
                && subscribers == old(subscribers)
      ensures queried.None? ==>
                posts == [Text(GATHERING), Text(VEILED)]
                && liveUpdatesRegistered == old(liveUpdatesRegistered) && subscribers == old(subscribers)
                && liveUpdatesChannelId == old(liveUpdatesChannelId)
      ensures queried.Some? ==>
                var recent := Latest(queried.value, DEFAULT_LIMIT);
                var backfill := if recent == [] then [Text(QUIET)] else Embeds(recent);
                && liveUpdatesRegistered
                && (!old(liveUpdatesRegistered) ==>
                      liveUpdatesChannelId == Some(channel) && subscribers == old(subscribers) + [channel])
                && posts == [Text(GATHERING)] + backfill
                            + (if !old(liveUpdatesRegistered) then [Text(IGNITED)]
                               else if old(liveUpdatesChannelId) != Some(channel) then [Text(ELSEWHERE)]
                               else [])
    {
      posts := [Text(GATHERING)];
      if queried.None? {
        posts := posts + [Text(VEILED)];
        return;
      }
      var recent := LatestDonations(queried.value, DEFAULT_LIMIT);
      var backfill := SendBackfill(recent, QUIET);
      posts := posts + backfill;
      var more := EnsureLiveUpdates(channel);
      posts := posts + more;
    }
  }
}
