/** What both `impact` commands share: the donation events read from the chain, the posts a
    command makes in its channel, and the backfill selection, the last `limit` events of a
    query newest first. */
module Donations {
  import opened JsSemantics

  type ChannelId = string

  /** A `DonationProcessed` event: who gave, how much (in wei), to whom, and in which block. */
  datatype Event = Event(donor: string, amount: nat, beneficiary: string, block: nat)

  /** A message sent to a channel: plain text, or the embed describing one event. */
  datatype Post = Text(text: string) | Embed(event: Event)

  /** The number of events a backfill shows when no limit is given. */
  const DEFAULT_LIMIT := 3

  /** `events.slice(-limit).reverse()`. */
  function Latest(events: seq<Event>, limit: int): seq<Event> {
    Reverse(SliceFromEnd(events, limit))
  }

  /** With a positive limit: at most `limit` events, the newest (last) one first. */
  lemma LatestNewestFirst(events: seq<Event>, limit: int)
    requires limit >= 1
    ensures var r := Latest(events, limit);
            && |r| == (if limit <= |events| then limit else |events|)
            && forall i :: 0 <= i < |r| ==> r[i] == events[|events| - 1 - i]
  {
    var s := SliceFromEnd(events, limit);
    var from := if limit <= |events| then |events| - limit else 0;
    assert s == events[from..];
    forall i | 0 <= i < |s|
      ensures Reverse(s)[i] == events[|events| - 1 - i]
    {
      assert Reverse(s)[i] == s[|s| - 1 - i];
    }
  }

  /** A limit of 0 keeps everything: `slice(-0)` is `slice(0)`. */
  lemma LatestZeroLimit(events: seq<Event>)
    ensures Latest(events, 0) == Reverse(events)
  {
    assert events[0..] == events;
  }

  /** The embeds of the given events, in order. */
  function Embeds(events: seq<Event>): (ps: seq<Post>)
    ensures |ps| == |events| && forall i :: 0 <= i < |events| ==> ps[i] == Embed(events[i])
  {
    seq(|events|, i requires 0 <= i < |events| => Embed(events[i]))
  }

  /** The backfill loop: the quiet notice when there is nothing to show, otherwise one embed
      per event in the given order. */
  method SendBackfill(events: seq<Event>, quiet: string) returns (posts: seq<Post>)
    ensures events == [] ==> posts == [Text(quiet)]
    ensures events != [] ==> posts == Embeds(events)
  {
    if |events| == 0 {
      return [Text(quiet)];
    }
    posts := [];
    for i := 0 to |events|
      invariant posts == Embeds(events[..i])
    {
      posts := posts + [Embed(events[i])];
    }
    assert events[..|events|] == events;
  }
}
