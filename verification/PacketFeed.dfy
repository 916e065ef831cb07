/** The poll-and-drain packet feed: a bounded list that pollers empty.  However the entries arrive
    and however often it is truncated, a poll returns the newest entries since the last one. */
module PacketFeed {

  function Newest<T>(entries: seq<T>, limit: nat): (r: seq<T>) {
    if |entries| <= limit then entries else entries[|entries| - limit..]
  }

  /** `r` is the end of the list: as much of it as the limit allows. */
  ghost predicate IsEnd<T>(entries: seq<T>, limit: nat, r: seq<T>) {
    && |r| <= limit && |r| <= |entries| && (|r| == limit || |r| == |entries|)
    && forall i :: 0 <= i < |r| ==> r[i] == entries[i + |entries| - |r|]
  }

  lemma NewestIsEnd<T>(entries: seq<T>, limit: nat, r: seq<T>)
    ensures IsEnd(entries, limit, r) <==> r == Newest(entries, limit)
  {
  }

  /** Truncating on the way changes nothing in what one final truncation keeps. */
  lemma TruncateOnTheWay<T>(before: seq<T>, more: seq<T>, limit: nat)
    ensures Newest(Newest(before, limit) + more, limit) == Newest(before + more, limit)
  {
    if |before| > limit {
      assert before + more == before[..|before| - limit] + (Newest(before, limit) + more);
    }
  }

  class Feed<T> {
    const limit: nat
    var packetFeed: seq<T>
    ghost var sincePoll: seq<T>  // everything delivered since the last poll

    constructor (limit: nat)
      requires limit > 0
      ensures Valid() && sincePoll == [] && this.limit == limit
    {
      this.limit := limit;
      packetFeed := [];
      sincePoll := [];
    }

    ghost predicate Valid()
      reads this
    {
      limit > 0 && packetFeed == Newest(sincePoll, limit)
    }

    /** The drainer's extend-and-truncate. */
    method Deliver(entries: seq<T>)
      requires Valid()
      modifies this
      ensures Valid() && sincePoll == old(sincePoll) + entries
    {
      TruncateOnTheWay(sincePoll, entries, limit);
      packetFeed := packetFeed + entries;
      if |packetFeed| > limit {
        packetFeed := packetFeed[|packetFeed| - limit..];
      }
      sincePoll := sincePoll + entries;
    }

    /** /api/packets. */
    method Poll() returns (entries: seq<T>)
      requires Valid()
      modifies this
      ensures Valid() && sincePoll == []
      ensures entries == Newest(old(sincePoll), limit) && IsEnd(old(sincePoll), limit, entries)
    {
      NewestIsEnd(sincePoll, limit, packetFeed);
      entries := packetFeed;
      packetFeed := [];
      sincePoll := [];
    }
  }
}
