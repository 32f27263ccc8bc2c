/** The bounded, de-duplicating merge of what several relays return (concord_transport.py,
    `_fetch_events`). */
module Transport {
  import opened Prelude

  /** A fetched event; the id is absent when it is missing, empty or not a string. */
  datatype WireEvent = WireEvent(id: Option<string>, body: string)

  /** What contacting one relay comes to; the deadline covers all relays together. */
  datatype Reply = Failed | DeadlinePassed | Replied(events: seq<WireEvent>)

  datatype FetchError = BadLimit | TimedOut | NothingFetched

  /** The events with every repeated id dropped; events without id are all kept. */
  function Distinct(s: seq<WireEvent>): seq<WireEvent> {
    if s == [] then []
    else
      var kept, last := Distinct(s[..|s| - 1]), s[|s| - 1];
      if last.id.Some? && HasId(s[..|s| - 1], last.id.value) then kept else kept + [last]
  }

  predicate HasId(s: seq<WireEvent>, id: string) {
    exists i :: 0 <= i < |s| && s[i].id == Some(id)
  }

  /** Everything that arrives before the deadline, in order. */
  function Arrived(replies: seq<Reply>): seq<WireEvent> {
    if replies == [] || replies[0].DeadlinePassed? then []
    else (if replies[0].Replied? then replies[0].events else []) + Arrived(replies[1..])
  }

  /** What the caller gets: the first `limit` distinct events as soon as there are that many; otherwise
      everything, unless the deadline passed or every relay came back empty and one of them failed. */
  function Fetch(replies: seq<Reply>, limit: int): Result<seq<WireEvent>, FetchError> {
    var events := Distinct(Arrived(replies));
    if limit <= 0 then Err(BadLimit)
    else if |events| >= limit then Ok(events[..limit])
    else if DeadlinePassed in replies then Err(TimedOut)
    else if events == [] && Failed in replies then Err(NothingFetched)
    else Ok(events)
  }

  lemma DistinctSnoc(s: seq<WireEvent>, e: WireEvent)
    ensures Distinct(s + [e]) == if e.id.Some? && HasId(s, e.id.value) then Distinct(s) else Distinct(s) + [e]
  {
    assert (s + [e])[..|s|] == s;
  }

  lemma {:induction false} DistinctPrefix(s: seq<WireEvent>, t: seq<WireEvent>)
    ensures Distinct(s) <= Distinct(s + t)
    decreases |t|
  {
    if t == [] {
      assert s + t == s;
    } else {
      DistinctPrefix(s, t[..|t| - 1]);
      DistinctSnoc(s + t[..|t| - 1], t[|t| - 1]);
      assert s + t == (s + t[..|t| - 1]) + [t[|t| - 1]];
    }
  }

  lemma HasIdSnoc(s: seq<WireEvent>, e: WireEvent)
    ensures forall id :: HasId(s + [e], id) <==> HasId(s, id) || e.id == Some(id)
  {
    forall id ensures HasId(s + [e], id) <==> HasId(s, id) || e.id == Some(id) {
      if HasId(s, id) {
        var i :| 0 <= i < |s| && s[i].id == Some(id);
        assert (s + [e])[i].id == Some(id);
      }
      if e.id == Some(id) {
        assert (s + [e])[|s|].id == Some(id);
      }
      if HasId(s + [e], id) && e.id != Some(id) {
        var i :| 0 <= i < |s + [e]| && (s + [e])[i].id == Some(id);
        assert s[i].id == Some(id);
      }
    }
  }

  /** The state of the merge after reading `read`. */
  ghost predicate Merged(read: seq<WireEvent>, events: seq<WireEvent>, seen: set<string>) {
    events == Distinct(read) && forall id :: id in seen <==> HasId(read, id)
  }

  lemma MergeStep(read: seq<WireEvent>, e: WireEvent, events: seq<WireEvent>, seen: set<string>)
    requires Merged(read, events, seen)
    ensures if e.id.Some? && e.id.value in seen then Merged(read + [e], events, seen)
            else Merged(read + [e], events + [e], if e.id.Some? then seen + {e.id.value} else seen)
  {
    DistinctSnoc(read, e);
    HasIdSnoc(read, e);
  }

  /** Merges what one relay returned; stops as soon as the limit is reached. */
  method MergeReply(
    fetched: seq<WireEvent>, limit: int, events: seq<WireEvent>, seen: set<string>, ghost read: seq<WireEvent>)
    returns (merged: seq<WireEvent>, known: set<string>)
    requires Merged(read, events, seen) && |events| < limit
    ensures |merged| < limit ==> Merged(read + fetched, merged, known)
    ensures |merged| >= limit ==> |merged| == limit && merged <= Distinct(read + fetched)
  {
    merged, known := events, seen;
    assert read + fetched[..0] == read;
    for i := 0 to |fetched|
      invariant |merged| < limit && Merged(read + fetched[..i], merged, known)
    {
      var event := fetched[i];
      ghost var before := read + fetched[..i];
      assert read + fetched[..i + 1] == before + [event];
      MergeStep(before, event, merged, known);
      if event.id.Some? && event.id.value in known {
        continue;
      }
      if event.id.Some? {
        known := known + {event.id.value};
      }
      merged := merged + [event];
      if |merged| >= limit {
        DistinctPrefix(before + [event], fetched[i + 1..]);
        assert read + fetched == before + [event] + fetched[i + 1..];
        return;
      }
    }
    assert fetched[..|fetched|] == fetched;
  }

  /** What is known after `r` relays have been read without reaching the limit. */
  ghost predicate Reading(replies: seq<Reply>, r: nat, read: seq<WireEvent>, failures: nat)
    requires r <= |replies|
  {
    && Arrived(replies) == read + Arrived(replies[r..])
    && DeadlinePassed !in replies[..r]
    && (failures > 0 <==> Failed in replies[..r])
  }

  lemma {:induction false} ReadingStep(replies: seq<Reply>, r: nat, read: seq<WireEvent>, failures: nat)
    requires r < |replies| && Reading(replies, r, read, failures)
    ensures replies[r].Failed? ==> Reading(replies, r + 1, read, failures + 1)
    ensures replies[r].Replied? ==> Reading(replies, r + 1, read + replies[r].events, failures)
    ensures replies[r].DeadlinePassed? ==> Arrived(replies) == read && DeadlinePassed in replies
  {
    assert replies[..r + 1] == replies[..r] + [replies[r]];
    assert replies[r..][1..] == replies[r + 1..];
    var rest := Arrived(replies[r + 1..]);
    assert [] + rest == rest && read + [] == read;
    assert replies[r].Replied? ==> read + (replies[r].events + rest) == (read + replies[r].events) + rest;
    assert replies[r] in replies;
  }

  lemma LimitReached(
    replies: seq<Reply>, r: nat, read: seq<WireEvent>, failures: nat, events: seq<WireEvent>, limit: int)
    requires r <= |replies| && Reading(replies, r, read, failures)
    requires 0 < limit == |events| && events <= Distinct(read)
    ensures Fetch(replies, limit) == Ok(events[..limit])
  {
    DistinctPrefix(read, Arrived(replies[r..]));
    assert events <= Distinct(Arrived(replies));
    assert Distinct(Arrived(replies))[..limit] == events == events[..limit];
  }

  method FetchEvents(replies: seq<Reply>, limit: int) returns (result: Result<seq<WireEvent>, FetchError>)
    ensures result == Fetch(replies, limit)
  {
    if limit <= 0 {
      return Err(BadLimit);
    }
    var events: seq<WireEvent>, seen: set<string>, failures: nat := [], {}, 0;
    ghost var read: seq<WireEvent> := [];
    assert replies[0..] == replies && [] + Arrived(replies) == Arrived(replies);
    for r := 0 to |replies|
      invariant |events| < limit && Merged(read, events, seen) && Reading(replies, r, read, failures)
    {
      ReadingStep(replies, r, read, failures);
      match replies[r]
      case DeadlinePassed =>
        return Err(TimedOut);
      case Failed =>
        failures := failures + 1;
      case Replied(fetched) =>
        events, seen := MergeReply(fetched, limit, events, seen, read);
        read := read + fetched;
        if |events| >= limit {
          LimitReached(replies, r + 1, read, failures, events, limit);
          return Ok(events[..limit]);
        }
    }
    assert replies[|replies|..] == [] && replies[..|replies|] == replies && read + [] == read;
    if events != [] {
      return Ok(events);
    }
    if failures > 0 {
      return Err(NothingFetched);
    }
    return Ok(events);
  }

  ghost predicate DistinctIds(s: seq<WireEvent>) {
    forall i, j :: 0 <= i < j < |s| && s[i].id.Some? ==> s[i].id != s[j].id
  }

  /** De-duplication keeps each id once and loses none. */
  lemma {:induction false} DistinctMeaning(s: seq<WireEvent>)
    ensures DistinctIds(Distinct(s))
    ensures forall id :: HasId(Distinct(s), id) <==> HasId(s, id)
    ensures forall e :: e in Distinct(s) ==> e in s
  {
    if s != [] {
      var front, last := s[..|s| - 1], s[|s| - 1];
      assert s == front + [last];
      DistinctMeaning(front);
      HasIdSnoc(front, last);
      HasIdSnoc(Distinct(front), last);
      forall i | 0 <= i < |Distinct(front)| && Distinct(front)[i].id.Some?
        ensures HasId(front, Distinct(front)[i].id.value)
      {
        assert HasId(Distinct(front), Distinct(front)[i].id.value);
      }
    }
  }

  /** A successful fetch never exceeds its limit and never repeats an id; and if it is shorter than the
      limit, no id that arrived is missing, whichever relays failed. */
  lemma FetchIsBounded(replies: seq<Reply>, limit: int)
    requires Fetch(replies, limit).Ok?
    ensures var events := Fetch(replies, limit).value;
            && |events| <= limit && DistinctIds(events)
            && (forall e :: e in events ==> e in Arrived(replies))
            && (|events| < limit ==> forall id :: HasId(events, id) <==> HasId(Arrived(replies), id))
  {
    DistinctMeaning(Arrived(replies));
  }

  /** Relay `r` replied with `e`, and neither it nor a relay before it let the deadline pass. */
  predicate ArrivesFrom(replies: seq<Reply>, r: nat, e: WireEvent) {
    r < |replies| && replies[r].Replied? && e in replies[r].events && forall d :: 0 <= d < r ==> !replies[d].DeadlinePassed?
  }

  lemma {:induction false} ArrivedIff(replies: seq<Reply>, e: WireEvent)
    ensures e in Arrived(replies) <==> exists r: nat :: ArrivesFrom(replies, r, e)
    decreases |replies|
  {
    if replies != [] && !replies[0].DeadlinePassed? {
      var rest := replies[1..];
      ArrivedIff(rest, e);
      assert replies[0].Replied? && e in replies[0].events ==> ArrivesFrom(replies, 0, e);
      if r: nat :| ArrivesFrom(rest, r, e) {
        forall d | 0 <= d < r + 1 ensures !replies[d].DeadlinePassed? {
          assert d > 0 ==> replies[d] == rest[d - 1];
        }
        assert ArrivesFrom(replies, r + 1, e);
      }
      if r: nat :| ArrivesFrom(replies, r, e) {
        if r > 0 {
          forall d | 0 <= d < r - 1 ensures !rest[d].DeadlinePassed? {
            assert rest[d] == replies[d + 1];
          }
          assert ArrivesFrom(rest, r - 1, e);
        }
      }
    }
  }

  lemma {:induction false} DistinctEmptyIff(s: seq<WireEvent>)
    ensures Distinct(s) == [] <==> s == []
  {
    if s != [] {
      DistinctEmptyIff(s[..|s| - 1]);
      if Distinct(s[..|s| - 1]) == [] {
        assert !(s[|s| - 1].id.Some? && HasId(s[..|s| - 1], s[|s| - 1].id.value));
      }
    }
  }

  /** No relay replies with anything. */
  predicate AllEmpty(replies: seq<Reply>) {
    forall r :: 0 <= r < |replies| && replies[r].Replied? ==> replies[r].events == []
  }

  lemma NothingArrivesIff(replies: seq<Reply>)
    requires DeadlinePassed !in replies
    ensures Arrived(replies) == [] <==> AllEmpty(replies)
  {
    if r :| 0 <= r < |replies| && replies[r].Replied? && replies[r].events != [] {
      forall d | 0 <= d < r ensures !replies[d].DeadlinePassed? {
        assert replies[d] in replies;
      }
      assert ArrivesFrom(replies, r, replies[r].events[0]);
      ArrivedIff(replies, replies[r].events[0]);
    }
    if Arrived(replies) != [] {
      ArrivedIff(replies, Arrived(replies)[0]);
      var r: nat :| ArrivesFrom(replies, r, Arrived(replies)[0]);
    }
  }

  /** A fetch fails exactly for a limit that is not positive, for a deadline that passes before there are enough events, and
      when all relays that reply have nothing and one fails. A relay that fails beside one that has something does no harm. */
  lemma FetchFailsIff(replies: seq<Reply>, limit: int)
    ensures Fetch(replies, limit) == Err(BadLimit) <==> limit <= 0
    ensures Fetch(replies, limit) == Err(TimedOut)
            <==> limit > 0 && |Distinct(Arrived(replies))| < limit && DeadlinePassed in replies
    ensures Fetch(replies, limit) == Err(NothingFetched)
            <==> limit > 0 && DeadlinePassed !in replies && Failed in replies && AllEmpty(replies)
  {
    DistinctEmptyIff(Arrived(replies));
    if DeadlinePassed !in replies {
      NothingArrivesIff(replies);
    }
  }
}
