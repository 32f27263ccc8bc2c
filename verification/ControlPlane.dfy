/** The Control Plane as its callers use it: rumors are fetched and decoded (concord_control_reader.py), the roster
    among them yields the authority, and the authority filters the channel fold
    (concord_announcement_publish.py). */
module ControlPlane {
  import opened Prelude
  import opened Editions
  import opened ControlEvents
  import Channels
  import Roster
  import RosterFold
  import RosterMeaning
  import RosterOrder
  import RosterProofs
  import EditionHash
  import Transport

  /** Default bounds of the fetch and of the authority fold. */
  const MAX_EVENTS := 64
  const MAX_ITERATIONS := 128

  // ---------------------------------------------------------------------
  // From relays to rumors

  /** What decoding one fetched wrap comes to; an event that is no dictionary is passed over. */
  datatype Decoded = PassedOver | Malformed | Rumor(event: ControlEvent)

  /** The rumors of some wraps, or nothing if one of them is malformed. */
  function Rumors(decode: Transport.WireEvent -> Decoded, wraps: seq<Transport.WireEvent>): Option<seq<ControlEvent>> {
    if wraps == [] then Some([])
    else
      var before, last := Rumors(decode, wraps[..|wraps| - 1]), decode(wraps[|wraps| - 1]);
      if before.None? || last.Malformed? then None
      else if last.Rumor? then Some(before.value + [last.event])
      else before
  }

  /** The loop of `load_control_rumors`. */
  method LoadControlRumors(decode: Transport.WireEvent -> Decoded, wraps: seq<Transport.WireEvent>)
    returns (rumors: Option<seq<ControlEvent>>)
    ensures rumors == Rumors(decode, wraps)
  {
    var loaded := [];
    for i := 0 to |wraps|
      invariant Rumors(decode, wraps[..i]) == Some(loaded)
    {
      assert wraps[..i + 1][..i] == wraps[..i];
      var next := decode(wraps[i]);
      if next.Malformed? {
        MalformedStays(decode, wraps, i + 1);
        return None;
      }
      if next.Rumor? {
        loaded := loaded + [next.event];
      }
    }
    assert wraps[..|wraps|] == wraps;
    return Some(loaded);
  }

  lemma {:induction false} MalformedStays(
    decode: Transport.WireEvent -> Decoded, wraps: seq<Transport.WireEvent>, i: nat)
    requires i <= |wraps| && Rumors(decode, wraps[..i]) == None
    ensures Rumors(decode, wraps) == None
    decreases |wraps|
  {
    if i == |wraps| {
      assert wraps[..i] == wraps;
    } else {
      assert wraps[..|wraps| - 1][..i] == wraps[..i];
      MalformedStays(decode, wraps[..|wraps| - 1], i);
    }
  }

  lemma {:induction false} NoMoreRumorsThanWraps(
    decode: Transport.WireEvent -> Decoded, wraps: seq<Transport.WireEvent>)
    ensures Rumors(decode, wraps).Some? ==> |Rumors(decode, wraps).value| <= |wraps|
  {
    if wraps != [] {
      NoMoreRumorsThanWraps(decode, wraps[..|wraps| - 1]);
    }
  }

  /** Whatever the relays reply, the rumors that a default fetch yields are few enough for the default number of rounds:
      the authority fold ends in a true fixpoint. */
  lemma {:induction false} FetchedRumorsReachFixpoint(
    lib: Library, replies: seq<Transport.Reply>, decode: Transport.WireEvent -> Decoded, owner: string)
    requires Transport.Fetch(replies, MAX_EVENTS).Ok?
    requires Rumors(decode, Transport.Fetch(replies, MAX_EVENTS).value).Some?
    ensures var rumors := Rumors(decode, Transport.Fetch(replies, MAX_EVENTS).value).value;
            var editions := Roster.Parsed(lib, rumors);
            Roster.Additions(editions, Roster.Accepted(editions, owner, MAX_ITERATIONS), owner) == {}
  {
    var wraps := Transport.Fetch(replies, MAX_EVENTS).value;
    Transport.FetchIsBounded(replies, MAX_EVENTS);
    NoMoreRumorsThanWraps(decode, wraps);
    RosterProofs.SmallBatchReachesFixpoint(lib, Rumors(decode, wraps).value, owner, MAX_ITERATIONS);
  }

  // ---------------------------------------------------------------------
  // From rumors to channels

  /** Whether the roster in the rumors authorizes an event. */
  predicate MayAct(lib: Library, rumors: seq<ControlEvent>, owner: string, event: ControlEvent) {
    var editions := Roster.Parsed(lib, rumors);
    Roster.Authorized(lib, editions, Roster.Accepted(editions, owner, MAX_ITERATIONS), owner, event)
  }

  function Authority(lib: Library, rumors: seq<ControlEvent>, owner: string): Channels.Authority {
    Some((event: ControlEvent) => MayAct(lib, rumors, owner, event))
  }

  /** The channel editions that the roster in the same rumors authorizes. */
  function Authorized(lib: Library, rumors: seq<ControlEvent>, owner: string): seq<Channels.ChannelEdition> {
    Channels.Admitted(lib, Authority(lib, rumors, owner), rumors)
  }

  ghost predicate SameAuthority(a: Channels.Authority, b: Channels.Authority) {
    a.Some? && b.Some? && forall event :: a.value(event) == b.value(event)
  }

  lemma {:induction false} AdmittedSame(
    lib: Library, a: Channels.Authority, b: Channels.Authority, events: seq<ControlEvent>)
    requires SameAuthority(a, b)
    ensures Channels.Admitted(lib, a, events) == Channels.Admitted(lib, b, events)
  {
    if events != [] {
      AdmittedSame(lib, a, b, events[..|events| - 1]);
    }
  }

  /** The channel list of a batch of rumors, or nothing where the program raises because the owner is not a lower-case
      64-character key. */
  method ListChannels(lib: Library, rumors: seq<ControlEvent>, owner: string)
    returns (channels: Option<seq<Channels.ChannelMeta>>)
    ensures channels.Some? <==> |owner| == 64 && EditionHash.IsLower(owner)
    ensures channels.Some? ==> Channels.IsFold(Authorized(lib, rumors, owner), channels.value)
  {
    var authorized := RosterFold.BuildRosterAuthorizer(lib, rumors, owner, MAX_ITERATIONS);
    if authorized.None? {
      return None;
    }
    var folded := Channels.FoldChannelMetadata(lib, rumors, authorized);
    AdmittedSame(lib, authorized, Authority(lib, rumors, owner), rumors);
    return Some(folded);
  }

  /** The channel list depends only on the set of the rumors, although one fold reads its own authority from the same
      rumors in arrival order: provided that in every round the selected Grants to one member agree. */
  lemma ListingDependsOnSet(
    lib: Library, a: seq<ControlEvent>, b: seq<ControlEvent>, owner: string,
    r: seq<Channels.ChannelMeta>, r': seq<Channels.ChannelMeta>)
    requires UniqueEventIds(a) && SameElements(a, b)
    requires RosterOrder.AgreeingRounds(Roster.Parsed(lib, a), owner, MAX_ITERATIONS)
    requires Channels.IsFold(Authorized(lib, a, owner), r) && Channels.IsFold(Authorized(lib, b, owner), r')
    ensures r == r'
  {
    var x, y := Authority(lib, a, owner), Authority(lib, b, owner);
    forall event ensures x.value(event) == y.value(event) {
      RosterOrder.AuthorizerDependsOnSet(lib, a, b, owner, MAX_ITERATIONS, event);
    }
    AdmittedSame(lib, x, y, b);
    Channels.FoldDependsOnSet(lib, x, a, b, r, r');
  }

  /** Every channel edition of the owner enters the fold, whatever else is in the batch: the owner's key being one. */
  lemma OwnersEditionEnters(
    lib: Library, rumors: seq<ControlEvent>, owner: string, event: ControlEvent, e: Channels.ChannelEdition)
    requires event in rumors && event.pubkey == owner && Channels.ParseEdition(lib, event) == Some(e)
    requires |owner| == 64 && EditionHash.FromHex(owner + e.entity).Some?
    ensures e in Authorized(lib, rumors, owner)
  {
    var editions := Roster.Parsed(lib, rumors);
    Channels.ParsesIff(lib, event, e);
    RosterMeaning.ParsesIff(lib, event, e.entity, e.version, "2", e.hash);
    RosterMeaning.AuthorizedIff(lib, editions, Roster.Accepted(editions, owner, MAX_ITERATIONS), owner, event);
    Channels.AdmittedElements(lib, Authority(lib, rumors, owner), rumors);
    assert Channels.Admit(lib, Authority(lib, rumors, owner), event) == Some(e);
  }

  /** Why an edition of a channel is in force: its rumor arrived and is the owner's, or cites an accepted Grant that leads
      back to the owner, while an accepted Grant and Role let its author manage channels. */
  ghost predicate Justified(
    lib: Library, rumors: seq<ControlEvent>, owner: string, event: ControlEvent,
    line: seq<Roster.RosterEdition>, grant: Roster.RosterEdition, role: Roster.RosterEdition)
  {
    var editions := Roster.Parsed(lib, rumors);
    var accepted := Roster.Accepted(editions, owner, MAX_ITERATIONS);
    var edit := Roster.ParseEdition(lib, event);
    && event in rumors && edit.Some?
    && (event.pubkey == owner
        || (&& RosterProofs.Rooted(editions, owner, line) && RosterProofs.Cites(edit.value, line[0])
            && line[0].eventId in accepted
            && grant in editions && grant.eventId in accepted && role in editions && role.eventId in accepted
            && RosterProofs.Empowers(grant, role, event.pubkey)))
  }

  lemma AuthorizedIsJustified(lib: Library, rumors: seq<ControlEvent>, owner: string, event: ControlEvent)
    returns (line: seq<Roster.RosterEdition>, grant: Roster.RosterEdition, role: Roster.RosterEdition)
    requires UniqueEventIds(rumors) && event in rumors && MayAct(lib, rumors, owner, event)
    ensures Justified(lib, rumors, owner, event, line, grant, role)
  {
    var edit := Roster.ParseEdition(lib, event).value;
    if event.pubkey == owner {
      line, grant, role := [], edit, edit;
    } else {
      RosterOrder.ParsedOfSet(lib, rumors, rumors);
      line, grant, role := RosterProofs.EditIsRooted(Roster.Parsed(lib, rumors), owner, MAX_ITERATIONS, edit);
    }
  }

  /** Every edition in the selected chain of every channel, listed or not, was read from a rumor that is justified. */
  lemma SelectedIsJustified(
    lib: Library, rumors: seq<ControlEvent>, owner: string, channel: string, e: Channels.ChannelEdition)
    returns (event: ControlEvent, line: seq<Roster.RosterEdition>, grant: Roster.RosterEdition, role: Roster.RosterEdition)
    requires UniqueEventIds(rumors) && e in Channels.Selected(Authorized(lib, rumors, owner), channel)
    ensures Channels.ParseEdition(lib, event) == Some(e) && Justified(lib, rumors, owner, event, line, grant, role)
  {
    var g := OfEntity(Authorized(lib, rumors, owner), channel);
    SelectedAreMembers(g, e);
    OfEntityElements(Authorized(lib, rumors, owner), channel);
    Channels.AdmittedElements(lib, Authority(lib, rumors, owner), rumors);
    event :| event in rumors && Channels.Admit(lib, Authority(lib, rumors, owner), event) == Some(e);
    line, grant, role := AuthorizedIsJustified(lib, rumors, owner, event);
  }

  lemma SelectedAreMembers(g: seq<Channels.ChannelEdition>, e: Channels.ChannelEdition)
    requires e in Chain(g, false)
    ensures e in g
  {
    var chain := Chain(g, false);
    ChainMembers(g, MaxVersion(g), false);
    var i :| 0 <= i < |chain| && chain[i] == e;
    assert LinkedAt(g, chain, i);
  }
}
