/** Invite fragments (concord_invites.py): base64 text around a byte layout. */
module InviteFragment {
  import opened Prelude
  import opened Repetition
  import Base64Url

  /** Strict UTF-8: unpaired surrogates have no encoding, and no text has two. */
  datatype Utf8 = Utf8(encode: string -> Option<seq<Byte>>, decode: seq<Byte> -> Option<string>)

  ghost predicate Sound(utf8: Utf8) {
    forall text, bytes :: utf8.decode(bytes) == Some(text) <==> utf8.encode(text) == Some(bytes)
  }

  const VERSION: Byte := 4
  const TOKEN_LENGTH := 16
  const HOST: Byte := 0
  const URL: Byte := 255

  predicate InDictionary(id: Byte) {
    1 <= id <= 4
  }

  function Dictionary(id: Byte): string
    requires InDictionary(id)
  {
    if id == 1 then "wss://jskitty.com/nostr"
    else if id == 2 then "wss://asia.vectorapp.io/nostr"
    else if id == 3 then "wss://nostr.computingcache.com"
    else "wss://relay.damus.io"
  }

  function StockRelays(): seq<string> {
    [Dictionary(1), Dictionary(2), Dictionary(3), Dictionary(4)]
  }

  predicate IsWebSocket(url: string) {
    "wss://" <= url || "ws://" <= url
  }

  function Secure(host: string): string {
    "wss://" + host
  }

  lemma SecureIsWebSocket(host: string)
    ensures IsWebSocket(Secure(host))
  {
  }

  datatype Problem =
    | NotUrlSafe | NonPositiveMaximum | BadBase64 | UnsupportedVersion | TooManyRelays | Truncated | UnknownEntry | NotUtf8
    | NotWebSocket
    | BadLength

  datatype Fragment = Fragment(relays: seq<string>, token: seq<Byte>)

  /** One relay and the offset behind it. */
  function ReadText(utf8: Utf8, raw: seq<Byte>, offset: nat, kind: Byte): Result<(string, nat), Problem>
    requires offset < |raw|
  {
    var end := offset + 1 + raw[offset];
    if end > |raw| then Err(Truncated)
    else
      var value := utf8.decode(raw[offset + 1..end]);
      if value.None? then Err(NotUtf8)
      else
        var relay := if kind == HOST then Secure(value.value) else value.value;
        if !IsWebSocket(relay) then Err(NotWebSocket) else Ok((relay, end))
  }

  function ReadRelay(utf8: Utf8, raw: seq<Byte>, offset: nat): (r: Result<(string, nat), Problem>)
    ensures r.Ok? ==> offset < r.value.1 <= |raw|
  {
    if offset >= |raw| then Err(Truncated)
    else
      var kind := raw[offset];
      if InDictionary(kind) then Ok((Dictionary(kind), offset + 1))
      else if kind !in {HOST, URL} || offset + 1 >= |raw| then Err(UnknownEntry)
      else ReadText(utf8, raw, offset + 1, kind)
  }

  function Relays(utf8: Utf8, raw: seq<Byte>): Reader<string, Problem> {
    offset => ReadRelay(utf8, raw, offset)
  }

  function Finish(raw: seq<Byte>, offset: nat, relays: seq<string>): Result<Fragment, Problem> {
    if |raw| - offset != TOKEN_LENGTH then Err(BadLength) else Ok(Fragment(relays, raw[offset..]))
  }

  predicate Stock(flags: Byte) {
    flags % 2 == 1
  }

  /** What the decoded bytes say. */
  function DecodeBytes(utf8: Utf8, raw: seq<Byte>, maxRelays: int): Result<Fragment, Problem> {
    if |raw| < 18 || raw[0] != VERSION then Err(UnsupportedVersion)
    else if Stock(raw[1]) then Finish(raw, 2, StockRelays())
    else if raw[2] > maxRelays then Err(TooManyRelays)
    else
      match ReadMany(Relays(utf8, raw), 3, raw[2], [])
      case Err(problem) => Err(problem)
      case Ok((relays, offset)) => Finish(raw, offset, relays)
  }

  function Decode(utf8: Utf8, fragment: string, maxRelays: int): Result<Fragment, Problem> {
    if !Base64Url.IsUrlSafe(fragment) then Err(NotUrlSafe)
    else if maxRelays <= 0 then Err(NonPositiveMaximum)
    else
      var raw := Base64Url.Decode(fragment);
      if raw.None? then Err(BadBase64) else DecodeBytes(utf8, raw.value, maxRelays)
  }

  method DecodeRelay(utf8: Utf8, raw: seq<Byte>, start: nat) returns (r: Result<(string, nat), Problem>)
    ensures r == ReadRelay(utf8, raw, start)
  {
    var offset := start;
    if offset >= |raw| {
      return Err(Truncated);
    }
    var kind := raw[offset];
    offset := offset + 1;
    if InDictionary(kind) {
      return Ok((Dictionary(kind), offset));
    }
    if kind !in {HOST, URL} || offset >= |raw| {
      return Err(UnknownEntry);
    }
    var length := raw[offset];
    offset := offset + 1;
    var end := offset + length;
    if end > |raw| {
      return Err(Truncated);
    }
    var value := utf8.decode(raw[offset..end]);
    if value.None? {
      return Err(NotUtf8);
    }
    var relay := if kind == HOST then Secure(value.value) else value.value;
    if !IsWebSocket(relay) {
      return Err(NotWebSocket);
    }
    return Ok((relay, end));
  }

  /** The loop over the announced relays. */
  method DecodeRelays(utf8: Utf8, raw: seq<Byte>, start: nat, count: nat)
    returns (r: Result<(seq<string>, nat), Problem>)
    requires start <= |raw|
    ensures r == ReadMany(Relays(utf8, raw), start, count, [])
    ensures r.Ok? ==> |r.value.0| == count && r.value.1 <= |raw|
  {
    ghost var read := Relays(utf8, raw);
    var offset: nat, relays: seq<string> := start, [];
    for i := 0 to count
      invariant offset <= |raw| && |relays| == i
      invariant ReadMany(read, start, count, []) == ReadMany(read, offset, count - i, relays)
    {
      var next := DecodeRelay(utf8, raw, offset);
      assert next == read(offset);
      if next.Err? {
        return Err(next.error);
      }
      relays, offset := relays + [next.value.0], next.value.1;
    }
    return Ok((relays, offset));
  }

  method DecodeInviteFragment(utf8: Utf8, fragment: string, maxRelays: int) returns (r: Result<Fragment, Problem>)
    ensures r == Decode(utf8, fragment, maxRelays)
  {
    if !Base64Url.IsUrlSafe(fragment) {
      return Err(NotUrlSafe);
    }
    if maxRelays <= 0 {
      return Err(NonPositiveMaximum);
    }
    var decoded := Base64Url.Decode(fragment);
    if decoded.None? {
      return Err(BadBase64);
    }
    var raw := decoded.value;
    if |raw| < 18 || raw[0] != VERSION {
      return Err(UnsupportedVersion);
    }
    var offset: nat, relays: seq<string> := 2, [];
    var stock := Stock(raw[1]);
    if stock {
      relays := StockRelays();
    } else {
      var count := raw[offset];
      offset := offset + 1;
      if count > maxRelays {
        return Err(TooManyRelays);
      }
      var read := DecodeRelays(utf8, raw, offset, count);
      if read.Err? {
        return Err(read.error);
      }
      relays, offset := read.value.0, read.value.1;
    }
    if (!stock && |relays| > maxRelays) || |raw| - offset != TOKEN_LENGTH {
      return Err(BadLength);
    }
    return Ok(Fragment(relays, raw[offset..]));
  }

  // ---------------------------------------------------------------------
  // The layout

  /** A relay as the sender names it: by dictionary number, by host alone, or by its whole URL. */
  datatype Entry = Known(id: Byte) | Host(host: string) | Url(url: string)

  predicate Encodable(utf8: Utf8, text: string) {
    utf8.encode(text).Some? && |utf8.encode(text).value| < 256
  }

  predicate WellFormed(utf8: Utf8, e: Entry) {
    match e
    case Known(id) => InDictionary(id)
    case Host(host) => Encodable(utf8, host)
    case Url(url) => Encodable(utf8, url) && IsWebSocket(url)
  }

  function EncodeText(utf8: Utf8, kind: Byte, text: string): seq<Byte>
    requires Encodable(utf8, text)
  {
    var bytes := utf8.encode(text).value;
    [kind, |bytes|] + bytes
  }

  /** The bytes of an entry, and the relay it stands for. */
  function PieceOf(utf8: Utf8, e: Entry): Piece<Byte, string> {
    if !WellFormed(utf8, e) then Piece([], "")
    else
      match e
      case Known(id) => Piece([id], Dictionary(id))
      case Host(host) => Piece(EncodeText(utf8, HOST, host), Secure(host))
      case Url(url) => Piece(EncodeText(utf8, URL, url), url)
  }

  function Good(utf8: Utf8): Entry -> bool {
    e => WellFormed(utf8, e)
  }

  function Pieces(utf8: Utf8): Entry -> Piece<Byte, string> {
    e => PieceOf(utf8, e)
  }

  /** Reading a text entry where one was written. */
  lemma ReadEncodedText(utf8: Utf8, raw: seq<Byte>, offset: nat, kind: Byte, text: string)
    requires Sound(utf8) && kind in {HOST, URL} && Encodable(utf8, text)
    requires At(raw, offset, EncodeText(utf8, kind, text))
    ensures var relay := if kind == HOST then Secure(text) else text;
            IsWebSocket(relay)
            ==> ReadRelay(utf8, raw, offset) == Ok((relay, offset + |EncodeText(utf8, kind, text)|))
  {
    var part := EncodeText(utf8, kind, text);
    var bytes, end := utf8.encode(text).value, offset + |part|;
    assert raw[offset..end][0] == part[0] && raw[offset..end][1] == part[1];
    assert raw[offset + 2..end] == raw[offset..end][2..] == part[2..] == bytes;
    assert utf8.decode(bytes) == Some(text);
  }

  /** An entry is read back wherever it was written. */
  lemma ReadEncoded(utf8: Utf8, raw: seq<Byte>, offset: nat, e: Entry)
    requires Sound(utf8) && WellFormed(utf8, e) && At(raw, offset, PieceOf(utf8, e).written)
    ensures Read(Relays(utf8, raw), raw, offset, PieceOf(utf8, e))
  {
    match e
    case Known(id) => assert raw[offset..offset + 1][0] == id;
    case Host(host) =>
      SecureIsWebSocket(host);
      ReadEncodedText(utf8, raw, offset, HOST, host);
    case Url(url) =>
      ReadEncodedText(utf8, raw, offset, URL, url);
  }

  /** What is read was written as some entry. */
  lemma EncodedRead(utf8: Utf8, raw: seq<Byte>, offset: nat) returns (e: Entry)
    requires Sound(utf8) && ReadRelay(utf8, raw, offset).Ok?
    ensures WellFormed(utf8, e) && Read(Relays(utf8, raw), raw, offset, PieceOf(utf8, e))
  {
    var kind := raw[offset];
    var next := ReadRelay(utf8, raw, offset).value.1;
    if InDictionary(kind) {
      e := Known(kind);
    } else {
      var bytes := raw[offset + 2..next];
      var text := utf8.decode(bytes).value;
      assert utf8.encode(text) == Some(bytes);
      assert raw[offset..next] == [kind, raw[offset + 1]] + bytes;
      e := if kind == HOST then Host(text) else Url(text);
    }
  }

  lemma ReadsAllEntries(utf8: Utf8, raw: seq<Byte>)
    requires Sound(utf8)
    ensures ReadsGood(Relays(utf8, raw), raw, Good(utf8), Pieces(utf8))
  {
    var read, good, pieces := Relays(utf8, raw), Good(utf8), Pieces(utf8);
    forall e, offset: nat | good(e) && At(raw, offset, pieces(e).written) ensures Read(read, raw, offset, pieces(e)) {
      ReadEncoded(utf8, raw, offset, e);
    }
  }

  lemma ReadsOnlyEntries(utf8: Utf8, raw: seq<Byte>)
    requires Sound(utf8)
    ensures ReadsOnlyGood(Relays(utf8, raw), raw, Good(utf8), Pieces(utf8))
  {
    var read, good, pieces := Relays(utf8, raw), Good(utf8), Pieces(utf8);
    forall offset: nat | read(offset).Ok? ensures exists e :: good(e) && Read(read, raw, offset, pieces(e)) {
      var e := EncodedRead(utf8, raw, offset);
      assert good(e) && Read(read, raw, offset, pieces(e));
    }
  }

  // ---------------------------------------------------------------------
  // Whole fragments

  function Encode(utf8: Utf8, flags: Byte, entries: seq<Entry>, token: seq<Byte>): seq<Byte>
    requires |entries| < 256
  {
    Assemble(flags, |entries|, Written(Pieces(utf8), entries), token)
  }

  function Assemble(flags: Byte, count: Byte, body: seq<Byte>, token: seq<Byte>): seq<Byte> {
    [VERSION, flags, count] + body + token
  }

  lemma AssembledParts(flags: Byte, count: Byte, body: seq<Byte>, token: seq<Byte>)
    ensures var raw := Assemble(flags, count, body, token);
            && |raw| == 3 + |body| + |token| && raw[0] == VERSION && raw[1] == flags && raw[2] == count
            && At(raw, 3, body) && raw[3 + |body|..] == token
  {
  }

  /** The relay that an entry stands for: one of the four well-known ones, a host behind the secure scheme, or a URL. */
  predicate StandsFor(e: Entry, relay: string) {
    match e
    case Known(id) =>
      || (id == 1 && relay == "wss://jskitty.com/nostr") || (id == 2 && relay == "wss://asia.vectorapp.io/nostr")
      || (id == 3 && relay == "wss://nostr.computingcache.com") || (id == 4 && relay == "wss://relay.damus.io")
    case Host(host) => relay == "wss://" + host
    case Url(url) => relay == url
  }

  /** The bytes of an entry: its number, or 0 or 255, a length byte and so many bytes. */
  ghost predicate LaidOut(utf8: Utf8, e: Entry, bytes: seq<Byte>) {
    match e
    case Known(id) => bytes == [id]
    case Host(host) => |bytes| >= 2 && bytes[0] == 0 && bytes[1] == |bytes| - 2 && utf8.encode(host) == Some(bytes[2..])
    case Url(url) => |bytes| >= 2 && bytes[0] == 255 && bytes[1] == |bytes| - 2 && utf8.encode(url) == Some(bytes[2..])
  }

  lemma PieceIs(utf8: Utf8, e: Entry)
    requires WellFormed(utf8, e)
    ensures StandsFor(e, PieceOf(utf8, e).value) && LaidOut(utf8, e, PieceOf(utf8, e).written)
  {
    if !e.Known? {
      var text := if e.Host? then e.host else e.url;
      assert PieceOf(utf8, e).written[2..] == utf8.encode(text).value;
    }
  }

  /** The relays of a decoded fragment are what its entries stand for, in order. */
  lemma {:induction false} RelaysStandForEntries(utf8: Utf8, entries: seq<Entry>, i: nat)
    requires AllGood(Good(utf8), entries) && i < |entries|
    ensures |Values(Pieces(utf8), entries)| == |entries| && StandsFor(entries[i], Values(Pieces(utf8), entries)[i])
    decreases |entries|
  {
    assert Good(utf8)(entries[0]);
    if i == 0 {
      PieceIs(utf8, entries[0]);
      ValuesLength(utf8, entries[1..]);
    } else {
      var tail := entries[1..];
      forall j | 0 <= j < |tail| ensures Good(utf8)(tail[j]) {
        assert tail[j] == entries[j + 1];
      }
      RelaysStandForEntries(utf8, tail, i - 1);
    }
  }

  lemma {:induction false} ValuesLength(utf8: Utf8, entries: seq<Entry>)
    ensures |Values(Pieces(utf8), entries)| == |entries|
  {
    if entries != [] {
      ValuesLength(utf8, entries[1..]);
    }
  }

  /** Decoding an encoded list of relays and a token gives them back, if there are no more relays than
      allowed; otherwise it fails. */
  lemma {:induction false} BytesRoundTrip(utf8: Utf8, flags: Byte, entries: seq<Entry>, token: seq<Byte>, maxRelays: int)
    requires Sound(utf8) && !Stock(flags)
    requires AllGood(Good(utf8), entries) && |entries| < 256 && |token| == TOKEN_LENGTH
    ensures DecodeBytes(utf8, Encode(utf8, flags, entries, token), maxRelays)
            == if |entries| <= maxRelays then Ok(Fragment(Values(Pieces(utf8), entries), token)) else Err(TooManyRelays)
  {
    var raw, body := Encode(utf8, flags, entries, token), Written(Pieces(utf8), entries);
    AssembledParts(flags, |entries|, body, token);
    ReadsAllEntries(utf8, raw);
    ReadsWritten(Relays(utf8, raw), raw, Good(utf8), Pieces(utf8), 3, entries, []);
    assert [] + Values(Pieces(utf8), entries) == Values(Pieces(utf8), entries);
  }

  /** Conversely, every accepted input without stock relays is the encoding of what was decoded: it is
      consumed exactly, with a 16-byte token left, and lists no more relays than allowed. */
  lemma AcceptedIsEncoded(utf8: Utf8, raw: seq<Byte>, maxRelays: int) returns (entries: seq<Entry>)
    requires Sound(utf8) && DecodeBytes(utf8, raw, maxRelays).Ok? && !Stock(raw[1])
    ensures AllGood(Good(utf8), entries) && |entries| <= maxRelays && |entries| < 256
    ensures var f := DecodeBytes(utf8, raw, maxRelays).value;
            && f.relays == Values(Pieces(utf8), entries) && |f.token| == TOKEN_LENGTH
            && raw == Encode(utf8, raw[1], entries, f.token)
  {
    ReadsOnlyEntries(utf8, raw);
    entries := WritesRead(Relays(utf8, raw), raw, Good(utf8), Pieces(utf8), 3, raw[2], []);
    assert [] + Values(Pieces(utf8), entries) == Values(Pieces(utf8), entries);
    Reassembled(raw, Written(Pieces(utf8), entries));
  }

  lemma Reassembled(raw: seq<Byte>, body: seq<Byte>)
    requires |raw| > 2 && raw[0] == VERSION && At(raw, 3, body)
    ensures raw == Assemble(raw[1], raw[2], body, raw[3 + |body|..])
  {
    assert raw == raw[..3] + raw[3..3 + |body|] + raw[3 + |body|..];
  }

  /** With the stock flag the input is accepted exactly when nothing but the token follows the two leading
      bytes; the maximum is not applied to the stock relays. */
  lemma StockIff(utf8: Utf8, raw: seq<Byte>, maxRelays: int, f: Fragment)
    requires |raw| > 1 && Stock(raw[1])
    ensures DecodeBytes(utf8, raw, maxRelays) == Ok(f)
            <==> && f.relays == StockRelays() && |f.token| == TOKEN_LENGTH
                 && raw == [VERSION, raw[1]] + f.token
  {
    assert raw == [raw[0], raw[1]] + raw[2..];
    if raw == [VERSION, raw[1]] + f.token {
      assert raw[2..] == f.token;
    }
  }

  /** Any list of well-formed relays and a token of 16 bytes, laid out and put into base64, is decoded back if and only if
      the maximum is positive and not exceeded. */
  lemma RoundTrip(utf8: Utf8, flags: Byte, entries: seq<Entry>, token: seq<Byte>, maxRelays: int)
    requires Sound(utf8) && !Stock(flags)
    requires AllGood(Good(utf8), entries) && |entries| < 256 && |token| == TOKEN_LENGTH
    ensures Decode(utf8, Base64Url.Encode(Encode(utf8, flags, entries, token)), maxRelays)
            == if maxRelays <= 0 then Err(NonPositiveMaximum)
               else if |entries| <= maxRelays then Ok(Fragment(Values(Pieces(utf8), entries), token)) else Err(TooManyRelays)
  {
    Base64Url.RoundTrip(Encode(utf8, flags, entries, token));
    BytesRoundTrip(utf8, flags, entries, token, maxRelays);
  }
}
