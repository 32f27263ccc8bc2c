/** Concrete Control Plane rumors, and a library that reads them, for showing that something can happen. */
module Samples {
  import opened Prelude
  import opened Editions
  import opened ControlEvents
  import opened Roster
  import EditionHash
  import Nostr

  // ---------------------------------------------------------------------
  // Identifiers

  function Bytes32(b: Byte): (bytes: seq<Byte>)
    ensures |bytes| == 32 && forall i :: 0 <= i < 32 ==> bytes[i] == b
  {
    seq(32, i => b)
  }

  /** A lower-case 64-character identifier for each byte. */
  function Id(b: Byte): string {
    EditionHash.ToHex(Bytes32(b))
  }

  lemma {:induction false} HexShape(bytes: seq<Byte>)
    ensures |EditionHash.ToHex(bytes)| == 2 * |bytes| && EditionHash.IsLower(EditionHash.ToHex(bytes))
  {
    if bytes != [] {
      HexShape(bytes[1..]);
    }
  }

  lemma {:induction false} HexConcat(a: seq<Byte>, b: seq<Byte>)
    ensures EditionHash.ToHex(a + b) == EditionHash.ToHex(a) + EditionHash.ToHex(b)
  {
    if a == [] {
      assert a + b == b;
    } else {
      HexConcat(a[1..], b);
      assert (a + b)[1..] == a[1..] + b && (a + b)[0] == a[0];
    }
  }

  lemma IdFacts(b: Byte)
    ensures |Id(b)| == 64 && EditionHash.IsLower(Id(b)) && EditionHash.FromHex(Id(b)) == Some(Bytes32(b))
  {
    HexShape(Bytes32(b));
    EditionHash.HexRoundTrip(Bytes32(b));
  }

  lemma IdsDiffer(b: Byte, c: Byte)
    ensures Id(b) == Id(c) <==> b == c
  {
    IdFacts(b);
    IdFacts(c);
    assert Bytes32(b)[0] == b && Bytes32(c)[0] == c;
  }

  lemma IdsConcat(b: Byte, c: Byte)
    ensures EditionHash.FromHex(Id(b) + Id(c)).Some?
  {
    HexConcat(Bytes32(b), Bytes32(c));
    EditionHash.HexRoundTrip(Bytes32(b) + Bytes32(c));
  }

  function Mark(sha: EditionHash.Sha256, n: Byte): string {
    EditionHash.Digest(sha, Bytes32(n), 1, None, [n])
  }

  lemma FirstHash(sha: EditionHash.Sha256, n: Byte)
    ensures EditionHash.Hash(sha, Id(n), 1, None, [n]) == Some(Mark(sha, n))
  {
    IdFacts(n);
  }

  /** The identifier and the edition hash of each entity of a book; the content of entity `n` is the byte `n`. */
  datatype Names = Names(id: Byte -> string, mark: Byte -> string)

  ghost predicate Legible(sha: EditionHash.Sha256, names: Names) {
    forall b, c :: LegiblePair(sha, names, b, c)
  }

  /** A second version of an entity can quote the hash of the first. */
  predicate QuotablePair(sha: EditionHash.Sha256, names: Names, b: Byte, c: Byte) {
    EditionHash.Hash(sha, names.id(b), 2, Some(names.mark(b)), [c]).Some?
  }

  ghost predicate Quotable(sha: EditionHash.Sha256, names: Names) {
    forall b, c :: QuotablePair(sha, names, b, c)
  }

  lemma NamesExist(sha: EditionHash.Sha256) returns (names: Names)
    ensures Legible(sha, names)
    ensures (forall bytes :: |sha(bytes)| == 32) ==> Quotable(sha, names)
  {
    names := Names((b: Byte) => Id(b), (n: Byte) => Mark(sha, n));
    forall b, c ensures LegiblePair(sha, names, b, c) {
      PairIsLegible(sha, names, b, c);
    }
    if forall bytes :: |sha(bytes)| == 32 {
      forall b, c ensures QuotablePair(sha, names, b, c) {
        PairIsQuotable(sha, names, b, c);
      }
    }
  }

  lemma PairIsQuotable(sha: EditionHash.Sha256, names: Names, b: Byte, c: Byte)
    requires names.id(b) == Id(b) && names.mark(b) == Mark(sha, b) && forall bytes :: |sha(bytes)| == 32
    ensures QuotablePair(sha, names, b, c)
  {
    IdFacts(b);
    EditionHash.HexRoundTrip(sha(EditionHash.Preimage(Bytes32(b), 1, None, [b])));
  }

  predicate LegiblePair(sha: EditionHash.Sha256, names: Names, b: Byte, c: Byte) {
    && |names.id(b)| == 64 && EditionHash.IsLower(names.id(b)) && (names.id(b) == names.id(c) ==> b == c)
    && EditionHash.FromHex(names.id(b) + names.id(c)).Some?
    && EditionHash.Hash(sha, names.id(b), 1, None, [b]) == Some(names.mark(b))
  }

  lemma PairIsLegible(sha: EditionHash.Sha256, names: Names, b: Byte, c: Byte)
    requires names.id(b) == Id(b) && names.id(c) == Id(c) && names.mark(b) == Mark(sha, b)
    ensures LegiblePair(sha, names, b, c)
  {
    IdFacts(b);
    IdsDiffer(b, c);
    IdsConcat(b, c);
    FirstHash(sha, b);
  }

  lemma NamesDiffer(sha: EditionHash.Sha256, names: Names)
    requires Legible(sha, names)
    ensures forall b, c :: names.id(b) == names.id(c) ==> b == c
  {
    forall b, c | names.id(b) == names.id(c) ensures b == c {
      assert LegiblePair(sha, names, b, c);
    }
  }

  // ---------------------------------------------------------------------
  // A library

  function Number(s: string): Option<nat> {
    if |s| == 1 && '0' <= s[0] <= '9' then Some(s[0] as int - '0' as int) else None
  }

  function Figure(n: int): string {
    if 0 <= n <= 9 then [('0' as int + n) as char] else []
  }

  /** One-byte contents stand for the pages of a book; numbers have one figure. */
  function Sample(sha: EditionHash.Sha256, page: Byte -> Dict): Library {
    Library(
      content => if |content| == 1 then Some(Obj(page(content[0]))) else None,
      text => if Number(text).Some? then Some(Number(text).value as int) else None,
      text => Number(text),
      n => Figure(n),
      text => |text|,
      sha)
  }

  // ---------------------------------------------------------------------
  // Editions of roster entities

  const ONE: string := "1"

  function VacTags(citation: Option<Citation>): seq<seq<string>> {
    if citation.Some? then [["vac", citation.value.entity, ONE, citation.value.hash]] else []
  }

  function EpTags(previous: Option<string>): seq<seq<string>> {
    if previous.Some? then [["ep", previous.value]] else []
  }

  function RumorTags(
    entity: string, version: string, vsk: string, previous: Option<string>, citation: Option<Citation>): seq<seq<string>>
  {
    [["eid", entity]] + ([["ev", version]] + ([["vsk", vsk]] + (EpTags(previous) + VacTags(citation))))
  }

  function EditionRumor(
    id: string, author: string, entity: string, version: string, vsk: string, previous: Option<string>,
    citation: Option<Citation>, content: Byte): ControlEvent
  {
    ControlEvent(id, author, CONTROL_KIND, RumorTags(entity, version, vsk, previous, citation), [content])
  }

  lemma TagCons(tag: seq<string>, rest: seq<seq<string>>, name: string)
    ensures Nostr.Tag([tag] + rest, name) ==
            if |tag| >= 2 && tag[0] == name then Some(tag[1]) else Nostr.Tag(rest, name)
    ensures VacTag([tag] + rest) ==
            if tag != [] && tag[0] == "vac" then tag[1..if |tag| < 4 then |tag| else 4] else VacTag(rest)
  {
    assert ([tag] + rest)[1..] == rest;
  }

  lemma VacTagsAreRead(citation: Option<Citation>)
    ensures Nostr.Tag(VacTags(citation), "ep") == None
    ensures VacTag(VacTags(citation)) == if citation.Some? then [citation.value.entity, ONE, citation.value.hash] else []
  {
    var vac := VacTags(citation);
    if citation.Some? {
      TagCons(vac[0], [], "ep");
      assert vac == [vac[0]] + [];
      assert vac[0][1..4] == [citation.value.entity, ONE, citation.value.hash];
    }
  }

  lemma EpTagsAreRead(previous: Option<string>, rest: seq<seq<string>>)
    requires Nostr.Tag(rest, "ep") == None
    ensures Nostr.Tag(EpTags(previous) + rest, "ep") == previous && VacTag(EpTags(previous) + rest) == VacTag(rest)
  {
    if previous.Some? {
      TagCons(["ep", previous.value], rest, "ep");
    } else {
      assert EpTags(previous) + rest == rest;
    }
  }

  lemma TagsOfRumor(entity: string, version: string, vsk: string, previous: Option<string>, citation: Option<Citation>)
    ensures var tags := RumorTags(entity, version, vsk, previous, citation);
            && Nostr.Tag(tags, "eid") == Some(entity) && Nostr.Tag(tags, "ev") == Some(version)
            && Nostr.Tag(tags, "vsk") == Some(vsk) && Nostr.Tag(tags, "ep") == previous
    ensures VacTag(RumorTags(entity, version, vsk, previous, citation))
            == if citation.Some? then [citation.value.entity, ONE, citation.value.hash] else []
  {
    var rest := EpTags(previous) + VacTags(citation);
    var eid, ev, kind := ["eid", entity], ["ev", version], ["vsk", vsk];
    VacTagsAreRead(citation);
    EpTagsAreRead(previous, VacTags(citation));
    forall name ensures Nostr.Tag(RumorTags(entity, version, vsk, previous, citation), name) ==
                        if name == "eid" then Some(entity) else if name == "ev" then Some(version)
                        else if name == "vsk" then Some(vsk) else Nostr.Tag(rest, name)
    {
      TagCons(kind, rest, name);
      TagCons(ev, [kind] + rest, name);
      TagCons(eid, [ev] + ([kind] + rest), name);
    }
    TagCons(kind, rest, "");
    TagCons(ev, [kind] + rest, "");
    TagCons(eid, [ev] + ([kind] + rest), "");
  }

  lemma {:induction false} EditionIsRead(
    lib: Library, id: string, author: string, entity: string, text: string, version: int, vsk: string,
    previous: Option<string>, citation: Option<Citation>, content: Byte, fields: Dict, hash: string)
    requires |id| == |author| == |entity| == 64 && EditionHash.FromHex(author + entity).Some?
    requires lib.parseInt(text) == Some(version) && version > 0 && lib.digits(ONE) == Some(1)
    requires lib.loads([content]) == Some(Obj(fields)) && (citation.Some? ==> citation.value.version == 1)
    requires EditionHash.Hash(lib.sha, entity, version, previous, [content]) == Some(hash)
    ensures ParseEdition(lib, EditionRumor(id, author, entity, text, vsk, previous, citation, content))
            == Some(Edition(
                 id, author, entity, version, previous, hash, [content],
                 RosterState(vsk, Get(fields, "member").AsString(), ReadRoleIds(Get(fields, "role_ids")),
                             Get(fields, "position").AsInt(), ReadPermissions(lib, fields), citation)))
  {
    TagsOfRumor(entity, text, vsk, previous, citation);
    CitationIsRead(lib, entity, text, vsk, previous, citation);
  }

  lemma CitationIsRead(
    lib: Library, entity: string, version: string, vsk: string, previous: Option<string>, citation: Option<Citation>)
    requires lib.digits(ONE) == Some(1) && (citation.Some? ==> citation.value.version == 1)
    ensures ReadCitation(lib, RumorTags(entity, version, vsk, previous, citation)) == citation
  {
    TagsOfRumor(entity, version, vsk, previous, citation);
  }

  /** The first edition of entity `n`. */
  function Rumor(names: Names, n: Byte, author: Byte, vsk: string, citation: Option<Citation>): ControlEvent {
    EditionRumor(names.id(n), names.id(author), names.id(n), ONE, vsk, None, citation, n)
  }

  lemma RumorIsReadBy(
    lib: Library, names: Names, fields: Dict, n: Byte, author: Byte, vsk: string, citation: Option<Citation>)
    requires lib.digits(ONE) == Some(1) && lib.parseInt(ONE) == Some(1) && lib.loads([n]) == Some(Obj(fields))
    requires Legible(lib.sha, names) && (citation.Some? ==> citation.value.version == 1)
    ensures ParseEdition(lib, Rumor(names, n, author, vsk, citation))
            == Some(Edition(
                 names.id(n), names.id(author), names.id(n), 1, None, names.mark(n), [n],
                 RosterState(vsk, Get(fields, "member").AsString(), ReadRoleIds(Get(fields, "role_ids")),
                             Get(fields, "position").AsInt(), ReadPermissions(lib, fields), citation)))
  {
    assert LegiblePair(lib.sha, names, n, n) && LegiblePair(lib.sha, names, author, n);
    EditionIsRead(
      lib, names.id(n), names.id(author), names.id(n), ONE, 1, vsk, None, citation, n, fields, names.mark(n));
  }

  lemma SampleReadsOne(sha: EditionHash.Sha256, page: Byte -> Dict)
    ensures Sample(sha, page).digits(ONE) == Some(1) && Sample(sha, page).parseInt(ONE) == Some(1)
    ensures Sample(sha, page).digits("0") == Some(0) && Sample(sha, page).parseInt("0") == Some(0)
  {
  }

  // ---------------------------------------------------------------------
  // Books of rumors

  /** The first edition of entity `n` in a book: who signed it, what it says, and the entity whose Grant it cites. Bit
      0 of `bits` manages roles, bit 1 channels. */
  datatype Item =
    | RoleItem(author: Byte, position: int, bits: nat, citing: Option<Byte>)
    | GrantItem(author: Byte, member: Byte, roles: seq<Byte>, citing: Option<Byte>)
    | EditItem(author: Byte, citing: Option<Byte>)

  type Book = Byte -> Item

  function Spelled(names: Names, roles: seq<Byte>): seq<Json> {
    seq(|roles|, i requires 0 <= i < |roles| => Str(names.id(roles[i])))
  }

  function Wanted(names: Names, roles: seq<Byte>): seq<Option<string>> {
    seq(|roles|, i requires 0 <= i < |roles| => Some(names.id(roles[i])))
  }

  function PageOf(names: Names, item: Item): Dict {
    match item
    case RoleItem(_, position, bits, _) => map["position" := Int(position), "permissions" := Int(bits)]
    case GrantItem(_, member, roles, _) => map["member" := Str(names.id(member)), "role_ids" := Arr(Spelled(names, roles))]
    case EditItem(_, _) => map[]
  }

  function VskOf(item: Item): string {
    match item
    case RoleItem(_, _, _, _) => ROLE
    case GrantItem(_, _, _, _) => GRANT
    case EditItem(_, _) => CHANNEL
  }

  function CitationOf(names: Names, citing: Option<Byte>): Option<Citation> {
    if citing.Some? then Some(Citation(names.id(citing.value), 1, names.mark(citing.value))) else None
  }

  function StateOf(names: Names, item: Item): RosterState {
    match item
    case RoleItem(_, position, bits, citing) =>
      RosterState(ROLE, None, None, Some(position), Some(Permissions(bits % 2 == 1, bits / 2 % 2 == 1)),
                  CitationOf(names, citing))
    case GrantItem(_, member, roles, citing) =>
      RosterState(GRANT, Some(names.id(member)), Some(Wanted(names, roles)), None, Some(Permissions(false, false)),
                  CitationOf(names, citing))
    case EditItem(_, citing) =>
      RosterState(CHANNEL, None, None, None, Some(Permissions(false, false)), CitationOf(names, citing))
  }

  /** The library that reads the book, the rumors in it, and what they are read as. */
  function Reader(sha: EditionHash.Sha256, names: Names, book: Book): Library {
    Sample(sha, (n: Byte) => PageOf(names, book(n)))
  }

  function Written(names: Names, book: Book): Byte -> ControlEvent {
    (n: Byte) => Rumor(names, n, book(n).author, VskOf(book(n)), CitationOf(names, book(n).citing))
  }

  function Read(names: Names, book: Book): Byte -> RosterEdition {
    (n: Byte) => Edition(names.id(n), names.id(book(n).author), names.id(n), 1, None, names.mark(n), [n], StateOf(names, book(n)))
  }

  predicate Reads(lib: Library, event: ControlEvent, e: RosterEdition) {
    ParseEdition(lib, event) == Some(e)
  }

  lemma ItemIsRead(sha: EditionHash.Sha256, names: Names, book: Book, n: Byte)
    requires Legible(sha, names)
    ensures Reads(Reader(sha, names, book), Written(names, book)(n), Read(names, book)(n))
  {
    var lib, item := Reader(sha, names, book), book(n);
    SampleReadsOne(sha, (m: Byte) => PageOf(names, book(m)));
    StateIsRead(lib, names, item);
    RumorIsReadBy(lib, names, PageOf(names, item), n, item.author, VskOf(item), CitationOf(names, item.citing));
  }

  lemma StateIsRead(lib: Library, names: Names, item: Item)
    requires lib.parseInt("0") == Some(0)
    ensures var fields := PageOf(names, item);
            RosterState(VskOf(item), Get(fields, "member").AsString(), ReadRoleIds(Get(fields, "role_ids")),
                        Get(fields, "position").AsInt(), ReadPermissions(lib, fields), CitationOf(names, item.citing))
            == StateOf(names, item)
  {
    match item
    case RoleItem(_, position, bits, _) => RoleIsRead(lib, position, bits);
    case GrantItem(_, member, roles, _) => GrantIsRead(lib, names, names.id(member), roles);
    case EditItem(_, _) => EmptyIsRead(lib);
  }

  lemma RoleIsRead(lib: Library, position: int, bits: nat)
    ensures var fields: Dict := map["position" := Int(position), "permissions" := Int(bits)];
            && Get(fields, "member") == Get(fields, "role_ids") == Null && Get(fields, "position") == Int(position)
            && ReadPermissions(lib, fields) == Some(Permissions(bits % 2 == 1, bits / 2 % 2 == 1))
  {
  }

  lemma GrantIsRead(lib: Library, names: Names, member: string, roles: seq<Byte>)
    requires lib.parseInt("0") == Some(0)
    ensures var fields: Dict := map["member" := Str(member), "role_ids" := Arr(Spelled(names, roles))];
            && Get(fields, "member") == Str(member) && ReadRoleIds(Get(fields, "role_ids")) == Some(Wanted(names, roles))
            && Get(fields, "position") == Null && ReadPermissions(lib, fields) == Some(Permissions(false, false))
  {
    assert ReadRoleIds(Arr(Spelled(names, roles))).value == Wanted(names, roles);
  }

  lemma EmptyIsRead(lib: Library)
    requires lib.parseInt("0") == Some(0)
    ensures ReadPermissions(lib, map[]) == Some(Permissions(false, false))
  {
  }

  // ---------------------------------------------------------------------
  // Batches taken from a book

  function Each<T>(f: Byte -> T, ns: seq<Byte>): seq<T> {
    if ns == [] then [] else Each(f, ns[..|ns| - 1]) + [f(ns[|ns| - 1])]
  }

  lemma {:induction false} EachIsRead(
    lib: Library, write: Byte -> ControlEvent, read: Byte -> RosterEdition, ns: seq<Byte>)
    requires forall n :: Reads(lib, write(n), read(n))
    ensures Parsed(lib, Each(write, ns)) == Each(read, ns)
  {
    if ns != [] {
      var front, last := ns[..|ns| - 1], ns[|ns| - 1];
      EachIsRead(lib, write, read, front);
      assert Reads(lib, write(last), read(last));
      ParsedThen(lib, Each(write, front), Each(read, front), write(last), read(last));
    }
  }

  lemma ParsedThen(
    lib: Library, events: seq<ControlEvent>, before: seq<RosterEdition>, event: ControlEvent, e: RosterEdition)
    requires Parsed(lib, events) == before && Reads(lib, event, e)
    ensures Parsed(lib, events + [event]) == before + [e]
  {
    assert (events + [event])[..|events|] == events;
  }

  lemma {:induction false} EachHas<T>(f: Byte -> T, ns: seq<Byte>, n: Byte)
    requires n in ns
    ensures f(n) in Each(f, ns)
  {
    var front, last := ns[..|ns| - 1], ns[|ns| - 1];
    assert ns == front + [last];
    if n != last {
      EachHas(f, front, n);
    }
  }

  lemma {:induction false} EachFrom<T>(f: Byte -> T, ns: seq<Byte>, x: T) returns (n: Byte)
    requires x in Each(f, ns)
    ensures n in ns && x == f(n)
  {
    var front, last := ns[..|ns| - 1], ns[|ns| - 1];
    if x == f(last) {
      n := last;
    } else {
      n := EachFrom(f, front, x);
    }
  }

  lemma {:induction false} EachElements<T>(f: Byte -> T, ns: seq<Byte>)
    ensures forall x :: x in Each(f, ns) <==> exists n :: n in ns && x == f(n)
  {
    if ns != [] {
      var front, last := ns[..|ns| - 1], ns[|ns| - 1];
      assert ns == front + [last];
      EachElements(f, front);
    }
  }

  lemma BookIsRead(sha: EditionHash.Sha256, names: Names, book: Book)
    requires Legible(sha, names)
    ensures forall n :: Reads(Reader(sha, names, book), Written(names, book)(n), Read(names, book)(n))
    ensures forall n, m :: Written(names, book)(n).id == Written(names, book)(m).id ==> n == m
  {
    forall n ensures Reads(Reader(sha, names, book), Written(names, book)(n), Read(names, book)(n)) {
      ItemIsRead(sha, names, book, n);
    }
    NamesDiffer(sha, names);
  }

  lemma UniqueArrivals(write: Byte -> ControlEvent, ns: seq<Byte>)
    requires forall n, m :: write(n).id == write(m).id ==> n == m
    ensures UniqueEventIds(Each(write, ns))
  {
    EachElements(write, ns);
  }
}
