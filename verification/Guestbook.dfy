/** The Guestbook fold: the latest admissible word on each member wins (concord_guestbook.py). */
module Guestbook {
  import opened Prelude

  const JOIN_OR_LEAVE := 3306
  const KICK := 3309
  const SNAPSHOT := 3312

  datatype GuestbookState = GuestbookState(member: string, status: string, timestampMs: int, rumorId: string)

  type Predicate = Option<Dict -> bool>

  /** What the caller supplies besides the rumors; `loads` is the JSON parser. */
  datatype Policy = Policy(
    loads: string -> Option<Json>,
    nowMs: int,
    futureSkewMs: int,
    authorizeKick: Predicate,
    authorizeSnapshot: Predicate)

  // ---------------------------------------------------------------------
  // Reading one rumor

  /** Numbers compare by value, whether they were written as integers or not. */
  predicate EqualsInt(value: Json, n: int) {
    value == Int(n) || value == Float(n, 0)
  }

  predicate IsDigits(s: string) {
    s != [] && forall i :: 0 <= i < |s| ==> '0' <= s[i] <= '9'
  }

  function Digits(s: string): nat
    requires forall i :: 0 <= i < |s| ==> '0' <= s[i] <= '9'
  {
    if s == [] then 0 else 10 * Digits(s[..|s| - 1]) + (s[|s| - 1] as int - '0' as int)
  }

  function Items(value: Json): seq<Json> {
    if value.Arr? then value.items else []
  }

  /** The tags with the given name and at least `width` items. */
  function TagsNamed(tags: seq<Json>, name: string, width: nat): (named: seq<seq<Json>>)
    ensures forall i :: 0 <= i < |named| ==> |named[i]| >= width
  {
    if tags == [] then []
    else
      var last := Items(tags[|tags| - 1]);
      TagsNamed(tags[..|tags| - 1], name, width)
      + (if |last| >= width && last != [] && last[0] == Str(name) then [last] else [])
  }

  /** The `ms` tag: absent means 0, and anything but one number from 0 to 999 is malformed. */
  function Millisecond(rumor: Dict): Option<nat> {
    var values := TagsNamed(Items(Get(rumor, "tags")), "ms", 2);
    if values == [] then Some(0)
    else if |values| != 1 || !values[0][1].Str? || !IsDigits(values[0][1].s) then None
    else if Digits(values[0][1].s) <= 999 then Some(Digits(values[0][1].s))
    else None
  }

  predicate IsHex64(value: Json) {
    value.Str? && |value.s| == 64
  }

  /** The list of members in the content, if it is one. */
  function MemberList(policy: Policy, rumor: Dict): Option<seq<string>> {
    var content := if "content" in rumor then rumor["content"] else Str("");
    var members := if content.Str? then policy.loads(content.s) else None;
    if members.None? || !members.value.Arr? || !AllHex64(members.value.items) then None
    else Some(Texts(members.value.items))
  }

  predicate AllHex64(items: seq<Json>) {
    forall i :: 0 <= i < |items| ==> IsHex64(items[i])
  }

  function Texts(items: seq<Json>): seq<string>
    requires AllHex64(items)
  {
    seq(|items|, i requires 0 <= i < |items| && IsHex64(items[i]) => items[i].s)
  }

  /** The members a snapshot lists, if the snapshot is well formed. */
  function SnapshotMembers(policy: Policy, rumor: Dict): Option<seq<string>> {
    var members, snaps := MemberList(policy, rumor), TagsNamed(Items(Get(rumor, "tags")), "snap", 4);
    if members.None? || |snaps| != 1
       || !(snaps[0][2].Str? && IsDigits(snaps[0][2].s) && snaps[0][3].Str? && IsDigits(snaps[0][3].s))
    then None
    else members
  }

  /** The target of a kick, if there is exactly one. */
  function KickTarget(rumor: Dict): Option<string> {
    var targets := StringTargets(TagsNamed(Items(Get(rumor, "tags")), "p", 2));
    if |targets| != 1 then None else Some(targets[0])
  }

  function StringTargets(tags: seq<seq<Json>>): seq<string>
    requires forall i :: 0 <= i < |tags| ==> |tags[i]| >= 2
  {
    if tags == [] then []
    else
      var last := tags[|tags| - 1][1];
      StringTargets(tags[..|tags| - 1]) + (if last.Str? then [last.s] else [])
  }

  predicate Hashable(value: Json) {
    !value.Arr? && !value.Obj?
  }

  /** Looking up an unhashable kind, or the unhashable content of an otherwise well-formed join or leave, raises. */
  predicate Raises(rumor: Dict) {
    || !Hashable(Get(rumor, "kind"))
    || (EqualsInt(Get(rumor, "kind"), JOIN_OR_LEAVE) && IsHex64(Get(rumor, "pubkey")) && IsHex64(Get(rumor, "id"))
        && !Hashable(Get(rumor, "content")))
  }

  /** What one rumor says about members: nothing when the fold must ignore it. */
  function Contributions(policy: Policy, rumor: Dict): seq<GuestbookState> {
    var kind, id, content, createdAt, millisecond :=
      Get(rumor, "kind"), Get(rumor, "id"), Get(rumor, "content"), Get(rumor, "created_at").AsInt(), Millisecond(rumor);
    if !IsHex64(id) || createdAt.None? || millisecond.None? then []
    else
      var timestamp := createdAt.value * 1000 + millisecond.value;
      if timestamp > policy.nowMs + policy.futureSkewMs then []
      else if EqualsInt(kind, SNAPSHOT) then
        var members := SnapshotMembers(policy, rumor);
        if policy.authorizeSnapshot.None? || !policy.authorizeSnapshot.value(rumor) || members.None? then []
        else Joins(members.value, timestamp, id.s)
      else if EqualsInt(kind, KICK) then
        var target := KickTarget(rumor);
        if policy.authorizeKick.None? || !policy.authorizeKick.value(rumor) || target.None? then []
        else if |target.value| != 64 || content != Str("") then []
        else [GuestbookState(target.value, "leave", timestamp, id.s)]
      else if EqualsInt(kind, JOIN_OR_LEAVE) then
        var member := Get(rumor, "pubkey");
        if !IsHex64(member) || !(content == Str("join") || content == Str("leave")) then []
        else [GuestbookState(member.s, content.s, timestamp, id.s)]
      else []
  }

  function Joins(members: seq<string>, timestamp: int, id: string): seq<GuestbookState> {
    seq(|members|, i requires 0 <= i < |members| => GuestbookState(members[i], "join", timestamp, id))
  }

  // ---------------------------------------------------------------------
  // The fold

  type States = map<string, GuestbookState>

  /** Later by timestamp, and by rumor id within one millisecond. */
  predicate Later(a: GuestbookState, b: GuestbookState) {
    a.timestampMs > b.timestampMs || (a.timestampMs == b.timestampMs && Less(b.rumorId, a.rumorId))
  }

  function Put(states: States, c: GuestbookState): States {
    if c.member !in states || Later(c, states[c.member]) then states[c.member := c] else states
  }

  function Latest(said: seq<GuestbookState>): States {
    if said == [] then map[] else Put(Latest(said[..|said| - 1]), said[|said| - 1])
  }

  /** The results of `f` on each item, joined. */
  function Joined(f: Dict -> seq<GuestbookState>, s: seq<Dict>): seq<GuestbookState> {
    if s == [] then [] else Joined(f, s[..|s| - 1]) + f(s[|s| - 1])
  }

  /** Everything the rumors say, in their order. */
  function Said(policy: Policy, rumors: seq<Dict>): seq<GuestbookState> {
    Joined(r => Contributions(policy, r), rumors)
  }

  function Folded(policy: Policy, rumors: seq<Dict>): States {
    Latest(Said(policy, rumors))
  }

  /** Why the fold raises. */
  datatype FoldError = NegativeSkew | Unhashable

  method FoldGuestbook(
    policy: Policy, rumors: seq<Dict>, banned: set<string>)
    returns (result: Result<States, FoldError>)
    ensures result == if policy.futureSkewMs < 0 then Err(NegativeSkew)
                      else if exists r :: r in rumors && Raises(r) then Err(Unhashable)
                      else Ok(Folded(policy, rumors) - banned)
    ensures result.Ok? ==> AreLastWords(policy, rumors, banned, result.value)
  {
    if policy.futureSkewMs < 0 {
      return Err(NegativeSkew);
    }
    var states: States := map[];
    for i := 0 to |rumors|
      invariant states == Folded(policy, rumors[..i])
      invariant forall r :: r in rumors[..i] ==> !Raises(r)
    {
      assert rumors[..i + 1][..i] == rumors[..i];
      var candidates := ReadRumor(policy, rumors[i]);
      if candidates.None? {
        assert rumors[i] in rumors;
        return Err(Unhashable);
      }
      states := Store(states, Said(policy, rumors[..i]), candidates.value);
    }
    assert rumors[..|rumors|] == rumors;
    FoldHoldsLastWords(policy, rumors, banned);
    return Ok(states - banned);
  }

  /** What the loop body reads from one rumor, with the checks in the order in which they are made; nothing where
      the program raises. */
  method ReadRumor(policy: Policy, rumor: Dict) returns (candidates: Option<seq<GuestbookState>>)
    ensures candidates == if Raises(rumor) then None else Some(Contributions(policy, rumor))
    ensures candidates.Some? ==> forall c :: c in candidates.value <==> Says(policy, rumor, c)
  {
    forall c ensures c in Contributions(policy, rumor) <==> Says(policy, rumor, c) {
      ContributionsIff(policy, rumor, c);
    }
    var kind, member := Get(rumor, "kind"), Get(rumor, "pubkey");
    if !Hashable(kind) {
      return None;
    }
    if !EqualsInt(kind, JOIN_OR_LEAVE) && !EqualsInt(kind, KICK) && !EqualsInt(kind, SNAPSHOT) {
      return Some([]);
    }
    var snapshotMembers := [];
    if EqualsInt(kind, SNAPSHOT) {
      if policy.authorizeSnapshot.None? || !policy.authorizeSnapshot.value(rumor) {
        return Some([]);
      }
      var members := SnapshotMembers(policy, rumor);
      if members.None? {
        return Some([]);
      }
      snapshotMembers := members.value;
    }
    if EqualsInt(kind, KICK) {
      if policy.authorizeKick.None? || !policy.authorizeKick.value(rumor) {
        return Some([]);
      }
      var target := KickTarget(rumor);
      if target.None? {
        return Some([]);
      }
      member := Str(target.value);
    }
    var id, content, millisecond, createdAt :=
      Get(rumor, "id"), Get(rumor, "content"), Millisecond(rumor), Get(rumor, "created_at").AsInt();
    if (!EqualsInt(kind, SNAPSHOT) && !IsHex64(member)) || !IsHex64(id) {
      return Some([]);
    }
    if EqualsInt(kind, JOIN_OR_LEAVE) && !Hashable(content) {
      return None;
    }
    if (EqualsInt(kind, JOIN_OR_LEAVE) && content != Str("join") && content != Str("leave"))
       || (EqualsInt(kind, KICK) && content != Str(""))
       || createdAt.None? || millisecond.None?
    {
      return Some([]);
    }
    var timestamp := createdAt.value * 1000 + millisecond.value;
    if timestamp > policy.nowMs + policy.futureSkewMs {
      return Some([]);
    }
    if EqualsInt(kind, SNAPSHOT) {
      return Some(Joins(snapshotMembers, timestamp, id.s));
    }
    return Some([GuestbookState(member.s, if EqualsInt(kind, KICK) then "leave" else content.s, timestamp, id.s)]);
  }

  /** Stores each candidate that is later than what is stored for its member. */
  method Store(states: States, ghost said: seq<GuestbookState>, candidates: seq<GuestbookState>) returns (next: States)
    requires states == Latest(said)
    ensures next == Latest(said + candidates)
  {
    next := states;
    assert said + candidates[..0] == said;
    for i := 0 to |candidates|
      invariant next == Latest(said + candidates[..i])
    {
      var candidate := candidates[i];
      assert said + candidates[..i + 1] == (said + candidates[..i]) + [candidate];
      assert ((said + candidates[..i]) + [candidate])[..|said| + i] == said + candidates[..i];
      if candidate.member !in next || Later(candidate, next[candidate.member]) {
        next := next[candidate.member := candidate];
      }
    }
    assert candidates[..|candidates|] == candidates;
  }

  // ---------------------------------------------------------------------
  // What the fold means

  lemma LaterAsymmetric(a: GuestbookState, b: GuestbookState)
    requires Later(a, b)
    ensures !Later(b, a)
  {
    if a.timestampMs == b.timestampMs {
      LessAsymmetric(b.rumorId, a.rumorId);
    }
  }

  lemma NotLaterTransitive(a: GuestbookState, b: GuestbookState, c: GuestbookState)
    requires !Later(a, b) && !Later(b, c)
    ensures !Later(a, c)
  {
    if Later(a, c) && a.timestampMs == c.timestampMs {
      LessTotal(a.rumorId, b.rumorId);
      LessTotal(b.rumorId, c.rumorId);
      LessAsymmetric(c.rumorId, a.rumorId);
      if Less(a.rumorId, b.rumorId) && Less(b.rumorId, c.rumorId) {
        LessTransitive(a.rumorId, b.rumorId, c.rumorId);
      }
    }
  }

  lemma NotLaterThanItself(a: GuestbookState)
    ensures !Later(a, a)
  {
    if Later(a, a) {
      LaterAsymmetric(a, a);
    }
  }

  /** `states` gives each member spoken of the last thing said about it, and nothing else. */
  ghost predicate IsLatest(said: seq<GuestbookState>, states: States) {
    && (forall m :: m in states ==> states[m] in said && states[m].member == m)
    && (forall c :: c in said ==> c.member in states && !Later(c, states[c.member]))
  }

  lemma {:induction false} LatestMeaning(said: seq<GuestbookState>)
    ensures IsLatest(said, Latest(said))
  {
    if said != [] {
      var front, last := said[..|said| - 1], said[|said| - 1];
      assert said == front + [last];
      LatestMeaning(front);
      var before, after := Latest(front), Latest(said);
      NotLaterThanItself(last);
      forall c | c in said ensures c.member in after && !Later(c, after[c.member]) {
        if c in front && c.member == last.member && after[c.member] == last && last != before[c.member] {
          LaterAsymmetric(last, before[c.member]);
          NotLaterTransitive(c, before[c.member], last);
        }
      }
    }
  }

  /** Two things said about one member in the same millisecond under the same rumor id are the same. */
  ghost predicate NoTies(said: seq<GuestbookState>) {
    forall a, b ::
      a in said && b in said && a.member == b.member && a.timestampMs == b.timestampMs && a.rumorId == b.rumorId ==> a == b
  }

  lemma LatestUnique(said: seq<GuestbookState>, x: States, y: States)
    requires NoTies(said) && IsLatest(said, x) && IsLatest(said, y)
    ensures x == y
  {
    forall m | m in x ensures m in y && x[m] == y[m] {
      assert y[m] in said;
      LessTotal(x[m].rumorId, y[m].rumorId);
    }
    forall m | m in y ensures m in x {
      assert y[m] in said;
    }
  }

  /** Rumor ids are digests of the rumor; rumors that say nothing need not have one. */
  ghost predicate UniqueRumors(policy: Policy, rumors: seq<Dict>) {
    forall r, r' ::
      r in rumors && r' in rumors && Get(r, "id") == Get(r', "id")
      && Contributions(policy, r) != [] && Contributions(policy, r') != []
      ==> r == r'
  }

  lemma {:induction false} JoinedElements(f: Dict -> seq<GuestbookState>, s: seq<Dict>)
    ensures forall c :: c in Joined(f, s) <==> exists r :: r in s && c in f(r)
  {
    if s != [] {
      var front, last := s[..|s| - 1], s[|s| - 1];
      assert s == front + [last];
      JoinedElements(f, front);
      forall c ensures c in Joined(f, s) <==> exists r :: r in s && c in f(r) {
        assert last in s;
      }
    }
  }

  lemma SaidElements(policy: Policy, rumors: seq<Dict>)
    ensures forall c :: c in Said(policy, rumors) <==> exists r :: r in rumors && c in Contributions(policy, r)
  {
    var f := (r: Dict) => Contributions(policy, r);
    JoinedElements(f, rumors);
    forall c ensures c in Joined(f, rumors) <==> exists r :: r in rumors && c in Contributions(policy, r) {
      if r :| r in rumors && c in f(r) {
        assert c in Contributions(policy, r);
      }
      if r :| r in rumors && c in Contributions(policy, r) {
        assert c in f(r);
      }
    }
  }

  /** One rumor says one thing about each member, under its own id. */
  lemma ContributionsConsistent(policy: Policy, rumor: Dict)
    ensures forall c :: c in Contributions(policy, rumor) ==> Get(rumor, "id") == Str(c.rumorId)
    ensures forall c, d :: c in Contributions(policy, rumor) && d in Contributions(policy, rumor) && c.member == d.member ==> c == d
  {
  }

  lemma SaidHasNoTies(policy: Policy, rumors: seq<Dict>)
    requires UniqueRumors(policy, rumors)
    ensures NoTies(Said(policy, rumors))
  {
    SaidElements(policy, rumors);
    var said := Said(policy, rumors);
    forall a, b |
      a in said && b in said && a.member == b.member && a.timestampMs == b.timestampMs && a.rumorId == b.rumorId
      ensures a == b
    {
      var r :| r in rumors && a in Contributions(policy, r);
      var r' :| r' in rumors && b in Contributions(policy, r');
      ContributionsConsistent(policy, r);
      ContributionsConsistent(policy, r');
    }
  }

  /** The fold depends only on the set of rumors: not on their order, and not on repetition. */
  lemma FoldDependsOnSet(policy: Policy, a: seq<Dict>, b: seq<Dict>)
    requires UniqueRumors(policy, a) && forall r :: r in a <==> r in b
    ensures Folded(policy, a) == Folded(policy, b)
  {
    SaidElements(policy, a);
    SaidElements(policy, b);
    SaidHasNoTies(policy, a);
    LatestMeaning(Said(policy, a));
    LatestMeaning(Said(policy, b));
    assert forall c :: c in Said(policy, a) <==> c in Said(policy, b);
    LatestUnique(Said(policy, a), Folded(policy, a), Folded(policy, b));
  }

  // ---------------------------------------------------------------------
  // What a rumor says, in terms of its fields

  /** The tag at `i` has the name and at least `width` items. */
  predicate TagAt(tags: seq<Json>, i: nat, name: string, width: nat) {
    && i < |tags| && tags[i].Arr? && tags[i].items != [] && |tags[i].items| >= width && tags[i].items[0] == Str(name)
  }

  ghost predicate NoTag(tags: seq<Json>, name: string, width: nat) {
    forall i: nat :: !TagAt(tags, i, name, width)
  }

  ghost predicate OnlyTag(tags: seq<Json>, name: string, width: nat, i: nat) {
    TagAt(tags, i, name, width) && forall j: nat :: TagAt(tags, j, name, width) ==> j == i
  }

  lemma TagAtSnoc(tags: seq<Json>, last: Json, name: string, width: nat)
    ensures forall i: nat :: i < |tags| ==> (TagAt(tags + [last], i, name, width) <==> TagAt(tags, i, name, width))
    ensures TagAt(tags + [last], |tags|, name, width)
            <==> last.Arr? && last.items != [] && |last.items| >= width && last.items[0] == Str(name)
  {
  }

  lemma {:induction false} TagsNamedIff(tags: seq<Json>, name: string, width: nat)
    ensures TagsNamed(tags, name, width) == [] <==> NoTag(tags, name, width)
    ensures |TagsNamed(tags, name, width)| == 1 <==> exists i: nat :: OnlyTag(tags, name, width, i)
    ensures forall i: nat :: OnlyTag(tags, name, width, i) ==> TagsNamed(tags, name, width) == [tags[i].items]
  {
    if tags != [] {
      var front, last := tags[..|tags| - 1], tags[|tags| - 1];
      assert tags == front + [last];
      TagsNamedIff(front, name, width);
      TagAtSnoc(front, last, name, width);
      if TagAt(tags, |front|, name, width) {
        assert TagsNamed(tags, name, width) == TagsNamed(front, name, width) + [last.items];
        if NoTag(front, name, width) {
          assert OnlyTag(tags, name, width, |front|);
        } else {
          var j: nat :| TagAt(front, j, name, width);
          assert TagAt(tags, j, name, width);
        }
      } else {
        assert TagsNamed(tags, name, width) == TagsNamed(front, name, width);
        forall i: nat ensures TagAt(tags, i, name, width) <==> TagAt(front, i, name, width) {
        }
        forall i: nat ensures OnlyTag(tags, name, width, i) <==> OnlyTag(front, name, width, i) {
        }
      }
    }
  }

  /** The `p` tag at `i` names `target`. */
  predicate TargetAt(tags: seq<Json>, i: nat, target: string) {
    TagAt(tags, i, "p", 2) && tags[i].items[1] == Str(target)
  }

  ghost predicate OnlyTarget(tags: seq<Json>, i: nat, target: string) {
    TargetAt(tags, i, target) && forall j: nat, other :: TargetAt(tags, j, other) ==> j == i
  }

  function Targets(tags: seq<Json>): seq<string> {
    StringTargets(TagsNamed(tags, "p", 2))
  }

  lemma TargetsSnoc(front: seq<Json>, last: Json)
    ensures Targets(front + [last]) ==
            if TagAt([last], 0, "p", 2) && last.items[1].Str? then Targets(front) + [last.items[1].s] else Targets(front)
    ensures forall i: nat, t :: TargetAt(front + [last], i, t)
                                <==> TargetAt(front, i, t) || (i == |front| && TargetAt([last], 0, t))
  {
    assert (front + [last])[..|front|] == front;
    var named := TagsNamed(front, "p", 2);
    assert (named + [Items(last)])[..|named|] == named;
    assert named + [] == named;
  }

  lemma {:induction false} TargetsIff(tags: seq<Json>)
    ensures Targets(tags) == [] <==> forall i: nat, t :: !TargetAt(tags, i, t)
    ensures |Targets(tags)| == 1 <==> exists i: nat, t :: OnlyTarget(tags, i, t)
    ensures forall i: nat, t :: OnlyTarget(tags, i, t) ==> Targets(tags) == [t]
  {
    if tags != [] {
      var front, last := tags[..|tags| - 1], tags[|tags| - 1];
      assert tags == front + [last];
      TargetsIff(front);
      TargetsSnoc(front, last);
      if TagAt([last], 0, "p", 2) && last.items[1].Str? {
        var t := last.items[1].s;
        assert TargetAt(tags, |front|, t);
        if Targets(front) == [] {
          assert OnlyTarget(tags, |front|, t);
        } else {
          var j: nat, u :| TargetAt(front, j, u);
          assert TargetAt(tags, j, u);
        }
      } else {
        forall i: nat, t ensures TargetAt(tags, i, t) <==> TargetAt(front, i, t) {
        }
        forall i: nat, t ensures OnlyTarget(tags, i, t) <==> OnlyTarget(front, i, t) {
        }
      }
    }
  }

  /** The milliseconds that the tags give: none, or those of the only `ms` tag, in decimal digits. */
  ghost predicate GivesMilliseconds(tags: seq<Json>, n: nat) {
    || (n == 0 && NoTag(tags, "ms", 2))
    || (n <= 999 && exists i: nat, digits ::
          OnlyTag(tags, "ms", 2, i) && tags[i].items[1] == Str(digits) && IsDigits(digits) && Digits(digits) == n)
  }

  predicate IsDecimal(value: Json) {
    value.Str? && IsDigits(value.s)
  }

  /** The content of the rumor is a list of 64-character members. */
  ghost predicate IsList(policy: Policy, rumor: Dict, text: string, items: seq<Json>) {
    && (Get(rumor, "content") == Str(text) || ("content" !in rumor && text == ""))
    && policy.loads(text) == Some(Arr(items)) && forall item :: item in items ==> item.Str? && |item.s| == 64
  }

  ghost predicate ListsMember(policy: Policy, rumor: Dict, member: string) {
    exists text, items :: IsList(policy, rumor, text, items) && Str(member) in items
  }

  /** The only `snap` tag holds two numbers. */
  ghost predicate SnapNumbered(tags: seq<Json>) {
    exists i: nat :: OnlyTag(tags, "snap", 4, i) && IsDecimal(tags[i].items[2]) && IsDecimal(tags[i].items[3])
  }

  /** An integer, or a boolean, which counts as one. */
  predicate IsInt(value: Json, n: int) {
    value == Int(n) || (n == 0 && value == Bool(false)) || (n == 1 && value == Bool(true))
  }

  predicate IsKind(rumor: Dict, kind: int) {
    Get(rumor, "kind") == Int(kind) || Get(rumor, "kind") == Float(kind, 0)
  }

  /** Why a member joins or leaves: by its own word, by an authorized snapshot that lists it, or by an authorized kick of it
      alone. */
  ghost predicate Warrants(policy: Policy, rumor: Dict, tags: seq<Json>, c: GuestbookState) {
    || (&& IsKind(rumor, 3306) && Get(rumor, "pubkey") == Str(c.member) && |c.member| == 64
        && Get(rumor, "content") == Str(c.status) && (c.status == "join" || c.status == "leave"))
    || (&& IsKind(rumor, 3309) && policy.authorizeKick.Some? && policy.authorizeKick.value(rumor)
        && Get(rumor, "content") == Str("") && (exists i: nat :: OnlyTarget(tags, i, c.member)) && |c.member| == 64
        && c.status == "leave")
    || (&& IsKind(rumor, 3312) && policy.authorizeSnapshot.Some? && policy.authorizeSnapshot.value(rumor)
        && ListsMember(policy, rumor, c.member) && SnapNumbered(tags) && c.status == "join")
  }

  ghost predicate IsAt(rumor: Dict, tags: seq<Json>, timestampMs: int) {
    exists at, ms: nat ::
      IsInt(Get(rumor, "created_at"), at) && GivesMilliseconds(tags, ms) && timestampMs == at * 1000 + ms
  }

  /** The rumor says this: it has a 64-character identifier and a time that is not too far ahead, and it warrants the status. */
  ghost predicate Says(policy: Policy, rumor: Dict, c: GuestbookState) {
    var tags := if Get(rumor, "tags").Arr? then Get(rumor, "tags").items else [];
    && Get(rumor, "id") == Str(c.rumorId) && |c.rumorId| == 64
    && IsAt(rumor, tags, c.timestampMs) && c.timestampMs <= policy.nowMs + policy.futureSkewMs && Warrants(policy, rumor, tags, c)
  }

  lemma MillisecondIff(rumor: Dict, n: nat)
    ensures Millisecond(rumor) == Some(n) <==> GivesMilliseconds(Items(Get(rumor, "tags")), n)
  {
    var tags := Items(Get(rumor, "tags"));
    TagsNamedIff(tags, "ms", 2);
    if Millisecond(rumor) == Some(n) && !NoTag(tags, "ms", 2) {
      var i: nat :| OnlyTag(tags, "ms", 2, i);
    }
  }

  lemma KickTargetIff(rumor: Dict, target: string)
    ensures KickTarget(rumor) == Some(target) <==> exists i: nat :: OnlyTarget(Items(Get(rumor, "tags")), i, target)
  {
    var tags := Items(Get(rumor, "tags"));
    TargetsIff(tags);
    if KickTarget(rumor) == Some(target) {
      var i: nat, t :| OnlyTarget(tags, i, t);
    }
  }

  lemma SnapNumberedIff(tags: seq<Json>)
    ensures var snaps := TagsNamed(tags, "snap", 4);
            SnapNumbered(tags) <==> |snaps| == 1 && IsDecimal(snaps[0][2]) && IsDecimal(snaps[0][3])
  {
    TagsNamedIff(tags, "snap", 4);
  }

  lemma TextsIff(items: seq<Json>, member: string)
    requires AllHex64(items)
    ensures member in Texts(items) <==> Str(member) in items
  {
    if member in Texts(items) {
      var i :| 0 <= i < |items| && Texts(items)[i] == member;
      assert items[i] == Str(member);
    }
    if Str(member) in items {
      var i :| 0 <= i < |items| && items[i] == Str(member);
      assert Texts(items)[i] == member;
    }
  }

  lemma ListsMemberIff(policy: Policy, rumor: Dict, member: string)
    ensures MemberList(policy, rumor).Some? && member in MemberList(policy, rumor).value <==> ListsMember(policy, rumor, member)
  {
    if MemberList(policy, rumor).Some? {
      var content := if "content" in rumor then rumor["content"] else Str("");
      var items := policy.loads(content.s).value.items;
      forall item | item in items ensures IsHex64(item) {
        var i :| 0 <= i < |items| && items[i] == item;
      }
      assert IsList(policy, rumor, content.s, items);
      TextsIff(items, member);
    }
    if ListsMember(policy, rumor, member) {
      var text, items :| IsList(policy, rumor, text, items) && Str(member) in items;
      assert forall i :: 0 <= i < |items| ==> items[i] in items;
      TextsIff(items, member);
    }
  }

  lemma SnapshotIff(policy: Policy, rumor: Dict, member: string)
    ensures SnapshotMembers(policy, rumor).Some? && member in SnapshotMembers(policy, rumor).value
            <==> ListsMember(policy, rumor, member) && SnapNumbered(Items(Get(rumor, "tags")))
  {
    SnapNumberedIff(Items(Get(rumor, "tags")));
    ListsMemberIff(policy, rumor, member);
  }

  lemma IsAtIff(rumor: Dict, timestampMs: int)
    ensures IsAt(rumor, Items(Get(rumor, "tags")), timestampMs)
            <==> && Get(rumor, "created_at").AsInt().Some? && Millisecond(rumor).Some?
                 && timestampMs == Get(rumor, "created_at").AsInt().value * 1000 + Millisecond(rumor).value
  {
    forall n: nat ensures Millisecond(rumor) == Some(n) <==> GivesMilliseconds(Items(Get(rumor, "tags")), n) {
      MillisecondIff(rumor, n);
    }
    if Get(rumor, "created_at").AsInt().Some? && Millisecond(rumor).Some? {
      assert IsInt(Get(rumor, "created_at"), Get(rumor, "created_at").AsInt().value);
    }
  }

  lemma JoinsIff(members: seq<string>, timestamp: int, id: string, c: GuestbookState)
    ensures c in Joins(members, timestamp, id)
            <==> c.member in members && c.status == "join" && c.timestampMs == timestamp && c.rumorId == id
  {
    if c.member in members && c.status == "join" && c.timestampMs == timestamp && c.rumorId == id {
      var i :| 0 <= i < |members| && members[i] == c.member;
      assert Joins(members, timestamp, id)[i] == c;
    }
  }

  lemma SnapshotContributes(policy: Policy, rumor: Dict, c: GuestbookState)
    requires IsKind(rumor, SNAPSHOT)
    ensures c in Contributions(policy, rumor) <==> Says(policy, rumor, c)
  {
    IsAtIff(rumor, c.timestampMs);
    SnapshotIff(policy, rumor, c.member);
    if SnapshotMembers(policy, rumor).Some? && Get(rumor, "id").Str? {
      JoinsIff(SnapshotMembers(policy, rumor).value, c.timestampMs, Get(rumor, "id").s, c);
    }
  }

  lemma KickContributes(policy: Policy, rumor: Dict, c: GuestbookState)
    requires IsKind(rumor, KICK)
    ensures c in Contributions(policy, rumor) <==> Says(policy, rumor, c)
  {
    IsAtIff(rumor, c.timestampMs);
    KickTargetIff(rumor, c.member);
  }

  lemma OwnWordContributes(policy: Policy, rumor: Dict, c: GuestbookState)
    requires IsKind(rumor, JOIN_OR_LEAVE)
    ensures c in Contributions(policy, rumor) <==> Says(policy, rumor, c)
  {
    IsAtIff(rumor, c.timestampMs);
  }

  /** Every rumor contributes exactly what it says. */
  lemma ContributionsIff(policy: Policy, rumor: Dict, c: GuestbookState)
    ensures c in Contributions(policy, rumor) <==> Says(policy, rumor, c)
  {
    if IsKind(rumor, SNAPSHOT) {
      SnapshotContributes(policy, rumor, c);
    } else if IsKind(rumor, KICK) {
      KickContributes(policy, rumor, c);
    } else if IsKind(rumor, JOIN_OR_LEAVE) {
      OwnWordContributes(policy, rumor, c);
    }
  }

  /** `d` has an earlier time than `c`, or the same time and a smaller rumor identifier. */
  predicate Before(d: GuestbookState, c: GuestbookState) {
    d.timestampMs < c.timestampMs || (d.timestampMs == c.timestampMs && Less(d.rumorId, c.rumorId))
  }

  /** Some rumor says this. */
  ghost predicate IsSaid(policy: Policy, rumors: seq<Dict>, c: GuestbookState) {
    exists r :: r in rumors && Says(policy, r, c)
  }

  lemma AllSaid(policy: Policy, rumors: seq<Dict>)
    ensures forall c :: c in Said(policy, rumors) <==> IsSaid(policy, rumors, c)
  {
    SaidElements(policy, rumors);
    forall r, c ensures c in Contributions(policy, r) <==> Says(policy, r, c) {
      ContributionsIff(policy, r, c);
    }
  }

  /** The folded state of a member is the maximum, by timestamp and rumor id, of everything the rumors say about it. */
  lemma FoldIsMaximum(policy: Policy, rumors: seq<Dict>, m: string)
    ensures m in Folded(policy, rumors) <==> exists c :: IsSaid(policy, rumors, c) && c.member == m
    ensures m in Folded(policy, rumors) ==>
              && IsSaid(policy, rumors, Folded(policy, rumors)[m]) && Folded(policy, rumors)[m].member == m
              && forall c :: IsSaid(policy, rumors, c) && c.member == m ==> !Later(c, Folded(policy, rumors)[m])
  {
    AllSaid(policy, rumors);
    LatestMeaning(Said(policy, rumors));
  }

  /** Exactly the members that are spoken of and not banned, each with something that is said about it and than which nothing
      is later. */
  ghost predicate AreLastWords(policy: Policy, rumors: seq<Dict>, banned: set<string>, states: States) {
    && (forall m :: m in states <==> m !in banned && exists c :: IsSaid(policy, rumors, c) && c.member == m)
    && (forall m :: m in states ==> IsSaid(policy, rumors, states[m]) && states[m].member == m)
    && (forall c :: IsSaid(policy, rumors, c) && c.member in states ==> !Later(c, states[c.member]))
  }

  lemma FoldHoldsLastWords(policy: Policy, rumors: seq<Dict>, banned: set<string>)
    ensures AreLastWords(policy, rumors, banned, Folded(policy, rumors) - banned)
  {
    AllSaid(policy, rumors);
    LatestMeaning(Said(policy, rumors));
  }

  /** The last word on a member decides: what some rumor says, a leave, an authorized kick or an authorized snapshot say,
      is the member's state in the fold if everything else that is said about the member is before it. */
  lemma LastWordDecides(policy: Policy, rumors: seq<Dict>, rumor: Dict, c: GuestbookState)
    requires rumor in rumors && Says(policy, rumor, c)
    requires forall d :: IsSaid(policy, rumors, d) && d.member == c.member && d != c ==> Before(d, c)
    ensures c.member in Folded(policy, rumors) && Folded(policy, rumors)[c.member] == c
  {
    assert IsSaid(policy, rumors, c);
    FoldIsMaximum(policy, rumors, c.member);
  }

  /** Nobody's status changes on another's word, except by an authorized kick or snapshot. */
  lemma StatesAreWarranted(policy: Policy, rumors: seq<Dict>, m: string)
    requires m in Folded(policy, rumors)
    ensures Folded(policy, rumors)[m].member == m
    ensures exists r :: r in rumors && Says(policy, r, Folded(policy, rumors)[m])
  {
    FoldIsMaximum(policy, rumors, m);
  }

  /** The later of two states for each member. */
  function Merged(x: States, y: States): States {
    map m | m in x.Keys + y.Keys :: if m in x && (m !in y || !Later(y[m], x[m])) then x[m] else y[m]
  }

  ghost predicate Keyed(x: States) {
    forall m :: m in x ==> x[m].member == m
  }

  lemma MergedPut(x: States, y: States, c: GuestbookState)
    requires Keyed(x) && Keyed(y)
    ensures Put(Merged(x, y), c) == Merged(x, Put(y, c))
  {
    var m := c.member;
    if m in x && m in y {
      if Later(y[m], x[m]) {
        LaterAsymmetric(y[m], x[m]);
        if !Later(c, x[m]) {
          NotLaterTransitive(c, x[m], y[m]);
        }
      } else if !Later(c, x[m]) {
      } else if !Later(c, y[m]) {
        NotLaterTransitive(c, y[m], x[m]);
      }
    }
  }

  lemma {:induction false} LatestOfConcatenation(a: seq<GuestbookState>, b: seq<GuestbookState>)
    ensures Latest(a + b) == Merged(Latest(a), Latest(b))
    decreases |b|
  {
    LatestMeaning(a);
    LatestMeaning(b);
    if b == [] {
      assert a + b == a;
    } else {
      var front, last := b[..|b| - 1], b[|b| - 1];
      LatestOfConcatenation(a, front);
      LatestMeaning(front);
      assert (a + b)[..|a + b| - 1] == a + front;
      MergedPut(Latest(a), Latest(front), last);
    }
  }

  lemma {:induction false} JoinedOfConcatenation(f: Dict -> seq<GuestbookState>, a: seq<Dict>, b: seq<Dict>)
    ensures Joined(f, a + b) == Joined(f, a) + Joined(f, b)
    decreases |b|
  {
    if b == [] {
      assert a + b == a;
    } else {
      JoinedOfConcatenation(f, a, b[..|b| - 1]);
      assert (a + b)[..|a + b| - 1] == a + b[..|b| - 1];
    }
  }

  lemma SaidOfConcatenation(policy: Policy, a: seq<Dict>, b: seq<Dict>)
    ensures Said(policy, a + b) == Said(policy, a) + Said(policy, b)
  {
    JoinedOfConcatenation(r => Contributions(policy, r), a, b);
  }

  /** Folding a concatenation is the pointwise maximum of the folds. */
  lemma FoldOfConcatenation(policy: Policy, a: seq<Dict>, b: seq<Dict>)
    ensures Folded(policy, a + b) == Merged(Folded(policy, a), Folded(policy, b))
  {
    SaidOfConcatenation(policy, a, b);
    LatestOfConcatenation(Said(policy, a), Said(policy, b));
  }

  lemma JoinedOfOne(f: Dict -> seq<GuestbookState>, rumor: Dict)
    ensures Joined(f, [rumor]) == f(rumor)
  {
    assert [rumor][..0] == [] && Joined(f, []) == [];
  }

  /** Folding one rumor that says at most one thing. */
  lemma FoldOfOne(policy: Policy, rumor: Dict, said: seq<GuestbookState>)
    requires said == Contributions(policy, rumor) && |said| <= 1
    ensures Folded(policy, [rumor]) == if said == [] then map[] else map[said[0].member := said[0]]
  {
    JoinedOfOne(r => Contributions(policy, r), rumor);
    LatestOfOne(said);
  }

  lemma LatestOfOne(said: seq<GuestbookState>)
    requires |said| <= 1
    ensures Latest(said) == if said == [] then map[] else map[said[0].member := said[0]]
  {
    assert |said| == 1 ==> said[..0] == [] && Latest(said[..0]) == map[];
  }
}
