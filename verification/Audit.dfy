/** The hash-chained audit log (audit/log.py). */
module Audit {
  import opened Prelude
  import opened HashChain

  /** The hash named by the first entry: 64 zeros. */
  function Genesis(): (hash: string)
    ensures |hash| == 64 && forall i :: 0 <= i < 64 ==> hash[i] == '0'
  {
    seq(64, i => '0')
  }

  /** How much of the file `verify` reads, and how much of it `record` looks back at. */
  const MAX_READ_BYTES := 64 * 1024 * 1024
  const LOOK_BACK_BYTES := 0x10_0000

  /** A line of the file and its size in bytes with the line break; a blank or unparsable line has no value. */
  datatype Line = Line(value: Option<Json>, size: nat)

  /** SHA-256 over the canonical JSON text of an entry without its own hash. */
  type Digest = Dict -> string

  /** The digest, and the size in bytes of the line written for an entry. */
  datatype Format = Format(digest: Digest, size: Dict -> nat)

  function SizeOf(lines: seq<Line>): nat {
    if lines == [] then 0 else lines[0].size + SizeOf(lines[1..])
  }

  /** The complete lines among the last `window` bytes. */
  function Tail(lines: seq<Line>, window: nat): seq<Line> {
    if lines == [] || SizeOf(lines) <= window then lines else Tail(lines[1..], window)
  }

  predicate IsEntry(l: Line) {
    l.value.Some? && l.value.value.Obj?
  }

  /** JSON that is no object makes the readers raise. */
  predicate Readable(lines: seq<Line>) {
    forall i :: 0 <= i < |lines| && lines[i].value.Some? ==> IsEntry(lines[i])
  }

  /** The entries, without the lines that do not parse. */
  function Entries(lines: seq<Line>): seq<Dict> {
    if lines == [] then []
    else (if IsEntry(lines[0]) then [lines[0].value.value.fields] else []) + Entries(lines[1..])
  }

  function Visible(lines: seq<Line>): seq<Line> {
    Tail(lines, MAX_READ_BYTES)
  }

  /** The entries of the readable part of the file. */
  function ReadAll(lines: seq<Line>): seq<Dict> {
    Entries(Visible(lines))
  }

  /** The hash of the last entry that has one. */
  function LastHash(entries: seq<Dict>): Option<string> {
    if entries == [] then None
    else
      var hash := Get(entries[|entries| - 1], "entry_hash");
      if hash.Str? && hash.s != "" then Some(hash.s) else LastHash(entries[..|entries| - 1])
  }

  /** What looking backwards for the last hash comes to. */
  datatype Lookup = Raised | Nothing | Found(hash: string)

  function LookBack(lines: seq<Line>): Lookup {
    if lines == [] then Nothing
    else
      var front, last := lines[..|lines| - 1], lines[|lines| - 1];
      if last.value.None? then LookBack(front)
      else if !IsEntry(last) then Raised
      else
        var hash := Get(last.value.value.fields, "entry_hash");
        if hash.Str? && hash.s != "" then Found(hash.s) else LookBack(front)
  }

  /** The arguments of one `record` call, redacted; `Null` stands for an absent optional value. */
  datatype Record = Record(
    auditId: string, timestamp: Json, caller: string, tool: string, arguments: Json, decision: string,
    operation: Json, result: string, error: Json, approvedBy: Json, requestId: Option<string>, context: Option<string>)

  function Payload(r: Record, prevHash: string): Dict {
    map["audit_id" := Str(r.auditId), "timestamp" := r.timestamp, "caller" := Str(r.caller), "tool" := Str(r.tool),
        "arguments" := r.arguments, "decision" := Str(r.decision), "yunohost_operation" := r.operation,
        "result" := Str(r.result), "error" := r.error, "approved_by" := r.approvedBy]
    + (if r.requestId.Some? then map["request_id" := Str(r.requestId.value)] else map[])
    + (if r.context.Some? then map["execution_context" := Str(r.context.value)] else map[])
    + map["prev_hash" := Str(prevHash)]
  }

  function Near(lines: seq<Line>): seq<Line> {
    Tail(lines, LOOK_BACK_BYTES)
  }

  /** The predecessor hash that `record` writes, or nothing where it raises. */
  function PrevHash(lines: seq<Line>): Option<string> {
    match LookBack(Near(lines))
    case Raised => None
    case Nothing => Some(Genesis())
    case Found(hash) => Some(hash)
  }

  function NewEntry(digest: Digest, r: Record, prevHash: string): Dict {
    var payload := Payload(r, prevHash);
    payload["entry_hash" := Str(digest(payload))]
  }

  function NewLine(format: Format, r: Record, prevHash: string): Line {
    var entry := NewEntry(format.digest, r, prevHash);
    Line(Some(Obj(entry)), format.size(entry))
  }

  /** The file after one `record`; a `record` that raises leaves it as it was. */
  function Appended(format: Format, lines: seq<Line>, r: Record): seq<Line> {
    if PrevHash(lines).None? then lines else lines + [NewLine(format, r, PrevHash(lines).value)]
  }

  datatype Problem = PrevHashMismatch(line: nat) | MissingHash(line: nat) | ContentMismatch(line: nat)

  /** What the walk reports about one entry, and the hash it expects the next entry to name. */
  function CheckEntry(digest: Digest, e: Dict, expected: string, line: nat): (seq<Problem>, string) {
    var hash := Get(e, "entry_hash");
    var linked := if Get(e, "prev_hash") != Str(expected) then [PrevHashMismatch(line)] else [];
    if !hash.Str? then (linked + [MissingHash(line)], expected)
    else (linked + (if hash.s != digest(e - {"entry_hash"}) then [ContentMismatch(line)] else []), hash.s)
  }

  /** The problems that one walk over the entries reports. */
  function Problems(digest: Digest, entries: seq<Dict>, expected: string, index: nat): seq<Problem> {
    if entries == [] then []
    else
      var (found, next) := CheckEntry(digest, entries[0], expected, index + 1);
      found + Problems(digest, entries[1..], next, index + 1)
  }

  /** The values that the lines hold, in order. */
  function Values(lines: seq<Line>): seq<Json> {
    if lines == [] then []
    else
      var last := lines[|lines| - 1].value;
      Values(lines[..|lines| - 1]) + (if last.Some? then [last.value] else [])
  }

  predicate AllObjects(values: seq<Json>) {
    forall j :: 0 <= j < |values| ==> values[j].Obj?
  }

  /** What `verify` returns: it raises if it meets a value that is no object. */
  function Verdict(digest: Digest, lines: seq<Line>): Option<seq<Problem>> {
    if Readable(Visible(lines)) then Some(Problems(digest, ReadAll(lines), Genesis(), 0)) else None
  }

  class AuditLog {
    const format: Format
    var lines: seq<Line>

    constructor (format: Format)
      ensures this.format == format && lines == []
    {
      this.format := format;
      lines := [];
    }

    /** Appends one entry; the answer is its audit id, or nothing where the program raises. */
    method Append(r: Record) returns (auditId: Option<string>)
      modifies this`lines
      ensures auditId == if PrevHash(old(lines)).None? then None else Some(r.auditId)
      ensures lines == Appended(format, old(lines), r)
    {
      var last := LastEntryHash();
      if last.Raised? {
        return None;
      }
      var payload := Payload(r, if last.Found? then last.hash else Genesis());
      var hash := format.digest(payload);
      var entry := payload["entry_hash" := Str(hash)];
      lines := lines + [Line(Some(Obj(entry)), format.size(entry))];
      return Some(r.auditId);
    }

    /** Looks backwards through the lines in view for the last entry that has a hash. */
    method LastEntryHash() returns (last: Lookup)
      ensures last == LookBack(Near(lines))
    {
      var near := Near(lines);
      var i := |near|;
      assert near[..i] == near;
      while i > 0
        invariant 0 <= i <= |near| && LookBack(near) == LookBack(near[..i])
      {
        assert near[..i][..i - 1] == near[..i - 1];
        i := i - 1;
        if near[i].value.Some? {
          if !IsEntry(near[i]) {
            return Raised;
          }
          var hash := Get(near[i].value.value.fields, "entry_hash");
          if hash.Str? && hash.s != "" {
            return Found(hash.s);
          }
        }
      }
      return Nothing;
    }

    /** The values of the readable part of the file, skipping what does not parse. */
    method ReadValues() returns (values: seq<Json>)
      ensures values == Values(Visible(lines))
    {
      values := [];
      var visible := Visible(lines);
      for i := 0 to |visible|
        invariant values == Values(visible[..i])
      {
        assert visible[..i + 1][..i] == visible[..i];
        if visible[i].value.Some? {
          values := values + [visible[i].value.value];
        }
      }
      assert visible[..|visible|] == visible;
    }

    /** The problems of the file, or nothing where the program raises. */
    method Verify() returns (problems: Option<seq<Problem>>)
      ensures problems == Verdict(format.digest, lines)
    {
      var values := ReadValues();
      ValuesOfReadable(Visible(lines));
      problems := Walk(values, ReadAll(lines));
    }

    /** The walk over the values, which are the given entries if they are all objects. */
    method Walk(values: seq<Json>, ghost entries: seq<Dict>) returns (problems: Option<seq<Problem>>)
      requires AllObjects(values) ==> |entries| == |values| && forall j :: 0 <= j < |values| ==> values[j] == Obj(entries[j])
      ensures problems == if AllObjects(values) then Some(Problems(format.digest, entries, Genesis(), 0)) else None
    {
      var found: seq<Problem>, expected := [], Genesis();
      for i := 0 to |values|
        invariant forall j :: 0 <= j < i ==> values[j].Obj?
        invariant AllObjects(values) ==>
                    Problems(format.digest, entries, Genesis(), 0) == found + Problems(format.digest, entries[i..], expected, i)
      {
        if !values[i].Obj? {
          return None;
        }
        var more, next := VerifyEntry(values[i].fields, expected, i + 1);
        if AllObjects(values) {
          ProblemsStep(format.digest, entries, expected, i);
        }
        found, expected := found + more, next;
      }
      assert AllObjects(values) && entries[|values|..] == [] && found + [] == found;
      return Some(found);
    }

    /** The body of the walk. */
    method VerifyEntry(entry: Dict, expected: string, line: nat) returns (found: seq<Problem>, next: string)
      ensures (found, next) == CheckEntry(format.digest, entry, expected, line)
    {
      found, next := [], expected;
      var stored := Get(entry, "entry_hash");
      if Get(entry, "prev_hash") != Str(expected) {
        found := [PrevHashMismatch(line)];
      }
      if !stored.Str? {
        found := found + [MissingHash(line)];
        return;
      }
      var recomputed := format.digest(entry - {"entry_hash"});
      if stored.s != recomputed {
        found := found + [ContentMismatch(line)];
      } else {
        found := found + [];
      }
      next := stored.s;
    }
  }

  lemma ProblemsStep(digest: Digest, entries: seq<Dict>, expected: string, i: nat)
    requires i < |entries|
    ensures var (found, next) := CheckEntry(digest, entries[i], expected, i + 1);
            Problems(digest, entries[i..], expected, i) == found + Problems(digest, entries[i + 1..], next, i + 1)
  {
    assert entries[i..][0] == entries[i] && entries[i..][1..] == entries[i + 1..];
  }

  /** The lines are readable exactly when all values are objects, and then these are the entries. */
  lemma {:induction false} ValuesOfReadable(lines: seq<Line>)
    ensures Readable(lines) <==> AllObjects(Values(lines))
    ensures Readable(lines) ==>
              |Entries(lines)| == |Values(lines)|
              && forall j :: 0 <= j < |Values(lines)| ==> Values(lines)[j] == Obj(Entries(lines)[j])
  {
    if lines != [] {
      var front, last := lines[..|lines| - 1], lines[|lines| - 1];
      assert lines == front + [last];
      ValuesOfReadable(front);
      EntriesSnoc(front, last);
      ReadableSnoc(front, last);
      if last.value.Some? {
        ObjectsSnoc(Values(front), last.value.value);
      } else {
        assert Values(lines) == Values(front);
      }
    }
  }

  lemma ReadableSnoc(lines: seq<Line>, l: Line)
    ensures Readable(lines + [l]) <==> Readable(lines) && (l.value.Some? ==> IsEntry(l))
  {
    var longer := lines + [l];
    assert longer[|lines|] == l;
    assert forall i :: 0 <= i < |lines| ==> longer[i] == lines[i];
  }

  lemma ObjectsSnoc(values: seq<Json>, value: Json)
    ensures AllObjects(values + [value]) <==> AllObjects(values) && value.Obj?
  {
    var longer := values + [value];
    assert longer[|values|] == value;
    assert forall i :: 0 <= i < |values| ==> longer[i] == values[i];
  }

  // ---------------------------------------------------------------------
  // What an empty list of problems means

  function HashOf(digest: Digest, e: Dict): string {
    digest(e - {"entry_hash"})
  }

  /** The entry carries its own digest and names the hash expected of its predecessor. */
  predicate Linked(digest: Digest, e: Dict, expected: string) {
    Get(e, "entry_hash") == Str(HashOf(digest, e)) && Get(e, "prev_hash") == Str(expected)
  }

  function Chain(digest: Digest): Rule<Dict> {
    Rule(e => HashOf(digest, e), (e, expected) => Linked(digest, e, expected))
  }

  /** The walk reports nothing exactly when the chain is intact. */
  lemma {:induction false} NoProblemsIffIntact(digest: Digest, entries: seq<Dict>, expected: string, index: nat)
    ensures Problems(digest, entries, expected, index) == [] <==> Intact(Chain(digest), entries, expected)
  {
    if entries != [] {
      var chain, e, rest := Chain(digest), entries[0], entries[1..];
      assert entries == [e] + rest;
      IntactCons(chain, e, rest, expected);
      CheckedEntry(digest, e, expected, index + 1);
      NoProblemsIffIntact(digest, rest, chain.hash(e), index + 1);
    }
  }

  lemma CheckedEntry(digest: Digest, e: Dict, expected: string, line: nat)
    ensures CheckEntry(digest, e, expected, line).0 == [] <==> Linked(digest, e, expected)
    ensures Linked(digest, e, expected) ==> CheckEntry(digest, e, expected, line).1 == HashOf(digest, e)
  {
  }

  /** The hash that entry `k` must name: the one stored in the last entry before it that has one, or the first. */
  ghost predicate MustName(entries: seq<Dict>, first: string, k: nat, hash: string)
    requires k <= |entries|
  {
    || (exists j: nat :: j < k && Get(entries[j], "entry_hash") == Str(hash)
                         && forall i :: j < i < k ==> !Get(entries[i], "entry_hash").Str?)
    || (hash == first && forall i :: 0 <= i < k ==> !Get(entries[i], "entry_hash").Str?)
  }

  lemma {:induction false} LinesFollow(digest: Digest, entries: seq<Dict>, expected: string, index: nat)
    ensures forall p :: p in Problems(digest, entries, expected, index) ==> index < p.line
  {
    if entries != [] {
      var (found, next) := CheckEntry(digest, entries[0], expected, index + 1);
      LinesFollow(digest, entries[1..], next, index + 1);
    }
  }

  lemma MustNameTail(entries: seq<Dict>, first: string, k: nat, hash: string, next: string)
    requires 0 < k <= |entries| && MustName(entries, first, k, hash)
    requires next == if Get(entries[0], "entry_hash").Str? then Get(entries[0], "entry_hash").s else first
    ensures MustName(entries[1..], next, k - 1, hash)
  {
    var rest := entries[1..];
    if j: nat :| j < k && Get(entries[j], "entry_hash") == Str(hash)
                 && forall i :: j < i < k ==> !Get(entries[i], "entry_hash").Str? {
      if j > 0 {
        assert Get(rest[j - 1], "entry_hash") == Str(hash);
      }
    }
  }

  /** What is reported on the line of an entry: that it does not name the hash it must, has no hash, or one that is not that of
      its content. */
  predicate Reports(digest: Digest, found: seq<Problem>, e: Dict, hash: string, line: nat) {
    && (PrevHashMismatch(line) in found <==> Get(e, "prev_hash") != Str(hash))
    && (MissingHash(line) in found <==> !Get(e, "entry_hash").Str?)
    && (ContentMismatch(line) in found
        <==> Get(e, "entry_hash").Str? && Get(e, "entry_hash").s != digest(e - {"entry_hash"}))
  }

  lemma EntryIsReported(digest: Digest, e: Dict, hash: string, line: nat)
    ensures Reports(digest, CheckEntry(digest, e, hash, line).0, e, hash, line)
    ensures forall p :: p in CheckEntry(digest, e, hash, line).0 ==> p.line == line
  {
  }

  lemma ReportsOfParts(digest: Digest, found: seq<Problem>, rest: seq<Problem>, e: Dict, hash: string, line: nat)
    requires || (Reports(digest, found, e, hash, line) && forall p :: p in rest ==> p.line != line)
             || (Reports(digest, rest, e, hash, line) && forall p :: p in found ==> p.line != line)
    ensures Reports(digest, found + rest, e, hash, line)
  {
  }

  /** The walk reports what is wrong with entry `k` on its line, and nothing else there. */
  predicate ReportedAt(digest: Digest, entries: seq<Dict>, first: string, index: nat, k: nat, hash: string)
    requires k < |entries|
  {
    Reports(digest, Problems(digest, entries, first, index), entries[k], hash, index + k + 1)
  }

  lemma FirstIsReported(digest: Digest, entries: seq<Dict>, first: string, index: nat)
    requires entries != []
    ensures ReportedAt(digest, entries, first, index, 0, first)
  {
    var (found, next) := CheckEntry(digest, entries[0], first, index + 1);
    LinesFollow(digest, entries[1..], next, index + 1);
    EntryIsReported(digest, entries[0], first, index + 1);
    ReportsOfParts(
      digest, found, Problems(digest, entries[1..], next, index + 1), entries[0], first, index + 1);
  }

  lemma StillReported(digest: Digest, entries: seq<Dict>, first: string, index: nat, k: nat, hash: string)
    requires 0 < k < |entries|
    requires ReportedAt(digest, entries[1..], CheckEntry(digest, entries[0], first, index + 1).1, index + 1, k - 1, hash)
    ensures ReportedAt(digest, entries, first, index, k, hash)
  {
    var (found, next) := CheckEntry(digest, entries[0], first, index + 1);
    EntryIsReported(digest, entries[0], first, index + 1);
    ReportsOfParts(digest, found, Problems(digest, entries[1..], next, index + 1), entries[k], hash, index + k + 1);
  }

  /** The fault of every entry is reported on its line, and only there. */
  lemma {:induction false} ReportedIff(digest: Digest, entries: seq<Dict>, first: string, index: nat, k: nat, hash: string)
    requires k < |entries| && MustName(entries, first, k, hash)
    ensures ReportedAt(digest, entries, first, index, k, hash)
    decreases k
  {
    if k == 0 {
      FirstIsReported(digest, entries, first, index);
    } else {
      var next := CheckEntry(digest, entries[0], first, index + 1).1;
      MustNameTail(entries, first, k, hash, next);
      ReportedIff(digest, entries[1..], next, index + 1, k - 1, hash);
      StillReported(digest, entries, first, index, k, hash);
    }
  }

  /** The file is read without error and nothing is reported. */
  predicate Verifies(digest: Digest, lines: seq<Line>) {
    Verdict(digest, lines) == Some([])
  }

  // ---------------------------------------------------------------------
  // Appending

  /** Digests are never empty and never the genesis value. */
  ghost predicate NeverGenesis(digest: Digest) {
    forall e :: digest(e) != Genesis() && digest(e) != ""
  }

  lemma EntryNamesRequest(digest: Digest, r: Record, prevHash: string)
    ensures var e := NewEntry(digest, r, prevHash);
            Get(e, "caller") == Str(r.caller) && Get(e, "tool") == Str(r.tool)
  {
  }

  lemma EntryNamesOperation(digest: Digest, r: Record, prevHash: string)
    ensures var e := NewEntry(digest, r, prevHash);
            Get(e, "arguments") == r.arguments && Get(e, "yunohost_operation") == r.operation
  {
  }

  lemma EntryIsIdentified(digest: Digest, r: Record, prevHash: string)
    ensures var e := NewEntry(digest, r, prevHash);
            Get(e, "audit_id") == Str(r.auditId) && Get(e, "timestamp") == r.timestamp
  {
  }

  lemma EntryNamesDecision(digest: Digest, r: Record, prevHash: string)
    ensures var e := NewEntry(digest, r, prevHash);
            Get(e, "decision") == Str(r.decision) && Get(e, "approved_by") == r.approvedBy
  {
  }

  lemma EntryNamesResult(digest: Digest, r: Record, prevHash: string)
    ensures var e := NewEntry(digest, r, prevHash);
            Get(e, "result") == Str(r.result) && Get(e, "error") == r.error
  {
  }

  lemma EntryNamesRequestId(digest: Digest, r: Record, prevHash: string)
    ensures Get(NewEntry(digest, r, prevHash), "request_id")
            == if r.requestId.Some? then Str(r.requestId.value) else Null
  {
  }

  lemma EntryNamesContext(digest: Digest, r: Record, prevHash: string)
    ensures Get(NewEntry(digest, r, prevHash), "execution_context")
            == if r.context.Some? then Str(r.context.value) else Null
  {
  }

  /** The entry of a record holds each of its arguments under its name. */
  lemma EntryHolds(digest: Digest, r: Record, prevHash: string)
    ensures var e := NewEntry(digest, r, prevHash);
            && Get(e, "caller") == Str(r.caller) && Get(e, "tool") == Str(r.tool) && Get(e, "arguments") == r.arguments
            && Get(e, "audit_id") == Str(r.auditId) && Get(e, "timestamp") == r.timestamp
            && Get(e, "yunohost_operation") == r.operation
            && Get(e, "decision") == Str(r.decision) && Get(e, "approved_by") == r.approvedBy
            && Get(e, "result") == Str(r.result) && Get(e, "error") == r.error
            && Get(e, "request_id") == (if r.requestId.Some? then Str(r.requestId.value) else Null)
            && Get(e, "execution_context") == (if r.context.Some? then Str(r.context.value) else Null)
  {
    EntryNamesRequest(digest, r, prevHash);
    EntryNamesOperation(digest, r, prevHash);
    EntryIsIdentified(digest, r, prevHash);
    EntryNamesDecision(digest, r, prevHash);
    EntryNamesResult(digest, r, prevHash);
    EntryNamesRequestId(digest, r, prevHash);
    EntryNamesContext(digest, r, prevHash);
  }

  lemma NewEntryLinked(digest: Digest, r: Record, prevHash: string, expected: string)
    ensures Linked(digest, NewEntry(digest, r, prevHash), expected) <==> prevHash == expected
  {
    var payload := Payload(r, prevHash);
    var e := NewEntry(digest, r, prevHash);
    assert "entry_hash" !in payload;
    assert e - {"entry_hash"} == payload;
    assert Get(e, "prev_hash") == Str(prevHash);
  }

  lemma {:induction false} EntriesConcat(a: seq<Line>, b: seq<Line>)
    ensures Entries(a + b) == Entries(a) + Entries(b)
  {
    if a == [] {
      assert a + b == b;
    } else {
      EntriesConcat(a[1..], b);
      assert (a + b)[1..] == a[1..] + b && (a + b)[0] == a[0];
      var first := if IsEntry(a[0]) then [a[0].value.value.fields] else [];
      assert first + (Entries(a[1..]) + Entries(b)) == (first + Entries(a[1..])) + Entries(b);
    }
  }

  /** The lines in view are the last ones of the file. */
  lemma {:induction false} TailIsSuffix(lines: seq<Line>, window: nat) returns (dropped: nat)
    ensures dropped <= |lines| && Tail(lines, window) == lines[dropped..]
  {
    if lines == [] || SizeOf(lines) <= window {
      dropped := 0;
    } else {
      var d := TailIsSuffix(lines[1..], window);
      dropped := d + 1;
    }
  }

  /** In an intact chain the last entry in view has the last hash. */
  lemma LastHashOfIntact(digest: Digest, entries: seq<Dict>, first: string, dropped: nat)
    requires NeverGenesis(digest) && Intact(Chain(digest), entries, first) && dropped < |entries|
    ensures LastHash(entries[dropped..]) == Some(HashOf(digest, entries[|entries| - 1]))
  {
    var last := |entries| - 1;
    assert LinkedAt(Chain(digest), entries, first, last);
    assert Linked(digest, entries[last], Expected(Chain(digest), entries, first, last));
  }

  /** The entries in view are the last ones of the log. */
  lemma EntriesInView(lines: seq<Line>, window: nat) returns (hidden: nat)
    ensures hidden <= |Entries(lines)| && Entries(Tail(lines, window)) == Entries(lines)[hidden..]
    ensures Readable(lines) ==> Readable(Tail(lines, window))
  {
    var dropped := TailIsSuffix(lines, window);
    EntriesConcat(lines[..dropped], lines[dropped..]);
    assert lines == lines[..dropped] + lines[dropped..];
    hidden := |Entries(lines[..dropped])|;
  }

  /** A smaller window shows the last lines of a larger one. */
  lemma {:induction false} NarrowerWindow(lines: seq<Line>, narrow: nat, wide: nat)
    requires narrow <= wide
    ensures Tail(Tail(lines, wide), narrow) == Tail(lines, narrow)
  {
    if lines != [] && SizeOf(lines) > wide {
      NarrowerWindow(lines[1..], narrow, wide);
    }
  }

  /** After an append the window shows what fits beside the new line, and that line. */
  lemma {:induction false} TailSnoc(lines: seq<Line>, l: Line, window: nat)
    ensures Tail(lines + [l], window) == if l.size > window then [] else Tail(lines, window - l.size) + [l]
  {
    SizeOfSnoc(lines, l);
    if lines == [] {
      assert [] + [l] == [l] && [l][1..] == [];
    } else if SizeOf(lines + [l]) > window {
      assert (lines + [l])[1..] == lines[1..] + [l];
      TailSnoc(lines[1..], l, window);
    }
  }

  /** On readable lines the backward search finds the hash of the last entry that has one. */
  lemma {:induction false} LookBackFinds(lines: seq<Line>)
    requires Readable(lines)
    ensures LookBack(lines) == if LastHash(Entries(lines)).Some? then Found(LastHash(Entries(lines)).value) else Nothing
  {
    if lines != [] {
      var front, last := lines[..|lines| - 1], lines[|lines| - 1];
      assert lines == front + [last];
      LookBackFinds(front);
      EntriesSnoc(front, last);
      if IsEntry(last) {
        LastHashSnoc(Entries(front), last.value.value.fields);
      } else {
        assert Entries(lines) == Entries(front);
      }
    }
  }

  /** The predecessor hash found on a log that verifies: that of its last entry if one is near, and the genesis value
      otherwise. */
  lemma PrevHashOfVerifying(digest: Digest, lines: seq<Line>)
    requires NeverGenesis(digest) && Verifies(digest, lines)
    ensures var seen, near := ReadAll(lines), Entries(Near(lines));
            && (near != [] ==> seen != [])
            && PrevHash(lines) == Some(if near == [] then Genesis() else HashOf(digest, seen[|seen| - 1]))
  {
    var seen := ReadAll(lines);
    NarrowerWindow(lines, LOOK_BACK_BYTES, MAX_READ_BYTES);
    var hidden := EntriesInView(Visible(lines), LOOK_BACK_BYTES);
    LookBackFinds(Near(lines));
    NoProblemsIffIntact(digest, seen, Genesis(), 0);
    if hidden < |seen| {
      LastHashOfIntact(digest, seen, Genesis(), hidden);
    } else {
      assert seen[hidden..] == [];
    }
  }

  lemma LastHashSnoc(entries: seq<Dict>, e: Dict)
    ensures var hash := Get(e, "entry_hash");
            LastHash(entries + [e]) == if hash.Str? && hash.s != "" then Some(hash.s) else LastHash(entries)
  {
    assert (entries + [e])[..|entries|] == entries;
  }

  lemma EntriesSnoc(lines: seq<Line>, l: Line)
    ensures Entries(lines + [l]) == Entries(lines) + (if IsEntry(l) then [l.value.value.fields] else [])
    ensures SizeOf(lines + [l]) == SizeOf(lines) + l.size
  {
    EntriesConcat(lines, [l]);
    assert [l][1..] == [] && Entries([l]) == if IsEntry(l) then [l.value.value.fields] else [];
    SizeOfSnoc(lines, l);
  }

  /** When a chain that has lost its first elements and gained one at the end is intact. */
  lemma ShiftedIff(digest: Digest, seen: seq<Dict>, e: Dict, prev: string, hidden: nat)
    requires NeverGenesis(digest) && Intact(Chain(digest), seen, Genesis()) && hidden <= |seen| + 1
    requires forall expected :: Linked(digest, e, expected) <==> prev == expected
    ensures Intact(Chain(digest), (seen + [e])[hidden..], Genesis())
            <==> || hidden == |seen| + 1
                 || (hidden == 0 && prev == Expected(Chain(digest), seen, Genesis(), |seen|))
                 || (hidden == |seen| && prev == Genesis())
  {
    var chain := Chain(digest);
    if hidden == 0 {
      assert (seen + [e])[0..] == seen + [e];
      IntactSnoc(chain, seen, e, Genesis());
    } else if hidden == |seen| {
      assert (seen + [e])[hidden..] == [] + [e];
      IntactSnoc(chain, [], e, Genesis());
    } else if hidden < |seen| {
      var kept := (seen + [e])[hidden..];
      assert kept[0] == seen[hidden];
      assert LinkedAt(chain, seen, Genesis(), hidden);
      assert !LinkedAt(chain, kept, Genesis(), 0);
    }
  }

  /** The entries that stay in view when a line of the given size is appended. */
  function Staying(lines: seq<Line>, size: nat): seq<Dict> {
    if size > MAX_READ_BYTES then [] else Entries(Tail(lines, MAX_READ_BYTES - size))
  }

  /** The entries that stay are the last ones of those in view. */
  lemma StayingIsSuffix(lines: seq<Line>, size: nat) returns (hidden: nat)
    ensures hidden <= |ReadAll(lines)| && Staying(lines, size) == ReadAll(lines)[hidden..]
  {
    if size > MAX_READ_BYTES {
      hidden := |ReadAll(lines)|;
    } else {
      NarrowerWindow(lines, MAX_READ_BYTES - size, MAX_READ_BYTES);
      hidden := EntriesInView(Visible(lines), MAX_READ_BYTES - size);
    }
  }

  /** The view after a line with an entry is appended. */
  lemma ViewAfterAppend(lines: seq<Line>, l: Line, e: Dict)
    requires l.value == Some(Obj(e))
    ensures ReadAll(lines + [l]) == if l.size > MAX_READ_BYTES then [] else Staying(lines, l.size) + [e]
    ensures Readable(Visible(lines)) ==> Readable(Visible(lines + [l]))
  {
    TailSnoc(lines, l, MAX_READ_BYTES);
    if l.size <= MAX_READ_BYTES {
      EntriesSnoc(Tail(lines, MAX_READ_BYTES - l.size), l);
      NarrowerWindow(lines, MAX_READ_BYTES - l.size, MAX_READ_BYTES);
      var dropped := TailIsSuffix(Visible(lines), MAX_READ_BYTES - l.size);
    }
  }

  /** Which entries may stay in view before one that names the last hash found near. */
  lemma StayingIff(digest: Digest, seen: seq<Dict>, e: Dict, prev: string, near: bool, hidden: nat)
    requires NeverGenesis(digest) && Intact(Chain(digest), seen, Genesis()) && hidden <= |seen|
    requires forall expected :: Linked(digest, e, expected) <==> prev == expected
    requires near ==> seen != []
    requires prev == if near then HashOf(digest, seen[|seen| - 1]) else Genesis()
    ensures Intact(Chain(digest), seen[hidden..] + [e], Genesis())
            <==> (seen[hidden..] == seen && (seen == [] || near)) || (seen[hidden..] == [] && !near)
  {
    assert (seen + [e])[hidden..] == seen[hidden..] + [e];
    ShiftedIff(digest, seen, e, prev, hidden);
    assert seen[hidden..] == seen <==> hidden == 0;
    assert seen[hidden..] == [] <==> hidden == |seen|;
  }

  /** And whether it verifies, for an entry that carries its own digest and names `prev`. */
  lemma AppendVerifiesIff(digest: Digest, lines: seq<Line>, l: Line, e: Dict, prev: string)
    requires NeverGenesis(digest) && Verifies(digest, lines) && PrevHash(lines) == Some(prev)
    requires l.value == Some(Obj(e)) && forall expected :: Linked(digest, e, expected) <==> prev == expected
    ensures var seen, near, staying := ReadAll(lines), Entries(Near(lines)), Staying(lines, l.size);
            Verifies(digest, lines + [l])
            <==> || l.size > MAX_READ_BYTES
                 || (staying == seen && (seen == [] || near != []))
                 || (staying == [] && near == [])
  {
    var seen := ReadAll(lines);
    PrevHashOfVerifying(digest, lines);
    var hidden := StayingIsSuffix(lines, l.size);
    ViewAfterAppend(lines, l, e);
    NoProblemsIffIntact(digest, seen, Genesis(), 0);
    NoProblemsIffIntact(digest, ReadAll(lines + [l]), Genesis(), 0);
    StayingIff(digest, seen, e, prev, Entries(Near(lines)) != [], hidden);
  }

  /** Recording on a log that verifies keeps it verifying if and only if the new line does not fit the view at all, or
      beside it every entry stays in view and the log was empty or has an entry in the look-back window, or no entry stays
      in view and none was in that window. */
  lemma RecordKeepsVerifyingIff(format: Format, lines: seq<Line>, r: Record)
    requires NeverGenesis(format.digest) && Verifies(format.digest, lines)
    ensures PrevHash(lines).Some?
    ensures var size := NewLine(format, r, PrevHash(lines).value).size;
            var seen, near, staying := ReadAll(lines), Entries(Near(lines)), Staying(lines, size);
            Verifies(format.digest, Appended(format, lines, r))
            <==> || size > MAX_READ_BYTES
                 || (staying == seen && (seen == [] || near != []))
                 || (staying == [] && near == [])
  {
    var digest := format.digest;
    PrevHashOfVerifying(digest, lines);
    var prev := PrevHash(lines).value;
    var e := NewEntry(digest, r, prev);
    forall expected ensures Linked(digest, e, expected) <==> prev == expected {
      NewEntryLinked(digest, r, prev, expected);
    }
    AppendVerifiesIff(digest, lines, NewLine(format, r, prev), e, prev);
  }

  lemma {:induction false} SizeOfSnoc(lines: seq<Line>, l: Line)
    ensures SizeOf(lines + [l]) == SizeOf(lines) + l.size
  {
    if lines == [] {
      assert [l][1..] == [] && SizeOf([]) == 0;
      assert lines + [l] == [l];
    } else {
      SizeOfSnoc(lines[1..], l);
      assert (lines + [l])[1..] == lines[1..] + [l];
    }
  }

  /** The file after a sequence of records. */
  function AfterRecords(format: Format, lines: seq<Line>, records: seq<Record>): seq<Line>
    decreases |records|
  {
    if records == [] then lines
    else Appended(format, AfterRecords(format, lines, records[..|records| - 1]), records[|records| - 1])
  }

  /** Any run of records whose lines take at most 1 MiB each and 64 MiB together leaves a log that verifies. */
  lemma {:induction false} RecordedLogVerifies(format: Format, records: seq<Record>)
    requires NeverGenesis(format.digest) && SizeOf(AfterRecords(format, [], records)) <= MAX_READ_BYTES
    requires forall l :: l in AfterRecords(format, [], records) ==> l.size <= LOOK_BACK_BYTES
    ensures Verifies(format.digest, AfterRecords(format, [], records))
    ensures records != [] ==> Entries(Near(AfterRecords(format, [], records))) != []
    decreases |records|
  {
    if records != [] {
      var earlier, last := records[..|records| - 1], records[|records| - 1];
      var before := AfterRecords(format, [], earlier);
      NotShrinking(format, before, last);
      RecordedLogVerifies(format, earlier);
      RecordKeepsVerifyingIff(format, before, last);
      var l := NewLine(format, last, PrevHash(before).value);
      EntriesSnoc(before, l);
      LastLineInView(before + [l]);
    }
  }

  lemma NotShrinking(format: Format, lines: seq<Line>, r: Record)
    ensures SizeOf(lines) <= SizeOf(Appended(format, lines, r))
  {
    if PrevHash(lines).Some? {
      SizeOfSnoc(lines, NewLine(format, r, PrevHash(lines).value));
    }
  }

  /** A last line that fits the window is in view. */
  lemma {:induction false} LastLineInView(lines: seq<Line>)
    requires lines != [] && lines[|lines| - 1].size <= LOOK_BACK_BYTES && IsEntry(lines[|lines| - 1])
    ensures Entries(Near(lines)) != []
  {
    if SizeOf(lines) <= LOOK_BACK_BYTES {
      assert lines == lines[..|lines| - 1] + [lines[|lines| - 1]];
      EntriesSnoc(lines[..|lines| - 1], lines[|lines| - 1]);
    } else if |lines| > 1 {
      LastLineInView(lines[1..]);
    } else {
      assert lines[1..] == [] && SizeOf(lines[1..]) == 0;
    }
  }

  // ---------------------------------------------------------------------
  // Tamper evidence

  /** Two entries with one hash are the same entry. */
  lemma SameHashSameEntry(digest: Digest, a: Dict, b: Dict, expectedA: string, expectedB: string)
    requires Injective(digest) && Linked(digest, a, expectedA) && Linked(digest, b, expectedB)
    requires HashOf(digest, a) == HashOf(digest, b)
    ensures a == b && expectedA == expectedB
  {
    var x, y := a - {"entry_hash"}, b - {"entry_hash"};
    assert x == y;
    assert "entry_hash" in a && "entry_hash" in b;
    assert a == x["entry_hash" := a["entry_hash"]] && b == y["entry_hash" := b["entry_hash"]];
  }

  lemma ChainIsTight(digest: Digest)
    requires Injective(digest)
    ensures Tight(Chain(digest))
  {
    var chain := Chain(digest);
    forall x, y, p, q | chain.linked(x, p) && chain.linked(y, q) && chain.hash(x) == chain.hash(y)
      ensures x == y && p == q
    {
      SameHashSameEntry(digest, x, y, p, q);
    }
  }

  /** The last entry of a log that verifies carries its own digest. */
  lemma LastCarriesItsHash(digest: Digest, entries: seq<Dict>, first: string)
    requires Intact(Chain(digest), entries, first) && entries != []
    ensures Get(entries[|entries| - 1], "entry_hash") == Str(Chain(digest).hash(entries[|entries| - 1]))
  {
    assert LinkedAt(Chain(digest), entries, first, |entries| - 1);
  }

  /** Two logs that verify and end in the same hash are equal entry for entry. */
  lemma {:induction false} SameFinalHashSameLog(digest: Digest, a: seq<Dict>, b: seq<Dict>)
    requires Injective(digest) && NeverGenesis(digest)
    requires Problems(digest, a, Genesis(), 0) == [] && Problems(digest, b, Genesis(), 0) == []
    requires a != [] && b != [] && Get(a[|a| - 1], "entry_hash") == Get(b[|b| - 1], "entry_hash")
    ensures a == b
  {
    NoProblemsIffIntact(digest, a, Genesis(), 0);
    NoProblemsIffIntact(digest, b, Genesis(), 0);
    LastCarriesItsHash(digest, a, Genesis());
    LastCarriesItsHash(digest, b, Genesis());
    ChainIsTight(digest);
    SameEndSameChain(Chain(digest), a, b, Genesis());
  }

  /** Two logs that verify and end in one entry are equal entry for entry: any edit, swap, interior removal or insertion
      of entries is reported. */
  lemma {:induction false} SameLastEntryIff(digest: Digest, original: seq<Dict>, changed: seq<Dict>)
    requires Injective(digest) && NeverGenesis(digest) && Problems(digest, original, Genesis(), 0) == []
    requires original != [] && changed != [] && changed[|changed| - 1] == original[|original| - 1]
    ensures Problems(digest, changed, Genesis(), 0) == [] <==> changed == original
  {
    if Problems(digest, changed, Genesis(), 0) == [] {
      SameFinalHashSameLog(digest, original, changed);
    }
  }

  /** A file that is changed but keeps the last entry in view verifies if and only if it can be read and its entries in
      view are unchanged. What is not an entry is not covered. */
  lemma ChangedFileVerifiesIff(digest: Digest, lines: seq<Line>, changed: seq<Line>)
    requires Injective(digest) && NeverGenesis(digest) && Verifies(digest, lines)
    requires ReadAll(lines) != [] && ReadAll(changed) != []
    requires ReadAll(changed)[|ReadAll(changed)| - 1] == ReadAll(lines)[|ReadAll(lines)| - 1]
    ensures Verifies(digest, changed) <==> Readable(Visible(changed)) && ReadAll(changed) == ReadAll(lines)
  {
    SameLastEntryIff(digest, ReadAll(lines), ReadAll(changed));
  }

  /** A line that does not parse changes neither what can be read nor the entries. */
  lemma BlankLine(a: seq<Line>, blank: Line, b: seq<Line>)
    requires blank.value.None?
    ensures Entries(a + [blank] + b) == Entries(a + b) && SizeOf(a + [blank] + b) == SizeOf(a + b) + blank.size
    ensures Readable(a + b) ==> Readable(a + [blank] + b)
  {
    EntriesSnoc(a, blank);
    EntriesConcat(a + [blank], b);
    EntriesConcat(a, b);
    SizeOfConcat(a, b);
    SizeOfConcat(a + [blank], b);
    var longer := a + [blank] + b;
    forall j | 0 <= j < |longer| && longer[j].value.Some? && Readable(a + b) ensures IsEntry(longer[j]) {
      assert longer[j] == (a + b)[if j < |a| then j else j - 1];
    }
  }

  /** A line that does not parse can be inserted anywhere without being reported, within the read limit. */
  lemma {:induction false} InsertedLineIsNotReported(digest: Digest, front: seq<Line>, back: seq<Line>, size: nat)
    requires Verifies(digest, front + back) && SizeOf(front + back) + size <= MAX_READ_BYTES
    ensures Verifies(digest, front + [Line(None, size)] + back)
  {
    BlankLine(front, Line(None, size), back);
    SameVerdict(digest, front + back, front + [Line(None, size)] + back);
  }

  lemma SameVerdict(digest: Digest, lines: seq<Line>, changed: seq<Line>)
    requires SizeOf(lines) <= MAX_READ_BYTES && SizeOf(changed) <= MAX_READ_BYTES
    requires Entries(changed) == Entries(lines) && (Readable(lines) ==> Readable(changed))
    ensures Verifies(digest, lines) ==> Verifies(digest, changed)
  {
  }

  lemma {:induction false} SizeOfConcat(a: seq<Line>, b: seq<Line>)
    ensures SizeOf(a + b) == SizeOf(a) + SizeOf(b)
  {
    if a == [] {
      assert a + b == b;
    } else {
      SizeOfConcat(a[1..], b);
      assert (a + b)[1..] == a[1..] + b;
    }
  }

  /** Dropping entries from the end is not reported. */
  lemma {:induction false} TruncationIsNotReported(digest: Digest, entries: seq<Dict>, kept: nat)
    requires Problems(digest, entries, Genesis(), 0) == [] && kept <= |entries|
    ensures Problems(digest, entries[..kept], Genesis(), 0) == []
  {
    NoProblemsIffIntact(digest, entries, Genesis(), 0);
    NoProblemsIffIntact(digest, entries[..kept], Genesis(), 0);
    IntactPrefix(Chain(digest), entries, Genesis(), kept);
  }

  /** Dropping entries from the front is reported, unless everything is dropped. */
  lemma HeadRemovalIsReportedIff(digest: Digest, entries: seq<Dict>, dropped: nat)
    requires NeverGenesis(digest) && Problems(digest, entries, Genesis(), 0) == [] && 0 < dropped <= |entries|
    ensures Problems(digest, entries[dropped..], Genesis(), 0) == [] <==> dropped == |entries|
  {
    NoProblemsIffIntact(digest, entries, Genesis(), 0);
    NoProblemsIffIntact(digest, entries[dropped..], Genesis(), 0);
    ProperSuffixIsBroken(Chain(digest), entries, Genesis(), dropped);
  }

  /** A readable file whose entries form an intact chain verifies exactly when none of them, or all of them, are cut off
      by the read limit: a file that has outgrown the limit is reported although nothing was changed. */
  lemma IntactLogVerifiesIff(digest: Digest, lines: seq<Line>)
    requires NeverGenesis(digest) && Problems(digest, Entries(lines), Genesis(), 0) == [] && Readable(lines)
    ensures Verifies(digest, lines) <==> ReadAll(lines) == Entries(lines) || ReadAll(lines) == []
  {
    var entries := Entries(lines);
    var hidden := EntriesInView(lines, MAX_READ_BYTES);
    if hidden > 0 {
      HeadRemovalIsReportedIff(digest, entries, hidden);
    } else {
      assert entries[0..] == entries;
    }
  }
}
