/** Control Plane rumors as `decode_control_wrap` returns them, and the library functions that parse
    them (concord_control.py). */
module ControlEvents {
  import opened Prelude
  import EditionHash

  const CONTROL_KIND := 3308

  datatype ControlEvent = ControlEvent(id: string, pubkey: string, kind: int, tags: seq<seq<string>>, content: seq<Byte>)

  /** `loads` is the JSON parser, `parseInt` is `int(text, 10)`, `digits` is `isdigit` followed by `int`,
      `showInt` is `str`, `utf8Length` the encoded length of a string. */
  datatype Library = Library(
    loads: seq<Byte> -> Option<Json>,
    parseInt: string -> Option<int>,
    digits: string -> Option<nat>,
    showInt: int -> string,
    utf8Length: string -> nat,
    sha: EditionHash.Sha256)

  /** Rumor identifiers are digests of the rumor. */
  ghost predicate UniqueEventIds(events: seq<ControlEvent>) {
    forall a, b :: a in events && b in events && a.id == b.id ==> a == b
  }
}
