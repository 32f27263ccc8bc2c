/** NIP-01 events, their identifiers and their signatures (auth/nostr.py). */
module Nostr {
  import opened Prelude

  datatype NostrEvent = NostrEvent(
    id: string,
    pubkey: string,
    createdAt: int,
    kind: int,
    tags: seq<seq<string>>,
    content: string,
    sig: string)

  /** What the event identifier is computed over. */
  datatype EventBody = EventBody(pubkey: string, createdAt: int, kind: int, tags: seq<seq<string>>, content: string)

  function BodyOf(e: NostrEvent): EventBody {
    EventBody(e.pubkey, e.createdAt, e.kind, e.tags, e.content)
  }

  /** The first value of the first tag called `name`. */
  function Tag(tags: seq<seq<string>>, name: string): Option<string> {
    if tags == [] then None
    else if |tags[0]| >= 2 && tags[0][0] == name then Some(tags[0][1])
    else Tag(tags[1..], name)
  }

  /** The identifier digest and the Schnorr check, as supplied by the crypto library. */
  datatype Scheme = Scheme(digest: EventBody -> string, signed: (string, string, string) -> bool)

  predicate Verifies(scheme: Scheme, e: NostrEvent) {
    e.id == scheme.digest(BodyOf(e)) && scheme.signed(e.pubkey, e.id, e.sig)
  }

  /** Two accepted events that share an identifier agree on everything it covers. */
  lemma IdBindsBody(scheme: Scheme, a: NostrEvent, b: NostrEvent)
    requires Injective(scheme.digest)
    requires Verifies(scheme, a) && Verifies(scheme, b) && a.id == b.id
    ensures BodyOf(a) == BodyOf(b)
  {
  }
}
