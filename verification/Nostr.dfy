/** Events, subscription filters, and the matcher that decides which live events a filter selects. */
module Nostr {
  import opened Wrappers
  import opened Hex

  type Tag = seq<string>

  datatype Event = Event(
    id: string, pubkey: string, createdAt: int, kind: int, tags: seq<Tag>, content: string, sig: string)

  /** What the event schema guarantees of every accepted event. */
  predicate ValidEvent(e: Event) {
    && IsLowerHex(e.id) && |e.id| == 64
    && IsLowerHex(e.pubkey) && |e.pubkey| == 64
    && IsLowerHex(e.sig) && |e.sig| == 128
  }

  /**
   A subscription filter.  `tags` holds the generic tag queries: `#e` is the key 'e'.  A JavaScript
   object has no duplicate keys and its key order has no meaning, hence a map.
   */
  datatype Filter = Filter(
    ids: Option<seq<string>>, authors: Option<seq<string>>, kinds: Option<seq<int>>,
    since: Option<int>, until: Option<int>, limit: Option<nat>, tags: map<char, seq<string>>)

  predicate ValidPrefix(p: string) {
    IsLowerHex(p) && 4 <= |p| <= 64
  }

  /** What the filter schema guarantees of every filter in a REQ. */
  predicate ValidFilter(f: Filter) {
    && (f.ids.Some? ==> forall p | p in f.ids.value :: ValidPrefix(p))
    && (f.authors.Some? ==> forall p | p in f.authors.value :: ValidPrefix(p))
    && (forall k | k in f.tags :: 'a' <= k <= 'z' && "" !in f.tags[k])
  }

  predicate SomePrefix(prefixes: seq<string>, text: string) {
    exists p | p in prefixes :: p <= text
  }

  predicate TagMatches(t: Tag, key: char, criteria: seq<string>) {
    |t| >= 2 && t[0] == [key] && t[1] in criteria
  }

  predicate SomeTag(tags: seq<Tag>, key: char, criteria: seq<string>) {
    exists t | t in tags :: TagMatches(t, key, criteria)
  }

  /** isEventMatchingFilter */
  predicate Matches(f: Filter, e: Event) {
    && (f.ids.Some? ==> SomePrefix(f.ids.value, e.id))
    && (f.kinds.Some? ==> e.kind in f.kinds.value)
    && (f.since.Some? ==> e.createdAt >= f.since.value)
    && (f.until.Some? ==> e.createdAt <= f.until.value)
    && (f.authors.Some? ==> SomePrefix(f.authors.value, e.pubkey))
    && (forall k | k in f.tags :: SomeTag(e.tags, k, f.tags[k]))
  }

  predicate MatchesAny(filters: seq<Filter>, e: Event) {
    exists f | f in filters :: Matches(f, e)
  }

  // ----- kinds -----

  const DELETE := 5
  const CHANNEL_METADATA := 41
  const AUTH := 22242

  predicate IsReplaceable(kind: int) {
    kind == 0 || kind == 3 || kind == CHANNEL_METADATA || 10000 <= kind <= 19999
  }

  predicate IsEphemeral(kind: int) {
    20000 <= kind <= 29999
  }

  predicate IsParameterizedReplaceable(kind: int) {
    30000 <= kind <= 39999
  }
}
