/** Events, their kinds, subscription filters, and the direct meaning of a filter. */
module Events {
  import opened Hex
  import opened Wrappers

  type Tag = seq<string>

  datatype Event = Event(
    id: string,
    pubkey: string,
    createdAt: nat,
    kind: nat,
    tags: seq<Tag>,
    content: string,
    sig: string)

  predicate IsHexOf(s: string, length: nat) {
    |s| == length && IsLowerHex(s)
  }

  /** What the event schema enforces. */
  predicate ValidEvent(e: Event) {
    IsHexOf(e.id, 64) && IsHexOf(e.pubkey, 64) && IsHexOf(e.sig, 128)
  }

  // ---- kinds ----------------------------------------------------------------------------

  const SET_METADATA: nat := 0
  const CONTACT_LIST: nat := 3
  const DELETE: nat := 5
  const CHANNEL_METADATA: nat := 41
  const REPLACEABLE_FIRST: nat := 10000
  const REPLACEABLE_LAST: nat := 19999
  const EPHEMERAL_FIRST: nat := 20000
  const EPHEMERAL_LAST: nat := 29999
  const PARAMETERIZED_REPLACEABLE_FIRST: nat := 30000
  const PARAMETERIZED_REPLACEABLE_LAST: nat := 39999

  predicate IsReplaceable(kind: nat) {
    || kind == SET_METADATA || kind == CONTACT_LIST || kind == CHANNEL_METADATA
    || REPLACEABLE_FIRST <= kind <= REPLACEABLE_LAST
  }

  predicate IsEphemeral(kind: nat) {
    EPHEMERAL_FIRST <= kind <= EPHEMERAL_LAST
  }

  predicate IsParameterizedReplaceable(kind: nat) {
    PARAMETERIZED_REPLACEABLE_FIRST <= kind <= PARAMETERIZED_REPLACEABLE_LAST
  }

  predicate IsDelete(kind: nat) {
    kind == DELETE
  }

  // ---- filters --------------------------------------------------------------------------

  /** One generic tag query "#x": [values]. */
  datatype TagCriteria = TagCriteria(name: char, values: seq<string>)

  /** The tag queries are listed in the order of the object's keys. */
  datatype Filter = Filter(
    ids: Option<seq<string>>,
    authors: Option<seq<string>>,
    kinds: Option<seq<nat>>,
    since: Option<nat>,
    until: Option<nat>,
    limit: Option<nat>,
    tags: seq<TagCriteria>)

  predicate HexPrefixes(prefixes: Option<seq<string>>) {
    prefixes.Some? ==> forall p :: p in prefixes.value ==> IsLowerHex(p)
  }

  predicate IsLetter(c: char) {
    'a' <= c <= 'z' || 'A' <= c <= 'Z'
  }

  lemma LettersExactly(c: char)
    ensures IsLetter(c) <==> 0x41 <= c as int <= 0x5A || 0x61 <= c as int <= 0x7A
  {
  }

  /** What the filter schema enforces of prefixes and keys, and what being an object enforces of keys. */
  predicate ValidFilter(f: Filter) {
    && HexPrefixes(f.ids) && HexPrefixes(f.authors)
    && (forall c :: c in f.tags ==> IsLetter(c.name))
    && (forall i, j :: 0 <= i < j < |f.tags| ==> f.tags[i].name != f.tags[j].name)
  }

  predicate SomePrefix(prefixes: Option<seq<string>>, s: string) {
    prefixes.Some? ==> exists p :: p in prefixes.value && p <= s
  }

  predicate HasTag(tags: seq<Tag>, criteria: TagCriteria) {
    exists t :: t in tags && |t| > 1 && t[0] == [criteria.name] && t[1] in criteria.values
  }

  predicate IsEventMatchingFilter(f: Filter, e: Event) {
    && SomePrefix(f.ids, e.id)
    && (f.kinds.Some? ==> e.kind in f.kinds.value)
    && (f.since.Some? ==> f.since.value <= e.createdAt)
    && (f.until.Some? ==> e.createdAt <= f.until.value)
    && SomePrefix(f.authors, e.pubkey)
    && forall c :: c in f.tags ==> HasTag(e.tags, c)
  }

  /** Some filter of a subscription matches. */
  predicate MatchesAny(filters: seq<Filter>, e: Event) {
    exists f :: f in filters && IsEventMatchingFilter(f, e)
  }

  // ---- rows of the events table ---------------------------------------------------------

  /** The JSON value stored in event_deduplication. */
  datatype Deduplication = PubkeyAndKind(pubkey: string, kind: nat) | TagValues(values: seq<string>)

  datatype Row = Row(
    eventId: Bytes,
    eventPubkey: Bytes,
    eventCreatedAt: nat,
    eventKind: nat,
    eventTags: seq<Tag>,
    eventContent: string,
    eventSignature: Bytes,
    eventDeduplication: Option<Deduplication>,
    deleted: bool)

  function RowOf(e: Event, deduplication: Option<Deduplication>): Row {
    Row(ToBuffer(e.id), ToBuffer(e.pubkey), e.createdAt, e.kind, e.tags, e.content, ToBuffer(e.sig),
        deduplication, false)
  }

  function ToNostrEvent(r: Row): Event {
    Event(FromBuffer(r.eventId), FromBuffer(r.eventPubkey), r.eventCreatedAt, r.eventKind, r.eventTags, r.eventContent,
          FromBuffer(r.eventSignature))
  }

  /** Storing an event and reading it back gives the event. */
  lemma RowRoundTrip(e: Event, deduplication: Option<Deduplication>)
    requires ValidEvent(e)
    ensures ToNostrEvent(RowOf(e, deduplication)) == e
  {
    HexRoundTrip(e.id);
    HexRoundTrip(e.pubkey);
    HexRoundTrip(e.sig);
  }
}
