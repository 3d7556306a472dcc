/**
 The deterministic CBOR extension header: its values, its limits and the bytes
 it stands for.  Item heads follow section 3 of RFC 8949, the restrictions
 section 4.2.1 of RFC 8949.
 */
module CborFormat {
  import opened Common
  import opened LexOrder
  import opened Utf8

  const KEY_INITIAL_NOT_BEFORE := 1
  const KEY_CONTENT_TYPE := 2
  const KEY_METADATA := 3
  const KEY_PRODUCER_ID := 4
  const KEY_TRACE_CONTEXT := 5

  const MAX_EXTENSION_SIZE := 65536
  const MAX_METADATA_ENTRIES := 256
  const MAX_TEXT_VALUE := 4096
  const MAX_BYTES_VALUE := 4096
  const MAX_CONTENT_TYPE_LEN := 255
  const MAX_PRODUCER_ID_LEN := 255
  const MAX_TRACE_CONTEXT_LEN := 1024
  const MAX_METADATA_KEY_LEN := 64

  // ---------- Header values ----------

  datatype MetadataValue =
    | Bool(flag: bool)
    | I64(signed: i64)
    | U64(unsigned: u64)
    | TextValue(text: Text)
    | BytesValue(bytes: seq<byte>)

  datatype ExtensionHeader = ExtensionHeader(
    initialNotBefore: Option<u64>,
    contentType: Text,
    metadata: map<Text, MetadataValue>,
    producerId: Option<Text>,
    traceContext: Option<seq<byte>>)

  const EMPTY_HEADER := ExtensionHeader(None, [], map[], None, None)

  datatype KeyFault = Malformed | NonString | Duplicate | OutOfOrder

  datatype CborError =
    | TooLarge
    | TooManyEntries
    | ContentTypeTooLong
    | ProducerIdTooLong
    | TraceContextTooLong
    | TextTooLong
    | BytesTooLong
    | InvalidKey(fault: KeyFault)
    | InvalidContentType
    | ProducerIdNul
    | Truncated
    | InvalidMajorType(major: nat)
    | InvalidSimpleValue(simple: nat)
    | UnexpectedTag(tag: nat)
    | IndefiniteLength
    | FloatNotAllowed
    | NullNotAllowed
    | UndefinedNotAllowed
    | NestingTooDeep
    | UnknownKey(key: nat)
    | DuplicateKey(key: nat)
    | MissingContentType
    | InvalidUtf8
    | TrailingBytes
    | IntOverflow

  // ---------- Field limits ----------

  predicate LowerOrDigit(b: byte) {
    0x61 <= b <= 0x7A || 0x30 <= b <= 0x39
  }

  predicate KeyByte(b: byte) {
    LowerOrDigit(b) || b == 0x2E || b == 0x5F || b == 0x2D
  }

  predicate ValidMetadataKey(k: seq<byte>) {
    && 1 <= |k| <= MAX_METADATA_KEY_LEN
    && LowerOrDigit(k[0])
    && forall i :: 1 <= i < |k| ==> KeyByte(k[i])
  }

  predicate PrintableAscii(s: seq<byte>) {
    forall i :: 0 <= i < |s| ==> 0x20 <= s[i] <= 0x7E
  }

  predicate ValidContentType(s: seq<byte>) {
    1 <= |s| <= MAX_CONTENT_TYPE_LEN && PrintableAscii(s)
  }

  predicate ValidMetadataValue(v: MetadataValue) {
    && (v.TextValue? ==> |v.text| <= MAX_TEXT_VALUE)
    && (v.BytesValue? ==> |v.bytes| <= MAX_BYTES_VALUE)
  }

  predicate ValidMetadata(m: map<Text, MetadataValue>) {
    && |m| <= MAX_METADATA_ENTRIES
    && forall k <- m :: ValidMetadataKey(k) && ValidMetadataValue(m[k])
  }

  predicate ValidProducerId(p: Option<Text>) {
    p.Some? ==> |p.value| <= MAX_PRODUCER_ID_LEN && 0 !in p.value
  }

  predicate ValidTraceContext(t: Option<seq<byte>>) {
    t.Some? ==> |t.value| <= MAX_TRACE_CONTEXT_LEN
  }

  predicate ValidHeader(h: ExtensionHeader) {
    && ValidContentType(h.contentType)
    && ValidMetadata(h.metadata)
    && ValidProducerId(h.producerId)
    && ValidTraceContext(h.traceContext)
  }

  // ---------- Bytes ----------

  /** Head of an item: major type and the shortest form of `value`. */
  function Head(major: nat, value: nat): (s: seq<byte>)
    requires major < 8
    ensures 1 <= |s| <= 9
  {
    if value < 24 then [major * 32 + value]
    else if value < 256 then [major * 32 + 24, value]
    else if value < 65536 then [major * 32 + 25] + ToBe(value, 2)
    else if value < U32_LIMIT then [major * 32 + 26] + ToBe(value, 4)
    else [major * 32 + 27] + ToBe(value, 8)
  }

  function TextBytes(s: seq<byte>): seq<byte> {
    Head(3, |s|) + s
  }

  function ByteStringBytes(b: seq<byte>): seq<byte> {
    Head(2, |b|) + b
  }

  function ValueBytes(v: MetadataValue): seq<byte> {
    match v
    case Bool(b) => [if b then 0xF5 else 0xF4]
    case U64(n) => Head(0, n)
    case I64(n) => if n >= 0 then Head(0, n) else Head(1, -1 - n)
    case TextValue(s) => TextBytes(s)
    case BytesValue(b) => ByteStringBytes(b)
  }

  /** Metadata keys are ordered by their encoded bytes, not as strings. */
  predicate KeyBelow(a: Text, b: Text) {
    BytesBelow(TextBytes(a), TextBytes(b))
  }

  function EntriesBytes(keys: seq<Text>, m: map<Text, MetadataValue>): seq<byte>
    requires forall k <- keys :: k in m
  {
    if keys == [] then []
    else TextBytes(keys[0]) + ValueBytes(m[keys[0]]) + EntriesBytes(keys[1..], m)
  }

  // ---------- Key order ----------

  /** The first byte of a head holds its major type. */
  lemma HeadStart(major: nat, a: nat)
    requires major < 8 && a < U64_LIMIT
    ensures Head(major, a)[0] / 32 == major
  {
  }

  /** Two heads start the same bytes only for one major type and one value. */
  lemma HeadInjective(m: nat, a: nat, n: nat, b: nat, x: seq<byte>, y: seq<byte>)
    requires m < 8 && n < 8 && a < U64_LIMIT && b < U64_LIMIT
    requires Head(m, a) + x == Head(n, b) + y
    ensures m == n && a == b && x == y
  {
    assert (Head(m, a) + x)[0] == Head(m, a)[0] && (Head(n, b) + y)[0] == Head(n, b)[0];
    HeadStart(m, a);
    HeadStart(n, b);
    ValueInjective(m, a, b, x, y);
  }

  lemma ValueInjective(major: nat, a: nat, b: nat, x: seq<byte>, y: seq<byte>)
    requires major < 8 && a < U64_LIMIT && b < U64_LIMIT
    requires Head(major, a) + x == Head(major, b) + y
    ensures a == b && x == y
  {
    var s := Head(major, a) + x;
    assert s[0] == Head(major, a)[0] == Head(major, b)[0];
    Pow256Values();
    if 256 <= a < 65536 {
      assert s[1..3] == ToBe(a, 2) == ToBe(b, 2);
      FromToBe(a, 2); FromToBe(b, 2);
    } else if 65536 <= a < U32_LIMIT {
      assert s[1..5] == ToBe(a, 4) == ToBe(b, 4);
      FromToBe(a, 4); FromToBe(b, 4);
    } else if U32_LIMIT <= a {
      assert s[1..9] == ToBe(a, 8) == ToBe(b, 8);
      FromToBe(a, 8); FromToBe(b, 8);
    } else if 24 <= a < 256 {
      assert s[1] == a;
      assert s[1] == b;
    }
    assert x == s[|Head(major, a)|..] == y;
  }

  lemma KeyBelowIsStrict()
    ensures StrictOrder(KeyBelow)
  {
    BytesBelowIsTotal();
  }

  lemma KeyBelowTotal(a: Text, b: Text)
    requires |a| < U64_LIMIT && |b| < U64_LIMIT
    ensures a == b || KeyBelow(a, b) || KeyBelow(b, a)
  {
    BytesBelowIsTotal();
    if TextBytes(a) == TextBytes(b) {
      HeadInjective(3, |a|, 3, |b|, a, b);
    }
  }

  ghost predicate ShortKeys(s: set<Text>) {
    forall k <- s :: |k| < U64_LIMIT
  }

  ghost predicate IsLeastKey(k: Text, s: set<Text>) {
    k in s && forall j <- s :: j == k || KeyBelow(k, j)
  }

  lemma {:induction false} LeastKeyExists(s: set<Text>)
    requires s != {} && ShortKeys(s)
    ensures exists k :: IsLeastKey(k, s)
  {
    var k: Text :| k in s;
    if s == {k} {
      assert IsLeastKey(k, s);
    } else {
      LeastKeyExists(s - {k});
      var m :| IsLeastKey(m, s - {k});
      KeyBelowIsStrict();
      KeyBelowTotal(k, m);
      var least := if KeyBelow(m, k) then m else k;
      forall j | j in s ensures j == least || KeyBelow(least, j) {
        assert j == k || j in s - {k};
      }
      assert IsLeastKey(least, s);
    }
  }

  /** The keys of `s` in ascending order of their encoded bytes. */
  ghost function SortedKeys(s: set<Text>): (r: seq<Text>)
    requires ShortKeys(s)
    ensures forall k :: k in r <==> k in s
    decreases |s|
  {
    if s == {} then []
    else
      LeastKeyExists(s);
      var k :| IsLeastKey(k, s);
      [k] + SortedKeys(s - {k})
  }

  lemma {:induction false} SortedKeysAscend(s: set<Text>)
    requires ShortKeys(s)
    ensures Sorted(KeyBelow, SortedKeys(s))
    ensures |SortedKeys(s)| == |s|
    decreases |s|
  {
    if s != {} {
      var r := SortedKeys(s);
      var k := r[0];
      assert IsLeastKey(k, s) && r[1..] == SortedKeys(s - {k});
      SortedKeysAscend(s - {k});
      forall i, j | 0 <= i < j < |r| ensures KeyBelow(r[i], r[j]) {
        if i == 0 {
          assert r[j] in r[1..];
        } else {
          assert r[i] == r[1..][i - 1] && r[j] == r[1..][j - 1];
        }
      }
    }
  }

  /** Any strictly ascending arrangement of `s` is the sorted one. */
  lemma SortedKeysUnique(s: set<Text>, r: seq<Text>)
    requires ShortKeys(s)
    requires Sorted(KeyBelow, r)
    requires forall k :: k in r <==> k in s
    ensures r == SortedKeys(s)
  {
    KeyBelowIsStrict();
    SortedKeysAscend(s);
    SortedUnique(KeyBelow, r, SortedKeys(s));
  }

  // ---------- The whole header ----------

  function Flag(b: bool): nat { if b then 1 else 0 }

  function EntryCount(h: ExtensionHeader): nat {
    1 + Flag(h.initialNotBefore.Some?) + Flag(h.metadata != map[])
      + Flag(h.producerId.Some?) + Flag(h.traceContext.Some?)
  }

  function NotBeforeBytes(h: ExtensionHeader): seq<byte> {
    if h.initialNotBefore.None? then []
    else Head(0, KEY_INITIAL_NOT_BEFORE) + Head(0, h.initialNotBefore.value)
  }

  function ContentTypeBytes(h: ExtensionHeader): seq<byte> {
    Head(0, KEY_CONTENT_TYPE) + TextBytes(h.contentType)
  }

  ghost function MetadataBytes(h: ExtensionHeader): seq<byte>
    requires ShortKeys(h.metadata.Keys)
  {
    if h.metadata == map[] then []
    else
      Head(0, KEY_METADATA) + Head(5, |h.metadata|)
      + EntriesBytes(SortedKeys(h.metadata.Keys), h.metadata)
  }

  function ProducerIdBytes(h: ExtensionHeader): seq<byte> {
    if h.producerId.None? then []
    else Head(0, KEY_PRODUCER_ID) + TextBytes(h.producerId.value)
  }

  function TraceContextBytes(h: ExtensionHeader): seq<byte> {
    if h.traceContext.None? then []
    else Head(0, KEY_TRACE_CONTEXT) + ByteStringBytes(h.traceContext.value)
  }

  /** The deterministic encoding of `h`. */
  ghost function HeaderBytes(h: ExtensionHeader): seq<byte>
    requires ShortKeys(h.metadata.Keys)
  {
    Head(5, EntryCount(h)) + NotBeforeBytes(h) + ContentTypeBytes(h)
    + MetadataBytes(h) + ProducerIdBytes(h) + TraceContextBytes(h)
  }
}
