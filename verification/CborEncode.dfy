/** The validator and the encoder of the extension header. */
module CborEncode {
  import opened Common
  import opened LexOrder
  import opened Utf8
  import opened CborFormat

  // ---------- Which fault a check reports ----------

  function ContentTypeFault(s: seq<byte>): Option<CborError> {
    if s == [] || |s| > MAX_CONTENT_TYPE_LEN then Some(ContentTypeTooLong)
    else if PrintableAscii(s) then None
    else Some(InvalidContentType)
  }

  function MetadataEntryFault(k: seq<byte>, v: MetadataValue): Option<CborError> {
    if !ValidMetadataKey(k) then Some(InvalidKey(Malformed))
    else if ValidMetadataValue(v) then None
    else if v.TextValue? then Some(TextTooLong)
    else Some(BytesTooLong)
  }

  function ProducerIdFault(p: Option<Text>): Option<CborError> {
    if p.Some? && |p.value| > MAX_PRODUCER_ID_LEN then Some(ProducerIdTooLong)
    else if p.Some? && 0 in p.value then Some(ProducerIdNul)
    else None
  }

  /**
   `e` is the fault `validate` reports for `h`: that of the earliest failing check, and
   within the metadata map that of the faulty entry with the least key.
   */
  ghost predicate ReportsFault(h: ExtensionHeader, e: CborError) {
    if !ValidContentType(h.contentType) then
      ContentTypeFault(h.contentType) == Some(e)
    else if |h.metadata| > MAX_METADATA_ENTRIES then
      e == TooManyEntries
    else if !ValidMetadata(h.metadata) then
      exists k <- h.metadata :: ReportsEntry(h.metadata, k, e)
    else if !ValidProducerId(h.producerId) then
      ProducerIdFault(h.producerId) == Some(e)
    else
      !ValidTraceContext(h.traceContext) && e == TraceContextTooLong
  }

  ghost predicate ReportsEntry(m: map<Text, MetadataValue>, k: Text, e: CborError)
    requires k in m
  {
    MetadataEntryFault(k, m[k]) == Some(e) && forall j <- m :: BytesBelow(j, k) ==> MetadataEntryFault(j, m[j]).None?
  }

  /** Exactly one fault is reported. */
  lemma OneFault(h: ExtensionHeader, d: CborError, e: CborError)
    requires ReportsFault(h, d) && ReportsFault(h, e)
    ensures d == e
  {
    if ValidContentType(h.contentType) && |h.metadata| <= MAX_METADATA_ENTRIES && !ValidMetadata(h.metadata) {
      var j :| j in h.metadata && ReportsEntry(h.metadata, j, d);
      var k :| k in h.metadata && ReportsEntry(h.metadata, k, e);
      OneEntry(h.metadata, j, k, d, e);
    }
  }

  lemma OneEntry(m: map<Text, MetadataValue>, j: Text, k: Text, d: CborError, e: CborError)
    requires j in m && k in m && ReportsEntry(m, j, d) && ReportsEntry(m, k, e)
    ensures d == e
  {
    assert StrictTotalOrder(ByteBelow);
    BelowTotal(ByteBelow, j, k);
  }

  lemma {:induction false} LeastExists(s: set<Text>) returns (k: Text)
    requires s != {}
    ensures k in s && forall j <- s :: j == k || BytesBelow(k, j)
    decreases |s|
  {
    k :| k in s;
    var rest := s - {k};
    if rest != {} {
      var j := LeastExists(rest);
      BytesBelowIsTotal();
      if BytesBelow(j, k) { k := j; }
    }
  }

  method ValidateMetadataKey(key: seq<byte>) returns (r: Result<(), CborError>)
    ensures r == if ValidMetadataKey(key) then Ok(()) else Err(InvalidKey(Malformed))
  {
    if |key| == 0 || |key| > MAX_METADATA_KEY_LEN {
      return Err(InvalidKey(Malformed));
    }
    if !LowerOrDigit(key[0]) {
      return Err(InvalidKey(Malformed));
    }
    for i := 1 to |key|
      invariant forall j :: 1 <= j < i ==> KeyByte(key[j])
    {
      if !LowerOrDigit(key[i]) && key[i] != 0x2E && key[i] != 0x5F && key[i] != 0x2D {
        return Err(InvalidKey(Malformed));
      }
    }
    return Ok(());
  }

  method ValidateContentType(s: seq<byte>) returns (r: Result<(), CborError>)
    ensures r.Ok? <==> ValidContentType(s)
    ensures r.Err? ==> ContentTypeFault(s) == Some(r.error)
  {
    if |s| == 0 || |s| > MAX_CONTENT_TYPE_LEN {
      return Err(ContentTypeTooLong);
    }
    for i := 0 to |s|
      invariant forall j :: 0 <= j < i ==> 0x20 <= s[j] <= 0x7E
    {
      if !(0x20 <= s[i] <= 0x7E) {
        return Err(InvalidContentType);
      }
    }
    return Ok(());
  }

  method ValidateEntry(k: Text, v: MetadataValue) returns (r: Result<(), CborError>)
    ensures match MetadataEntryFault(k, v) case None => r == Ok(()) case Some(e) => r == Err(e)
  {
    var key := ValidateMetadataKey(k);
    if key.Err? { return key; }
    match v {
      case TextValue(s) => if |s| > MAX_TEXT_VALUE { return Err(TextTooLong); }
      case BytesValue(b) => if |b| > MAX_BYTES_VALUE { return Err(BytesTooLong); }
      case _ =>
    }
    return Ok(());
  }

  /** The map is walked in the order of its keys. */
  method ValidateMetadata(m: map<Text, MetadataValue>) returns (r: Result<(), CborError>)
    ensures r.Ok? ==> forall k <- m :: MetadataEntryFault(k, m[k]).None?
    ensures r.Err? ==> exists k <- m :: ReportsEntry(m, k, r.error)
  {
    var rest := m.Keys;
    while rest != {}
      invariant rest <= m.Keys
      invariant forall k <- m.Keys - rest :: MetadataEntryFault(k, m[k]).None?
      decreases |rest|
    {
      ghost var least := LeastExists(rest);
      var k: Text :| k in rest && forall j <- rest :: j == k || BytesBelow(k, j);
      var entry := ValidateEntry(k, m[k]);
      if entry.Err? {
        BytesBelowIsTotal();
        assert ReportsEntry(m, k, entry.error);
        return entry;
      }
      rest := rest - {k};
    }
    return Ok(());
  }

  method Validate(h: ExtensionHeader) returns (r: Result<(), CborError>)
    ensures r.Ok? <==> ValidHeader(h)
    ensures r.Err? ==> ReportsFault(h, r.error)
  {
    var contentType := ValidateContentType(h.contentType);
    if contentType.Err? { return contentType; }
    if |h.metadata| > MAX_METADATA_ENTRIES {
      return Err(TooManyEntries);
    }
    var metadata := ValidateMetadata(h.metadata);
    if metadata.Err? { return metadata; }
    if h.producerId.Some? {
      if |h.producerId.value| > MAX_PRODUCER_ID_LEN { return Err(ProducerIdTooLong); }
      if 0 in h.producerId.value { return Err(ProducerIdNul); }
    }
    if h.traceContext.Some? {
      if |h.traceContext.value| > MAX_TRACE_CONTEXT_LEN { return Err(TraceContextTooLong); }
    }
    return Ok(());
  }

  // ---------- Encoding ----------

  /** The output vector the encoder pushes into. */
  class CborBuffer {
    var buf: seq<byte>

    constructor ()
      ensures buf == []
    {
      buf := [];
    }

    method EncodeHeader(major: nat, value: nat)
      requires major < 8
      modifies this
      ensures buf == old(buf) + Head(major, value)
    {
      if value < 24 {
        buf := buf + [major * 32 + value];
      } else if value < 256 {
        buf := buf + [major * 32 + 24];
        buf := buf + [value];
      } else if value < 65536 {
        buf := buf + [major * 32 + 25];
        buf := buf + ToBe(value, 2);
      } else if value < U32_LIMIT {
        buf := buf + [major * 32 + 26];
        buf := buf + ToBe(value, 4);
      } else {
        buf := buf + [major * 32 + 27];
        buf := buf + ToBe(value, 8);
      }
    }

    method EncodeTextString(s: seq<byte>)
      modifies this
      ensures buf == old(buf) + TextBytes(s)
    {
      EncodeHeader(3, |s|);
      buf := buf + s;
    }

    method EncodeByteString(b: seq<byte>)
      modifies this
      ensures buf == old(buf) + ByteStringBytes(b)
    {
      EncodeHeader(2, |b|);
      buf := buf + b;
    }

    method EncodeValue(v: MetadataValue)
      modifies this
      ensures buf == old(buf) + ValueBytes(v)
    {
      match v {
        case Bool(b) => buf := buf + [if b then 0xF5 else 0xF4];
        case U64(n) => EncodeHeader(0, n);
        case I64(n) =>
          if n >= 0 {
            EncodeHeader(0, n);
          } else {
            EncodeHeader(1, -1 - n);
          }
        case TextValue(s) => EncodeTextString(s);
        case BytesValue(b) => EncodeByteString(b);
      }
    }

    /** Push the entries of `m` in the given order of keys. */
    method EncodeEntries(order: seq<Text>, m: map<Text, MetadataValue>)
      requires forall k <- order :: k in m
      modifies this
      ensures buf == old(buf) + EntriesBytes(order, m)
    {
      var i := 0;
      while i < |order|
        invariant 0 <= i <= |order|
        invariant buf + EntriesBytes(order[i..], m) == old(buf) + EntriesBytes(order, m)
      {
        ghost var rest := EntriesBytes(order[i + 1..], m);
        EntriesBytesStep(order, i, m);
        Assoc(buf, TextBytes(order[i]), ValueBytes(m[order[i]]));
        Assoc(buf, TextBytes(order[i]) + ValueBytes(m[order[i]]), rest);
        EncodeTextString(order[i]);
        EncodeValue(m[order[i]]);
        i := i + 1;
      }
    }

    // One method per field, each pushing nothing when the field is absent.

    method EncodeNotBefore(h: ExtensionHeader)
      modifies this
      ensures buf == old(buf) + NotBeforeBytes(h)
    {
      if h.initialNotBefore.Some? {
        EncodeHeader(0, KEY_INITIAL_NOT_BEFORE);
        EncodeHeader(0, h.initialNotBefore.value);
      }
    }

    method EncodeContentType(h: ExtensionHeader)
      modifies this
      ensures buf == old(buf) + ContentTypeBytes(h)
    {
      EncodeHeader(0, KEY_CONTENT_TYPE);
      EncodeTextString(h.contentType);
    }

    method EncodeMetadata(h: ExtensionHeader)
      requires ShortKeys(h.metadata.Keys)
      modifies this
      ensures buf == old(buf) + MetadataBytes(h)
    {
      if h.metadata != map[] {
        ghost var before := buf;
        EncodeHeader(0, KEY_METADATA);
        EncodeHeader(5, |h.metadata|);
        Assoc(before, Head(0, KEY_METADATA), Head(5, |h.metadata|));
        var order := KeysByEncodedBytes(h.metadata.Keys);
        EncodeEntries(order, h.metadata);
        Assoc(before, Head(0, KEY_METADATA) + Head(5, |h.metadata|), EntriesBytes(order, h.metadata));
      }
    }

    method EncodeProducerId(h: ExtensionHeader)
      modifies this
      ensures buf == old(buf) + ProducerIdBytes(h)
    {
      if h.producerId.Some? {
        EncodeHeader(0, KEY_PRODUCER_ID);
        EncodeTextString(h.producerId.value);
      }
    }

    method EncodeTraceContext(h: ExtensionHeader)
      modifies this
      ensures buf == old(buf) + TraceContextBytes(h)
    {
      if h.traceContext.Some? {
        EncodeHeader(0, KEY_TRACE_CONTEXT);
        EncodeByteString(h.traceContext.value);
      }
    }

    method EncodeFields(h: ExtensionHeader)
      requires ShortKeys(h.metadata.Keys)
      requires buf == []
      modifies this
      ensures buf == HeaderBytes(h)
    {
      var entryCount := CountEntries(h);
      EncodeHeader(5, entryCount);
      assert buf == Head(5, EntryCount(h));
      EncodeNotBefore(h);
      EncodeContentType(h);
      assert buf == Head(5, EntryCount(h)) + NotBeforeBytes(h) + ContentTypeBytes(h);
      EncodeMetadata(h);
      EncodeProducerId(h);
      EncodeTraceContext(h);
    }
  }

  method CountEntries(h: ExtensionHeader) returns (entryCount: nat)
    ensures entryCount == EntryCount(h)
  {
    entryCount := 1;
    if h.initialNotBefore.Some? { entryCount := entryCount + 1; }
    if h.metadata != map[] { entryCount := entryCount + 1; }
    if h.producerId.Some? { entryCount := entryCount + 1; }
    if h.traceContext.Some? { entryCount := entryCount + 1; }
  }

  lemma EntriesBytesStep(order: seq<Text>, i: nat, m: map<Text, MetadataValue>)
    requires i < |order| && forall k <- order :: k in m
    ensures EntriesBytes(order[i..], m)
         == TextBytes(order[i]) + ValueBytes(m[order[i]]) + EntriesBytes(order[i + 1..], m)
  {
  }

  /** Insert `k` into a list sorted by encoded bytes. */
  function InsertKey(order: seq<Text>, k: Text): (r: seq<Text>)
    ensures forall x :: x in r <==> x in order || x == k
  {
    if order == [] || KeyBelow(k, order[0]) then [k] + order
    else [order[0]] + InsertKey(order[1..], k)
  }

  lemma {:induction false} InsertKeySorted(order: seq<Text>, k: Text)
    requires Sorted(KeyBelow, order)
    requires k !in order && |k| < U64_LIMIT && forall x <- order :: |x| < U64_LIMIT
    ensures Sorted(KeyBelow, InsertKey(order, k))
  {
    KeyBelowIsStrict();
    if order != [] && !KeyBelow(k, order[0]) {
      KeyBelowTotal(k, order[0]);
      InsertKeySorted(order[1..], k);
      var tail := InsertKey(order[1..], k);
      forall j | 0 <= j < |tail| ensures KeyBelow(order[0], tail[j]) {
        assert tail[j] in tail;
        if tail[j] in order[1..] {
          var i :| 0 <= i < |order[1..]| && order[1..][i] == tail[j];
          assert order[i + 1] == tail[j];
        }
      }
    }
  }

  /** Collect the keys of the map, in whatever order it yields them, and sort. */
  method KeysByEncodedBytes(keys: set<Text>) returns (order: seq<Text>)
    requires ShortKeys(keys)
    ensures order == SortedKeys(keys)
  {
    order := [];
    var rest := keys;
    while rest != {}
      invariant rest <= keys
      invariant forall k :: k in order <==> k in keys - rest
      invariant Sorted(KeyBelow, order)
      decreases |rest|
    {
      var k: Text :| k in rest;
      InsertKeySorted(order, k);
      order := InsertKey(order, k);
      rest := rest - {k};
    }
    SortedKeysUnique(keys, order);
  }

  method Encode(h: ExtensionHeader) returns (r: Result<seq<byte>, CborError>)
    ensures r.Ok? <==> ValidHeader(h) && |HeaderBytes(h)| <= MAX_EXTENSION_SIZE
    ensures r.Ok? ==> r.value == HeaderBytes(h)
    ensures r.Err? ==> if ValidHeader(h) then r.error == TooLarge else ReportsFault(h, r.error)
  {
    var valid := Validate(h);
    if valid.Err? { return Err(valid.error); }

    var out := new CborBuffer();
    out.EncodeFields(h);
    if |out.buf| > MAX_EXTENSION_SIZE {
      return Err(TooLarge);
    }
    return Ok(out.buf);
  }
}
