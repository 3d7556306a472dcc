/** The bounded CBOR parser and the decoder of the extension header. */
module CborDecode {
  import opened Common
  import opened LexOrder
  import opened Utf8
  import opened CborFormat
  import CborEncode

  datatype Item =
    | UInt(n: u64)
    | NInt(n: u64)
    | Bytes(bytes: seq<byte>)
    | Str(text: Text)
    | Boolean(flag: bool)
    | Map(entries: seq<Entry>)

  datatype Entry = Entry(key: Item, val: Item)

  // ---------- What the parser computes ----------
  // A parse of `data` at `pos` yields a value and the position after it.

  function ParseFixed(data: seq<byte>, pos: nat, width: nat, least: nat): (r: Result<(u64, nat), CborError>)
    requires pos <= |data| && width <= 8
    ensures r.Ok? ==> r.value.1 == pos + width <= |data|
  {
    if pos + width > |data| then Err(Truncated)
    else
      var v := FromBe(data[pos..pos + width]);
      FromBeIsU64(data[pos..pos + width]);
      if v < least then Err(IntOverflow) else Ok((v, pos + width))
  }

  lemma FromBeIsU64(s: seq<byte>)
    requires |s| <= 8
    ensures FromBe(s) < U64_LIMIT
  {
    Pow256Values();
    Pow256Monotone(|s|, 8);
  }

  lemma {:induction false} Pow256Monotone(a: nat, b: nat)
    requires a <= b
    ensures Pow256(a) <= Pow256(b)
  {
    if a < b { Pow256Monotone(a, b - 1); }
  }

  /** The argument of an item head; a longer form than needed is refused. */
  function ParseUint(data: seq<byte>, pos: nat, additional: nat): (r: Result<(u64, nat), CborError>)
    requires pos <= |data|
    ensures r.Ok? ==> pos <= r.value.1 <= |data|
  {
    if additional <= 23 then Ok((additional, pos))
    else if additional == 24 then ParseFixed(data, pos, 1, 24)
    else if additional == 25 then ParseFixed(data, pos, 2, 256)
    else if additional == 26 then ParseFixed(data, pos, 4, 65536)
    else if additional == 27 then ParseFixed(data, pos, 8, U32_LIMIT)
    else if additional == 31 then Err(IndefiniteLength)
    else Err(InvalidMajorType(additional))
  }

  /** A length and that many bytes. */
  function ParseString(data: seq<byte>, pos: nat, additional: nat): (r: Result<(seq<byte>, nat), CborError>)
    requires pos <= |data|
    ensures r.Ok? ==> pos <= r.value.1 <= |data|
  {
    match ParseUint(data, pos, additional)
    case Err(e) => Err(e)
    case Ok((len, p)) =>
      if p + len >= U64_LIMIT then Err(IntOverflow)
      else if p + len > |data| then Err(Truncated)
      else Ok((data[p..p + len], p + len))
  }

  function Room(depth: nat): nat { if depth <= 3 then 4 - depth else 0 }

  function ParseItem(data: seq<byte>, pos: nat, depth: nat): (r: Result<(Item, nat), CborError>)
    requires pos <= |data|
    ensures r.Ok? ==> pos < r.value.1 <= |data|
    decreases Room(depth), 0, 0
  {
    if depth > 2 then Err(NestingTooDeep)
    else if pos >= |data| then Err(Truncated)
    else
      var major, additional := data[pos] / 32, data[pos] % 32;
      match major
      case 0 =>
        (match ParseUint(data, pos + 1, additional)
         case Err(e) => Err(e)
         case Ok((v, p)) => Ok((UInt(v), p)))
      case 1 =>
        (match ParseUint(data, pos + 1, additional)
         case Err(e) => Err(e)
         case Ok((v, p)) => if v > I64_MAX then Err(IntOverflow) else Ok((NInt(v), p)))
      case 2 =>
        (match ParseString(data, pos + 1, additional)
         case Err(e) => Err(e)
         case Ok((b, p)) => Ok((Bytes(b), p)))
      case 3 =>
        (match ParseString(data, pos + 1, additional)
         case Err(e) => Err(e)
         case Ok((b, p)) => if ValidUtf8(b) then Ok((Str(b), p)) else Err(InvalidUtf8))
      case 5 => ParseMap(data, pos + 1, depth, additional)
      case 6 => Err(UnexpectedTag(additional))
      case 7 => ParseSimple(data, pos + 1, additional)
      case _ => Err(InvalidMajorType(major))
  }

  /** What follows the first byte of a map. */
  function ParseMap(data: seq<byte>, pos: nat, depth: nat, additional: nat): (r: Result<(Item, nat), CborError>)
    requires pos <= |data| && depth <= 2
    ensures r.Ok? ==> pos <= r.value.1 <= |data|
    decreases Room(depth + 1), 3, 0
  {
    match ParseUint(data, pos, additional)
    case Err(e) => Err(e)
    case Ok((len, p)) =>
      if len > (|data| - p) / 2 then Err(Truncated)
      else if len > MAX_METADATA_ENTRIES * 8 then Err(TooManyEntries)
      else
        match ParseEntries(data, p, depth + 1, len, [])
        case Err(e) => Err(e)
        case Ok((es, q)) => Ok((Map(es), q))
  }

  function ParseSimple(data: seq<byte>, pos: nat, additional: nat): (r: Result<(Item, nat), CborError>)
    requires pos <= |data|
    ensures r.Ok? ==> r.value.1 == pos
  {
    match additional
    case 20 => Ok((Boolean(false), pos))
    case 21 => Ok((Boolean(true), pos))
    case 22 => Err(NullNotAllowed)
    case 23 => Err(UndefinedNotAllowed)
    case 24 => if pos < |data| then Err(InvalidSimpleValue(data[pos])) else Err(Truncated)
    case 25 => Err(FloatNotAllowed)
    case 26 => Err(FloatNotAllowed)
    case 27 => Err(FloatNotAllowed)
    case _ => Err(InvalidSimpleValue(additional))
  }

  function ParseEntry(data: seq<byte>, pos: nat, depth: nat): (r: Result<(Entry, nat), CborError>)
    requires pos <= |data|
    ensures r.Ok? ==> pos + 2 <= r.value.1 <= |data|
    decreases Room(depth), 1, 0
  {
    match ParseItem(data, pos, depth)
    case Err(e) => Err(e)
    case Ok((key, p)) =>
      match ParseItem(data, p, depth)
      case Err(e) => Err(e)
      case Ok((val, q)) => Ok((Entry(key, val), q))
  }

  /** Key-value pairs after those in `acc`, up to `len` in all. */
  function ParseEntries(data: seq<byte>, pos: nat, depth: nat, len: nat, acc: seq<Entry>)
    : (r: Result<(seq<Entry>, nat), CborError>)
    requires pos <= |data|
    ensures r.Ok? ==> pos <= r.value.1 <= |data|
    decreases Room(depth), 2, len - |acc|
  {
    if |acc| >= len then Ok((acc, pos))
    else
      match ParseEntry(data, pos, depth)
      case Err(e) => Err(e)
      case Ok((entry, p)) => ParseEntries(data, p, depth, len, acc + [entry])
  }

  // ---------- From items to a header ----------

  /** Every key a well-formed string, none twice. */
  function CheckMetadataKeys(es: seq<Entry>, seen: set<Text>): Option<CborError> {
    if es == [] then None
    else if !es[0].key.Str? then Some(InvalidKey(NonString))
    else if !ValidMetadataKey(es[0].key.text) then Some(InvalidKey(Malformed))
    else if es[0].key.text in seen then Some(InvalidKey(Duplicate))
    else CheckMetadataKeys(es[1..], seen + {es[0].key.text})
  }

  ghost predicate StringKeys(es: seq<Entry>) {
    forall e <- es :: e.key.Str?
  }

  /** Encoded keys strictly ascending, starting above `prev`. */
  function CheckMetadataOrder(es: seq<Entry>, prev: Option<seq<byte>>): Option<CborError>
    requires StringKeys(es)
  {
    if es == [] then None
    else
      var key := TextBytes(es[0].key.text);
      if prev.Some? && !BytesBelow(prev.value, key) then Some(InvalidKey(OutOfOrder))
      else CheckMetadataOrder(es[1..], Some(key))
  }

  function MetadataValueOf(it: Item): Result<MetadataValue, CborError> {
    match it
    case Boolean(b) => Ok(Bool(b))
    case UInt(v) => Ok(U64(v))
    case NInt(v) => if v > I64_MAX then Err(IntOverflow) else Ok(I64(-1 - v))
    case Str(s) => if |s| > MAX_TEXT_VALUE then Err(TextTooLong) else Ok(TextValue(s))
    case Bytes(b) => if |b| > MAX_BYTES_VALUE then Err(BytesTooLong) else Ok(BytesValue(b))
    case Map(_) => Err(InvalidMajorType(5))
  }

  function CollectMetadata(es: seq<Entry>, m: map<Text, MetadataValue>): Result<map<Text, MetadataValue>, CborError>
    requires StringKeys(es)
  {
    if es == [] then Ok(m)
    else
      match MetadataValueOf(es[0].val)
      case Err(e) => Err(e)
      case Ok(v) => CollectMetadata(es[1..], m[es[0].key.text := v])
  }

  lemma {:induction false} CheckedKeysAreStrings(es: seq<Entry>, seen: set<Text>)
    requires CheckMetadataKeys(es, seen).None?
    ensures StringKeys(es)
  {
    if es != [] {
      CheckedKeysAreStrings(es[1..], seen + {es[0].key.text});
      assert es == [es[0]] + es[1..];
    }
  }

  function DecodeMetadata(es: seq<Entry>): Result<map<Text, MetadataValue>, CborError> {
    if |es| > MAX_METADATA_ENTRIES then Err(TooManyEntries)
    else
      match CheckMetadataKeys(es, {})
      case Some(e) => Err(e)
      case None =>
        CheckedKeysAreStrings(es, {});
        match CheckMetadataOrder(es, None)
        case Some(e) => Err(e)
        case None => CollectMetadata(es, map[])
  }

  /** Header built so far, keys seen, and the last key. */
  datatype Progress = Progress(ext: ExtensionHeader, seen: set<u64>, prev: Option<u64>)

  const START := Progress(EMPTY_HEADER, {}, None)

  /** Store one top-level value. */
  function StoreField(ext: ExtensionHeader, key: u64, val: Item): Result<ExtensionHeader, CborError> {
    match key
    case 1 =>
      if val.UInt? then Ok(ext.(initialNotBefore := Some(val.n))) else Err(InvalidMajorType(0))
    case 2 =>
      if !val.Str? then Err(InvalidMajorType(0))
      else if CborEncode.ContentTypeFault(val.text).Some? then Err(CborEncode.ContentTypeFault(val.text).value)
      else Ok(ext.(contentType := val.text))
    case 3 =>
      if !val.Map? then Err(InvalidMajorType(0))
      else
        (match DecodeMetadata(val.entries)
         case Err(e) => Err(e)
         case Ok(m) => Ok(ext.(metadata := m)))
    case 4 =>
      if !val.Str? then Err(InvalidMajorType(0))
      else if 0 in val.text then Err(ProducerIdNul)
      else if |val.text| > MAX_PRODUCER_ID_LEN then Err(ProducerIdTooLong)
      else Ok(ext.(producerId := Some(val.text)))
    case 5 =>
      if !val.Bytes? then Err(InvalidMajorType(0))
      else if |val.bytes| > MAX_TRACE_CONTEXT_LEN then Err(TraceContextTooLong)
      else Ok(ext.(traceContext := Some(val.bytes)))
    case _ => Err(UnknownKey(key))
  }

  function AbsorbEntry(st: Progress, e: Entry): Result<Progress, CborError> {
    if !e.key.UInt? then Err(UnknownKey(0))
    else
      var key := e.key.n;
      if key in st.seen then Err(DuplicateKey(key))
      else if st.prev.Some? && key < st.prev.value then Err(DuplicateKey(key))
      else
        match StoreField(st.ext, key, e.val)
        case Err(err) => Err(err)
        case Ok(ext) => Ok(Progress(ext, st.seen + {key}, Some(key)))
  }

  function AbsorbEntries(st: Progress, es: seq<Entry>): Result<Progress, CborError>
    decreases |es|
  {
    if es == [] then Ok(st)
    else
      match AbsorbEntry(st, es[0])
      case Err(e) => Err(e)
      case Ok(next) => AbsorbEntries(next, es[1..])
  }

  function HeaderOf(es: seq<Entry>): Result<ExtensionHeader, CborError> {
    match AbsorbEntries(START, es)
    case Err(e) => Err(e)
    case Ok(st) => if st.ext.contentType == [] then Err(MissingContentType) else Ok(st.ext)
  }

  function DecodeHeader(input: seq<byte>): Result<ExtensionHeader, CborError> {
    if |input| > MAX_EXTENSION_SIZE then Err(TooLarge)
    else
      match ParseItem(input, 0, 0)
      case Err(e) => Err(e)
      case Ok((top, end)) =>
        if !top.Map? then Err(InvalidMajorType(0))
        else
          match HeaderOf(top.entries)
          case Err(e) => Err(e)
          case Ok(h) => if end != |input| then Err(TrailingBytes) else Ok(h)
  }

  // ---------- The parser object ----------

  function Value<T>(r: Result<(T, nat), CborError>): Result<T, CborError> {
    match r
    case Ok((v, _)) => Ok(v)
    case Err(e) => Err(e)
  }

  class CborParser {
    const data: seq<byte>
    var pos: nat
    var depth: nat

    constructor (data: seq<byte>)
      ensures this.data == data && pos == 0 && depth == 0
    {
      this.data := data;
      pos, depth := 0, 0;
    }

    method ReadByte() returns (r: Result<byte, CborError>)
      requires pos <= |data|
      modifies this`pos
      ensures r == if old(pos) < |data| then Ok(data[old(pos)]) else Err(Truncated)
      ensures pos == if r.Ok? then old(pos) + 1 else old(pos)
    {
      if pos >= |data| {
        return Err(Truncated);
      }
      var b := data[pos];
      pos := pos + 1;
      return Ok(b);
    }

    method ReadUint(additional: nat) returns (r: Result<u64, CborError>)
      requires pos <= |data|
      modifies this`pos
      ensures r == Value(ParseUint(data, old(pos), additional))
      ensures r.Ok? ==> pos == ParseUint(data, old(pos), additional).value.1
    {
      if additional <= 23 {
        return Ok(additional);
      } else if 24 <= additional <= 27 {
        var width, least :=
          if additional == 24 then 1 else if additional == 25 then 2 else if additional == 26 then 4 else 8,
          if additional == 24 then 24 else if additional == 25 then 256 else if additional == 26 then 65536 else U32_LIMIT;
        pos := pos + width;
        if pos > |data| {
          return Err(Truncated);
        }
        var v := FromBe(data[pos - width..pos]);
        FromBeIsU64(data[pos - width..pos]);
        if v < least {
          return Err(IntOverflow);
        }
        return Ok(v);
      } else if additional == 31 {
        return Err(IndefiniteLength);
      } else {
        return Err(InvalidMajorType(additional));
      }
    }

    method ReadString(additional: nat) returns (r: Result<seq<byte>, CborError>)
      requires pos <= |data|
      modifies this`pos
      ensures r == Value(ParseString(data, old(pos), additional))
      ensures r.Ok? ==> pos == ParseString(data, old(pos), additional).value.1
    {
      var len := ReadUint(additional);
      if len.Err? { return Err(len.error); }
      var end := pos + len.value;
      if end >= U64_LIMIT {
        return Err(IntOverflow);
      }
      if end > |data| {
        return Err(Truncated);
      }
      var b := data[pos..end];
      pos := end;
      return Ok(b);
    }

    method ReadItem() returns (r: Result<Item, CborError>)
      requires pos <= |data|
      modifies this
      ensures r == Value(ParseItem(data, old(pos), old(depth)))
      ensures r.Ok? ==> pos == ParseItem(data, old(pos), old(depth)).value.1 && depth == old(depth)
      decreases Room(depth), 0
    {
      if depth > 2 {
        return Err(NestingTooDeep);
      }
      var initial := ReadByte();
      if initial.Err? { return Err(initial.error); }
      var major, additional := initial.value / 32, initial.value % 32;
      match major {
        case 0 =>
          var v := ReadUint(additional);
          if v.Err? { return Err(v.error); }
          return Ok(UInt(v.value));
        case 1 =>
          var v := ReadUint(additional);
          if v.Err? { return Err(v.error); }
          if v.value > I64_MAX { return Err(IntOverflow); }
          return Ok(NInt(v.value));
        case 2 =>
          var b := ReadString(additional);
          if b.Err? { return Err(b.error); }
          return Ok(Bytes(b.value));
        case 3 =>
          var b := ReadString(additional);
          if b.Err? { return Err(b.error); }
          if !ValidUtf8(b.value) { return Err(InvalidUtf8); }
          return Ok(Str(b.value));
        case 5 =>
          r := ReadMap(additional);
        case 6 => return Err(UnexpectedTag(additional));
        case 7 =>
          match additional {
            case 20 => return Ok(Boolean(false));
            case 21 => return Ok(Boolean(true));
            case 22 => return Err(NullNotAllowed);
            case 23 => return Err(UndefinedNotAllowed);
            case 24 =>
              var simple := ReadByte();
              if simple.Err? { return Err(simple.error); }
              return Err(InvalidSimpleValue(simple.value));
            case 25 => return Err(FloatNotAllowed);
            case 26 => return Err(FloatNotAllowed);
            case 27 => return Err(FloatNotAllowed);
            case _ => return Err(InvalidSimpleValue(additional));
          }
        case _ => return Err(InvalidMajorType(major));
      }
    }

    method ReadEntry() returns (r: Result<Entry, CborError>)
      requires pos <= |data|
      modifies this
      ensures r == Value(ParseEntry(data, old(pos), old(depth)))
      ensures r.Ok? ==> pos == ParseEntry(data, old(pos), old(depth)).value.1 && depth == old(depth)
      decreases Room(depth), 1
    {
      var key := ReadItem();
      if key.Err? { return Err(key.error); }
      var val := ReadItem();
      if val.Err? { return Err(val.error); }
      return Ok(Entry(key.value, val.value));
    }

    method ReadMap(additional: nat) returns (r: Result<Item, CborError>)
      requires pos <= |data| && depth <= 2
      modifies this
      ensures r == Value(ParseMap(data, old(pos), old(depth), additional))
      ensures r.Ok? ==> pos == ParseMap(data, old(pos), old(depth), additional).value.1 && depth == old(depth)
      decreases Room(depth + 1), 2
    {
      depth := depth + 1;
      var len := ReadUint(additional);
      if len.Err? { return Err(len.error); }
      if len.value > (|data| - pos) / 2 {
        return Err(Truncated);
      }
      if len.value > MAX_METADATA_ENTRIES * 8 {
        return Err(TooManyEntries);
      }
      var items: seq<Entry> := [];
      ghost var all := ParseEntries(data, pos, depth, len.value, items);
      for i := 0 to len.value
        invariant |items| == i
        invariant pos <= |data| && depth == old(depth) + 1
        invariant all == ParseEntries(data, pos, depth, len.value, items)
      {
        var entry := ReadEntry();
        if entry.Err? { return Err(entry.error); }
        items := items + [entry.value];
      }
      depth := depth - 1;
      return Ok(Map(items));
    }

    method DecodeExtension() returns (r: Result<ExtensionHeader, CborError>)
      requires pos == 0 && depth == 0
      modifies this
      ensures r == match ParseItem(data, 0, 0)
                   case Err(e) => Err(e)
                   case Ok((top, _)) => if top.Map? then HeaderOf(top.entries) else Err(InvalidMajorType(0))
      ensures r.Ok? ==> pos == ParseItem(data, 0, 0).value.1
    {
      var top := ReadItem();
      if top.Err? { return Err(top.error); }
      if !top.value.Map? {
        return Err(InvalidMajorType(0));
      }
      var items := top.value.entries;

      var ext := EMPTY_HEADER;
      var seen: set<u64> := {};
      var prev: Option<u64> := None;
      for i := 0 to |items|
        invariant AbsorbEntries(START, items) == AbsorbEntries(Progress(ext, seen, prev), items[i..])
        invariant pos == ParseItem(data, 0, 0).value.1
      {
        assert items[i..][0] == items[i] && items[i..][1..] == items[i + 1..];
        if !items[i].key.UInt? { return Err(UnknownKey(0)); }
        var key := items[i].key.n;
        if key in seen { return Err(DuplicateKey(key)); }
        if prev.Some? && key < prev.value { return Err(DuplicateKey(key)); }
        var stored := DecodeField(ext, key, items[i].val);
        if stored.Err? { return Err(stored.error); }
        ext, seen, prev := stored.value, seen + {key}, Some(key);
      }
      assert items[|items|..] == [];
      if ext.contentType == [] {
        return Err(MissingContentType);
      }
      return Ok(ext);
    }
  }

  method DecodeField(ext: ExtensionHeader, key: u64, val: Item) returns (r: Result<ExtensionHeader, CborError>)
    ensures r == StoreField(ext, key, val)
  {
    match key {
      case 1 =>
        if !val.UInt? { return Err(InvalidMajorType(0)); }
        return Ok(ext.(initialNotBefore := Some(val.n)));
      case 2 =>
        if !val.Str? { return Err(InvalidMajorType(0)); }
        var valid := CborEncode.ValidateContentType(val.text);
        if valid.Err? { return Err(valid.error); }
        return Ok(ext.(contentType := val.text));
      case 3 =>
        if !val.Map? { return Err(InvalidMajorType(0)); }
        var m := DecodeMetadataMap(val.entries);
        if m.Err? { return Err(m.error); }
        return Ok(ext.(metadata := m.value));
      case 4 =>
        if !val.Str? { return Err(InvalidMajorType(0)); }
        if 0 in val.text { return Err(ProducerIdNul); }
        if |val.text| > MAX_PRODUCER_ID_LEN { return Err(ProducerIdTooLong); }
        return Ok(ext.(producerId := Some(val.text)));
      case 5 =>
        if !val.Bytes? { return Err(InvalidMajorType(0)); }
        if |val.bytes| > MAX_TRACE_CONTEXT_LEN { return Err(TraceContextTooLong); }
        return Ok(ext.(traceContext := Some(val.bytes)));
      case _ => return Err(UnknownKey(key));
    }
  }

  /** Three passes over the entries: keys, their order, then the values. */
  method DecodeMetadataMap(es: seq<Entry>) returns (r: Result<map<Text, MetadataValue>, CborError>)
    ensures r == DecodeMetadata(es)
  {
    if |es| > MAX_METADATA_ENTRIES {
      return Err(TooManyEntries);
    }
    var seen: set<Text> := {};
    for i := 0 to |es|
      invariant CheckMetadataKeys(es, {}) == CheckMetadataKeys(es[i..], seen)
    {
      assert es[i..][0] == es[i] && es[i..][1..] == es[i + 1..];
      if !es[i].key.Str? { return Err(InvalidKey(NonString)); }
      var valid := CborEncode.ValidateMetadataKey(es[i].key.text);
      if valid.Err? { return Err(valid.error); }
      if es[i].key.text in seen { return Err(InvalidKey(Duplicate)); }
      seen := seen + {es[i].key.text};
    }
    assert es[|es|..] == [];
    CheckedKeysAreStrings(es, {});

    var prev: Option<seq<byte>> := None;
    for i := 0 to |es|
      invariant CheckMetadataOrder(es, None) == CheckMetadataOrder(es[i..], prev)
    {
      assert es[i..][0] == es[i] && es[i..][1..] == es[i + 1..];
      var key := TextBytes(es[i].key.text);
      if prev.Some? && !BytesBelow(prev.value, key) {
        return Err(InvalidKey(OutOfOrder));
      }
      prev := Some(key);
    }
    assert es[|es|..] == [];

    var m: map<Text, MetadataValue> := map[];
    for i := 0 to |es|
      invariant CollectMetadata(es, map[]) == CollectMetadata(es[i..], m)
    {
      assert es[i..][0] == es[i] && es[i..][1..] == es[i + 1..];
      var v := MetadataValueOf(es[i].val);
      if v.Err? { return Err(v.error); }
      m := m[es[i].key.text := v.value];
    }
    return Ok(m);
  }

  method Decode(input: seq<byte>) returns (r: Result<ExtensionHeader, CborError>)
    ensures r == DecodeHeader(input)
  {
    if |input| > MAX_EXTENSION_SIZE {
      return Err(TooLarge);
    }
    var parser := new CborParser(input);
    var result := parser.DecodeExtension();
    if result.Err? { return result; }
    if parser.pos != |input| {
      return Err(TrailingBytes);
    }
    return result;
  }
}
