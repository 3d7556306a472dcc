/**
 The printer and the parser undo each other: the parser accepts a byte string
 exactly when it is the canonical encoding of the item it returns.
 */
module CborItemProofs {
  import opened Common
  import opened LexOrder
  import opened Utf8
  import opened CborFormat
  import opened CborDecode

  // ---------- Canonical bytes of an item ----------

  function ItemBytes(it: Item): (s: seq<byte>)
    ensures |s| >= 1
  {
    match it
    case UInt(n) => Head(0, n)
    case NInt(n) => Head(1, n)
    case Bytes(b) => ByteStringBytes(b)
    case Str(s) => TextBytes(s)
    case Boolean(b) => [if b then 0xF5 else 0xF4]
    case Map(es) => Head(5, |es|) + EntryListBytes(es)
  }

  function EntryListBytes(es: seq<Entry>): (s: seq<byte>)
    ensures |s| >= 2 * |es|
  {
    if es == [] then []
    else
      assert es decreases to es[0];
      ItemBytes(es[0].key) + ItemBytes(es[0].val) + EntryListBytes(es[1..])
  }

  /** What the parser can return at `depth`. */
  predicate Fits(it: Item, depth: nat)
    decreases it
  {
    && depth <= 2
    && (it.NInt? ==> it.n <= I64_MAX)
    && (it.Map? ==> |it.entries| <= MAX_METADATA_ENTRIES * 8
                    && forall e <- it.entries :: Fits(e.key, depth + 1) && Fits(e.val, depth + 1))
  }

  // ---------- Heads ----------

  ghost predicate Reads<T>(r: Result<(T, nat), CborError>, v: T, end: int) {
    r.Ok? && r.value.0 == v && r.value.1 == end
  }

  /** A first byte and the shortest big-endian tail are the head of their value. */
  lemma WideHead(first: byte, major: nat, tail: seq<byte>, v: nat)
    requires first / 32 == major && tail == ToBe(v, |tail|)
    requires || (|tail| == 1 && first % 32 == 24 && 24 <= v < 256)
             || (|tail| == 2 && first % 32 == 25 && 256 <= v < 65536)
             || (|tail| == 4 && first % 32 == 26 && 65536 <= v < U32_LIMIT)
             || (|tail| == 8 && first % 32 == 27 && U32_LIMIT <= v)
    ensures Head(major, v) == [first] + tail
  {
  }

  /** How large a value of each width can be. */
  lemma WidthBound(s: seq<byte>)
    ensures |s| == 1 ==> FromBe(s) < 256
    ensures |s| == 2 ==> FromBe(s) < 65536
    ensures |s| == 4 ==> FromBe(s) < U32_LIMIT
  {
  }

  /** An accepted argument in bytes of its own is no longer than it has to be. */
  lemma UintParts(data: seq<byte>, pos: nat, additional: nat) returns (v: nat, tail: seq<byte>)
    requires pos <= |data| && additional >= 24 && ParseUint(data, pos, additional).Ok?
    ensures pos + |tail| <= |data| && tail == data[pos..pos + |tail|] && v == FromBe(tail)
    ensures Reads(ParseUint(data, pos, additional), v, pos + |tail|)
    ensures || (|tail| == 1 && additional == 24 && 24 <= v)
            || (|tail| == 2 && additional == 25 && 256 <= v)
            || (|tail| == 4 && additional == 26 && 65536 <= v)
            || (|tail| == 8 && additional == 27 && U32_LIMIT <= v)
  {
    var r := ParseUint(data, pos, additional).value;
    v, tail := r.0, data[pos..r.1];
  }

  lemma WideCanonical(data: seq<byte>, pos: nat, major: nat, first: byte)
    requires pos < |data| && data[pos] == first && first / 32 == major && first % 32 >= 24
    requires ParseUint(data, pos + 1, first % 32).Ok?
    ensures var (v, p) := ParseUint(data, pos + 1, first % 32).value;
            data[pos..p] == Head(major, v)
  {
    var v, tail := UintParts(data, pos + 1, first % 32);
    ToFromBe(tail);
    WidthBound(tail);
    WideHead(first, major, tail, v);
    assert data[pos..pos + 1] == [first];
    JoinSlices(data, pos, pos + 1, pos + 1 + |tail|, [first], tail);
  }

  /** An accepted head is the shortest one of its value. */
  lemma UintCanonical(data: seq<byte>, pos: nat, major: nat)
    requires pos < |data| && data[pos] / 32 == major
    requires ParseUint(data, pos + 1, data[pos] % 32).Ok?
    ensures var (v, p) := ParseUint(data, pos + 1, data[pos] % 32).value;
            data[pos..p] == Head(major, v)
  {
    if data[pos] % 32 >= 24 {
      WideCanonical(data, pos, major, data[pos]);
    } else {
      assert data[pos..pos + 1] == [data[pos]];
    }
  }

  lemma UintComplete(data: seq<byte>, pos: nat, major: nat, v: u64)
    requires major < 8 && pos + |Head(major, v)| <= |data|
    requires data[pos..pos + |Head(major, v)|] == Head(major, v)
    ensures data[pos] / 32 == major
    ensures Reads(ParseUint(data, pos + 1, data[pos] % 32), v, pos + |Head(major, v)|)
  {
    var p := pos + |Head(major, v)|;
    assert data[pos] == data[pos..p][0] == Head(major, v)[0];
    assert data[pos + 1..p] == data[pos..p][1..] == Head(major, v)[1..];
    Pow256Values();
    if 24 <= v < 256 {
      assert data[pos + 1..p] == [v];
      assert FromBe([v][..0]) == 0;
    } else if 256 <= v < 65536 {
      FromToBe(v, 2);
    } else if 65536 <= v < U32_LIMIT {
      FromToBe(v, 4);
    } else if U32_LIMIT <= v {
      FromToBe(v, 8);
    }
  }

  // ---------- Accepted bytes are canonical ----------

  lemma {:induction false} ItemCanonical(data: seq<byte>, pos: nat, depth: nat)
    requires pos <= |data| && ParseItem(data, pos, depth).Ok?
    ensures var (it, p) := ParseItem(data, pos, depth).value;
            Fits(it, depth) && data[pos..p] == ItemBytes(it)
    decreases Room(depth), 0, 1
  {
    var (it, p) := ParseItem(data, pos, depth).value;
    match it {
      case UInt(_) => UintCanonical(data, pos, 0);
      case NInt(_) => UintCanonical(data, pos, 1);
      case Bytes(b) => StringCanonical(data, pos, 2);
      case Str(s) => StringCanonical(data, pos, 3);
      case Boolean(_) => assert data[pos..p] == [data[pos]];
      case Map(es) => MapCanonical(data, pos, depth);
    }
  }

  lemma {:induction false} MapCanonical(data: seq<byte>, pos: nat, depth: nat)
    requires pos <= |data| && ParseItem(data, pos, depth).Ok? && ParseItem(data, pos, depth).value.0.Map?
    ensures var (it, p) := ParseItem(data, pos, depth).value;
            Fits(it, depth) && data[pos..p] == ItemBytes(it)
    decreases Room(depth), 0, 0
  {
    var (it, p) := ParseItem(data, pos, depth).value;
    UintCanonical(data, pos, 5);
    var (len, q) := ParseUint(data, pos + 1, data[pos] % 32).value;
    EntriesCanonical(data, q, depth + 1, len, []);
    assert it.entries[0..] == it.entries;
    JoinSlices(data, pos, q, p, Head(5, len), EntryListBytes(it.entries));
  }

  lemma JoinSlices(data: seq<byte>, pos: nat, q: nat, p: nat, head: seq<byte>, body: seq<byte>)
    requires pos <= q <= p <= |data| && data[pos..q] == head && data[q..p] == body
    ensures data[pos..p] == head + body
  {
  }

  /** A string is read as its length and then its bytes. */
  lemma StringParts(data: seq<byte>, pos: nat, additional: nat) returns (len: nat, q: nat)
    requires pos <= |data| && ParseString(data, pos, additional).Ok?
    ensures Reads(ParseUint(data, pos, additional), len, q)
    ensures pos <= q && q + len <= |data| && Reads(ParseString(data, pos, additional), data[q..q + len], q + len)
  {
    len, q := ParseUint(data, pos, additional).value.0, ParseUint(data, pos, additional).value.1;
  }

  lemma StringCanonical(data: seq<byte>, pos: nat, major: nat)
    requires pos < |data| && data[pos] / 32 == major
    requires ParseString(data, pos + 1, data[pos] % 32).Ok?
    ensures var (b, p) := ParseString(data, pos + 1, data[pos] % 32).value;
            data[pos..p] == Head(major, |b|) + b
  {
    UintOfString(data, pos, major);
    var len, q := StringParts(data, pos + 1, data[pos] % 32);
    JoinSlices(data, pos, q, q + len, Head(major, len), data[q..q + len]);
  }

  lemma UintOfString(data: seq<byte>, pos: nat, major: nat)
    requires pos < |data| && data[pos] / 32 == major
    requires ParseString(data, pos + 1, data[pos] % 32).Ok?
    ensures ParseUint(data, pos + 1, data[pos] % 32).Ok?
    ensures var (v, p) := ParseUint(data, pos + 1, data[pos] % 32).value;
            data[pos..p] == Head(major, v)
  {
    UintCanonical(data, pos, major);
  }

  lemma {:induction false} EntryCanonical(data: seq<byte>, pos: nat, depth: nat)
    requires pos <= |data| && ParseEntry(data, pos, depth).Ok?
    ensures var (e, p) := ParseEntry(data, pos, depth).value;
            && Fits(e.key, depth) && Fits(e.val, depth)
            && data[pos..p] == ItemBytes(e.key) + ItemBytes(e.val)
    decreases Room(depth), 1, 0
  {
    var e, q, p := EntryParts(data, pos, depth);
    ItemCanonical(data, pos, depth);
    ItemCanonical(data, q, depth);
    JoinSlices(data, pos, q, p, ItemBytes(e.key), ItemBytes(e.val));
  }

  lemma EntryParts(data: seq<byte>, pos: nat, depth: nat) returns (e: Entry, q: nat, p: nat)
    requires pos <= |data| && ParseEntry(data, pos, depth).Ok?
    ensures ParseEntry(data, pos, depth) == Ok((e, p)) && pos <= q <= p <= |data|
    ensures ParseItem(data, pos, depth) == Ok((e.key, q)) && ParseItem(data, q, depth) == Ok((e.val, p))
  {
    e, p := ParseEntry(data, pos, depth).value.0, ParseEntry(data, pos, depth).value.1;
    q := ParseItem(data, pos, depth).value.1;
  }

  lemma {:induction false} EntriesCanonical(data: seq<byte>, pos: nat, depth: nat, len: nat, acc: seq<Entry>)
    requires pos <= |data| && |acc| <= len && ParseEntries(data, pos, depth, len, acc).Ok?
    ensures var (es, p) := ParseEntries(data, pos, depth, len, acc).value;
            && |es| == len && acc <= es
            && (forall i :: |acc| <= i < len ==> Fits(es[i].key, depth) && Fits(es[i].val, depth))
            && data[pos..p] == EntryListBytes(es[|acc|..])
    decreases Room(depth), 2, len - |acc|
  {
    var (es, p) := ParseEntries(data, pos, depth, len, acc).value;
    if |acc| < len {
      EntryCanonical(data, pos, depth);
      var (e, q) := ParseEntry(data, pos, depth).value;
      EntriesCanonical(data, q, depth, len, acc + [e]);
      assert es[|acc|] == (acc + [e])[|acc|] == e;
      JoinEntryBytes(data, pos, q, p, es, |acc|);
    }
  }

  lemma JoinEntryBytes(data: seq<byte>, pos: nat, q: nat, p: nat, es: seq<Entry>, i: nat)
    requires pos <= q <= p <= |data| && i < |es|
    requires data[pos..q] == ItemBytes(es[i].key) + ItemBytes(es[i].val)
    requires data[q..p] == EntryListBytes(es[i + 1..])
    ensures data[pos..p] == EntryListBytes(es[i..])
  {
  }

  // ---------- Canonical bytes are accepted ----------

  ghost predicate At(data: seq<byte>, pos: nat, s: seq<byte>) {
    pos + |s| <= |data| && data[pos..pos + |s|] == s
  }

  lemma AtSplit(data: seq<byte>, pos: nat, a: seq<byte>, b: seq<byte>)
    requires At(data, pos, a + b)
    ensures At(data, pos, a) && At(data, pos + |a|, b)
  {
    var s := data[pos..pos + |a + b|];
    assert a == s[..|a|] && b == s[|a|..];
    assert data[pos..pos + |a|] == s[..|a|];
    assert data[pos + |a|..pos + |a| + |b|] == s[|a|..];
  }

  lemma {:induction false} ItemComplete(data: seq<byte>, pos: nat, depth: nat, it: Item, end: nat)
    requires |data| < U64_LIMIT
    requires Fits(it, depth) && At(data, pos, ItemBytes(it)) && end == pos + |ItemBytes(it)|
    ensures Reads(ParseItem(data, pos, depth), it, end)
    decreases it, 1, 0
  {
    if it.Map? {
      MapComplete(data, pos, depth, it, end);
    } else {
      ScalarComplete(data, pos, depth, it, end);
    }
  }

  lemma {:induction false} BytesComplete(data: seq<byte>, pos: nat, depth: nat, it: Item, bytes: seq<byte>, end: nat)
    requires |data| < U64_LIMIT && bytes == ItemBytes(it)
    requires Fits(it, depth) && At(data, pos, bytes) && end == pos + |bytes|
    ensures Reads(ParseItem(data, pos, depth), it, end)
    decreases it, 2, 0
  {
    ItemComplete(data, pos, depth, it, end);
  }

  lemma ScalarComplete(data: seq<byte>, pos: nat, depth: nat, it: Item, end: nat)
    requires |data| < U64_LIMIT && !it.Map?
    requires Fits(it, depth) && At(data, pos, ItemBytes(it)) && end == pos + |ItemBytes(it)|
    ensures Reads(ParseItem(data, pos, depth), it, end)
  {
    match it {
      case UInt(n) => UintComplete(data, pos, 0, n);
      case NInt(n) => UintComplete(data, pos, 1, n);
      case Bytes(b) => StringComplete(data, pos, 2, b);
      case Str(s) => StringComplete(data, pos, 3, s);
      case Boolean(b) => assert data[pos] == ItemBytes(it)[0];
    }
  }

  lemma StringComplete(data: seq<byte>, pos: nat, major: nat, b: seq<byte>)
    requires |data| < U64_LIMIT && major < 8
    requires At(data, pos, Head(major, |b|) + b)
    ensures data[pos] / 32 == major
    ensures Reads(ParseString(data, pos + 1, data[pos] % 32), b, pos + |Head(major, |b|) + b|)
  {
    AtSplit(data, pos, Head(major, |b|), b);
    UintComplete(data, pos, major, |b|);
  }

  lemma {:induction false} MapComplete(data: seq<byte>, pos: nat, depth: nat, it: Item, end: nat)
    requires |data| < U64_LIMIT && it.Map?
    requires Fits(it, depth) && At(data, pos, ItemBytes(it)) && end == pos + |ItemBytes(it)|
    ensures Reads(ParseItem(data, pos, depth), it, end)
    decreases it, 0, |it.entries| + 1
  {
    var es := it.entries;
    var body := EntryListBytes(es);
    var p := pos + |Head(5, |es|)|;
    AtSplit(data, pos, Head(5, |es|), body);
    UintComplete(data, pos, 5, |es|);
    assert Reads(ParseEntries(data, p, depth + 1, |es|, []), es, end) by {
      assert es[0..] == es && es[..0] == [];
      EntriesComplete(data, p, depth + 1, it, 0, body);
    }
    ParseMapItem(data, pos, depth, es, p, end);
  }

  /** How a map item is put together from its parts. */
  lemma ParseMapItem(data: seq<byte>, pos: nat, depth: nat, es: seq<Entry>, p: nat, end: nat)
    requires depth <= 2 && pos < p <= |data| && data[pos] / 32 == 5
    requires |es| <= MAX_METADATA_ENTRIES * 8 && 2 * |es| <= |data| - p
    requires Reads(ParseUint(data, pos + 1, data[pos] % 32), |es|, p)
    requires Reads(ParseEntries(data, p, depth + 1, |es|, []), es, end)
    ensures Reads(ParseItem(data, pos, depth), Map(es), end)
  {
  }

  lemma {:induction false} EntriesComplete(
      data: seq<byte>, pos: nat, depth: nat, it: Item, i: nat, bytes: seq<byte>)
    requires |data| < U64_LIMIT
    requires it.Map? && i <= |it.entries|
    requires forall e <- it.entries :: Fits(e.key, depth) && Fits(e.val, depth)
    requires bytes == EntryListBytes(it.entries[i..]) && At(data, pos, bytes)
    ensures Reads(ParseEntries(data, pos, depth, |it.entries|, it.entries[..i]), it.entries, pos + |bytes|)
    decreases it, 0, |it.entries| - i
  {
    var es := it.entries;
    if i == |es| {
      assert es[..i] == es;
    } else {
      assert es[i] in es && es[i] < it;
      EntryBytesStep(es, i);
      var key, val, rest := ItemBytes(es[i].key), ItemBytes(es[i].val), EntryListBytes(es[i + 1..]);
      EntryComplete(data, pos, depth, es[i], key, val, rest);
      var p := pos + |key| + |val|;
      assert Reads(ParseEntries(data, p, depth, |es|, es[..i] + [es[i]]), es, p + |rest|) by {
        assert es[..i] + [es[i]] == es[..i + 1];
        EntriesComplete(data, p, depth, it, i + 1, rest);
      }
      ParseEntriesStep(data, pos, depth, |es|, es[..i], es[i], p);
    }
  }

  lemma EntryBytesStep(es: seq<Entry>, i: nat)
    requires i < |es|
    ensures EntryListBytes(es[i..])
         == ItemBytes(es[i].key) + ItemBytes(es[i].val) + EntryListBytes(es[i + 1..])
  {
  }

  lemma ParseEntriesStep(data: seq<byte>, pos: nat, depth: nat, len: nat, acc: seq<Entry>, e: Entry, p: nat)
    requires pos <= |data| && |acc| < len
    requires Reads(ParseEntry(data, pos, depth), e, p)
    ensures ParseEntries(data, pos, depth, len, acc) == ParseEntries(data, p, depth, len, acc + [e])
  {
  }

  lemma ParseEntryParts(data: seq<byte>, pos: nat, q: nat, p: nat, depth: nat, key: Item, val: Item)
    requires pos <= q <= |data|
    requires Reads(ParseItem(data, pos, depth), key, q)
    requires Reads(ParseItem(data, q, depth), val, p)
    ensures Reads(ParseEntry(data, pos, depth), Entry(key, val), p)
  {
  }

  lemma {:induction false} EntryComplete(
      data: seq<byte>, pos: nat, depth: nat, e: Entry, key: seq<byte>, val: seq<byte>, rest: seq<byte>)
    requires |data| < U64_LIMIT
    requires Fits(e.key, depth) && Fits(e.val, depth)
    requires key == ItemBytes(e.key) && val == ItemBytes(e.val)
    requires At(data, pos, key + val + rest)
    ensures Reads(ParseEntry(data, pos, depth), e, pos + |key| + |val|)
    ensures At(data, pos + |key| + |val|, rest)
    decreases e
  {
    var q := pos + |key|;
    var p := q + |val|;
    AtSplit(data, pos, key + val, rest);
    AtSplit(data, pos, key, val);
    BytesComplete(data, pos, depth, e.key, key, q);
    BytesComplete(data, q, depth, e.val, val, p);
    ParseEntryParts(data, pos, q, p, depth, e.key, e.val);
  }

  /** The parser reads exactly the canonical encodings of the items that fit. */
  lemma ItemParseExact(data: seq<byte>, pos: nat, depth: nat, it: Item, end: nat)
    requires pos <= |data| < U64_LIMIT
    ensures Reads(ParseItem(data, pos, depth), it, end)
       <==> Fits(it, depth) && At(data, pos, ItemBytes(it)) && end == pos + |ItemBytes(it)|
  {
    if Reads(ParseItem(data, pos, depth), it, end) {
      ItemCanonical(data, pos, depth);
      assert |data[pos..end]| == |ItemBytes(it)|;
    }
    if Fits(it, depth) && At(data, pos, ItemBytes(it)) && end == pos + |ItemBytes(it)| {
      ItemComplete(data, pos, depth, it, end);
    }
  }
}
