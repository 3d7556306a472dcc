/**
 Both round trips of the extension header, from one exact description of what
 the decoder accepts.
 */
module CborTheorems {
  import opened Common
  import opened LexOrder
  import opened Utf8
  import opened CborFormat
  import opened CborDecode
  import opened CborItemProofs
  import CborEncode

  // ---------- A header as items ----------

  function ItemOfValue(v: MetadataValue): Item {
    match v
    case Bool(b) => Boolean(b)
    case U64(n) => UInt(n)
    case I64(n) => if n >= 0 then UInt(n) else NInt(-1 - n)
    case TextValue(s) => Str(s)
    case BytesValue(b) => Bytes(b)
  }

  function MetadataEntries(keys: seq<Text>, m: map<Text, MetadataValue>): (es: seq<Entry>)
    requires forall k <- keys :: k in m
    ensures |es| == |keys|
    ensures forall i :: 0 <= i < |keys| ==> es[i] == Entry(Str(keys[i]), ItemOfValue(m[keys[i]]))
  {
    if keys == [] then []
    else [Entry(Str(keys[0]), ItemOfValue(m[keys[0]]))] + MetadataEntries(keys[1..], m)
  }

  ghost function MetadataItem(m: map<Text, MetadataValue>): Item
    requires ShortKeys(m.Keys)
  {
    Map(MetadataEntries(SortedKeys(m.Keys), m))
  }

  /** The entries under one protocol key; `explicit` writes an empty metadata map. */
  ghost function FieldEntries(h: ExtensionHeader, key: nat, explicit: bool): seq<Entry>
    requires ShortKeys(h.metadata.Keys)
  {
    match key
    case 1 => if h.initialNotBefore.None? then [] else [Entry(UInt(1), UInt(h.initialNotBefore.value))]
    case 2 => [Entry(UInt(2), Str(h.contentType))]
    case 3 => if h.metadata == map[] && !explicit then [] else [Entry(UInt(3), MetadataItem(h.metadata))]
    case 4 => if h.producerId.None? then [] else [Entry(UInt(4), Str(h.producerId.value))]
    case 5 => if h.traceContext.None? then [] else [Entry(UInt(5), Bytes(h.traceContext.value))]
    case _ => []
  }

  ghost function EntriesFrom(h: ExtensionHeader, key: nat, explicit: bool): seq<Entry>
    requires ShortKeys(h.metadata.Keys)
    decreases 6 - key
  {
    if key > 5 then [] else FieldEntries(h, key, explicit) + EntriesFrom(h, key + 1, explicit)
  }

  ghost function HeaderItem(h: ExtensionHeader, explicit: bool): Item
    requires ShortKeys(h.metadata.Keys)
  {
    Map(EntriesFrom(h, 1, explicit))
  }

  // ---------- Normal form ----------

  predicate NormalValue(v: MetadataValue) {
    v.I64? ==> v.signed < 0
  }

  /** No non-negative `I64`: the decoder reads those as `U64`. */
  predicate NormalMetadata(m: map<Text, MetadataValue>) {
    forall k <- m :: NormalValue(m[k])
  }

  function NormalizeValue(v: MetadataValue): MetadataValue {
    if v.I64? && v.signed >= 0 then U64(v.signed) else v
  }

  function Normalize(h: ExtensionHeader): ExtensionHeader {
    h.(metadata := map k | k in h.metadata :: NormalizeValue(h.metadata[k]))
  }

  // ---------- Metadata maps ----------

  ghost predicate KeysSorted(es: seq<Entry>)
    requires StringKeys(es)
  {
    forall i, j :: 0 <= i < j < |es| ==> KeyBelow(es[i].key.text, es[j].key.text)
  }

  ghost predicate AllAbove(prev: Option<seq<byte>>, es: seq<Entry>)
    requires StringKeys(es)
  {
    prev.Some? ==> forall i :: 0 <= i < |es| ==> BytesBelow(prev.value, TextBytes(es[i].key.text))
  }

  lemma {:induction false} OrderCheckExact(es: seq<Entry>, prev: Option<seq<byte>>)
    requires StringKeys(es)
    ensures CheckMetadataOrder(es, prev).None? <==> KeysSorted(es) && AllAbove(prev, es)
  {
    if es != [] {
      var key := TextBytes(es[0].key.text);
      OrderCheckExact(es[1..], Some(key));
      BytesBelowIsTotal();
      if CheckMetadataOrder(es, prev).None? {
        forall i, j | 0 <= i < j < |es| ensures KeyBelow(es[i].key.text, es[j].key.text) {
          assert es[j] == es[1..][j - 1];
          if i > 0 { assert es[i] == es[1..][i - 1]; }
        }
        forall i | 0 <= i < |es| ensures prev.Some? ==> BytesBelow(prev.value, TextBytes(es[i].key.text)) {
          if i > 0 { assert es[i] == es[1..][i - 1]; }
        }
      }
      if KeysSorted(es) && AllAbove(prev, es) {
        forall i | 0 <= i < |es[1..]| ensures KeyBelow(es[0].key.text, es[1..][i].key.text) {
          assert es[1..][i] == es[i + 1];
        }
        assert KeysSorted(es[1..]);
      }
    }
  }

  ghost predicate DistinctKeys(es: seq<Entry>, seen: set<Text>)
    requires StringKeys(es)
  {
    && (forall i :: 0 <= i < |es| ==> es[i].key.text !in seen)
    && (forall i, j :: 0 <= i < j < |es| ==> es[i].key.text != es[j].key.text)
  }

  lemma {:induction false} KeyCheckExact(es: seq<Entry>, seen: set<Text>)
    requires StringKeys(es)
    ensures CheckMetadataKeys(es, seen).None?
       <==> DistinctKeys(es, seen) && forall e <- es :: ValidMetadataKey(e.key.text)
  {
    if es != [] {
      var k := es[0].key.text;
      KeyCheckExact(es[1..], seen + {k});
      assert es == [es[0]] + es[1..];
      assert forall i :: 0 < i < |es| ==> es[i] == es[1..][i - 1];
      if DistinctKeys(es, seen) {
        assert forall i :: 0 <= i < |es[1..]| ==> es[1..][i] == es[i + 1];
        assert DistinctKeys(es[1..], seen + {k});
      }
    }
  }

  /** A value item and the metadata value it stands for. */
  lemma ValueExact(it: Item, v: MetadataValue)
    ensures MetadataValueOf(it) == Ok(v) <==> it == ItemOfValue(v) && ValidMetadataValue(v) && NormalValue(v)
  {
  }

  ghost predicate Collected(es: seq<Entry>, m0: map<Text, MetadataValue>, m: map<Text, MetadataValue>)
    requires StringKeys(es)
  {
    && (forall k :: k in m <==> k in m0 || exists i :: 0 <= i < |es| && es[i].key.text == k)
    && (forall k <- m0 :: k in m && m[k] == m0[k])
    && (forall i :: 0 <= i < |es| ==> es[i].key.text in m && MetadataValueOf(es[i].val) == Ok(m[es[i].key.text]))
  }

  lemma KeysOfCons(es: seq<Entry>, x: Text)
    requires es != [] && StringKeys(es)
    ensures (exists i :: 0 <= i < |es| && es[i].key.text == x)
       <==> es[0].key.text == x || exists i :: 0 <= i < |es[1..]| && es[1..][i].key.text == x
  {
    if i :| 0 <= i < |es| && es[i].key.text == x && i > 0 {
      assert es[1..][i - 1].key.text == x;
    }
    if i :| 0 <= i < |es[1..]| && es[1..][i].key.text == x {
      assert es[i + 1].key.text == x;
    }
  }

  lemma {:induction false} CollectSound(es: seq<Entry>, m0: map<Text, MetadataValue>, m: map<Text, MetadataValue>)
    requires StringKeys(es) && DistinctKeys(es, m0.Keys)
    requires CollectMetadata(es, m0) == Ok(m)
    ensures Collected(es, m0, m)
  {
    if es != [] {
      var k := es[0].key.text;
      var m1 := m0[k := MetadataValueOf(es[0].val).value];
      var rest := es[1..];
      assert forall i :: 0 < i < |es| ==> es[i] == rest[i - 1];
      assert forall i :: 0 <= i < |rest| ==> rest[i] == es[i + 1];
      CollectSound(rest, m1, m);
      forall x ensures x in m <==> x in m0 || exists i :: 0 <= i < |es| && es[i].key.text == x {
        KeysOfCons(es, x);
      }
    }
  }

  lemma {:induction false} CollectComplete(es: seq<Entry>, m0: map<Text, MetadataValue>, m: map<Text, MetadataValue>)
    requires StringKeys(es) && DistinctKeys(es, m0.Keys)
    requires Collected(es, m0, m)
    ensures CollectMetadata(es, m0) == Ok(m)
  {
    if es == [] {
      assert m == m0;
    } else {
      var k := es[0].key.text;
      var m1 := m0[k := m[k]];
      var rest := es[1..];
      assert forall i :: 0 < i < |es| ==> es[i] == rest[i - 1];
      assert forall i :: 0 <= i < |rest| ==> rest[i] == es[i + 1];
      forall x ensures x in m <==> x in m1 || exists i :: 0 <= i < |rest| && rest[i].key.text == x {
        KeysOfCons(es, x);
      }
      CollectComplete(rest, m1, m);
    }
  }

  ghost function KeysOf(es: seq<Entry>): seq<Text>
    requires StringKeys(es)
  {
    seq(|es|, i requires 0 <= i < |es| => es[i].key.text)
  }

  /** Sorted entries list the keys of the map they build in order. */
  lemma KeysOfIsSortedKeys(es: seq<Entry>, m: map<Text, MetadataValue>)
    requires StringKeys(es) && KeysSorted(es) && Collected(es, map[], m) && ShortKeys(m.Keys)
    ensures KeysOf(es) == SortedKeys(m.Keys) && |es| == |m|
  {
    var keys := KeysOf(es);
    forall k ensures k in keys <==> k in m.Keys {
      if i :| 0 <= i < |es| && es[i].key.text == k {
        assert keys[i] == k;
      }
    }
    assert Sorted(KeyBelow, keys);
    SortedKeysUnique(m.Keys, keys);
    SortedKeysAscend(m.Keys);
  }

  lemma CollectedAreValid(es: seq<Entry>, m: map<Text, MetadataValue>)
    requires StringKeys(es) && Collected(es, map[], m)
    requires forall e <- es :: ValidMetadataKey(e.key.text)
    ensures ShortKeys(m.Keys) && NormalMetadata(m)
    ensures forall k <- m :: ValidMetadataKey(k) && ValidMetadataValue(m[k])
  {
    forall k <- m ensures ValidMetadataKey(k) && ValidMetadataValue(m[k]) && NormalValue(m[k]) {
      var i :| 0 <= i < |es| && es[i].key.text == k;
      assert es[i] in es;
      ValueExact(es[i].val, m[k]);
    }
  }

  lemma CollectedAreEntries(es: seq<Entry>, m: map<Text, MetadataValue>)
    requires StringKeys(es) && Collected(es, map[], m)
    requires forall k <- KeysOf(es) :: k in m
    ensures es == MetadataEntries(KeysOf(es), m)
  {
    var keys := KeysOf(es);
    forall i | 0 <= i < |es| ensures es[i] == MetadataEntries(keys, m)[i] {
      ValueExact(es[i].val, m[keys[i]]);
    }
  }

  lemma MetadataSound(es: seq<Entry>, m: map<Text, MetadataValue>)
    requires DecodeMetadata(es) == Ok(m)
    ensures ValidMetadata(m) && NormalMetadata(m)
    ensures es == MetadataEntries(SortedKeys(m.Keys), m)
  {
    CheckedKeysAreStrings(es, {});
    KeyCheckExact(es, {});
    OrderCheckExact(es, None);
    CollectSound(es, map[], m);
    CollectedAreValid(es, m);
    KeysOfIsSortedKeys(es, m);
    CollectedAreEntries(es, m);
  }

  /** The entries of a map are what the collecting pass needs. */
  lemma EntriesAreCollected(m: map<Text, MetadataValue>, keys: seq<Text>, es: seq<Entry>)
    requires ValidMetadata(m) && NormalMetadata(m) && |es| == |keys|
    requires forall k :: k in keys <==> k in m
    requires forall i :: 0 <= i < |keys| ==> es[i] == Entry(Str(keys[i]), ItemOfValue(m[keys[i]]))
    ensures StringKeys(es) && Collected(es, map[], m)
  {
    forall i | 0 <= i < |es| ensures MetadataValueOf(es[i].val) == Ok(m[es[i].key.text]) {
      EntryIsCollected(m, keys[i], es[i]);
    }
    forall k ensures k in m <==> exists i :: 0 <= i < |es| && es[i].key.text == k {
      KeyIsEntered(keys, es, k);
    }
  }

  lemma EntryIsCollected(m: map<Text, MetadataValue>, k: Text, e: Entry)
    requires ValidMetadata(m) && NormalMetadata(m) && k in m && e == Entry(Str(k), ItemOfValue(m[k]))
    ensures MetadataValueOf(e.val) == Ok(m[k])
  {
    ValueExact(e.val, m[k]);
  }

  lemma KeyIsEntered(keys: seq<Text>, es: seq<Entry>, k: Text)
    requires |es| == |keys| && forall i :: 0 <= i < |keys| ==> es[i].key == Str(keys[i])
    ensures k in keys <==> exists i :: 0 <= i < |es| && es[i].key.text == k
  {
    if k in keys {
      var i :| 0 <= i < |keys| && keys[i] == k;
      assert es[i].key.text == k;
    }
  }

  lemma EntriesAreChecked(m: map<Text, MetadataValue>, keys: seq<Text>)
    requires forall k <- keys :: k in m && ValidMetadataKey(k)
    requires Sorted(KeyBelow, keys)
    ensures var es := MetadataEntries(keys, m);
            && StringKeys(es) && DistinctKeys(es, {}) && KeysSorted(es)
            && forall e <- es :: ValidMetadataKey(e.key.text)
  {
    var es := MetadataEntries(keys, m);
    KeyBelowIsStrict();
    forall e <- es ensures e.key.Str? && ValidMetadataKey(e.key.text) {
      var i :| 0 <= i < |es| && es[i] == e;
      assert keys[i] in keys;
    }
    assert forall i :: 0 <= i < |es| ==> es[i].key.text == keys[i];
  }

  lemma MetadataComplete(m: map<Text, MetadataValue>)
    requires ValidMetadata(m) && NormalMetadata(m)
    ensures DecodeMetadata(MetadataEntries(SortedKeys(m.Keys), m)) == Ok(m)
  {
    var keys := SortedKeys(m.Keys);
    var es := MetadataEntries(keys, m);
    SortedKeysAscend(m.Keys);
    EntriesAreChecked(m, keys);
    EntriesAreCollected(m, keys, es);
    KeyCheckExact(es, {});
    OrderCheckExact(es, None);
    CollectComplete(es, map[], m);
  }

  // ---------- Top-level entries ----------

  function Last(st: Progress): nat {
    if st.prev.None? then 0 else st.prev.value
  }

  /** Only fields up to the last key have been stored. */
  ghost predicate Consistent(st: Progress) {
    && Last(st) <= 5
    && (forall k <- st.seen :: k <= Last(st))
    && (st.prev.Some? ==> st.prev.value in st.seen)
    && ShortKeys(st.ext.metadata.Keys)
    && (Last(st) < 1 ==> st.ext.initialNotBefore.None?)
    && (Last(st) < 2 ==> st.ext.contentType == [])
    && (Last(st) < 3 ==> st.ext.metadata == map[])
    && (Last(st) < 4 ==> st.ext.producerId.None?)
    && (Last(st) < 5 ==> st.ext.traceContext.None?)
  }

  /** `a` and `b` agree on the fields with keys up to `key`. */
  ghost predicate AgreeUpTo(a: ExtensionHeader, b: ExtensionHeader, key: nat) {
    && (key >= 1 ==> a.initialNotBefore == b.initialNotBefore)
    && (key >= 2 ==> a.contentType == b.contentType)
    && (key >= 3 ==> a.metadata == b.metadata)
    && (key >= 4 ==> a.producerId == b.producerId)
    && (key >= 5 ==> a.traceContext == b.traceContext)
  }

  /** The fields with keys from `key` on pass their checks. */
  ghost predicate ValidFrom(h: ExtensionHeader, key: nat) {
    && (key <= 2 ==> ValidContentType(h.contentType))
    && (key <= 3 ==> ValidMetadata(h.metadata) && NormalMetadata(h.metadata))
    && (key <= 4 ==> ValidProducerId(h.producerId))
    && (key <= 5 ==> ValidTraceContext(h.traceContext))
  }

  ghost predicate Absent(h: ExtensionHeader, key: nat) {
    match key
    case 1 => h.initialNotBefore.None?
    case 2 => h.contentType == []
    case 3 => h.metadata == map[]
    case 4 => h.producerId.None?
    case 5 => h.traceContext.None?
    case _ => true
  }

  /** `a` and `b` agree on every field but the one with key `key`. */
  ghost predicate AgreeExcept(a: ExtensionHeader, b: ExtensionHeader, key: nat) {
    && (key != 1 ==> a.initialNotBefore == b.initialNotBefore)
    && (key != 2 ==> a.contentType == b.contentType)
    && (key != 3 ==> a.metadata == b.metadata)
    && (key != 4 ==> a.producerId == b.producerId)
    && (key != 5 ==> a.traceContext == b.traceContext)
  }

  lemma StoresOneField(ext: ExtensionHeader, key: u64, val: Item, next: ExtensionHeader)
    requires StoreField(ext, key, val) == Ok(next) && ShortKeys(ext.metadata.Keys)
    ensures 1 <= key <= 5 && AgreeExcept(ext, next, key) && ShortKeys(next.metadata.Keys)
  {
    if key == 3 { MetadataSound(val.entries, next.metadata); }
  }

  lemma FieldAdvances(st: Progress, key: u64, next: Progress)
    requires Consistent(st) && key !in st.seen && (st.prev.Some? ==> st.prev.value <= key) && 1 <= key <= 5
    requires next.prev == Some(key) && next.seen == st.seen + {key}
    requires AgreeExcept(st.ext, next.ext, key) && ShortKeys(next.ext.metadata.Keys)
    ensures Consistent(next) && Last(st) < Last(next)
    ensures AgreeUpTo(st.ext, next.ext, Last(next) - 1)
    ensures forall j :: Last(st) < j < Last(next) ==> Absent(next.ext, j)
  {
  }

  /** An accepted entry moves on to a later key and changes nothing before it. */
  lemma EntryAdvances(st: Progress, e: Entry, next: Progress)
    requires Consistent(st) && AbsorbEntry(st, e) == Ok(next)
    ensures Consistent(next) && Last(st) < Last(next)
    ensures AgreeUpTo(st.ext, next.ext, Last(next) - 1)
    ensures forall j :: Last(st) < j < Last(next) ==> Absent(next.ext, j)
  {
    StoresOneField(st.ext, e.key.n, e.val, next.ext);
    FieldAdvances(st, e.key.n, next);
  }

  /** What an accepted entry stores is valid and is what the entry says. */
  lemma EntrySound(st: Progress, e: Entry, next: Progress)
    requires Consistent(st) && AbsorbEntry(st, e) == Ok(next)
    ensures Consistent(next) && Last(st) < Last(next)
    ensures AgreeUpTo(st.ext, next.ext, Last(next) - 1)
    ensures forall j :: Last(st) < j < Last(next) ==> Absent(next.ext, j)
    ensures Last(next) == 2 ==> ValidContentType(next.ext.contentType)
    ensures Last(next) == 3 ==> ValidMetadata(next.ext.metadata) && NormalMetadata(next.ext.metadata)
    ensures Last(next) == 4 ==> ValidProducerId(next.ext.producerId)
    ensures Last(next) == 5 ==> ValidTraceContext(next.ext.traceContext)
    ensures FieldEntries(next.ext, Last(next), Last(next) == 3 && next.ext.metadata == map[]) == [e]
  {
    EntryAdvances(st, e, next);
    if e.key.n == 3 {
      MetadataSound(e.val.entries, next.ext.metadata);
    }
  }

  lemma {:induction false} SkipAbsent(h: ExtensionHeader, lo: nat, hi: nat, explicit: bool)
    requires ShortKeys(h.metadata.Keys) && 1 <= lo <= hi <= 6
    requires forall j :: lo <= j < hi ==> FieldEntries(h, j, explicit) == []
    ensures EntriesFrom(h, lo, explicit) == EntriesFrom(h, hi, explicit)
    decreases hi - lo
  {
    if lo < hi { SkipAbsent(h, lo + 1, hi, explicit); }
  }

  lemma ExplicitOnlyAtMetadata(h: ExtensionHeader, key: nat, a: bool, b: bool)
    requires ShortKeys(h.metadata.Keys) && key > 3
    ensures EntriesFrom(h, key, a) == EntriesFrom(h, key, b)
  {
  }

  /** Accepted entries are the entries of the header they build. */
  lemma {:induction false} AbsorbAgrees(st: Progress, es: seq<Entry>, fin: Progress)
    requires Consistent(st) && AbsorbEntries(st, es) == Ok(fin) && fin.ext.contentType != []
    ensures AgreeUpTo(st.ext, fin.ext, Last(st))
    ensures ValidFrom(fin.ext, Last(st) + 1)
    ensures ShortKeys(st.ext.metadata.Keys) ==> ShortKeys(fin.ext.metadata.Keys)
    decreases |es|
  {
    if es != [] {
      var next := AbsorbEntry(st, es[0]).value;
      EntrySound(st, es[0], next);
      AbsorbAgrees(next, es[1..], fin);
    }
  }

  lemma {:induction false} AbsorbSound(st: Progress, es: seq<Entry>, fin: Progress) returns (explicit: bool)
    requires Consistent(st) && AbsorbEntries(st, es) == Ok(fin) && fin.ext.contentType != []
    requires ShortKeys(fin.ext.metadata.Keys)
    ensures explicit ==> fin.ext.metadata == map[]
    ensures es == EntriesFrom(fin.ext, Last(st) + 1, explicit)
    decreases |es|
  {
    if es == [] {
      explicit := false;
      SkipAbsent(fin.ext, Last(st) + 1, 6, explicit);
    } else {
      var next := AbsorbUnfold(st, es, fin);
      EntryAdvances(st, es[0], next);
      AbsorbAgrees(next, es[1..], fin);
      var later := AbsorbSound(next, es[1..], fin);
      explicit := ExplicitFrom(Last(next), fin.ext, later);
      AbsorbStep(st, es, next, fin.ext, later);
    }
  }

  lemma AbsorbUnfold(st: Progress, es: seq<Entry>, fin: Progress) returns (next: Progress)
    requires es != [] && AbsorbEntries(st, es) == Ok(fin)
    ensures AbsorbEntry(st, es[0]) == Ok(next) && AbsorbEntries(next, es[1..]) == Ok(fin)
  {
    next := AbsorbEntry(st, es[0]).value;
  }

  lemma AbsorbStep(st: Progress, es: seq<Entry>, next: Progress, h: ExtensionHeader, later: bool)
    requires Consistent(st) && es != [] && AbsorbEntry(st, es[0]) == Ok(next)
    requires ShortKeys(h.metadata.Keys) && h.contentType != [] && AgreeUpTo(next.ext, h, Last(next))
    requires es[1..] == EntriesFrom(h, Last(next) + 1, later)
    ensures es == EntriesFrom(h, Last(st) + 1, ExplicitFrom(Last(next), h, later))
  {
    EntryIsField(st, es[0], next, Last(st) + 1, Last(next));
    JoinEntries(next.ext, h, Last(st) + 1, Last(next), es[0], es[1..], later);
    FirstAndRest(es);
  }

  lemma EntryIsField(st: Progress, e: Entry, next: Progress, lo: nat, key: nat)
    requires Consistent(st) && AbsorbEntry(st, e) == Ok(next) && lo == Last(st) + 1 && key == Last(next)
    ensures 1 <= lo <= key <= 5 && ShortKeys(next.ext.metadata.Keys)
    ensures forall j :: lo <= j < key ==> Absent(next.ext, j)
    ensures FieldEntries(next.ext, key, key == 3 && next.ext.metadata == map[]) == [e]
  {
    EntrySound(st, e, next);
  }

  /** Whether the metadata map is written as an explicit empty one. */
  ghost predicate ExplicitFrom(key: nat, h: ExtensionHeader, later: bool) {
    if key < 3 then later else key == 3 && h.metadata == map[]
  }

  /** An accepted entry in front of the entries of the later fields. */
  lemma JoinEntries(a: ExtensionHeader, h: ExtensionHeader, lo: nat, key: nat, e: Entry, rest: seq<Entry>, later: bool)
    requires ShortKeys(a.metadata.Keys) && ShortKeys(h.metadata.Keys) && 1 <= lo <= key <= 5
    requires AgreeUpTo(a, h, key) && h.contentType != []
    requires forall j :: lo <= j < key ==> Absent(a, j)
    requires FieldEntries(a, key, key == 3 && a.metadata == map[]) == [e]
    requires rest == EntriesFrom(h, key + 1, later)
    ensures [e] + rest == EntriesFrom(h, lo, ExplicitFrom(key, h, later))
  {
    var explicit := ExplicitFrom(key, h, later);
    if key >= 3 { ExplicitOnlyAtMetadata(h, key + 1, later, explicit); }
    FieldsCarried(a, h, lo, key, explicit);
    SkipAbsent(h, lo, key, explicit);
    assert FieldEntries(h, key, explicit) == [e];
  }

  lemma FieldsCarried(a: ExtensionHeader, h: ExtensionHeader, lo: nat, key: nat, explicit: bool)
    requires ShortKeys(h.metadata.Keys) && 1 <= lo <= key <= 5
    requires AgreeUpTo(a, h, key) && h.contentType != [] && (key > 3 ==> !explicit)
    requires forall j :: lo <= j < key ==> Absent(a, j)
    ensures forall j :: lo <= j < key ==> FieldEntries(h, j, explicit) == []
  {
    forall j | lo <= j < key ensures FieldEntries(h, j, explicit) == [] {
      assert Absent(a, j);
    }
  }

  /** Nothing is stored under keys from `key` on. */
  ghost predicate DefaultFrom(h: ExtensionHeader, key: nat) {
    forall j :: key <= j <= 5 ==> Absent(h, j)
  }

  lemma FieldComplete(h: ExtensionHeader, key: nat, explicit: bool, st: Progress) returns (next: Progress)
    requires ValidHeader(h) && NormalMetadata(h.metadata) && (explicit ==> h.metadata == map[])
    requires 1 <= key <= 5 && Consistent(st) && Last(st) < key
    requires AgreeUpTo(st.ext, h, key - 1) && DefaultFrom(st.ext, key)
    requires FieldEntries(h, key, explicit) != []
    ensures AbsorbEntry(st, FieldEntries(h, key, explicit)[0]) == Ok(next)
    ensures Consistent(next) && Last(next) == key
    ensures AgreeUpTo(next.ext, h, key) && DefaultFrom(next.ext, key + 1)
  {
    assert forall j :: key <= j <= 5 ==> Absent(st.ext, j);
    if key == 3 { MetadataComplete(h.metadata); }
    var e := FieldEntries(h, key, explicit)[0];
    next := AbsorbEntry(st, e).value;
  }

  lemma {:induction false} AbsorbComplete(h: ExtensionHeader, key: nat, explicit: bool, st: Progress)
    requires ValidHeader(h) && NormalMetadata(h.metadata) && (explicit ==> h.metadata == map[])
    requires 1 <= key <= 6 && Consistent(st) && Last(st) < key
    requires AgreeUpTo(st.ext, h, key - 1) && DefaultFrom(st.ext, key)
    ensures AbsorbEntries(st, EntriesFrom(h, key, explicit)).Ok?
    ensures AbsorbEntries(st, EntriesFrom(h, key, explicit)).value.ext == h
    decreases 6 - key
  {
    if key > 5 {
      AgreeAll(st.ext, h);
    } else {
      var rest := EntriesFrom(h, key + 1, explicit);
      if FieldEntries(h, key, explicit) == [] {
        AbsentCarried(st.ext, h, key, explicit);
        AbsorbComplete(h, key + 1, explicit, st);
        assert EntriesFrom(h, key, explicit) == rest;
      } else {
        var next := FieldComplete(h, key, explicit, st);
        AbsorbComplete(h, key + 1, explicit, next);
        var e := FieldEntries(h, key, explicit)[0];
        assert EntriesFrom(h, key, explicit) == [e] + rest;
        AbsorbCons(st, e, rest, next);
      }
    }
  }

  lemma AgreeAll(a: ExtensionHeader, h: ExtensionHeader)
    requires AgreeUpTo(a, h, 5)
    ensures a == h
  {
  }

  lemma AbsentCarried(a: ExtensionHeader, h: ExtensionHeader, key: nat, explicit: bool)
    requires ShortKeys(h.metadata.Keys) && 1 <= key <= 5 && AgreeUpTo(a, h, key - 1) && DefaultFrom(a, key)
    requires FieldEntries(h, key, explicit) == []
    ensures AgreeUpTo(a, h, key) && DefaultFrom(a, key + 1)
  {
    assert Absent(a, key);
  }

  lemma AbsorbCons(st: Progress, e: Entry, rest: seq<Entry>, next: Progress)
    requires AbsorbEntry(st, e) == Ok(next)
    ensures AbsorbEntries(st, [e] + rest) == AbsorbEntries(next, rest)
  {
    assert ([e] + rest)[0] == e && ([e] + rest)[1..] == rest;
  }

  lemma HeaderOfForm(h: ExtensionHeader, explicit: bool, es: seq<Entry>)
    requires ValidHeader(h) && NormalMetadata(h.metadata) && (explicit ==> h.metadata == map[])
    requires es == EntriesFrom(h, 1, explicit)
    ensures HeaderOf(es) == Ok(h)
  {
    AbsorbComplete(h, 1, explicit, START);
  }

  lemma HeaderOfSound(es: seq<Entry>, h: ExtensionHeader, start: Progress) returns (explicit: bool)
    requires HeaderOf(es) == Ok(h) && start == START
    ensures ValidHeader(h) && NormalMetadata(h.metadata)
    ensures (explicit ==> h.metadata == map[]) && es == EntriesFrom(h, 1, explicit)
  {
    var fin := AbsorbEntries(start, es).value;
    AbsorbAgrees(start, es, fin);
    explicit := AbsorbSound(start, es, fin);
  }

  lemma HeaderOfExact(es: seq<Entry>, h: ExtensionHeader)
    ensures HeaderOf(es) == Ok(h)
       <==> && ValidHeader(h) && NormalMetadata(h.metadata)
            && exists explicit :: (explicit ==> h.metadata == map[]) && es == EntriesFrom(h, 1, explicit)
  {
    if HeaderOf(es) == Ok(h) { var explicit := HeaderOfSound(es, h, START); }
    if explicit: bool :| && ValidHeader(h) && NormalMetadata(h.metadata)
                         && (explicit ==> h.metadata == map[]) && es == EntriesFrom(h, 1, explicit) {
      HeaderOfForm(h, explicit, es);
    }
  }

  // ---------- Items against bytes ----------

  lemma {:induction false} EntryListConcat(a: seq<Entry>, b: seq<Entry>)
    ensures EntryListBytes(a + b) == EntryListBytes(a) + EntryListBytes(b)
    decreases |a|
  {
    if a == [] {
      assert a + b == b;
    } else {
      EntryListConcat(a[1..], b);
      assert (a + b)[0] == a[0] && (a + b)[1..] == a[1..] + b;
      Assoc(ItemBytes(a[0].key) + ItemBytes(a[0].val), EntryListBytes(a[1..]), EntryListBytes(b));
    }
  }

  lemma EntryListSingle(e: Entry)
    ensures EntryListBytes([e]) == ItemBytes(e.key) + ItemBytes(e.val)
  {
  }

  lemma EntryListStep(es: seq<Entry>, key: seq<byte>, val: seq<byte>, rest: seq<byte>)
    requires es != [] && ItemBytes(es[0].key) == key && ItemBytes(es[0].val) == val
    requires EntryListBytes(es[1..]) == rest
    ensures EntryListBytes(es) == key + val + rest
  {
  }

  lemma {:induction false} MetadataEntriesBytes(keys: seq<Text>, m: map<Text, MetadataValue>)
    requires forall k <- keys :: k in m
    ensures EntryListBytes(MetadataEntries(keys, m)) == EntriesBytes(keys, m)
    decreases |keys|
  {
    if keys != [] {
      MetadataEntriesBytes(keys[1..], m);
      MetadataEntriesStep(keys, m, MetadataEntries(keys, m), EntriesBytes(keys[1..], m));
    }
  }

  lemma MetadataEntriesStep(keys: seq<Text>, m: map<Text, MetadataValue>, es: seq<Entry>, rest: seq<byte>)
    requires keys != [] && (forall k <- keys :: k in m) && es == MetadataEntries(keys, m)
    requires rest == EntryListBytes(MetadataEntries(keys[1..], m)) == EntriesBytes(keys[1..], m)
    ensures EntryListBytes(es) == EntriesBytes(keys, m)
  {
    assert es[1..] == MetadataEntries(keys[1..], m);
    ValueItemBytes(m[keys[0]]);
    EntryListStep(es, TextBytes(keys[0]), ValueBytes(m[keys[0]]), rest);
  }

  lemma ValueItemBytes(v: MetadataValue)
    ensures ItemBytes(ItemOfValue(v)) == ValueBytes(v)
  {
  }

  /** Bytes of the metadata field. */
  ghost function MetadataFieldBytes(h: ExtensionHeader, explicit: bool): seq<byte>
    requires ShortKeys(h.metadata.Keys)
  {
    if explicit && h.metadata == map[] then [0x03, 0xA0] else MetadataBytes(h)
  }

  lemma FieldBytes(h: ExtensionHeader, explicit: bool)
    requires ShortKeys(h.metadata.Keys)
    ensures EntryListBytes(FieldEntries(h, 1, explicit)) == NotBeforeBytes(h)
    ensures EntryListBytes(FieldEntries(h, 2, explicit)) == ContentTypeBytes(h)
    ensures EntryListBytes(FieldEntries(h, 4, explicit)) == ProducerIdBytes(h)
    ensures EntryListBytes(FieldEntries(h, 5, explicit)) == TraceContextBytes(h)
  {
    forall key | key == 1 || key == 2 || key == 4 || key == 5
      ensures FieldEntries(h, key, explicit) != [] ==>
                var e := FieldEntries(h, key, explicit)[0];
                EntryListBytes(FieldEntries(h, key, explicit)) == ItemBytes(e.key) + ItemBytes(e.val)
    {
      if FieldEntries(h, key, explicit) != [] { EntryListSingle(FieldEntries(h, key, explicit)[0]); }
    }
  }

  /** The metadata entry: its key, the map head and the sorted entries. */
  lemma MetadataEntryBytes(m: map<Text, MetadataValue>, count: nat, body: seq<byte>)
    requires ShortKeys(m.Keys) && count == |m| && body == EntriesBytes(SortedKeys(m.Keys), m)
    ensures EntryListBytes([Entry(UInt(3), MetadataItem(m))]) == Head(0, 3) + Head(5, count) + body
  {
    var es := MetadataEntries(SortedKeys(m.Keys), m);
    MetadataEntriesBytes(SortedKeys(m.Keys), m);
    SortedKeysAscend(m.Keys);
    MapBytes(es, count, body);
    MapEntryBytes(es, Head(5, count), body);
  }

  lemma MapEntryBytes(es: seq<Entry>, head: seq<byte>, body: seq<byte>)
    requires ItemBytes(Map(es)) == head + body
    ensures EntryListBytes([Entry(UInt(3), Map(es))]) == Head(0, 3) + head + body
  {
  }

  lemma MetadataFieldExact(h: ExtensionHeader, explicit: bool)
    requires ShortKeys(h.metadata.Keys)
    ensures EntryListBytes(FieldEntries(h, 3, explicit)) == MetadataFieldBytes(h, explicit)
  {
    var body := EntriesBytes(SortedKeys(h.metadata.Keys), h.metadata);
    MetadataEntryBytes(h.metadata, |h.metadata|, body);
    if h.metadata == map[] {
      assert SortedKeys({}) == [] && body == [];
      assert Head(0, 3) == [0x03] && Head(5, 0) == [0xA0];
    }
  }

  /** The entries of the header, field by field. */
  lemma HeaderEntryBytes(h: ExtensionHeader, explicit: bool)
    requires ShortKeys(h.metadata.Keys)
    ensures EntryListBytes(EntriesFrom(h, 1, explicit))
         == NotBeforeBytes(h) + (ContentTypeBytes(h) + (MetadataFieldBytes(h, explicit)
            + (ProducerIdBytes(h) + TraceContextBytes(h))))
  {
    FieldBytes(h, explicit);
    MetadataFieldExact(h, explicit);
    assert EntriesFrom(h, 6, explicit) == [];
    EntryListConcat(FieldEntries(h, 5, explicit), EntriesFrom(h, 6, explicit));
    EntryListConcat(FieldEntries(h, 4, explicit), EntriesFrom(h, 5, explicit));
    EntryListConcat(FieldEntries(h, 3, explicit), EntriesFrom(h, 4, explicit));
    EntryListConcat(FieldEntries(h, 2, explicit), EntriesFrom(h, 3, explicit));
    EntryListConcat(FieldEntries(h, 1, explicit), EntriesFrom(h, 2, explicit));
    assert EntryListBytes([]) == [];
    assert TraceContextBytes(h) + [] == TraceContextBytes(h);
  }

  lemma HeaderEntryCount(h: ExtensionHeader, explicit: bool)
    requires ShortKeys(h.metadata.Keys) && (explicit ==> h.metadata == map[])
    ensures |EntriesFrom(h, 1, explicit)| == EntryCount(h) + Flag(explicit)
  {
  }

  /** Like the encoding of `h`, with the metadata field given. */
  ghost function BytesWith(h: ExtensionHeader, count: nat, metadata: seq<byte>): seq<byte> {
    Head(5, count) + NotBeforeBytes(h) + ContentTypeBytes(h) + metadata + ProducerIdBytes(h) + TraceContextBytes(h)
  }

  /** The one other accepted form: an explicit empty map under key 3. */
  ghost function ExplicitEmptyBytes(h: ExtensionHeader): seq<byte> {
    BytesWith(h, EntryCount(h) + 1, [0x03, 0xA0])
  }

  lemma Regroup(a: seq<byte>, b: seq<byte>, c: seq<byte>, d: seq<byte>, e: seq<byte>, f: seq<byte>)
    ensures a + (b + (c + (d + (e + f)))) == a + b + c + d + e + f
  {
  }

  lemma MapBytes(es: seq<Entry>, count: nat, body: seq<byte>)
    requires count == |es| && body == EntryListBytes(es)
    ensures ItemBytes(Map(es)) == Head(5, count) + body
  {
  }

  lemma HeaderItemParts(h: ExtensionHeader, explicit: bool, count: nat)
    requires ShortKeys(h.metadata.Keys) && count == |EntriesFrom(h, 1, explicit)|
    ensures ItemBytes(HeaderItem(h, explicit)) == BytesWith(h, count, MetadataFieldBytes(h, explicit))
  {
    HeaderEntryBytes(h, explicit);
    MapBytes(EntriesFrom(h, 1, explicit), count, EntryListBytes(EntriesFrom(h, 1, explicit)));
    Regroup(Head(5, count), NotBeforeBytes(h), ContentTypeBytes(h), MetadataFieldBytes(h, explicit),
            ProducerIdBytes(h), TraceContextBytes(h));
  }

  /** The two byte strings that stand for `h`. */
  ghost function FormBytes(h: ExtensionHeader, explicit: bool): seq<byte>
    requires ShortKeys(h.metadata.Keys)
  {
    if explicit then ExplicitEmptyBytes(h) else HeaderBytes(h)
  }

  lemma HeaderItemBytes(h: ExtensionHeader, explicit: bool)
    requires ShortKeys(h.metadata.Keys) && (explicit ==> h.metadata == map[])
    ensures ItemBytes(HeaderItem(h, explicit)) == FormBytes(h, explicit)
  {
    HeaderEntryCount(h, explicit);
    if explicit {
      HeaderItemParts(h, true, EntryCount(h) + 1);
      assert MetadataFieldBytes(h, true) == [0x03, 0xA0];
    } else {
      HeaderItemParts(h, false, EntryCount(h));
    }
  }

  // ---------- The decoder, exactly ----------

  lemma ScalarFits(it: Item, depth: nat)
    requires depth <= 2 && !it.Map? && (it.NInt? ==> it.n <= I64_MAX)
    ensures Fits(it, depth)
  {
  }

  lemma EntriesFit(keys: seq<Text>, m: map<Text, MetadataValue>)
    requires forall k <- keys :: k in m
    ensures forall e <- MetadataEntries(keys, m) :: Fits(e.key, 2) && Fits(e.val, 2)
  {
  }

  lemma MetadataItemFits(m: map<Text, MetadataValue>)
    requires ValidMetadata(m)
    ensures Fits(MetadataItem(m), 1)
  {
    SortedKeysAscend(m.Keys);
    EntriesFit(SortedKeys(m.Keys), m);
  }

  lemma FieldFits(h: ExtensionHeader, key: nat, explicit: bool)
    requires ValidHeader(h) && 1 <= key <= 5
    ensures |FieldEntries(h, key, explicit)| <= 1
    ensures forall e <- FieldEntries(h, key, explicit) :: Fits(e.key, 1) && Fits(e.val, 1)
  {
    forall e <- FieldEntries(h, key, explicit) ensures Fits(e.key, 1) && Fits(e.val, 1) {
      ScalarFits(e.key, 1);
      if key == 3 { MetadataItemFits(h.metadata); } else { ScalarFits(e.val, 1); }
    }
  }

  lemma {:induction false} FieldsFit(h: ExtensionHeader, key: nat, explicit: bool)
    requires ValidHeader(h) && 1 <= key
    ensures |EntriesFrom(h, key, explicit)| <= 6 - Min(key, 6)
    ensures forall e <- EntriesFrom(h, key, explicit) :: Fits(e.key, 1) && Fits(e.val, 1)
    decreases 6 - key
  {
    if key <= 5 {
      FieldsFit(h, key + 1, explicit);
      FieldFits(h, key, explicit);
    }
  }

  lemma HeaderItemFits(h: ExtensionHeader, explicit: bool)
    requires ValidHeader(h)
    ensures Fits(HeaderItem(h, explicit), 0)
  {
    FieldsFit(h, 1, explicit);
  }

  /** The input is the canonical encoding of one map. */
  lemma DecodeItems(b: seq<byte>, item: Item, h: ExtensionHeader)
    requires |b| <= MAX_EXTENSION_SIZE && item.Map?
    requires Fits(item, 0) && b == ItemBytes(item)
    requires HeaderOf(item.entries) == Ok(h)
    ensures DecodeHeader(b) == Ok(h)
  {
    assert b[0..0 + |b|] == b;
    ItemParseExact(b, 0, 0, item, |b|);
  }

  /** A header and a choice of form together determine an accepted input. */
  lemma FormIsAccepted(h: ExtensionHeader, explicit: bool, b: seq<byte>)
    requires ValidHeader(h) && NormalMetadata(h.metadata) && (explicit ==> h.metadata == map[])
    requires b == FormBytes(h, explicit) && |b| <= MAX_EXTENSION_SIZE
    ensures DecodeHeader(b) == Ok(h)
  {
    var item := HeaderItem(h, explicit);
    HeaderItemBytes(h, explicit);
    HeaderItemFits(h, explicit);
    HeaderOfForm(h, explicit, item.entries);
    DecodeItems(b, item, h);
  }

  /** The input parses to one map with these entries. */
  predicate ParsesTo(b: seq<byte>, es: seq<Entry>) {
    ParseItem(b, 0, 0).Ok? && ParseItem(b, 0, 0).value.0 == Map(es)
  }

  lemma AcceptedItems(b: seq<byte>, h: ExtensionHeader) returns (es: seq<Entry>)
    requires DecodeHeader(b) == Ok(h)
    ensures ParsesTo(b, es) && |b| <= MAX_EXTENSION_SIZE && b == ItemBytes(Map(es)) && HeaderOf(es) == Ok(h)
  {
    es := ParseItem(b, 0, 0).value.0.entries;
    ItemParseExact(b, 0, 0, Map(es), |b|);
    assert b == b[0..0 + |b|];
  }

  lemma AcceptedIsForm(b: seq<byte>, h: ExtensionHeader) returns (explicit: bool)
    requires DecodeHeader(b) == Ok(h)
    ensures |b| <= MAX_EXTENSION_SIZE && ValidHeader(h) && NormalMetadata(h.metadata)
    ensures (explicit ==> h.metadata == map[]) && b == FormBytes(h, explicit)
  {
    var es := AcceptedItems(b, h);
    HeaderOfExact(es, h);
    explicit :| (explicit ==> h.metadata == map[]) && es == EntriesFrom(h, 1, explicit);
    HeaderItemBytes(h, explicit);
  }

  /**
   The decoder returns `h` for exactly these inputs: the encoding of `h`, and for
   a header without metadata the same with an explicit empty map under key 3.
   */
  lemma DecodeExact(b: seq<byte>, h: ExtensionHeader)
    ensures DecodeHeader(b) == Ok(h)
       <==> && |b| <= MAX_EXTENSION_SIZE
            && ValidHeader(h) && NormalMetadata(h.metadata)
            && (b == HeaderBytes(h) || (h.metadata == map[] && b == ExplicitEmptyBytes(h)))
  {
    if DecodeHeader(b) == Ok(h) {
      var explicit := AcceptedIsForm(b, h);
    }
    if |b| <= MAX_EXTENSION_SIZE && ValidHeader(h) && NormalMetadata(h.metadata) {
      if b == HeaderBytes(h) {
        FormIsAccepted(h, false, b);
      } else if h.metadata == map[] && b == ExplicitEmptyBytes(h) {
        FormIsAccepted(h, true, b);
      }
    }
  }

  // ---------- Round trips ----------

  lemma {:induction false} NormalizeEntries(keys: seq<Text>, m: map<Text, MetadataValue>, n: map<Text, MetadataValue>)
    requires m.Keys == n.Keys && forall k <- m :: n[k] == NormalizeValue(m[k])
    requires forall k <- keys :: k in m
    ensures EntriesBytes(keys, m) == EntriesBytes(keys, n)
  {
    if keys != [] {
      NormalizeEntries(keys[1..], m, n);
      assert keys[0] in m;
    }
  }

  lemma NormalizeIsNormal(h: ExtensionHeader)
    requires ValidHeader(h)
    ensures ValidHeader(Normalize(h)) && NormalMetadata(Normalize(h).metadata)
  {
    assert Normalize(h).metadata.Keys == h.metadata.Keys;
    assert |Normalize(h).metadata| == |Normalize(h).metadata.Keys|;
  }

  lemma NormalizeKeepsMetadata(h: ExtensionHeader, n: ExtensionHeader)
    requires ShortKeys(h.metadata.Keys) && n == Normalize(h)
    ensures n.metadata.Keys == h.metadata.Keys && (n.metadata == map[] <==> h.metadata == map[])
    ensures MetadataBytes(n) == MetadataBytes(h)
  {
    assert n.metadata.Keys == h.metadata.Keys;
    assert |n.metadata| == |n.metadata.Keys| == |h.metadata|;
    NormalizeEntries(SortedKeys(h.metadata.Keys), h.metadata, n.metadata);
  }

  /** The bytes depend on the metadata only through its own encoding. */
  lemma SameFieldsSameBytes(h: ExtensionHeader, n: ExtensionHeader)
    requires ShortKeys(h.metadata.Keys) && ShortKeys(n.metadata.Keys)
    requires n.(metadata := h.metadata) == h
    requires MetadataBytes(n) == MetadataBytes(h) && (n.metadata == map[] <==> h.metadata == map[])
    ensures HeaderBytes(n) == HeaderBytes(h)
  {
    SameOtherFields(h, n);
    JoinFields(h, EntryCount(h), NotBeforeBytes(h), ContentTypeBytes(h), MetadataBytes(h), ProducerIdBytes(h),
               TraceContextBytes(h));
    JoinFields(n, EntryCount(h), NotBeforeBytes(h), ContentTypeBytes(h), MetadataBytes(h), ProducerIdBytes(h),
               TraceContextBytes(h));
  }

  lemma SameOtherFields(h: ExtensionHeader, n: ExtensionHeader)
    requires n.initialNotBefore == h.initialNotBefore && n.contentType == h.contentType
    requires n.producerId == h.producerId && n.traceContext == h.traceContext
    requires n.metadata == map[] <==> h.metadata == map[]
    ensures EntryCount(n) == EntryCount(h)
    ensures NotBeforeBytes(n) == NotBeforeBytes(h) && ContentTypeBytes(n) == ContentTypeBytes(h)
    ensures ProducerIdBytes(n) == ProducerIdBytes(h) && TraceContextBytes(n) == TraceContextBytes(h)
  {
  }

  lemma JoinFields(h: ExtensionHeader, count: nat, notBefore: seq<byte>, contentType: seq<byte>, metadata: seq<byte>,
                   producerId: seq<byte>, traceContext: seq<byte>)
    requires ShortKeys(h.metadata.Keys) && count == EntryCount(h) && notBefore == NotBeforeBytes(h)
    requires contentType == ContentTypeBytes(h) && metadata == MetadataBytes(h)
    requires producerId == ProducerIdBytes(h) && traceContext == TraceContextBytes(h)
    ensures HeaderBytes(h) == Head(5, count) + notBefore + contentType + metadata + producerId + traceContext
  {
  }

  lemma NormalizeKeepsBytes(h: ExtensionHeader)
    requires ValidHeader(h)
    ensures ValidHeader(Normalize(h)) && NormalMetadata(Normalize(h).metadata)
    ensures HeaderBytes(Normalize(h)) == HeaderBytes(h)
  {
    NormalizeIsNormal(h);
    NormalizeKeepsMetadata(h, Normalize(h));
    SameFieldsSameBytes(h, Normalize(h));
  }

  /** Decoding an encoded header gives it back, in normal form. */
  lemma EncodeThenDecode(h: ExtensionHeader)
    requires ValidHeader(h) && |HeaderBytes(h)| <= MAX_EXTENSION_SIZE
    ensures DecodeHeader(HeaderBytes(h)) == Ok(Normalize(h))
  {
    NormalizeKeepsBytes(h);
    DecodeExact(HeaderBytes(h), Normalize(h));
  }

  lemma FormsDiffer(h: ExtensionHeader)
    requires ShortKeys(h.metadata.Keys) && h.metadata == map[]
    ensures HeaderBytes(h) != ExplicitEmptyBytes(h)
  {
  }

  /** The input parses to a map in which key 3 carries an empty map. */
  predicate CarriesEmptyMap(b: seq<byte>) {
    && ParseItem(b, 0, 0).Ok? && ParseItem(b, 0, 0).value.0.Map?
    && Entry(UInt(3), Map([])) in ParseItem(b, 0, 0).value.0.entries
  }

  lemma {:induction false} EmptyMapEntry(h: ExtensionHeader, key: nat, explicit: bool, e: Entry)
    requires ShortKeys(h.metadata.Keys) && (explicit ==> h.metadata == map[]) && e == Entry(UInt(3), Map([]))
    ensures e in EntriesFrom(h, key, explicit) <==> key <= 3 && explicit
    decreases 6 - key
  {
    if key <= 5 {
      EmptyMapEntry(h, key + 1, explicit, e);
      EmptyMapField(h, key, explicit, e);
      InConcat(e, FieldEntries(h, key, explicit), EntriesFrom(h, key + 1, explicit));
    }
  }

  lemma InConcat(e: Entry, a: seq<Entry>, b: seq<Entry>)
    ensures e in a + b <==> e in a || e in b
  {
  }

  lemma EmptyMapField(h: ExtensionHeader, key: nat, explicit: bool, e: Entry)
    requires ShortKeys(h.metadata.Keys) && (explicit ==> h.metadata == map[]) && e == Entry(UInt(3), Map([]))
    ensures e in FieldEntries(h, key, explicit) <==> key == 3 && explicit
  {
    if key == 3 { EmptyMetadataItem(h.metadata); }
  }

  lemma EmptyMetadataItem(m: map<Text, MetadataValue>)
    requires ShortKeys(m.Keys)
    ensures MetadataItem(m) == Map([]) <==> m == map[]
  {
    SortedKeysAscend(m.Keys);
    if k :| k in m { assert k in SortedKeys(m.Keys); }
  }

  /** Whether the input carries an empty map decides between the two forms. */
  lemma InputTellsForm(b: seq<byte>, h: ExtensionHeader)
    requires DecodeHeader(b) == Ok(h)
    ensures ValidHeader(h) && (CarriesEmptyMap(b) ==> h.metadata == map[])
    ensures b == FormBytes(h, CarriesEmptyMap(b))
  {
    var es := AcceptedItems(b, h);
    HeaderOfExact(es, h);
    var explicit :| (explicit ==> h.metadata == map[]) && es == EntriesFrom(h, 1, explicit);
    EmptyMapEntry(h, 1, explicit, Entry(UInt(3), Map([])));
    HeaderItemBytes(h, explicit);
  }

  /**
   Encoding a decoded header gives the input back exactly when the input carries no
   empty metadata map.
   */
  lemma DecodeThenEncode(b: seq<byte>, h: ExtensionHeader)
    requires DecodeHeader(b) == Ok(h)
    ensures ValidHeader(h)
    ensures HeaderBytes(h) == b <==> !CarriesEmptyMap(b)
  {
    InputTellsForm(b, h);
    if h.metadata == map[] { FormsDiffer(h); }
  }

  /** Two inputs with the same header differ exactly in carrying an empty map. */
  lemma DecodeInjective(a: seq<byte>, b: seq<byte>, h: ExtensionHeader)
    requires DecodeHeader(a) == Ok(h) && DecodeHeader(b) == Ok(h)
    ensures a == b <==> (CarriesEmptyMap(a) <==> CarriesEmptyMap(b))
  {
    InputTellsForm(a, h);
    InputTellsForm(b, h);
  }

  const PLAIN_X: ExtensionHeader := EMPTY_HEADER.(contentType := [0x78])

  lemma PlainXBytes()
    ensures HeaderBytes(PLAIN_X) == [0xA1, 0x02, 0x61, 0x78]
    ensures ExplicitEmptyBytes(PLAIN_X) == [0xA2, 0x02, 0x61, 0x78, 0x03, 0xA0]
  {
  }

  /** `{2: "x", 3: {}}` decodes, and re-encodes as `{2: "x"}`. */
  lemma ExplicitEmptyIsNotReencoded()
    ensures DecodeHeader([0xA2, 0x02, 0x61, 0x78, 0x03, 0xA0]) == Ok(PLAIN_X)
    ensures HeaderBytes(PLAIN_X) == [0xA1, 0x02, 0x61, 0x78]
  {
    PlainXBytes();
    assert PrintableAscii(PLAIN_X.contentType);
    DecodeExact(ExplicitEmptyBytes(PLAIN_X), PLAIN_X);
  }
}
