/** The fixed-width records: encoders that fill a buffer in place, decoders that cut it up. */
module BinaryRecords {
  import opened Common

  const FORMAT_MAGIC: seq<byte> := [0x53, 0x44, 0x51, 0x46, 0x4D, 0x54, 0x31, 0]
  const JOB_MAGIC: seq<byte> := [0x53, 0x44, 0x51, 0x4A, 0x4F, 0x42, 0x31, 0]
  const RECEIPT_MAGIC: seq<byte> := [0x53, 0x44, 0x51, 0x52, 0x43, 0x50, 0x54, 0]
  const WATERMARK_MAGIC: seq<byte> := [0x53, 0x44, 0x51, 0x57, 0x4D, 0x52, 0x31, 0]

  const MAJOR := 1
  const MINOR := 1
  const SHA256 := 1
  const NAME_TAG_BITS := 64
  const MAX_PAYLOAD_LENGTH := 0xFF_FFFF_FFFF
  const MAX_EXTENSION_LENGTH := 65536

  type u16 = n: int | 0 <= n < 65536
  type Id16 = s: seq<byte> | |s| == 16 witness seq(16, i => 0)
  type Digest = s: seq<byte> | |s| == 32 witness seq(32, i => 0)

  function Zeros(n: nat): (s: seq<byte>)
    ensures |s| == n
  {
    seq(n, i => 0)
  }

  // ---------- Values ----------

  datatype FixedHeader = FixedHeader(
    minor: u16,
    extensionLength: u32,
    payloadLength: u64,
    flags: u32,
    digestAlgorithm: byte,
    jobId: Id16,
    maximumAttempts: u32,
    createdAt: u64,
    payloadDigest: Digest,
    envelopeDigest: Digest)

  datatype FormatRecord = FormatRecord(
    queueId: Id16,
    createdAt: u64,
    shardCount: u32,
    leaseWidth: u64,
    delayedWidth: u64,
    terminalWidth: u64,
    maxPayload: u64)

  datatype CompactReceipt = CompactReceipt(
    jobId: Id16,
    envelopeDigest: Digest,
    finalAttempt: u32,
    leaseToken: Id16,
    bucketStart: u64,
    payloadLength: u64)

  datatype WatermarkRecord = WatermarkRecord(bucket: u64, sequence: u64)

  datatype RecordError =
    | WrongSize
    | BadMagic
    | UnsupportedVersion
    | NonzeroFlags
    | NonzeroReserved
    | NonzeroFeatureBits
    | UnsupportedDigestAlgorithm
    | InvalidNameTagBits
    | InvalidShardCount
    | InvalidBucketWidth
    | PayloadLimitExceeded
    | DigestMismatch
    | ZeroMaxAttempts
    | PayloadTooLarge
    | ExtensionTooLarge
    | ExtensionLengthMismatch

  // ---------- Bytes, field after field ----------

  function HeaderBytes(h: FixedHeader): (b: seq<byte>)
    ensures |b| == 128
  {
    JOB_MAGIC + (ToBe(MAJOR, 2) + (ToBe(h.minor, 2) + (ToBe(h.extensionLength, 4) + (ToBe(h.payloadLength, 8)
    + (ToBe(h.flags, 4) + ([h.digestAlgorithm] + (Zeros(3) + (h.jobId + (ToBe(h.maximumAttempts, 4) + (Zeros(4)
    + (ToBe(h.createdAt, 8) + (h.payloadDigest + h.envelopeDigest))))))))))))
  }

  function FormatBody(r: FormatRecord, minor: u16): (b: seq<byte>)
    ensures |b| == 128
  {
    FORMAT_MAGIC + (ToBe(MAJOR, 2) + (ToBe(minor, 2) + (Zeros(4) + (r.queueId + (ToBe(r.createdAt, 8)
    + (ToBe(r.shardCount, 4) + (Zeros(4) + (ToBe(r.leaseWidth, 8) + (ToBe(r.delayedWidth, 8)
    + (ToBe(r.terminalWidth, 8) + (ToBe(r.maxPayload, 8) + ([SHA256] + ([NAME_TAG_BITS] + (Zeros(6) + (Zeros(8)
    + (Zeros(8) + Zeros(24)))))))))))))))))
  }

  function ReceiptBody(r: CompactReceipt, minor: u16): (b: seq<byte>)
    ensures |b| == 96
  {
    RECEIPT_MAGIC + (ToBe(MAJOR, 2) + (ToBe(minor, 2) + (r.jobId + (r.envelopeDigest + (ToBe(r.finalAttempt, 4)
    + (r.leaseToken + (ToBe(r.bucketStart, 8) + ToBe(r.payloadLength, 8))))))))
  }

  function WatermarkBody(r: WatermarkRecord, minor: u16): (b: seq<byte>)
    ensures |b| == 32
  {
    WATERMARK_MAGIC + (ToBe(MAJOR, 2) + (ToBe(minor, 2) + (Zeros(4) + (ToBe(r.bucket, 8) + ToBe(r.sequence, 8)))))
  }

  /** A body followed by its digest. */
  function Sealed(body: seq<byte>, hash: seq<byte> -> Digest): seq<byte> { body + hash(body) }

  // ---------- Validity ----------

  predicate ValidHeader(h: FixedHeader) {
    && h.flags == 0 && h.digestAlgorithm == SHA256 && h.maximumAttempts != 0
    && h.payloadLength <= MAX_PAYLOAD_LENGTH && h.extensionLength <= MAX_EXTENSION_LENGTH
  }

  predicate IsPowerOfTwo(n: nat) {
    n == 1 || (n > 1 && n % 2 == 0 && IsPowerOfTwo(n / 2))
  }

  function FormatFault(r: FormatRecord): Option<RecordError> {
    if r.shardCount == 0 || !IsPowerOfTwo(r.shardCount) || r.shardCount > 4096 then Some(InvalidShardCount)
    else if r.leaseWidth == 0 || r.delayedWidth == 0 then Some(InvalidBucketWidth)
    else if !(60_000_000_000 <= r.terminalWidth <= 86_400_000_000_000) then Some(InvalidBucketWidth)
    else if r.terminalWidth % r.delayedWidth != 0 then Some(InvalidBucketWidth)
    else if r.maxPayload > MAX_PAYLOAD_LENGTH then Some(PayloadLimitExceeded)
    else None
  }

  // ---------- Decoders ----------

  function Be16(s: seq<byte>): u16
    requires |s| == 2
  {
    Pow256Values();
    FromBe(s)
  }

  function Be32(s: seq<byte>): u32
    requires |s| == 4
  {
    Pow256Values();
    FromBe(s)
  }

  function Be64(s: seq<byte>): u64
    requires |s| == 8
  {
    Pow256Values();
    FromBe(s)
  }

  predicate AllZero(s: seq<byte>) { forall b <- s :: b == 0 }

  function HeaderFields(b: seq<byte>): FixedHeader
    requires |b| == 128
  {
    FixedHeader(Be16(b[10..12]), Be32(b[12..16]), Be64(b[16..24]), Be32(b[24..28]), b[28], b[32..48],
                Be32(b[48..52]), Be64(b[56..64]), b[64..96], b[96..128])
  }

  function DecodeHeader(b: seq<byte>): Result<FixedHeader, RecordError> {
    if |b| != 128 then Err(WrongSize)
    else if b[0..8] != JOB_MAGIC then Err(BadMagic)
    else if Be16(b[8..10]) != MAJOR then Err(UnsupportedVersion)
    else if Be32(b[24..28]) != 0 then Err(NonzeroFlags)
    else if b[28] != SHA256 then Err(UnsupportedDigestAlgorithm)
    else if !AllZero(b[29..32]) || !AllZero(b[52..56]) then Err(NonzeroReserved)
    else
      var h := HeaderFields(b);
      if h.maximumAttempts == 0 then Err(ZeroMaxAttempts)
      else if h.payloadLength > MAX_PAYLOAD_LENGTH then Err(PayloadTooLarge)
      else if h.extensionLength > MAX_EXTENSION_LENGTH then Err(ExtensionTooLarge)
      else Ok(h)
  }

  function FormatFields(b: seq<byte>): FormatRecord
    requires |b| >= 128
  {
    FormatRecord(b[16..32], Be64(b[32..40]), Be32(b[40..44]), Be64(b[48..56]), Be64(b[56..64]), Be64(b[64..72]),
                 Be64(b[72..80]))
  }

  function DecodeFormat(b: seq<byte>, hash: seq<byte> -> Digest): Result<FormatRecord, RecordError> {
    if |b| != 160 then Err(WrongSize)
    else if b[0..8] != FORMAT_MAGIC then Err(BadMagic)
    else if Be16(b[8..10]) != MAJOR then Err(UnsupportedVersion)
    else if Be32(b[12..16]) != 0 then Err(NonzeroFlags)
    else if Be32(b[44..48]) != 0 then Err(NonzeroReserved)
    else if b[80] != SHA256 then Err(UnsupportedDigestAlgorithm)
    else if b[81] != NAME_TAG_BITS then Err(InvalidNameTagBits)
    else if !AllZero(b[82..88]) || !AllZero(b[104..128]) then Err(NonzeroReserved)
    else if Be64(b[88..96]) != 0 || Be64(b[96..104]) != 0 then Err(NonzeroFeatureBits)
    else if hash(b[0..128]) != b[128..160] then Err(DigestMismatch)
    else
      var r := FormatFields(b);
      match FormatFault(r)
      case Some(e) => Err(e)
      case None => Ok(r)
  }

  function ReceiptFields(b: seq<byte>): CompactReceipt
    requires |b| == 128
  {
    CompactReceipt(b[12..28], b[28..60], Be32(b[60..64]), b[64..80], Be64(b[80..88]), Be64(b[88..96]))
  }

  function DecodeReceipt(b: seq<byte>, hash: seq<byte> -> Digest): Result<CompactReceipt, RecordError> {
    if |b| != 128 then Err(WrongSize)
    else if b[0..8] != RECEIPT_MAGIC then Err(BadMagic)
    else if Be16(b[8..10]) != MAJOR || Be16(b[10..12]) < 1 then Err(UnsupportedVersion)
    else if hash(b[0..96]) != b[96..128] then Err(DigestMismatch)
    else Ok(ReceiptFields(b))
  }

  function DecodeWatermark(b: seq<byte>, hash: seq<byte> -> Digest): Result<WatermarkRecord, RecordError> {
    if |b| != 64 then Err(WrongSize)
    else if b[0..8] != WATERMARK_MAGIC then Err(BadMagic)
    else if Be16(b[8..10]) != MAJOR then Err(UnsupportedVersion)
    else if Be32(b[12..16]) != 0 then Err(NonzeroReserved)
    else if hash(b[0..32]) != b[32..64] then Err(DigestMismatch)
    else Ok(WatermarkRecord(Be64(b[16..24]), Be64(b[24..32])))
  }

  // ---------- Encoders in place ----------

  /** A zeroed buffer and the fields written to its front so far. */
  class RecordBuffer {
    const bytes: array<byte>
    ghost var done: seq<byte>

    ghost predicate Valid()
      reads this, bytes
    {
      && |done| <= bytes.Length
      && (forall i :: 0 <= i < |done| ==> bytes[i] == done[i])
      && forall i :: |done| <= i < bytes.Length ==> bytes[i] == 0
    }

    constructor (size: nat)
      ensures Valid() && fresh(bytes) && bytes.Length == size && done == []
    {
      bytes := new byte[size](i => 0);
      done := [];
    }

    /** Copies a field to offset `at`, where the fields before it end; `rest` follows it in `whole`. */
    method Put(at: nat, field: seq<byte>, ghost rest: seq<byte>, ghost whole: seq<byte>)
      requires Valid() && |done| == at && at + |field| <= bytes.Length && whole == done + (field + rest)
      modifies this`done, bytes
      ensures Valid() && done == old(done) + field && whole == done + rest
    {
      forall i | 0 <= i < |field| {
        bytes[at + i] := field[i];
      }
      Assoc(done, field, rest);
      done := done + field;
    }

    /** Leaves the next `n` bytes zero. */
    ghost method Skip(n: nat, rest: seq<byte>, whole: seq<byte>)
      requires Valid() && |done| + n <= bytes.Length && whole == done + (Zeros(n) + rest)
      modifies this`done
      ensures Valid() && done == old(done) + Zeros(n) && whole == done + rest
    {
      Assoc(done, Zeros(n), rest);
      done := done + Zeros(n);
    }
  }

  method EncodeHeader(h: FixedHeader, extension: seq<byte>) returns (r: Result<array<byte>, RecordError>)
    ensures r.Ok? <==> |extension| % U32_LIMIT == h.extensionLength
    ensures r.Ok? ==> fresh(r.value) && r.value[..] == HeaderBytes(h)
    ensures r.Err? ==> r.error == ExtensionLengthMismatch
  {
    if |extension| % U32_LIMIT != h.extensionLength { return Err(ExtensionLengthMismatch); }
    var buf := new RecordBuffer(128);
    ghost var t12 := h.payloadDigest + h.envelopeDigest;
    ghost var t11 := ToBe(h.createdAt, 8) + t12;
    ghost var t10 := Zeros(4) + t11;
    ghost var t9 := ToBe(h.maximumAttempts, 4) + t10;
    ghost var t8 := h.jobId + t9;
    ghost var whole := HeaderBytes(h);
    HeaderFront(buf, h, t8, whole);
    buf.Put(32, h.jobId, t9, whole);
    buf.Put(48, ToBe(h.maximumAttempts, 4), t10, whole);
    buf.Skip(4, t11, whole);
    buf.Put(56, ToBe(h.createdAt, 8), t12, whole);
    buf.Put(64, h.payloadDigest, h.envelopeDigest, whole);
    assert h.envelopeDigest + [] == h.envelopeDigest;
    buf.Put(96, h.envelopeDigest, [], whole);
    assert buf.bytes[..] == buf.done == whole;
    return Ok(buf.bytes);
  }

  /** The fields before the job id. */
  method HeaderFront(buf: RecordBuffer, h: FixedHeader, ghost rest: seq<byte>, ghost whole: seq<byte>)
    requires buf.Valid() && buf.done == [] && buf.bytes.Length == 128
    requires whole == JOB_MAGIC + (ToBe(MAJOR, 2) + (ToBe(h.minor, 2) + (ToBe(h.extensionLength, 4)
                      + (ToBe(h.payloadLength, 8) + (ToBe(h.flags, 4) + ([h.digestAlgorithm] + (Zeros(3) + rest)))))))
    modifies buf`done, buf.bytes
    ensures buf.Valid() && whole == buf.done + rest && |buf.done| == 32
  {
    ghost var t7 := Zeros(3) + rest;
    ghost var t6 := [h.digestAlgorithm] + t7;
    ghost var t5 := ToBe(h.flags, 4) + t6;
    ghost var t4 := ToBe(h.payloadLength, 8) + t5;
    ghost var t3 := ToBe(h.extensionLength, 4) + t4;
    ghost var t2 := ToBe(h.minor, 2) + t3;
    ghost var t1 := ToBe(MAJOR, 2) + t2;
    buf.Put(0, JOB_MAGIC, t1, whole);
    buf.Put(8, ToBe(MAJOR, 2), t2, whole);
    buf.Put(10, ToBe(h.minor, 2), t3, whole);
    buf.Put(12, ToBe(h.extensionLength, 4), t4, whole);
    buf.Put(16, ToBe(h.payloadLength, 8), t5, whole);
    buf.Put(24, ToBe(h.flags, 4), t6, whole);
    buf.Put(28, [h.digestAlgorithm], t7, whole);
    buf.Skip(3, rest, whole);
  }

  /** Writes the digest of the finished body after it. */
  method Seal(buf: RecordBuffer, size: nat, hash: seq<byte> -> Digest)
    requires buf.Valid() && |buf.done| == size && buf.bytes.Length == size + 32
    modifies buf`done, buf.bytes
    ensures buf.bytes[..] == Sealed(old(buf.done), hash)
  {
    ghost var body := buf.done;
    assert buf.bytes[..size] == body;
    var digest := hash(buf.bytes[..size]);
    assert digest + [] == digest;
    buf.Put(size, digest, [], body + digest);
    assert buf.bytes[..] == buf.done;
  }

  method EncodeFormat(r: FormatRecord, hash: seq<byte> -> Digest) returns (b: array<byte>)
    ensures fresh(b) && b[..] == Sealed(FormatBody(r, MINOR), hash)
  {
    var buf := new RecordBuffer(160);
    ghost var zeros := Zeros(8) + (Zeros(8) + Zeros(24));
    ghost var t12 := [SHA256] + ([NAME_TAG_BITS] + (Zeros(6) + zeros));
    ghost var t11 := ToBe(r.maxPayload, 8) + t12;
    ghost var t10 := ToBe(r.terminalWidth, 8) + t11;
    ghost var t9 := ToBe(r.delayedWidth, 8) + t10;
    ghost var t8 := ToBe(r.leaseWidth, 8) + t9;
    ghost var body := FormatBody(r, MINOR);
    FormatFront(buf, r, t8, body);
    buf.Put(48, ToBe(r.leaseWidth, 8), t9, body);
    buf.Put(56, ToBe(r.delayedWidth, 8), t10, body);
    buf.Put(64, ToBe(r.terminalWidth, 8), t11, body);
    buf.Put(72, ToBe(r.maxPayload, 8), t12, body);
    FormatTail(buf, zeros, body);
    Seal(buf, 128, hash);
    return buf.bytes;
  }

  /** The fields before the bucket widths. */
  method FormatFront(buf: RecordBuffer, r: FormatRecord, ghost rest: seq<byte>, ghost body: seq<byte>)
    requires buf.Valid() && buf.done == [] && buf.bytes.Length == 160
    requires body == FORMAT_MAGIC + (ToBe(MAJOR, 2) + (ToBe(MINOR, 2) + (Zeros(4) + (r.queueId
                     + (ToBe(r.createdAt, 8) + (ToBe(r.shardCount, 4) + (Zeros(4) + rest)))))))
    modifies buf`done, buf.bytes
    ensures buf.Valid() && body == buf.done + rest && |buf.done| == 48
  {
    ghost var t7 := Zeros(4) + rest;
    ghost var t6 := ToBe(r.shardCount, 4) + t7;
    ghost var t5 := ToBe(r.createdAt, 8) + t6;
    ghost var t4 := r.queueId + t5;
    ghost var t3 := Zeros(4) + t4;
    ghost var t2 := ToBe(MINOR, 2) + t3;
    ghost var t1 := ToBe(MAJOR, 2) + t2;
    buf.Put(0, FORMAT_MAGIC, t1, body);
    buf.Put(8, ToBe(MAJOR, 2), t2, body);
    buf.Put(10, ToBe(MINOR, 2), t3, body);
    buf.Skip(4, t4, body);
    buf.Put(16, r.queueId, t5, body);
    buf.Put(32, ToBe(r.createdAt, 8), t6, body);
    buf.Put(40, ToBe(r.shardCount, 4), t7, body);
    buf.Skip(4, rest, body);
  }

  /** The algorithm, the tag width and the zero fields at the end of the body. */
  method FormatTail(buf: RecordBuffer, ghost zeros: seq<byte>, ghost body: seq<byte>)
    requires buf.Valid() && |buf.done| == 80 && buf.bytes.Length == 160
    requires zeros == Zeros(8) + (Zeros(8) + Zeros(24))
    requires body == buf.done + ([SHA256] + ([NAME_TAG_BITS] + (Zeros(6) + zeros)))
    modifies buf`done, buf.bytes
    ensures buf.Valid() && buf.done == body && |body| == 128
  {
    buf.Put(80, [SHA256], [NAME_TAG_BITS] + (Zeros(6) + zeros), body);
    buf.Put(81, [NAME_TAG_BITS], Zeros(6) + zeros, body);
    buf.Skip(6, zeros, body);
    buf.Skip(8, Zeros(8) + Zeros(24), body);
    buf.Skip(8, Zeros(24), body);
    assert Zeros(24) + [] == Zeros(24);
    buf.Skip(24, [], body);
  }

  method EncodeReceipt(r: CompactReceipt, hash: seq<byte> -> Digest) returns (b: array<byte>)
    ensures fresh(b) && b[..] == Sealed(ReceiptBody(r, MINOR), hash)
  {
    var buf := new RecordBuffer(128);
    ghost var last := ToBe(r.payloadLength, 8);
    ghost var t7 := ToBe(r.bucketStart, 8) + last;
    ghost var t6 := r.leaseToken + t7;
    ghost var t5 := ToBe(r.finalAttempt, 4) + t6;
    ghost var t4 := r.envelopeDigest + t5;
    ghost var t3 := r.jobId + t4;
    ghost var t2 := ToBe(MINOR, 2) + t3;
    ghost var t1 := ToBe(MAJOR, 2) + t2;
    ghost var body := RECEIPT_MAGIC + t1;
    buf.Put(0, RECEIPT_MAGIC, t1, body);
    buf.Put(8, ToBe(MAJOR, 2), t2, body);
    buf.Put(10, ToBe(MINOR, 2), t3, body);
    buf.Put(12, r.jobId, t4, body);
    buf.Put(28, r.envelopeDigest, t5, body);
    buf.Put(60, ToBe(r.finalAttempt, 4), t6, body);
    buf.Put(64, r.leaseToken, t7, body);
    buf.Put(80, ToBe(r.bucketStart, 8), last, body);
    assert last + [] == last;
    buf.Put(88, ToBe(r.payloadLength, 8), [], body);
    assert body == ReceiptBody(r, MINOR);
    Seal(buf, 96, hash);
    return buf.bytes;
  }

  method EncodeWatermark(r: WatermarkRecord, hash: seq<byte> -> Digest) returns (b: array<byte>)
    ensures fresh(b) && b[..] == Sealed(WatermarkBody(r, MINOR), hash)
  {
    var buf := new RecordBuffer(64);
    ghost var last := ToBe(r.sequence, 8);
    ghost var t4 := ToBe(r.bucket, 8) + last;
    ghost var t3 := Zeros(4) + t4;
    ghost var t2 := ToBe(MINOR, 2) + t3;
    ghost var t1 := ToBe(MAJOR, 2) + t2;
    ghost var body := WATERMARK_MAGIC + t1;
    buf.Put(0, WATERMARK_MAGIC, t1, body);
    buf.Put(8, ToBe(MAJOR, 2), t2, body);
    buf.Put(10, ToBe(MINOR, 2), t3, body);
    buf.Skip(4, t4, body);
    buf.Put(16, ToBe(r.bucket, 8), last, body);
    assert last + [] == last;
    buf.Put(24, ToBe(r.sequence, 8), [], body);
    assert body == WatermarkBody(r, MINOR);
    Seal(buf, 32, hash);
    return buf.bytes;
  }
}
