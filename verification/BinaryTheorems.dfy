/** Each record's decoder accepts exactly the bytes its encoder writes, up to the minor version. */
module BinaryTheorems {
  import opened Common
  import opened BinaryRecords

  // ---------- Cutting and pasting ----------

  lemma Peel(b: seq<byte>, off: nat, field: seq<byte>, rest: seq<byte>)
    requires off <= |b| && b[off..] == field + rest
    ensures off + |field| <= |b|
    ensures b[off..off + |field|] == field && b[off + |field|..] == rest
  {
  }

  lemma Paste(b: seq<byte>, off: nat, mid: nat, field: seq<byte>, rest: seq<byte>)
    requires off <= mid <= |b| && b[off..mid] == field && b[mid..] == rest
    ensures b[off..] == field + rest
  {
  }

  // ---------- Numbers and zeros ----------

  lemma Number(v: nat, n: nat)
    requires n in {2, 4, 8} && v < Pow256(n)
    ensures FromBe(ToBe(v, n)) == v
  {
    FromToBe(v, n);
  }

  lemma Digits(s: seq<byte>)
    ensures ToBe(FromBe(s), |s|) == s
  {
    ToFromBe(s);
  }

  lemma {:induction false} ZeroDigits(n: nat)
    ensures ToBe(0, n) == Zeros(n)
  {
    if n > 0 { ZeroDigits(n - 1); }
  }

  /** A field is all zero bytes exactly when it reads as zero. */
  lemma ZeroField(s: seq<byte>)
    ensures AllZero(s) <==> s == Zeros(|s|)
    ensures FromBe(s) == 0 <==> s == Zeros(|s|)
  {
    if AllZero(s) { assert forall i :: 0 <= i < |s| ==> s[i] in s; }
    ZeroDigits(|s|);
    Digits(s);
    if s == Zeros(|s|) { FromZeros(|s|); }
  }

  lemma {:induction false} FromZeros(n: nat)
    ensures FromBe(Zeros(n)) == 0
  {
    if n > 0 {
      FromZeros(n - 1);
      assert Zeros(n)[..n - 1] == Zeros(n - 1);
    }
  }

  // ---------- Job header ----------

  /** The fields from the job id on. */
  function HeaderBack(h: FixedHeader): seq<byte> {
    h.jobId + (ToBe(h.maximumAttempts, 4) + (Zeros(4) + (ToBe(h.createdAt, 8) + (h.payloadDigest + h.envelopeDigest))))
  }

  lemma CutBack(b: seq<byte>, h: FixedHeader)
    requires |b| == 128 && b[32..] == HeaderBack(h)
    ensures b[32..48] == h.jobId && b[48..52] == ToBe(h.maximumAttempts, 4) && b[52..56] == Zeros(4)
    ensures b[56..64] == ToBe(h.createdAt, 8) && b[64..96] == h.payloadDigest && b[96..128] == h.envelopeDigest
  {
  }

  lemma CutFront(b: seq<byte>, h: FixedHeader)
    requires |b| == 128 && b == HeaderBytes(h)
    ensures b[0..8] == JOB_MAGIC && b[8..10] == ToBe(MAJOR, 2) && b[10..12] == ToBe(h.minor, 2)
    ensures b[12..16] == ToBe(h.extensionLength, 4) && b[16..24] == ToBe(h.payloadLength, 8)
    ensures b[24..28] == ToBe(h.flags, 4) && b[28] == h.digestAlgorithm && b[29..32] == Zeros(3)
    ensures b[32..] == HeaderBack(h)
  {
  }

  lemma PasteBack(b: seq<byte>, h: FixedHeader)
    requires |b| == 128
    requires b[32..48] == h.jobId && b[48..52] == ToBe(h.maximumAttempts, 4) && b[52..56] == Zeros(4)
    requires b[56..64] == ToBe(h.createdAt, 8) && b[64..96] == h.payloadDigest && b[96..128] == h.envelopeDigest
    ensures b[32..] == HeaderBack(h)
  {
  }

  lemma PasteFront(b: seq<byte>, h: FixedHeader)
    requires |b| == 128 && b[32..] == HeaderBack(h)
    requires b[0..8] == JOB_MAGIC && b[8..10] == ToBe(MAJOR, 2) && b[10..12] == ToBe(h.minor, 2)
    requires b[12..16] == ToBe(h.extensionLength, 4) && b[16..24] == ToBe(h.payloadLength, 8)
    requires b[24..28] == ToBe(h.flags, 4) && b[28] == h.digestAlgorithm && b[29..32] == Zeros(3)
    ensures b == HeaderBytes(h)
  {
    var t7 := Zeros(3) + HeaderBack(h);
    Paste(b, 29, 32, Zeros(3), HeaderBack(h));
    assert b[28..29] == [h.digestAlgorithm];
    Paste(b, 28, 29, [h.digestAlgorithm], t7);
    var t6 := [h.digestAlgorithm] + t7;
    Paste(b, 24, 28, ToBe(h.flags, 4), t6);
    var t5 := ToBe(h.flags, 4) + t6;
    Paste(b, 16, 24, ToBe(h.payloadLength, 8), t5);
    var t4 := ToBe(h.payloadLength, 8) + t5;
    Paste(b, 12, 16, ToBe(h.extensionLength, 4), t4);
    var t3 := ToBe(h.extensionLength, 4) + t4;
    Paste(b, 10, 12, ToBe(h.minor, 2), t3);
    var t2 := ToBe(h.minor, 2) + t3;
    Paste(b, 8, 10, ToBe(MAJOR, 2), t2);
    Paste(b, 0, 8, JOB_MAGIC, ToBe(MAJOR, 2) + t2);
    assert b[0..] == b;
  }

  /** Reading the fields of encoded bytes gives the header back. */
  lemma FieldsOfBytes(b: seq<byte>, h: FixedHeader)
    requires |b| == 128 && b == HeaderBytes(h)
    ensures HeaderFields(b) == h && Be16(b[8..10]) == MAJOR && b[0..8] == JOB_MAGIC
    ensures AllZero(b[29..32]) && AllZero(b[52..56])
  {
    CutFront(b, h);
    CutBack(b, h);
    Pow256Values();
    Number(MAJOR, 2);
    Number(h.minor, 2);
    Number(h.extensionLength, 4);
    Number(h.payloadLength, 8);
    Number(h.flags, 4);
    Number(h.maximumAttempts, 4);
    Number(h.createdAt, 8);
    ZeroField(b[29..32]);
    ZeroField(b[52..56]);
  }

  /** Bytes with the right constants are the encoding of their own fields. */
  lemma BytesOfFields(b: seq<byte>, h: FixedHeader)
    requires |b| == 128 && h == HeaderFields(b) && b[0..8] == JOB_MAGIC && Be16(b[8..10]) == MAJOR
    requires AllZero(b[29..32]) && AllZero(b[52..56])
    ensures b == HeaderBytes(h)
  {
    Digits(b[8..10]);
    Digits(b[10..12]);
    Digits(b[12..16]);
    Digits(b[16..24]);
    Digits(b[24..28]);
    Digits(b[48..52]);
    Digits(b[56..64]);
    ZeroField(b[29..32]);
    ZeroField(b[52..56]);
    PasteBack(b, h);
    PasteFront(b, h);
  }

  /** The decoder returns `h` for the encoding of a valid `h` and for nothing else. */
  lemma HeaderExact(b: seq<byte>, h: FixedHeader)
    ensures DecodeHeader(b) == Ok(h) <==> ValidHeader(h) && b == HeaderBytes(h)
  {
    if DecodeHeader(b) == Ok(h) { BytesOfFields(b, h); }
    if b == HeaderBytes(h) {
      FieldsOfBytes(b, h);
      assert Be32(b[24..28]) == h.flags && b[28] == h.digestAlgorithm;
    }
  }

  // ---------- Sealed bodies ----------

  lemma SealedParts(b: seq<byte>, size: nat, body: seq<byte>, hash: seq<byte> -> Digest)
    requires |body| == size && |b| == size + 32
    ensures b == Sealed(body, hash) <==> b[..size] == body && b[size..] == hash(body)
  {
  }

  /** Slices of a body are slices of the record. */
  lemma InBody(b: seq<byte>, size: nat, lo: nat, hi: nat)
    requires lo <= hi <= size <= |b|
    ensures b[..size][lo..hi] == b[lo..hi]
  {
  }

  // ---------- Receipt ----------

  lemma CutReceipt(b: seq<byte>, r: CompactReceipt, minor: u16)
    requires |b| == 96 && b == ReceiptBody(r, minor)
    ensures b[0..8] == RECEIPT_MAGIC && b[8..10] == ToBe(MAJOR, 2) && b[10..12] == ToBe(minor, 2)
    ensures b[12..28] == r.jobId && b[28..60] == r.envelopeDigest && b[60..64] == ToBe(r.finalAttempt, 4)
    ensures b[64..80] == r.leaseToken && b[80..88] == ToBe(r.bucketStart, 8) && b[88..96] == ToBe(r.payloadLength, 8)
  {
    var t8 := ToBe(r.payloadLength, 8);
    var t7 := ToBe(r.bucketStart, 8) + t8;
    var t6 := r.leaseToken + t7;
    var t5 := ToBe(r.finalAttempt, 4) + t6;
    var t4 := r.envelopeDigest + t5;
    var t3 := r.jobId + t4;
    var t2 := ToBe(minor, 2) + t3;
    assert b[0..] == RECEIPT_MAGIC + (ToBe(MAJOR, 2) + t2);
    Peel(b, 0, RECEIPT_MAGIC, ToBe(MAJOR, 2) + t2);
    Peel(b, 8, ToBe(MAJOR, 2), t2);
    Peel(b, 10, ToBe(minor, 2), t3);
    Peel(b, 12, r.jobId, t4);
    Peel(b, 28, r.envelopeDigest, t5);
    Peel(b, 60, ToBe(r.finalAttempt, 4), t6);
    Peel(b, 64, r.leaseToken, t7);
    Peel(b, 80, ToBe(r.bucketStart, 8), t8);
    assert b[88..] == b[88..96];
  }

  lemma PasteReceipt(b: seq<byte>, r: CompactReceipt, minor: u16)
    requires |b| == 96
    requires b[0..8] == RECEIPT_MAGIC && b[8..10] == ToBe(MAJOR, 2) && b[10..12] == ToBe(minor, 2)
    requires b[12..28] == r.jobId && b[28..60] == r.envelopeDigest && b[60..64] == ToBe(r.finalAttempt, 4)
    requires b[64..80] == r.leaseToken && b[80..88] == ToBe(r.bucketStart, 8) && b[88..96] == ToBe(r.payloadLength, 8)
    ensures b == ReceiptBody(r, minor)
  {
    assert b[88..] == b[88..96];
    var t8 := ToBe(r.payloadLength, 8);
    Paste(b, 80, 88, ToBe(r.bucketStart, 8), t8);
    var t7 := ToBe(r.bucketStart, 8) + t8;
    Paste(b, 64, 80, r.leaseToken, t7);
    var t6 := r.leaseToken + t7;
    Paste(b, 60, 64, ToBe(r.finalAttempt, 4), t6);
    var t5 := ToBe(r.finalAttempt, 4) + t6;
    Paste(b, 28, 60, r.envelopeDigest, t5);
    var t4 := r.envelopeDigest + t5;
    Paste(b, 12, 28, r.jobId, t4);
    var t3 := r.jobId + t4;
    Paste(b, 10, 12, ToBe(minor, 2), t3);
    var t2 := ToBe(minor, 2) + t3;
    Paste(b, 8, 10, ToBe(MAJOR, 2), t2);
    Paste(b, 0, 8, RECEIPT_MAGIC, ToBe(MAJOR, 2) + t2);
    assert b[0..] == b;
  }

  lemma ReceiptFieldsExact(b: seq<byte>, r: CompactReceipt, minor: u16)
    requires |b| == 128
    ensures b[..96] == ReceiptBody(r, minor)
       <==> && b[0..8] == RECEIPT_MAGIC && Be16(b[8..10]) == MAJOR && Be16(b[10..12]) == minor
            && ReceiptFields(b) == r
  {
    var body := b[..96];
    InBody(b, 96, 0, 8);
    InBody(b, 96, 8, 10);
    InBody(b, 96, 10, 12);
    InBody(b, 96, 12, 28);
    InBody(b, 96, 28, 60);
    InBody(b, 96, 60, 64);
    InBody(b, 96, 64, 80);
    InBody(b, 96, 80, 88);
    InBody(b, 96, 88, 96);
    if body == ReceiptBody(r, minor) {
      CutReceipt(body, r, minor);
      Pow256Values();
      Number(MAJOR, 2);
      Number(minor, 2);
      Number(r.finalAttempt, 4);
      Number(r.bucketStart, 8);
      Number(r.payloadLength, 8);
    }
    if b[0..8] == RECEIPT_MAGIC && Be16(b[8..10]) == MAJOR && Be16(b[10..12]) == minor && ReceiptFields(b) == r {
      Digits(b[8..10]);
      Digits(b[10..12]);
      Digits(b[60..64]);
      Digits(b[80..88]);
      Digits(b[88..96]);
      PasteReceipt(body, r, minor);
    }
  }

  /** The decoder returns `r` for its sealed encodings of minor version 1 and later, and for nothing else. */
  lemma ReceiptExact(b: seq<byte>, r: CompactReceipt, hash: seq<byte> -> Digest)
    ensures DecodeReceipt(b, hash) == Ok(r)
       <==> exists minor: u16 :: minor >= 1 && b == Sealed(ReceiptBody(r, minor), hash)
  {
    if DecodeReceipt(b, hash) == Ok(r) {
      var minor := Be16(b[10..12]);
      ReceiptFieldsExact(b, r, minor);
      assert b[0..96] == b[..96] && b[96..128] == b[96..];
      SealedParts(b, 96, ReceiptBody(r, minor), hash);
    }
    if minor: u16 :| minor >= 1 && b == Sealed(ReceiptBody(r, minor), hash) {
      SealedParts(b, 96, ReceiptBody(r, minor), hash);
      ReceiptFieldsExact(b, r, minor);
      assert b[0..96] == b[..96] && b[96..128] == b[96..];
    }
  }

  // ---------- Watermark ----------

  /** Where the fields of a watermark body lie, whatever they hold. */
  lemma CutSix(b: seq<byte>, magic: seq<byte>, major: seq<byte>, minor: seq<byte>, gap: seq<byte>,
               bucket: seq<byte>, sequence: seq<byte>)
    requires |magic| == 8 && |major| == 2 && |minor| == 2 && |gap| == 4 && |bucket| == 8 && |sequence| == 8
    requires |b| == 32 && b == magic + (major + (minor + (gap + (bucket + sequence))))
    ensures b[0..8] == magic && b[8..10] == major && b[10..12] == minor
    ensures b[12..16] == gap && b[16..24] == bucket && b[24..32] == sequence
  {
  }

  lemma CutWatermark(b: seq<byte>, r: WatermarkRecord, minor: u16)
    requires |b| == 32 && b == WatermarkBody(r, minor)
    ensures b[0..8] == WATERMARK_MAGIC && b[8..10] == ToBe(MAJOR, 2) && b[10..12] == ToBe(minor, 2)
    ensures b[12..16] == Zeros(4) && b[16..24] == ToBe(r.bucket, 8) && b[24..32] == ToBe(r.sequence, 8)
  {
    CutSix(b, WATERMARK_MAGIC, ToBe(MAJOR, 2), ToBe(minor, 2), Zeros(4), ToBe(r.bucket, 8), ToBe(r.sequence, 8));
  }

  lemma PasteWatermark(b: seq<byte>, r: WatermarkRecord, minor: u16)
    requires |b| == 32
    requires b[0..8] == WATERMARK_MAGIC && b[8..10] == ToBe(MAJOR, 2) && b[10..12] == ToBe(minor, 2)
    requires b[12..16] == Zeros(4) && b[16..24] == ToBe(r.bucket, 8) && b[24..32] == ToBe(r.sequence, 8)
    ensures b == WatermarkBody(r, minor)
  {
    assert b[24..] == b[24..32];
    var t5 := ToBe(r.sequence, 8);
    Paste(b, 16, 24, ToBe(r.bucket, 8), t5);
    var t4 := ToBe(r.bucket, 8) + t5;
    Paste(b, 12, 16, Zeros(4), t4);
    var t3 := Zeros(4) + t4;
    Paste(b, 10, 12, ToBe(minor, 2), t3);
    var t2 := ToBe(minor, 2) + t3;
    Paste(b, 8, 10, ToBe(MAJOR, 2), t2);
    Paste(b, 0, 8, WATERMARK_MAGIC, ToBe(MAJOR, 2) + t2);
    assert b[0..] == b;
  }

  lemma WatermarkFieldsExact(b: seq<byte>, r: WatermarkRecord, minor: u16)
    requires |b| == 64
    ensures b[..32] == WatermarkBody(r, minor)
       <==> && b[0..8] == WATERMARK_MAGIC && Be16(b[8..10]) == MAJOR && Be16(b[10..12]) == minor
            && Be32(b[12..16]) == 0 && Be64(b[16..24]) == r.bucket && Be64(b[24..32]) == r.sequence
  {
    var body := b[..32];
    InBody(b, 32, 0, 8);
    InBody(b, 32, 8, 10);
    InBody(b, 32, 10, 12);
    InBody(b, 32, 12, 16);
    InBody(b, 32, 16, 24);
    InBody(b, 32, 24, 32);
    ZeroField(b[12..16]);
    if body == WatermarkBody(r, minor) {
      CutWatermark(body, r, minor);
      Pow256Values();
      Number(MAJOR, 2);
      Number(minor, 2);
      Number(r.bucket, 8);
      Number(r.sequence, 8);
    }
    if && b[0..8] == WATERMARK_MAGIC && Be16(b[8..10]) == MAJOR && Be16(b[10..12]) == minor
       && Be32(b[12..16]) == 0 && Be64(b[16..24]) == r.bucket && Be64(b[24..32]) == r.sequence {
      Digits(b[8..10]);
      Digits(b[10..12]);
      Digits(b[16..24]);
      Digits(b[24..32]);
      PasteWatermark(body, r, minor);
    }
  }

  /** The decoder returns `r` for its sealed encodings of any minor version, and for nothing else. */
  lemma WatermarkExact(b: seq<byte>, r: WatermarkRecord, hash: seq<byte> -> Digest)
    ensures DecodeWatermark(b, hash) == Ok(r) <==> exists minor: u16 :: b == Sealed(WatermarkBody(r, minor), hash)
  {
    if DecodeWatermark(b, hash) == Ok(r) {
      var minor := Be16(b[10..12]);
      WatermarkFieldsExact(b, r, minor);
      assert b[0..32] == b[..32] && b[32..64] == b[32..];
      SealedParts(b, 32, WatermarkBody(r, minor), hash);
    }
    if minor: u16 :| b == Sealed(WatermarkBody(r, minor), hash) {
      SealedParts(b, 32, WatermarkBody(r, minor), hash);
      WatermarkFieldsExact(b, r, minor);
      assert b[0..32] == b[..32] && b[32..64] == b[32..];
    }
  }

  // ---------- FORMAT ----------

  /** The fields from the bucket widths on. */
  function FormatBack(r: FormatRecord): seq<byte> {
    ToBe(r.leaseWidth, 8) + (ToBe(r.delayedWidth, 8) + (ToBe(r.terminalWidth, 8) + (ToBe(r.maxPayload, 8)
    + ([SHA256] + ([NAME_TAG_BITS] + (Zeros(6) + (Zeros(8) + (Zeros(8) + Zeros(24)))))))))
  }

  lemma CutFormatFront(b: seq<byte>, r: FormatRecord, minor: u16)
    requires |b| == 128 && b == FormatBody(r, minor)
    ensures b[0..8] == FORMAT_MAGIC && b[8..10] == ToBe(MAJOR, 2) && b[10..12] == ToBe(minor, 2)
    ensures b[12..16] == Zeros(4) && b[16..32] == r.queueId && b[32..40] == ToBe(r.createdAt, 8)
    ensures b[40..44] == ToBe(r.shardCount, 4) && b[44..48] == Zeros(4) && b[48..] == FormatBack(r)
  {
    var t7 := Zeros(4) + FormatBack(r);
    var t6 := ToBe(r.shardCount, 4) + t7;
    var t5 := ToBe(r.createdAt, 8) + t6;
    var t4 := r.queueId + t5;
    var t3 := Zeros(4) + t4;
    var t2 := ToBe(minor, 2) + t3;
    assert b[0..] == FORMAT_MAGIC + (ToBe(MAJOR, 2) + t2);
    Peel(b, 0, FORMAT_MAGIC, ToBe(MAJOR, 2) + t2);
    Peel(b, 8, ToBe(MAJOR, 2), t2);
    Peel(b, 10, ToBe(minor, 2), t3);
    Peel(b, 12, Zeros(4), t4);
    Peel(b, 16, r.queueId, t5);
    Peel(b, 32, ToBe(r.createdAt, 8), t6);
    Peel(b, 40, ToBe(r.shardCount, 4), t7);
    Peel(b, 44, Zeros(4), FormatBack(r));
  }

  lemma CutFormatBack(b: seq<byte>, r: FormatRecord)
    requires |b| == 128 && b[48..] == FormatBack(r)
    ensures b[48..56] == ToBe(r.leaseWidth, 8) && b[56..64] == ToBe(r.delayedWidth, 8)
    ensures b[64..72] == ToBe(r.terminalWidth, 8) && b[72..80] == ToBe(r.maxPayload, 8)
    ensures b[80] == SHA256 && b[81] == NAME_TAG_BITS && b[82..88] == Zeros(6)
    ensures b[88..96] == Zeros(8) && b[96..104] == Zeros(8) && b[104..128] == Zeros(24)
  {
  }

  /** The algorithm, the tag width and the zero fields. */
  function FormatEnd(): seq<byte> {
    [SHA256] + ([NAME_TAG_BITS] + (Zeros(6) + (Zeros(8) + (Zeros(8) + Zeros(24)))))
  }

  lemma PasteFormatEnd(b: seq<byte>)
    requires |b| == 128 && b[80] == SHA256 && b[81] == NAME_TAG_BITS && b[82..88] == Zeros(6)
    requires b[88..96] == Zeros(8) && b[96..104] == Zeros(8) && b[104..128] == Zeros(24)
    ensures b[80..] == FormatEnd()
  {
  }

  lemma PasteFormatBack(b: seq<byte>, r: FormatRecord)
    requires |b| == 128 && b[80..] == FormatEnd()
    requires b[48..56] == ToBe(r.leaseWidth, 8) && b[56..64] == ToBe(r.delayedWidth, 8)
    requires b[64..72] == ToBe(r.terminalWidth, 8) && b[72..80] == ToBe(r.maxPayload, 8)
    ensures b[48..] == FormatBack(r)
  {
    Paste(b, 72, 80, ToBe(r.maxPayload, 8), FormatEnd());
    var t3 := ToBe(r.maxPayload, 8) + FormatEnd();
    Paste(b, 64, 72, ToBe(r.terminalWidth, 8), t3);
    var t2 := ToBe(r.terminalWidth, 8) + t3;
    Paste(b, 56, 64, ToBe(r.delayedWidth, 8), t2);
    Paste(b, 48, 56, ToBe(r.leaseWidth, 8), ToBe(r.delayedWidth, 8) + t2);
  }

  lemma PasteFormatFront(b: seq<byte>, r: FormatRecord, minor: u16)
    requires |b| == 128 && b[48..] == FormatBack(r)
    requires b[0..8] == FORMAT_MAGIC && b[8..10] == ToBe(MAJOR, 2) && b[10..12] == ToBe(minor, 2)
    requires b[12..16] == Zeros(4) && b[16..32] == r.queueId && b[32..40] == ToBe(r.createdAt, 8)
    requires b[40..44] == ToBe(r.shardCount, 4) && b[44..48] == Zeros(4)
    ensures b == FormatBody(r, minor)
  {
    Paste(b, 44, 48, Zeros(4), FormatBack(r));
    var t7 := Zeros(4) + FormatBack(r);
    Paste(b, 40, 44, ToBe(r.shardCount, 4), t7);
    var t6 := ToBe(r.shardCount, 4) + t7;
    Paste(b, 32, 40, ToBe(r.createdAt, 8), t6);
    var t5 := ToBe(r.createdAt, 8) + t6;
    Paste(b, 16, 32, r.queueId, t5);
    var t4 := r.queueId + t5;
    Paste(b, 12, 16, Zeros(4), t4);
    var t3 := Zeros(4) + t4;
    Paste(b, 10, 12, ToBe(minor, 2), t3);
    var t2 := ToBe(minor, 2) + t3;
    Paste(b, 8, 10, ToBe(MAJOR, 2), t2);
    Paste(b, 0, 8, FORMAT_MAGIC, ToBe(MAJOR, 2) + t2);
    assert b[0..] == b;
  }

  /** The constants a FORMAT body carries. */
  predicate FormatConstants(b: seq<byte>)
    requires |b| >= 128
  {
    && b[0..8] == FORMAT_MAGIC && Be16(b[8..10]) == MAJOR && Be32(b[12..16]) == 0 && Be32(b[44..48]) == 0
    && b[80] == SHA256 && b[81] == NAME_TAG_BITS && AllZero(b[82..88]) && AllZero(b[104..128])
    && Be64(b[88..96]) == 0 && Be64(b[96..104]) == 0
  }

  lemma FormatZeros(b: seq<byte>)
    requires |b| >= 128
    ensures Be32(b[12..16]) == 0 <==> b[12..16] == Zeros(4)
    ensures Be32(b[44..48]) == 0 <==> b[44..48] == Zeros(4)
    ensures AllZero(b[82..88]) <==> b[82..88] == Zeros(6)
    ensures AllZero(b[104..128]) <==> b[104..128] == Zeros(24)
    ensures Be64(b[88..96]) == 0 <==> b[88..96] == Zeros(8)
    ensures Be64(b[96..104]) == 0 <==> b[96..104] == Zeros(8)
  {
    ZeroField(b[12..16]);
    ZeroField(b[44..48]);
    ZeroField(b[82..88]);
    ZeroField(b[104..128]);
    ZeroField(b[88..96]);
    ZeroField(b[96..104]);
  }

  lemma FormatBodyExact(b: seq<byte>, r: FormatRecord, minor: u16)
    requires |b| == 128
    ensures b == FormatBody(r, minor) <==> FormatConstants(b) && Be16(b[10..12]) == minor && FormatFields(b) == r
  {
    FormatZeros(b);
    if b == FormatBody(r, minor) {
      CutFormatFront(b, r, minor);
      CutFormatBack(b, r);
      FormatNumbers(r, minor);
    }
    if FormatConstants(b) && Be16(b[10..12]) == minor && FormatFields(b) == r {
      Digits(b[8..10]);
      Digits(b[10..12]);
      Digits(b[32..40]);
      Digits(b[40..44]);
      Digits(b[48..56]);
      Digits(b[56..64]);
      Digits(b[64..72]);
      Digits(b[72..80]);
      PasteFormatEnd(b);
      PasteFormatBack(b, r);
      PasteFormatFront(b, r, minor);
    }
  }

  lemma FormatNumbers(r: FormatRecord, minor: u16)
    ensures FromBe(ToBe(MAJOR, 2)) == MAJOR && FromBe(ToBe(minor, 2)) == minor
    ensures FromBe(ToBe(r.createdAt, 8)) == r.createdAt && FromBe(ToBe(r.shardCount, 4)) == r.shardCount
    ensures FromBe(ToBe(r.leaseWidth, 8)) == r.leaseWidth && FromBe(ToBe(r.delayedWidth, 8)) == r.delayedWidth
    ensures FromBe(ToBe(r.terminalWidth, 8)) == r.terminalWidth && FromBe(ToBe(r.maxPayload, 8)) == r.maxPayload
  {
    Pow256Values();
    Number(MAJOR, 2);
    Number(minor, 2);
    Number(r.createdAt, 8);
    Number(r.shardCount, 4);
    Number(r.leaseWidth, 8);
    Number(r.delayedWidth, 8);
    Number(r.terminalWidth, 8);
    Number(r.maxPayload, 8);
  }

  lemma FormatSlices(b: seq<byte>)
    requires |b| == 160
    ensures FormatConstants(b) == FormatConstants(b[..128])
    ensures FormatFields(b) == FormatFields(b[..128]) && Be16(b[10..12]) == Be16(b[..128][10..12])
  {
    var c := b[..128];
    assert c[0..8] == b[0..8] && c[8..10] == b[8..10] && c[10..12] == b[10..12] && c[12..16] == b[12..16];
    assert c[16..32] == b[16..32] && c[32..40] == b[32..40] && c[40..44] == b[40..44] && c[44..48] == b[44..48];
    assert c[48..56] == b[48..56] && c[56..64] == b[56..64] && c[64..72] == b[64..72] && c[72..80] == b[72..80];
    assert c[82..88] == b[82..88] && c[88..96] == b[88..96] && c[96..104] == b[96..104] && c[104..128] == b[104..128];
  }

  /** The decoder's checks, gathered. */
  lemma FormatChecks(b: seq<byte>, hash: seq<byte> -> Digest)
    requires |b| == 160
    ensures DecodeFormat(b, hash).Ok?
       <==> FormatConstants(b) && hash(b[0..128]) == b[128..160] && FormatFault(FormatFields(b)).None?
    ensures DecodeFormat(b, hash).Ok? ==> DecodeFormat(b, hash).value == FormatFields(b)
  {
  }

  lemma FormatSound(b: seq<byte>, r: FormatRecord, hash: seq<byte> -> Digest) returns (minor: u16)
    requires DecodeFormat(b, hash) == Ok(r)
    ensures FormatFault(r).None? && b == Sealed(FormatBody(r, minor), hash)
  {
    FormatChecks(b, hash);
    minor := Be16(b[10..12]);
    FormatSlices(b);
    FormatBodyExact(b[..128], r, minor);
    assert b[0..128] == b[..128] && b[128..160] == b[128..];
    SealedParts(b, 128, FormatBody(r, minor), hash);
  }

  /** A sealed record holds its body and the digest of it. */
  lemma SealedFormat(b: seq<byte>, body: seq<byte>, hash: seq<byte> -> Digest)
    requires |body| == 128 && b == Sealed(body, hash)
    ensures |b| == 160 && b[..128] == body && hash(b[0..128]) == b[128..160]
  {
  }

  lemma FormatCarried(b: seq<byte>, r: FormatRecord, minor: u16)
    requires |b| == 160 && b[..128] == FormatBody(r, minor)
    ensures FormatConstants(b) && FormatFields(b) == r
  {
    FormatSlices(b);
    FormatBodyExact(b[..128], r, minor);
  }

  lemma FormatComplete(b: seq<byte>, r: FormatRecord, minor: u16, hash: seq<byte> -> Digest)
    requires FormatFault(r).None? && b == Sealed(FormatBody(r, minor), hash)
    ensures DecodeFormat(b, hash) == Ok(r)
  {
    SealedFormat(b, FormatBody(r, minor), hash);
    FormatCarried(b, r, minor);
    FormatChecks(b, hash);
  }

  /** The decoder returns `r` for its sealed encodings of any minor version, if it is valid, and for nothing else. */
  lemma FormatExact(b: seq<byte>, r: FormatRecord, hash: seq<byte> -> Digest)
    ensures DecodeFormat(b, hash) == Ok(r)
       <==> FormatFault(r).None? && exists minor: u16 :: b == Sealed(FormatBody(r, minor), hash)
  {
    if DecodeFormat(b, hash) == Ok(r) { var minor := FormatSound(b, r, hash); }
    if minor: u16 :| FormatFault(r).None? && b == Sealed(FormatBody(r, minor), hash) {
      FormatComplete(b, r, minor, hash);
    }
  }

  // ---------- Encoding again ----------

  /** Re-encoding a decoded receipt gives the same bytes exactly when its minor version was the current one. */
  lemma ReceiptReencodes(b: seq<byte>, r: CompactReceipt, hash: seq<byte> -> Digest)
    requires DecodeReceipt(b, hash) == Ok(r)
    ensures Sealed(ReceiptBody(r, MINOR), hash) == b <==> Be16(b[10..12]) == MINOR
  {
    ReceiptExact(b, r, hash);
    var minor: u16 :| minor >= 1 && b == Sealed(ReceiptBody(r, minor), hash);
    SealedParts(b, 96, ReceiptBody(r, minor), hash);
    SealedParts(b, 96, ReceiptBody(r, MINOR), hash);
    ReceiptFieldsExact(b, r, minor);
    ReceiptFieldsExact(b, r, MINOR);
  }

  lemma WatermarkReencodes(b: seq<byte>, r: WatermarkRecord, hash: seq<byte> -> Digest)
    requires DecodeWatermark(b, hash) == Ok(r)
    ensures Sealed(WatermarkBody(r, MINOR), hash) == b <==> Be16(b[10..12]) == MINOR
  {
    WatermarkExact(b, r, hash);
    var minor: u16 :| b == Sealed(WatermarkBody(r, minor), hash);
    SealedParts(b, 32, WatermarkBody(r, minor), hash);
    SealedParts(b, 32, WatermarkBody(r, MINOR), hash);
    WatermarkFieldsExact(b, r, minor);
    WatermarkFieldsExact(b, r, MINOR);
  }

  lemma FormatReencodes(b: seq<byte>, r: FormatRecord, hash: seq<byte> -> Digest)
    requires DecodeFormat(b, hash) == Ok(r)
    ensures Sealed(FormatBody(r, MINOR), hash) == b <==> Be16(b[10..12]) == MINOR
  {
    FormatExact(b, r, hash);
    var minor: u16 :| b == Sealed(FormatBody(r, minor), hash);
    SealedParts(b, 128, FormatBody(r, minor), hash);
    SealedParts(b, 128, FormatBody(r, MINOR), hash);
    FormatSlices(b);
    FormatBodyExact(b[..128], r, minor);
    FormatBodyExact(b[..128], r, MINOR);
  }

  /** A receipt of the next minor version is read and written back as one of the current version. */
  lemma LaterReceiptIsNotReencoded(r: CompactReceipt, hash: seq<byte> -> Digest)
    ensures DecodeReceipt(Sealed(ReceiptBody(r, 2), hash), hash) == Ok(r)
    ensures Sealed(ReceiptBody(r, 2), hash) != Sealed(ReceiptBody(r, MINOR), hash)
  {
    var b := Sealed(ReceiptBody(r, 2), hash);
    ReceiptExact(b, r, hash);
    SealedParts(b, 96, ReceiptBody(r, 2), hash);
    ReceiptFieldsExact(b, r, 2);
    ReceiptReencodes(b, r, hash);
  }

  lemma LaterWatermarkIsNotReencoded(r: WatermarkRecord, hash: seq<byte> -> Digest)
    ensures DecodeWatermark(Sealed(WatermarkBody(r, 2), hash), hash) == Ok(r)
    ensures Sealed(WatermarkBody(r, 2), hash) != Sealed(WatermarkBody(r, MINOR), hash)
  {
    var b := Sealed(WatermarkBody(r, 2), hash);
    WatermarkExact(b, r, hash);
    SealedParts(b, 32, WatermarkBody(r, 2), hash);
    WatermarkFieldsExact(b, r, 2);
    WatermarkReencodes(b, r, hash);
  }

  lemma LaterFormatIsNotReencoded(r: FormatRecord, hash: seq<byte> -> Digest)
    requires FormatFault(r).None?
    ensures DecodeFormat(Sealed(FormatBody(r, 2), hash), hash) == Ok(r)
    ensures Sealed(FormatBody(r, 2), hash) != Sealed(FormatBody(r, MINOR), hash)
  {
    var b := Sealed(FormatBody(r, 2), hash);
    FormatComplete(b, r, 2, hash);
    SealedFormat(b, FormatBody(r, 2), hash);
    FormatMinor(b, r, 2);
    FormatReencodes(b, r, hash);
  }

  lemma FormatMinor(b: seq<byte>, r: FormatRecord, minor: u16)
    requires |b| == 160 && b[..128] == FormatBody(r, minor)
    ensures Be16(b[10..12]) == minor
  {
    FormatSlices(b);
    FormatBodyExact(b[..128], r, minor);
  }

  // ---------- Envelopes ----------

  datatype Envelope = Envelope(header: FixedHeader, extension: seq<byte>, payload: seq<byte>)

  datatype EnvelopeError = BadHeader(error: RecordError) | TooShort | TrailingBytes | BadEnvelopeDigest | BadPayloadDigest

  /** The two digests: of header and extension, and of the payload. */
  datatype Hashes = Hashes(envelope: (seq<byte>, seq<byte>) -> Digest, payload: seq<byte> -> Digest)

  /** The digest of the header, its own digest field zeroed, and the extension. */
  function EnvelopeDigest(h: FixedHeader, extension: seq<byte>, hashes: Hashes): Option<Digest> {
    if |extension| % U32_LIMIT != h.extensionLength then None
    else Some(hashes.envelope(HeaderBytes(h)[..96] + Zeros(32), extension))
  }

  function FromBytes(data: seq<byte>, verifyPayload: bool, hashes: Hashes): Result<Envelope, EnvelopeError> {
    if |data| < 128 then Err(TooShort)
    else
      match DecodeHeader(data[..128])
      case Err(e) => Err(BadHeader(e))
      case Ok(h) =>
        var total := 128 + h.extensionLength + h.payloadLength;
        if |data| > total then Err(TrailingBytes)
        else if |data| < total then Err(TooShort)
        else
          var extension := data[128..128 + h.extensionLength];
          var payload := data[128 + h.extensionLength..];
          if EnvelopeDigest(h, extension, hashes) != Some(h.envelopeDigest) then Err(BadEnvelopeDigest)
          else if verifyPayload && hashes.payload(payload) != h.payloadDigest then Err(BadPayloadDigest)
          else Ok(Envelope(h, extension, payload))
  }

  function EnvelopeBytes(e: Envelope): seq<byte> { HeaderBytes(e.header) + (e.extension + e.payload) }

  predicate ValidEnvelope(e: Envelope, verifyPayload: bool, hashes: Hashes) {
    && ValidHeader(e.header)
    && |e.extension| == e.header.extensionLength && |e.payload| == e.header.payloadLength
    && EnvelopeDigest(e.header, e.extension, hashes) == Some(e.header.envelopeDigest)
    && (verifyPayload ==> hashes.payload(e.payload) == e.header.payloadDigest)
  }

  lemma EnvelopeSound(data: seq<byte>, e: Envelope, verifyPayload: bool, hashes: Hashes)
    requires FromBytes(data, verifyPayload, hashes) == Ok(e)
    ensures ValidEnvelope(e, verifyPayload, hashes) && data == EnvelopeBytes(e)
  {
    HeaderExact(data[..128], e.header);
    JoinEnvelope(data, e.header.extensionLength, e.extension, e.payload);
  }

  lemma JoinEnvelope(data: seq<byte>, n: nat, extension: seq<byte>, payload: seq<byte>)
    requires 128 + n <= |data| && data[128..128 + n] == extension && data[128 + n..] == payload
    ensures data == data[..128] + (extension + payload)
  {
  }

  lemma EnvelopeParts(e: Envelope, data: seq<byte>)
    requires data == EnvelopeBytes(e)
    ensures |data| == 128 + |e.extension| + |e.payload| && data[..128] == HeaderBytes(e.header)
    ensures data[128..128 + |e.extension|] == e.extension && data[128 + |e.extension|..] == e.payload
  {
  }

  lemma EnvelopeComplete(data: seq<byte>, e: Envelope, verifyPayload: bool, hashes: Hashes)
    requires ValidEnvelope(e, verifyPayload, hashes) && data == EnvelopeBytes(e)
    ensures FromBytes(data, verifyPayload, hashes) == Ok(e)
  {
    EnvelopeParts(e, data);
    HeaderExact(data[..128], e.header);
  }

  /** An envelope is accepted exactly when it is a header, an extension and a payload that belong together. */
  lemma EnvelopeExact(data: seq<byte>, e: Envelope, verifyPayload: bool, hashes: Hashes)
    ensures FromBytes(data, verifyPayload, hashes) == Ok(e)
       <==> ValidEnvelope(e, verifyPayload, hashes) && data == EnvelopeBytes(e)
  {
    if FromBytes(data, verifyPayload, hashes) == Ok(e) { EnvelopeSound(data, e, verifyPayload, hashes); }
    if ValidEnvelope(e, verifyPayload, hashes) && data == EnvelopeBytes(e) {
      EnvelopeComplete(data, e, verifyPayload, hashes);
    }
  }

  lemma DigestFieldIsLast(h: FixedHeader, digest: Digest)
    ensures HeaderBytes(h.(envelopeDigest := digest))[..96] == HeaderBytes(h)[..96]
  {
  }

  /** What a publisher seals, a reader accepts: the digest does not depend on its own field. */
  lemma SealedEnvelopeIsAccepted(h: FixedHeader, extension: seq<byte>, payload: seq<byte>, verifyPayload: bool, hashes: Hashes)
    requires ValidHeader(h) && |extension| == h.extensionLength && |payload| == h.payloadLength
    requires hashes.payload(payload) == h.payloadDigest
    ensures EnvelopeDigest(h, extension, hashes).Some?
    ensures var e := Envelope(h.(envelopeDigest := EnvelopeDigest(h, extension, hashes).value), extension, payload);
            FromBytes(EnvelopeBytes(e), verifyPayload, hashes) == Ok(e)
  {
    var digest := EnvelopeDigest(h, extension, hashes).value;
    var e := Envelope(h.(envelopeDigest := digest), extension, payload);
    DigestFieldIsLast(h, digest);
    EnvelopeExact(EnvelopeBytes(e), e, verifyPayload, hashes);
  }
}
