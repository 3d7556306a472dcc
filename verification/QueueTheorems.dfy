/** Results that need several parts at once: the job file as a whole, and the widths a queue is created with. */
module QueueTheorems {
  import opened Common
  import CborFormat
  import CborDecode
  import CborTheorems
  import opened BinaryRecords
  import opened BinaryTheorems
  import WallFloor
  import Fsck
  import FsckTheorems

  /**
   A job file written with an encoded extension header is accepted by the reader,
   which finds the payload and the extension header in normal form.
   */
  lemma JobFileReadsBack(h: FixedHeader, ext: CborFormat.ExtensionHeader, payload: seq<byte>, verify: bool, hashes: Hashes)
    requires CborFormat.ValidHeader(ext) && |CborFormat.HeaderBytes(ext)| <= CborFormat.MAX_EXTENSION_SIZE
    requires ValidHeader(h) && h.extensionLength == |CborFormat.HeaderBytes(ext)| && h.payloadLength == |payload|
    requires hashes.payload(payload) == h.payloadDigest
    ensures EnvelopeDigest(h, CborFormat.HeaderBytes(ext), hashes).Some?
    ensures var bytes := CborFormat.HeaderBytes(ext);
            var sealed := h.(envelopeDigest := EnvelopeDigest(h, bytes, hashes).value);
            match FromBytes(HeaderBytes(sealed) + (bytes + payload), verify, hashes)
            case Err(_) => false
            case Ok(e) =>
              e.header == sealed && e.payload == payload
              && CborDecode.DecodeHeader(e.extension) == Ok(CborTheorems.Normalize(ext))
  {
    var bytes := CborFormat.HeaderBytes(ext);
    SealedEnvelopeIsAccepted(h, bytes, payload, verify, hashes);
    CborTheorems.EncodeThenDecode(ext);
  }

  /** Two accepted job files with the same header, extension and payload are the same bytes. */
  lemma JobFileIsDetermined(a: seq<byte>, b: seq<byte>, e: Envelope, verifyA: bool, verifyB: bool, hashes: Hashes)
    requires FromBytes(a, verifyA, hashes) == Ok(e) && FromBytes(b, verifyB, hashes) == Ok(e)
    ensures a == b
  {
    EnvelopeExact(a, e, verifyA, hashes);
    EnvelopeExact(b, e, verifyB, hashes);
  }

  /** Any queue whose FORMAT record decodes has widths for which no floor falls into an earlier terminal bucket. */
  lemma AcceptedFormatIsRollbackSafe(
      b: seq<byte>, r: FormatRecord, hash: seq<byte> -> Digest, s: WallFloor.Shared, qs: seq<WallFloor.Request>)
    requires DecodeFormat(b, hash) == Ok(r)
    ensures r.delayedWidth >= 1 && r.terminalWidth >= 1
    ensures WallFloor.Inv(s, r.delayedWidth) ==>
              WallFloor.NeverFalls(WallFloor.Floors(s, qs, r.delayedWidth), r.terminalWidth)
  {
    FormatExact(b, r, hash);
    if WallFloor.Inv(s, r.delayedWidth) {
      WallFloor.NoEarlierTerminalBucket(s, qs, r.delayedWidth, r.terminalWidth);
    }
  }

  // ---------- The consistency check against the reader ----------

  /** What reading the header and the extension of these bytes answers, for an object with this name. */
  function HeaderAnswer(bytes: seq<byte>, jobId: Id16, maximumAttempts: u32, hashes: Hashes): Option<Fsck.HeaderView>
    requires |bytes| >= 128
  {
    match DecodeHeader(bytes[..128])
    case Err(_) => None
    case Ok(h) =>
      var whole := 128 + h.extensionLength <= |bytes|;
      Some(Fsck.HeaderView(
             h.jobId == jobId, h.maximumAttempts == maximumAttempts, h.extensionLength, whole,
             whole && EnvelopeDigest(h, bytes[128..128 + h.extensionLength], hashes) == Some(h.envelopeDigest),
             h.payloadLength))
  }

  /** What hashing the payload of these bytes answers. */
  function PayloadAnswer(bytes: seq<byte>, h: FixedHeader, hashes: Hashes): Fsck.PayloadVerdict {
    var start := 128 + h.extensionLength;
    if |bytes| < start + h.payloadLength then Fsck.PayloadUnreadable
    else if hashes.payload(bytes[start..start + h.payloadLength]) == h.payloadDigest then Fsck.PayloadValid
    else Fsck.PayloadCorrupt
  }

  /** The object is a readable file with these bytes, under a name that parses to this job. */
  ghost predicate AnswersOf(v: Fsck.FileView, bytes: seq<byte>, jobId: Id16, maximumAttempts: u32, hashes: Hashes) {
    && v.parses && FsckTheorems.Readable(v) && v.stat.size == |bytes| && v.openedSize == Some(|bytes|)
    && v.headerReads == (|bytes| >= 128)
    && (|bytes| >= 128 ==>
          && v.header == HeaderAnswer(bytes, jobId, maximumAttempts, hashes)
          && var h := DecodeHeader(bytes[..128]);
             h.Ok? ==> v.payload == PayloadAnswer(bytes, h.value, hashes))
  }

  /** The name, the place and the queue's limit agree with an envelope. */
  ghost predicate InPlace(
      e: Envelope, o: Fsck.Options, state: Fsck.QueueState, parts: nat, v: Fsck.FileView, jobId: Id16,
      maximumAttempts: u32)
  {
    && e.header.jobId == jobId && e.header.maximumAttempts == maximumAttempts
    && e.header.payloadLength <= o.maxPayloadLength
    && parts == Fsck.CanonicalParts(state) && v.tagAuthentic
    && (v.pathShard.None? || v.pathShard.value == v.computedShard)
  }

  /** The reader's conditions in terms of the answers. */
  lemma ReaderAccepts(bytes: seq<byte>, verify: bool, hashes: Hashes)
    ensures FromBytes(bytes, verify, hashes).Ok?
       <==> && |bytes| >= 128 && DecodeHeader(bytes[..128]).Ok?
            && var h := DecodeHeader(bytes[..128]).value;
               && |bytes| == 128 + h.extensionLength + h.payloadLength
               && EnvelopeDigest(h, bytes[128..128 + h.extensionLength], hashes) == Some(h.envelopeDigest)
               && (verify ==> PayloadAnswer(bytes, h, hashes).PayloadValid?)
    ensures FromBytes(bytes, verify, hashes).Ok? ==>
              Ok(FromBytes(bytes, verify, hashes).value.header) == DecodeHeader(bytes[..128])
  {
    if |bytes| >= 128 && DecodeHeader(bytes[..128]).Ok? {
      var h := DecodeHeader(bytes[..128]).value;
      var start := 128 + h.extensionLength;
      if |bytes| == start + h.payloadLength { assert bytes[start..start + h.payloadLength] == bytes[start..]; }
    }
  }

  /**
   The check finds a job sound exactly when the reader accepts its bytes and the envelope is
   in its place: with the payload digest when the check is a deep one, without it otherwise.
   */
  lemma SoundExactlyWhenReadable(
      o: Fsck.Options, state: Fsck.QueueState, parts: nat, v: Fsck.FileView, bytes: seq<byte>, jobId: Id16,
      maximumAttempts: u32, hashes: Hashes)
    requires AnswersOf(v, bytes, jobId, maximumAttempts, hashes) && !state.ReceiptState?
    ensures Fsck.FileVerdict(o, state, parts, v).Sound?
       <==> match FromBytes(bytes, o.deep, hashes)
            case Err(_) => false
            case Ok(e) => InPlace(e, o, state, parts, v, jobId, maximumAttempts)
  {
    FsckTheorems.VerdictExactly(o, state, parts, v);
    ReaderAccepts(bytes, o.deep, hashes);
  }

  /** A job for which nothing is reported is empty or can be read back. */
  lemma UnreportedJobReadsBack(
      o: Fsck.Options, state: Fsck.QueueState, path: seq<Fsck.Name>, v: Fsck.FileView, bytes: seq<byte>, jobId: Id16,
      maximumAttempts: u32, hashes: Hashes)
    requires AnswersOf(v, bytes, jobId, maximumAttempts, hashes) && !state.ReceiptState?
    requires bytes != [] && Fsck.NoErrors(Fsck.FileReport(o, state, path, v))
    ensures FromBytes(bytes, o.deep, hashes).Ok?
  {
    FsckTheorems.ObjectCleanExactly(o, state, path, v);
    FsckTheorems.VerdictExactly(o, state, |path|, v);
    SoundExactlyWhenReadable(o, state, |path|, v, bytes, jobId, maximumAttempts, hashes);
  }
}
