/** Loops around partial system calls: plain and vectored writes, and exact reads. */
module TransferLoops {
  import opened Common

  /** One answer of the kernel: a count, an interruption, or a failure. */
  datatype Answer = Count(n: nat) | Interrupted | Failed

  datatype IoError = Failure | NoProgress

  /**
   What a loop that has `remaining` bytes to move makes of the answers: how many
   it moves and how it ends.  An answer moves no more than it was asked to, and
   running out of answers counts as a failure.
   */
  function Transfer(remaining: nat, answers: seq<Answer>): (r: (nat, Result<(), IoError>))
    ensures r.0 <= remaining
    ensures r.1.Ok? <==> r.0 == remaining
    decreases |answers|
  {
    if remaining == 0 then (0, Ok(()))
    else if answers == [] then (0, Err(Failure))
    else
      match answers[0]
      case Interrupted => Transfer(remaining, answers[1..])
      case Failed => (0, Err(Failure))
      case Count(n) =>
        var m := Min(n, remaining);
        if m == 0 then (0, Err(NoProgress))
        else
          var (k, end) := Transfer(remaining - m, answers[1..]);
          (m + k, end)
  }

  /** One answer, seen from inside a loop. */
  lemma TransferStep(remaining: nat, answers: seq<Answer>, i: nat)
    requires remaining > 0 && i < |answers|
    ensures var now := Transfer(remaining, answers[i..]);
            match answers[i]
            case Interrupted => now == Transfer(remaining, answers[i + 1..])
            case Failed => now == (0, Err(Failure))
            case Count(n) =>
              var m := Min(n, remaining);
              if m == 0 then now == (0, Err(NoProgress))
              else
                var rest := Transfer(remaining - m, answers[i + 1..]);
                now == (m + rest.0, rest.1)
  {
  }

  function Concat(bufs: seq<seq<byte>>): seq<byte> {
    if bufs == [] then [] else bufs[0] + Concat(bufs[1..])
  }

  predicate AllNonEmpty(bufs: seq<seq<byte>>) { forall j :: 0 <= j < |bufs| ==> bufs[j] != [] }

  lemma Advance(whole: seq<byte>, written: nat, m: nat)
    requires written + m <= |whole|
    ensures whole[..written] + whole[written..][..m] == whole[..written + m]
    ensures whole[written..][m..] == whole[written + m..]
  {
  }

  lemma {:induction false} ConcatAppend(a: seq<seq<byte>>, b: seq<byte>)
    ensures Concat(a + [b]) == Concat(a) + b
  {
    if a == [] {
      assert a + [b] == [b] && [b][1..] == [];
    } else {
      ConcatAppend(a[1..], b);
      assert (a + [b])[0] == a[0] && (a + [b])[1..] == a[1..] + [b];
    }
  }

  class OutputFile {
    var data: seq<byte>

    constructor ()
      ensures data == []
    {
      data := [];
    }

    /** One write of the first bytes of `bytes`. */
    method Write(bytes: seq<byte>, n: nat) returns (m: nat)
      modifies this
      ensures m == Min(n, |bytes|) && data == old(data) + bytes[..m]
    {
      m := Min(n, |bytes|);
      data := data + bytes[..m];
    }

    method WriteAll(buf: seq<byte>, answers: seq<Answer>) returns (r: Result<(), IoError>)
      modifies this
      ensures r == Transfer(|buf|, answers).1
      ensures data == old(data) + buf[..Transfer(|buf|, answers).0]
    {
      var written, i := 0, 0;
      ghost var total := Transfer(|buf|, answers);
      assert answers[0..] == answers;
      while written < |buf|
        invariant 0 <= written <= |buf| && 0 <= i <= |answers|
        invariant data == old(data) + buf[..written]
        invariant total.0 == written + Transfer(|buf| - written, answers[i..]).0
        invariant total.1 == Transfer(|buf| - written, answers[i..]).1
        decreases |answers| - i
      {
        if i == |answers| { return Err(Failure); }
        var answer := answers[i];
        TransferStep(|buf| - written, answers, i);
        i := i + 1;
        if answer == Interrupted { continue; }
        if answer == Failed { return Err(Failure); }
        var remaining := buf[written..];
        var m := Write(remaining, answer.n);
        Advance(buf, written, m);
        if m == 0 { return Err(NoProgress); }
        written := written + m;
      }
      return Ok(());
    }

    /** Drops `n` written bytes from the front of the vectors. */
    static method Consume(iovs: seq<seq<byte>>, n: nat) returns (rest: seq<seq<byte>>)
      requires n <= |Concat(iovs)| && AllNonEmpty(iovs)
      ensures Concat(rest) == Concat(iovs)[n..] && AllNonEmpty(rest)
    {
      rest := iovs;
      var written := n;
      while written > 0 && rest != []
        invariant 0 <= written <= |Concat(rest)|
        invariant Concat(rest)[written..] == Concat(iovs)[n..]
        invariant AllNonEmpty(rest)
        decreases |rest|, written
      {
        ghost var tail := Concat(rest[1..]);
        assert Concat(rest) == rest[0] + tail;
        if written >= |rest[0]| {
          assert Concat(rest)[written..] == tail[written - |rest[0]|..];
          written := written - |rest[0]|;
          rest := rest[1..];
        } else {
          var cut := rest[0][written..];
          assert Concat(rest)[written..] == cut + tail;
          var next := [cut] + rest[1..];
          assert next[1..] == rest[1..] && Concat(next) == cut + tail;
          rest := next;
          written := 0;
        }
      }
      assert Concat(rest)[0..] == Concat(rest);
    }

    static method NonEmpty(bufs: seq<seq<byte>>) returns (iovs: seq<seq<byte>>)
      ensures Concat(iovs) == Concat(bufs) && AllNonEmpty(iovs)
    {
      iovs := [];
      for i := 0 to |bufs|
        invariant Concat(iovs) == Concat(bufs[..i]) && AllNonEmpty(iovs)
      {
        assert bufs[..i + 1] == bufs[..i] + [bufs[i]];
        ConcatAppend(bufs[..i], bufs[i]);
        if bufs[i] != [] {
          ConcatAppend(iovs, bufs[i]);
          iovs := iovs + [bufs[i]];
        }
      }
      assert bufs[..|bufs|] == bufs;
    }

    /** One write of the vectors, and what is left of them. */
    method WriteVectors(iovs: seq<seq<byte>>, n: nat) returns (m: nat, rest: seq<seq<byte>>)
      requires AllNonEmpty(iovs)
      modifies this
      ensures m == Min(n, |Concat(iovs)|) && |Concat(rest)| == |Concat(iovs)| - m && AllNonEmpty(rest)
      ensures data + Concat(rest) == old(data) + Concat(iovs)
    {
      ghost var all := Concat(iovs);
      m := Write(Concat(iovs), n);
      rest := Consume(iovs, m);
      assert all == all[..m] + all[m..];
      Assoc(old(data), all[..m], all[m..]);
    }

    /** Writes several buffers as one; the same answers have the same effect as on their concatenation. */
    method WritevAll(bufs: seq<seq<byte>>, answers: seq<Answer>) returns (r: Result<(), IoError>)
      modifies this
      ensures r == Transfer(|Concat(bufs)|, answers).1
      ensures data == old(data) + Concat(bufs)[..Transfer(|Concat(bufs)|, answers).0]
    {
      var iovs := NonEmpty(bufs);
      ghost var whole := Concat(bufs);
      ghost var total := Transfer(|whole|, answers);
      var i := 0;
      assert answers[0..] == answers;
      while iovs != []
        invariant 0 <= i <= |answers| && AllNonEmpty(iovs) && |Concat(iovs)| <= |whole|
        invariant data + Concat(iovs) == old(data) + whole
        invariant var rest := Transfer(|Concat(iovs)|, answers[i..]);
                  total == (|whole| - |Concat(iovs)| + rest.0, rest.1)
        decreases |answers| - i
      {
        NotAllEmpty(iovs);
        Written(data, Concat(iovs), old(data), whole);
        if i == |answers| { return Err(Failure); }
        var answer := answers[i];
        TransferStep(|Concat(iovs)|, answers, i);
        i := i + 1;
        if answer == Interrupted { continue; }
        if answer == Failed { return Err(Failure); }
        var m;
        m, iovs := WriteVectors(iovs, answer.n);
        Written(data, Concat(iovs), old(data), whole);
        if m == 0 { return Err(NoProgress); }
      }
      Written(data, Concat(iovs), old(data), whole);
      return Ok(());
    }
  }

  /** With what is left, the written bytes make up the whole. */
  lemma Written(data: seq<byte>, left: seq<byte>, before: seq<byte>, whole: seq<byte>)
    requires data + left == before + whole && |left| <= |whole|
    ensures data == before + whole[..|whole| - |left|]
  {
    assert data == (data + left)[..|data|];
    assert before + whole[..|whole| - |left|] == (before + whole)[..|data|];
  }

  lemma NotAllEmpty(iovs: seq<seq<byte>>)
    requires iovs != [] && AllNonEmpty(iovs)
    ensures Concat(iovs) != []
  {
  }

  /** What the answers can end in: everything written, or a proper prefix and an error. */
  lemma TransferEnds(bytes: seq<byte>, answers: seq<Answer>)
    ensures var (k, end) := Transfer(|bytes|, answers);
            (end.Ok? <==> bytes[..k] == bytes) && (end.Err? <==> k < |bytes|)
  {
  }

  predicate Progress(a: Answer) { a.Count? && a.n >= 1 }

  /** Interruptions aside, as many positive answers as there are bytes always finish. */
  lemma {:induction false} EnoughAnswersFinish(remaining: nat, answers: seq<Answer>)
    requires forall a <- answers :: Progress(a) || a.Interrupted?
    requires |Positive(answers)| >= remaining
    ensures Transfer(remaining, answers) == (remaining, Ok(()))
    decreases |answers|
  {
    if remaining > 0 {
      var rest := answers[1..];
      if Progress(answers[0]) {
        EnoughAnswersFinish(remaining - Min(answers[0].n, remaining), rest);
      } else {
        EnoughAnswersFinish(remaining, rest);
      }
    }
  }

  function Positive(answers: seq<Answer>): seq<Answer> {
    if answers == [] then []
    else (if Progress(answers[0]) then [answers[0]] else []) + Positive(answers[1..])
  }

  // ---------- Reading ----------

  /** How many bytes a read loop gets, with `available` left in the file. */
  function ReadTransfer(remaining: nat, available: nat, answers: seq<Answer>): (r: (nat, Result<(), IoError>))
    ensures r.0 <= remaining && r.0 <= available
    ensures r.1.Ok? <==> r.0 == remaining
    decreases |answers|
  {
    if remaining == 0 then (0, Ok(()))
    else if answers == [] then (0, Err(Failure))
    else
      match answers[0]
      case Interrupted => ReadTransfer(remaining, available, answers[1..])
      case Failed => (0, Err(Failure))
      case Count(n) =>
        var m := Min(n, Min(remaining, available));
        if m == 0 then (0, Err(NoProgress))
        else
          var (k, end) := ReadTransfer(remaining - m, available - m, answers[1..]);
          (m + k, end)
  }

  /** One answer of a read loop. */
  lemma ReadStep(remaining: nat, available: nat, answers: seq<Answer>, rest: seq<Answer>)
    requires remaining > 0 && answers != [] && rest == answers[1..]
    ensures ReadTransfer(remaining, available, answers) ==
              match answers[0]
              case Interrupted => ReadTransfer(remaining, available, rest)
              case Failed => (0, Err(Failure))
              case Count(n) =>
                var m := Min(n, Min(remaining, available));
                if m == 0 then (0, Err(NoProgress))
                else var r := ReadTransfer(remaining - m, available - m, rest); (m + r.0, r.1)
  {
  }

  /** The first `k` bytes come from the file at `offset`, the others from `before`. */
  ghost predicate IsFilled(now: seq<byte>, file: seq<byte>, offset: nat, k: nat, before: seq<byte>) {
    && k <= |now| == |before| && (k == 0 || offset + k <= |file|)
    && (forall j :: 0 <= j < k ==> now[j] == file[offset + j])
    && (forall j :: k <= j < |now| ==> now[j] == before[j])
  }

  /** How many bytes are left in the file. */
  function Available(file: seq<byte>, offset: nat): nat {
    if offset <= |file| then |file| - offset else 0
  }

  /** One system call that delivers up to `n` bytes. */
  method Pread(file: seq<byte>, buf: array<byte>, offset: nat, filled: nat, n: nat, ghost before: seq<byte>)
    returns (m: nat)
    requires IsFilled(buf[..], file, offset, filled, before)
    modifies buf
    ensures m == Min(n, Min(buf.Length - filled, Available(file, offset + filled)))
    ensures IsFilled(buf[..], file, offset, filled + m, before)
  {
    m := Min(n, Min(buf.Length - filled, Available(file, offset + filled)));
    forall j | filled <= j < filled + m {
      buf[j] := file[offset + j];
    }
  }

  /** Fills the buffer from `offset`, or fails with a prefix of it filled and the rest as it was. */
  method PreadExact(file: seq<byte>, buf: array<byte>, offset: nat, answers: seq<Answer>) returns (r: Result<(), IoError>)
    modifies buf
    ensures var (k, end) := ReadTransfer(buf.Length, Available(file, offset), answers);
            r == end && IsFilled(buf[..], file, offset, k, old(buf[..]))
  {
    var filled, i := 0, 0;
    ghost var total := ReadTransfer(buf.Length, Available(file, offset), answers);
    ghost var left, available, rest := buf.Length, Available(file, offset), answers;
    while filled < buf.Length
      invariant 0 <= filled <= buf.Length && 0 <= i <= |answers|
      invariant left == buf.Length - filled && available == Available(file, offset) - filled >= 0 && rest == answers[i..]
      invariant IsFilled(buf[..], file, offset, filled, old(buf[..]))
      invariant total.0 == filled + ReadTransfer(left, available, rest).0
      invariant total.1 == ReadTransfer(left, available, rest).1
      decreases |answers| - i
    {
      if i == |answers| { return Err(Failure); }
      var answer := answers[i];
      ReadStep(left, available, rest, answers[i + 1..]);
      i, rest := i + 1, answers[i + 1..];
      if answer == Interrupted { continue; }
      if answer == Failed { return Err(Failure); }
      var m := Pread(file, buf, offset, filled, answer.n, old(buf[..]));
      if m == 0 { return Err(NoProgress); }
      filled, left, available := filled + m, left - m, available - m;
    }
    return Ok(());
  }
}
