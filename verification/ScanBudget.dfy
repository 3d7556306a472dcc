/**
 Bounded and streamed directory reads, the three budgets they share, and where a
 stream resumes.
 */
module ScanBudget {
  import opened Common
  import opened RetryLedger

  const MAX_ENTRIES := 65536
  const MAX_NAME_BYTES := MAX_ENTRIES * 255
  const ENTRY_CHARGE := MAX_ENTRIES + 1
  const NAME_BYTE_CHARGE := MAX_NAME_BYTES + 255
  const MIN_READS := 5
  const MIN_ENTRIES := MAX_ENTRIES * MIN_READS + 1
  const MIN_NAME_BYTES := MAX_NAME_BYTES * MIN_READS + 255

  /** A directory entry name: at most 255 bytes. */
  type EntryName = s: seq<byte> | |s| <= 255

  predicate IsDot(s: seq<byte>) { s == [0x2E] || s == [0x2E, 0x2E] }

  // ---------- One bounded enumeration ----------

  datatype Item = Entry(name: EntryName) | End | Broken

  /** One round of the loop: the clock, then what the directory yields. */
  datatype Round = Round(clock: Clock, item: Item)

  datatype ReadFault = Cancelled | ClockFailed | IoFailed | TooLarge

  datatype Enumeration = Enumeration(result: Result<seq<EntryName>, ReadFault>, entries: nat, nameBytes: nat)

  function TotalBytes(names: seq<EntryName>): nat {
    if names == [] then 0 else TotalBytes(names[..|names| - 1]) + |names[|names| - 1]|
  }

  lemma TotalAppend(names: seq<EntryName>, n: EntryName)
    ensures TotalBytes(names + [n]) == TotalBytes(names) + |n|
  {
  }

  /** The rounds from `i` on, with `names` kept so far. */
  function EnumerateFrom(rounds: seq<Round>, i: nat, maxEntries: nat, maxBytes: nat, names: seq<EntryName>): Enumeration
    requires i <= |rounds|
    decreases |rounds| - i
  {
    var kept := Enumeration(Ok(names), |names|, TotalBytes(names));
    if i == |rounds| then kept
    else
      match rounds[i].clock
      case Exceeded => kept.(result := Err(Cancelled))
      case Unavailable => kept.(result := Err(ClockFailed))
      case Within =>
        match rounds[i].item
        case End => kept
        case Broken => kept.(result := Err(IoFailed))
        case Entry(name) =>
          if IsDot(name) then EnumerateFrom(rounds, i + 1, maxEntries, maxBytes, names)
          else if |names| >= maxEntries || TotalBytes(names) + |name| > maxBytes then
            Enumeration(Err(TooLarge), |names| + 1, TotalBytes(names) + |name|)
          else EnumerateFrom(rounds, i + 1, maxEntries, maxBytes, names + [name])
  }

  function Enumerated(rounds: seq<Round>, maxEntries: nat, maxBytes: nat): Enumeration {
    EnumerateFrom(rounds, 0, maxEntries, maxBytes, [])
  }

  method ReadDirEntryNames(rounds: seq<Round>, maxEntries: nat, maxBytes: nat) returns (e: Enumeration)
    ensures e == Enumerated(rounds, maxEntries, maxBytes)
  {
    var names: seq<EntryName> := [];
    var nameBytes := 0;
    var entriesSeen, bytesSeen := 0, 0;
    var i := 0;
    while i < |rounds|
      invariant 0 <= i <= |rounds|
      invariant nameBytes == TotalBytes(names)
      invariant entriesSeen == |names| && bytesSeen == nameBytes
      invariant Enumerated(rounds, maxEntries, maxBytes) == EnumerateFrom(rounds, i, maxEntries, maxBytes, names)
    {
      if rounds[i].clock == Exceeded { return Enumeration(Err(Cancelled), entriesSeen, bytesSeen); }
      if rounds[i].clock == Unavailable { return Enumeration(Err(ClockFailed), entriesSeen, bytesSeen); }
      if rounds[i].item == Broken { return Enumeration(Err(IoFailed), entriesSeen, bytesSeen); }
      if rounds[i].item == End { break; }
      var name := rounds[i].item.name;
      if !IsDot(name) {
        entriesSeen := entriesSeen + 1;
        bytesSeen := bytesSeen + |name|;
        var next := nameBytes + |name|;
        if |names| >= maxEntries || next > maxBytes { return Enumeration(Err(TooLarge), entriesSeen, bytesSeen); }
        TotalAppend(names, name);
        nameBytes := next;
        names := names + [name];
      }
      i := i + 1;
    }
    return Enumeration(Ok(names), entriesSeen, bytesSeen);
  }

  /** The names among the first rounds, dots left out. */
  function NamesIn(rounds: seq<Round>): seq<EntryName> {
    if rounds == [] then []
    else
      WithItem(NamesIn(rounds[..|rounds| - 1]), rounds[|rounds| - 1].item)
  }

  function WithItem(names: seq<EntryName>, item: Item): seq<EntryName> {
    if item.Entry? && !IsDot(item.name) then names + [item.name] else names
  }

  /** The first `k` rounds were in time and each yielded an entry. */
  ghost predicate AllEntries(rounds: seq<Round>, k: nat)
    requires k <= |rounds|
  {
    forall j :: 0 <= j < k ==> rounds[j].clock.Within? && rounds[j].item.Entry?
  }

  /** Reading ends after `k` entries with the end of the directory. */
  ghost predicate EndsAt(rounds: seq<Round>, k: nat) {
    && k <= |rounds| && AllEntries(rounds, k)
    && (k == |rounds| || (rounds[k].clock.Within? && rounds[k].item.End?))
  }

  lemma NamesGrow(rounds: seq<Round>, i: nat)
    requires i < |rounds|
    ensures NamesIn(rounds[..i + 1]) == WithItem(NamesIn(rounds[..i]), rounds[i].item)
  {
    assert rounds[..i + 1][..i] == rounds[..i];
  }

  /** What is counted stays within the bounds, but for one last entry. */
  lemma {:induction false} EnumerateBounded(
      rounds: seq<Round>, i: nat, maxEntries: nat, maxBytes: nat, names: seq<EntryName>)
    requires i <= |rounds| && |names| <= maxEntries && TotalBytes(names) <= maxBytes
    ensures var e := EnumerateFrom(rounds, i, maxEntries, maxBytes, names);
            && e.entries <= maxEntries + 1 && e.nameBytes <= maxBytes + 255
            && (e.result.Ok? ==> e.entries == |e.result.value| <= maxEntries
                                 && e.nameBytes == TotalBytes(e.result.value) <= maxBytes)
    decreases |rounds| - i
  {
    if i < |rounds| && rounds[i].item.Entry? {
      var name := rounds[i].item.name;
      TotalAppend(names, name);
      if IsDot(name) {
        EnumerateBounded(rounds, i + 1, maxEntries, maxBytes, names);
      } else if |names| < maxEntries && TotalBytes(names) + |name| <= maxBytes {
        EnumerateBounded(rounds, i + 1, maxEntries, maxBytes, names + [name]);
      }
    }
  }

  /** A successful enumeration reached the end and kept every name. */
  lemma {:induction false} EnumerateSound(rounds: seq<Round>, i: nat, maxEntries: nat, maxBytes: nat) returns (k: nat)
    requires i <= |rounds| && AllEntries(rounds, i)
    requires EnumerateFrom(rounds, i, maxEntries, maxBytes, NamesIn(rounds[..i])).result.Ok?
    ensures EndsAt(rounds, k)
    ensures EnumerateFrom(rounds, i, maxEntries, maxBytes, NamesIn(rounds[..i])).result.value == NamesIn(rounds[..k])
    decreases |rounds| - i
  {
    if i < |rounds| && rounds[i].item.Entry? {
      NamesGrow(rounds, i);
      k := EnumerateSound(rounds, i + 1, maxEntries, maxBytes);
    } else {
      k := i;
    }
  }

  lemma {:induction false} EnumerateComplete(rounds: seq<Round>, i: nat, k: nat, maxEntries: nat, maxBytes: nat)
    requires EndsAt(rounds, k) && i <= k
    requires |NamesIn(rounds[..k])| <= maxEntries && TotalBytes(NamesIn(rounds[..k])) <= maxBytes
    ensures EnumerateFrom(rounds, i, maxEntries, maxBytes, NamesIn(rounds[..i])).result == Ok(NamesIn(rounds[..k]))
    decreases k - i
  {
    if i < k {
      NamesGrow(rounds, i);
      TotalAppend(NamesIn(rounds[..i]), rounds[i].item.name);
      NamesMonotone(rounds, i + 1, k);
      EnumerateComplete(rounds, i + 1, k, maxEntries, maxBytes);
    }
  }

  lemma {:induction false} NamesMonotone(rounds: seq<Round>, i: nat, k: nat)
    requires i <= k <= |rounds|
    ensures |NamesIn(rounds[..i])| <= |NamesIn(rounds[..k])|
    ensures TotalBytes(NamesIn(rounds[..i])) <= TotalBytes(NamesIn(rounds[..k]))
    decreases k - i
  {
    if i < k {
      NamesMonotone(rounds, i, k - 1);
      NamesGrow(rounds, k - 1);
      var item := rounds[k - 1].item;
      if item.Entry? { TotalAppend(NamesIn(rounds[..k - 1]), item.name); }
    }
  }

  /**
   A bounded enumeration succeeds exactly when the directory was read to its end
   in time and fits both bounds; it then returns every name, in order.
   */
  lemma EnumerateExact(rounds: seq<Round>, maxEntries: nat, maxBytes: nat, names: seq<EntryName>)
    ensures Enumerated(rounds, maxEntries, maxBytes).result == Ok(names)
       <==> && |names| <= maxEntries && TotalBytes(names) <= maxBytes
            && exists k: nat :: EndsAt(rounds, k) && names == NamesIn(rounds[..k])
  {
    assert rounds[..0] == [];
    EnumerateBounded(rounds, 0, maxEntries, maxBytes, []);
    if Enumerated(rounds, maxEntries, maxBytes).result == Ok(names) {
      var k := EnumerateSound(rounds, 0, maxEntries, maxBytes);
    }
    if |names| <= maxEntries && TotalBytes(names) <= maxBytes {
      if k: nat :| EndsAt(rounds, k) && names == NamesIn(rounds[..k]) {
        EnumerateComplete(rounds, 0, k, maxEntries, maxBytes);
      }
    }
  }
}
