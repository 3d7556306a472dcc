/** Lexicographic order on sequences, and strictly sorted sequences. */
module LexOrder {
  import opened Common

  /** Lexicographic extension of `lt`; a proper prefix comes first. */
  predicate Below<T(==)>(lt: (T, T) -> bool, a: seq<T>, b: seq<T>)
    decreases |a|
  {
    && b != []
    && (a == [] || lt(a[0], b[0]) || (a[0] == b[0] && Below(lt, a[1..], b[1..])))
  }

  ghost predicate StrictOrder<T(!new)>(lt: (T, T) -> bool) {
    && (forall x :: !lt(x, x))
    && (forall x, y, z :: lt(x, y) && lt(y, z) ==> lt(x, z))
  }

  ghost predicate StrictTotalOrder<T(!new)>(lt: (T, T) -> bool) {
    && StrictOrder(lt)
    && (forall x, y :: x == y || lt(x, y) || lt(y, x))
  }

  lemma {:induction false} BelowIrreflexive<T(!new)>(lt: (T, T) -> bool, a: seq<T>)
    requires StrictOrder(lt)
    ensures !Below(lt, a, a)
    decreases |a|
  {
    if a != [] { BelowIrreflexive(lt, a[1..]); }
  }

  lemma {:induction false} BelowTransitive<T(!new)>(lt: (T, T) -> bool, a: seq<T>, b: seq<T>, c: seq<T>)
    requires StrictOrder(lt) && Below(lt, a, b) && Below(lt, b, c)
    ensures Below(lt, a, c)
    decreases |a|
  {
    if a != [] && a[0] == b[0] && b[0] == c[0] && !lt(a[0], c[0]) {
      BelowTransitive(lt, a[1..], b[1..], c[1..]);
    }
  }

  lemma {:induction false} BelowTotal<T(!new)>(lt: (T, T) -> bool, a: seq<T>, b: seq<T>)
    requires StrictTotalOrder(lt)
    ensures a == b || Below(lt, a, b) || Below(lt, b, a)
    decreases |a|
  {
    if a != [] && b != [] && a[0] == b[0] {
      BelowTotal(lt, a[1..], b[1..]);
      if a[1..] == b[1..] {
        assert a == [a[0]] + a[1..];
        assert b == [b[0]] + b[1..];
      }
    }
  }

  // ---------- Byte strings ----------

  predicate ByteBelow(a: byte, b: byte) { a < b }

  /** `<` on byte slices and on UTF-8 strings. */
  predicate BytesBelow(a: seq<byte>, b: seq<byte>) { Below(ByteBelow, a, b) }

  lemma BytesBelowIsTotal()
    ensures StrictTotalOrder(BytesBelow)
  {
    assert StrictTotalOrder(ByteBelow);
    forall x { BelowIrreflexive(ByteBelow, x); }
    forall x, y, z | BytesBelow(x, y) && BytesBelow(y, z) ensures BytesBelow(x, z) {
      BelowTransitive(ByteBelow, x, y, z);
    }
    forall x, y ensures x == y || BytesBelow(x, y) || BytesBelow(y, x) {
      BelowTotal(ByteBelow, x, y);
    }
  }

  // ---------- Strictly sorted sequences ----------

  ghost predicate Sorted<T>(lt: (T, T) -> bool, s: seq<T>) {
    forall i, j :: 0 <= i < j < |s| ==> lt(s[i], s[j])
  }

  /** A strictly sorted sequence is determined by its elements. */
  lemma {:induction false} SortedUnique<T(!new)>(lt: (T, T) -> bool, a: seq<T>, b: seq<T>)
    requires StrictOrder(lt)
    requires Sorted(lt, a) && Sorted(lt, b)
    requires forall x :: x in a <==> x in b
    ensures a == b
    decreases |a|
  {
    if a == [] {
      assert forall i :: 0 <= i < |b| ==> b[i] in a;
    } else {
      assert a[0] in b;
      assert b[0] in a;
      assert a[0] == b[0];
      forall x ensures x in a[1..] <==> x in b[1..] {
        if x in a[1..] { assert x in a; }
        if x in b[1..] { assert x in b; }
      }
      SortedUnique(lt, a[1..], b[1..]);
      assert a == [a[0]] + a[1..];
      assert b == [b[0]] + b[1..];
    }
  }
}
