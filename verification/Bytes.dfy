/** Byte strings and the integer widths shared by the user-space and kernel halves. */
module Bytes {
  type byte = x: int | 0 <= x < 0x100
  type u32 = x: int | 0 <= x < 0x1_0000_0000
  type u64 = x: int | 0 <= x < 0x1_0000_0000_0000_0000

  /** A Go or C string. `int8`, `char` and `byte` are the same eight bits, so one type serves all three. */
  type Str = seq<byte>

  datatype Option<+T> = None | Some(value: T)

  predicate NulFree(s: Str) {
    forall i | 0 <= i < |s| :: s[i] != 0
  }

  function Min(a: int, b: int): int {
    if a <= b then a else b
  }

  /** Go's `<` on strings: bytewise lexicographic order. */
  predicate Less(a: Str, b: Str) {
    if a == [] || b == [] then a == [] && b != []
    else if a[0] != b[0] then a[0] < b[0]
    else Less(a[1..], b[1..])
  }

  lemma {:induction false} LessTotal(a: Str, b: Str)
    ensures !(Less(a, b) && Less(b, a))
    ensures a == b || Less(a, b) || Less(b, a)
    ensures !Less(a, a)
  {
    if a != [] && b != [] {
      LessTotal(a[1..], b[1..]);
      LessTotal(a[1..], a[1..]);
      assert a == [a[0]] + a[1..] && b == [b[0]] + b[1..];
    } else if a != [] {
      LessTotal(a[1..], a[1..]);
    }
  }

  lemma {:induction false} LessTransitive(a: Str, b: Str, c: Str)
    requires Less(a, b) && Less(b, c)
    ensures Less(a, c)
  {
    if a != [] && a[0] == b[0] == c[0] {
      LessTransitive(a[1..], b[1..], c[1..]);
    }
  }

  /** `a` comes first: in the first byte in which the two differ, or as a proper front of `b`. */
  predicate ComesBefore(a: Str, b: Str) {
    exists i | 0 <= i <= |a| && i <= |b| ::
      a[..i] == b[..i] && ((i == |a| && i < |b|) || (i < |a| && i < |b| && a[i] < b[i]))
  }

  lemma DifferAt(a: Str, b: Str, i: nat)
    requires i <= |a| && i <= |b| && a[..i] == b[..i]
    requires (i == |a| && i < |b|) || (i < |a| && i < |b| && a[i] < b[i])
    ensures ComesBefore(a, b)
  {
  }

  /** The recursive order is byte order. */
  lemma {:induction false} LessIsByteOrder(a: Str, b: Str)
    ensures Less(a, b) <==> ComesBefore(a, b)
  {
    if a == [] || b == [] {
      if a == [] && b != [] {
        DifferAt(a, b, 0);
      }
    } else if a[0] != b[0] {
      if a[0] < b[0] {
        DifferAt(a, b, 0);
      }
    } else {
      LessIsByteOrder(a[1..], b[1..]);
      if Less(a, b) {
        var i :| 0 <= i <= |a[1..]| && i <= |b[1..]| && a[1..][..i] == b[1..][..i] &&
                 ((i == |a[1..]| && i < |b[1..]|) || (i < |a[1..]| && i < |b[1..]| && a[1..][i] < b[1..][i]));
        assert a[..i + 1] == [a[0]] + a[1..][..i] && b[..i + 1] == [b[0]] + b[1..][..i];
        DifferAt(a, b, i + 1);
      }
      if ComesBefore(a, b) {
        var i :| 0 <= i <= |a| && i <= |b| && a[..i] == b[..i] &&
                 ((i == |a| && i < |b|) || (i < |a| && i < |b| && a[i] < b[i]));
        assert a[1..][..i - 1] == a[..i][1..] && b[1..][..i - 1] == b[..i][1..];
        DifferAt(a[1..], b[1..], i - 1);
      }
    }
  }
}
