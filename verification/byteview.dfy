/**
 * The value container of the cache (byteview.go): an immutable byte
 * sequence that is handed out only as copies.
 */
module ByteViews {

  newtype byte = x: int | 0 <= x < 256

  /** The cached value. The model's sequence is immutable, so the only way to
      obtain mutable bytes is through a fresh array (`ByteSlice`). */
  datatype ByteView = ByteView(b: seq<byte>)

  /** The empty view, Go's `ByteView{}`. */
  const Empty := ByteView([])

  /** Number of stored bytes. */
  function Len(v: ByteView): (n: nat)
    ensures n == |v.b|
    ensures n == 0 <==> v == Empty
  {
    |v.b|
  }

  /** Go strings are byte strings; the model writes them as Dafny strings with
      one character per byte. */
  predicate IsByteString(s: string)
  {
    forall i | 0 <= i < |s| :: s[i] as int < 256
  }

  /** `string(v.b)`: the stored bytes read as a Go string. */
  function String(v: ByteView): (s: string)
    ensures |s| == Len(v)
    ensures forall i | 0 <= i < |s| :: s[i] as int == v.b[i] as int
    ensures IsByteString(s)
  {
    seq(|v.b|, i requires 0 <= i < |v.b| => v.b[i] as int as char)
  }

  /** `[]byte(s)` for a Go string `s`. */
  function FromString(s: string): (v: ByteView)
    requires IsByteString(s)
    ensures Len(v) == |s|
    ensures forall i | 0 <= i < |s| :: v.b[i] as int == s[i] as int
  {
    ByteView(seq(|s|, i requires 0 <= i < |s| => s[i] as int as byte))
  }

  lemma StringThenBytes(v: ByteView)
    ensures FromString(String(v)) == v
  {
    assert FromString(String(v)).b == v.b;
  }

  lemma BytesThenString(s: string)
    requires IsByteString(s)
    ensures String(FromString(s)) == s
  {
  }

  /** `cloneBytes`: copies `b` into a newly allocated array. */
  method CloneBytes(b: seq<byte>) returns (c: array<byte>)
    ensures fresh(c)
    ensures c.Length == |b|
    ensures c[..] == b
  {
    c := new byte[|b|];
    var i := 0;
    while i < |b|
      invariant 0 <= i <= |b|
      invariant c[..i] == b[..i]
    {
      c[i] := b[i];
      i := i + 1;
    }
  }

  /** `ByteSlice`: a fresh copy of the stored bytes; writing to it cannot reach
      the view. */
  method ByteSlice(v: ByteView) returns (c: array<byte>)
    ensures fresh(c)
    ensures c.Length == Len(v)
    ensures c[..] == v.b
  {
    c := CloneBytes(v.b);
  }
}
