/** Little-endian integers in byte sequences and arrays: how the plain records of the
    shared-memory layouts are written and read. */
module Bytes {
  import opened Common

  type Byte = x: nat | x < 256

  /** 256 to the k. */
  function Pow(k: nat): nat {
    if k == 0 then 1 else 256 * Pow(k - 1)
  }

  lemma PowIs()
    ensures Pow(1) == 0x100 && Pow(4) == 0x1_0000_0000 && Pow(8) == 0x1_0000_0000_0000_0000
  {
    assert Pow(2) == 0x1_0000 && Pow(3) == 0x100_0000 && Pow(4) == 0x1_0000_0000;
    assert Pow(5) == 0x100_0000_0000 && Pow(6) == 0x1_0000_0000_0000 && Pow(7) == 0x100_0000_0000_0000;
  }

  /** The k low bytes of n, least significant first. */
  function LE(n: nat, k: nat): (r: seq<Byte>)
    ensures |r| == k
  {
    if k == 0 then [] else [n % 256] + LE(n / 256, k - 1)
  }

  /** The k-byte integer at `off`. */
  function Read(b: seq<Byte>, off: nat, k: nat): nat
    requires off + k <= |b|
    decreases k
  {
    if k == 0 then 0 else b[off] + 256 * Read(b, off + 1, k - 1)
  }

  /** The elements x stand at `off`. */
  ghost predicate Has<T>(b: seq<T>, off: nat, x: seq<T>) {
    off + |x| <= |b| && forall i :: 0 <= i < |x| ==> b[off + i] == x[i]
  }

  /** What was encoded reads back, as long as it fits its width. */
  lemma {:induction false} ReadsBack(b: seq<Byte>, off: nat, n: nat, k: nat)
    requires Has(b, off, LE(n, k)) && n < Pow(k)
    ensures Read(b, off, k) == n
    decreases k
  {
    if k > 0 {
      var x, rest := LE(n, k), LE(n / 256, k - 1);
      assert x[0] == n % 256;
      forall i | 0 <= i < |rest|
        ensures b[off + 1 + i] == rest[i]
      {
        assert b[off + (i + 1)] == x[i + 1];
      }
      ReadsBack(b, off + 1, n / 256, k - 1);
    }
  }

  /** Every k-byte read fits its width. */
  lemma {:induction false} ReadFits(b: seq<Byte>, off: nat, k: nat)
    requires off + k <= |b|
    ensures Read(b, off, k) < Pow(k)
    decreases k
  {
    if k > 0 {
      ReadFits(b, off + 1, k - 1);
    }
  }

  lemma HasConcat<T>(b: seq<T>, off: nat, x: seq<T>, y: seq<T>)
    ensures Has(b, off, x + y) <==> Has(b, off, x) && Has(b, off + |x|, y)
  {
    if Has(b, off, x + y) {
      forall i | 0 <= i < |x|
        ensures b[off + i] == x[i]
      {
        assert (x + y)[i] == x[i];
      }
      forall i | 0 <= i < |y|
        ensures b[off + |x| + i] == y[i]
      {
        assert b[off + (|x| + i)] == (x + y)[|x| + i];
      }
    }
    if Has(b, off, x) && Has(b, off + |x|, y) {
      forall i | 0 <= i < |x + y|
        ensures b[off + i] == (x + y)[i]
      {
        if i >= |x| {
          assert b[off + |x| + (i - |x|)] == y[i - |x|];
        }
      }
    }
  }

  lemma HasOne<T>(b: seq<T>, off: nat, x: T)
    requires Has(b, off, [x])
    ensures off < |b| && b[off] == x
  {
    assert b[off + 0] == [x][0];
  }

  /** Bytes that agree where x stands have x too. */
  lemma HasSame(b: seq<Byte>, c: seq<Byte>, off: nat, x: seq<Byte>)
    requires Has(b, off, x) && off + |x| <= |c|
    requires forall i :: off <= i < off + |x| ==> c[i] == b[i]
    ensures Has(c, off, x)
  {
    forall i | 0 <= i < |x|
      ensures c[off + i] == x[i]
    {
      assert c[off + i] == b[off + i];
    }
  }

  lemma Digit(d: Byte, r: nat)
    ensures (d + 256 * r) % 256 == d && (d + 256 * r) / 256 == r
  {
  }

  lemma LESnoc(d: Byte, r: nat, k: nat)
    ensures LE(d + 256 * r, k + 1) == [d] + LE(r, k)
  {
    Digit(d, r);
  }

  /** An integer read and written again gives the bytes it was read from. */
  lemma {:induction false} WritesBack(b: seq<Byte>, off: nat, k: nat)
    requires off + k <= |b|
    ensures Has(b, off, LE(Read(b, off, k), k))
    decreases k
  {
    if k > 0 {
      var r := Read(b, off + 1, k - 1);
      WritesBack(b, off + 1, k - 1);
      LESnoc(b[off], r, k - 1);
      HasConcat(b, off, [b[off]], LE(r, k - 1));
    }
    hide LE;
  }

  lemma FirstField(b: seq<Byte>, off: nat, n: nat, k: nat)
    requires Has(b, off, LE(n, k)) && n < Pow(k)
    ensures off + k <= |b| && Read(b, off, k) == n
  {
    ReadsBack(b, off, n, k);
  }

  /** The last field of a run of fields, and where it stands. */
  lemma LastField(b: seq<Byte>, off: nat, fields: seq<Byte>, n: nat, k: nat)
    requires Has(b, off, fields + LE(n, k)) && n < Pow(k)
    ensures Has(b, off, fields)
    ensures off + |fields| + k <= |b| && Read(b, off + |fields|, k) == n
  {
    HasConcat(b, off, fields, LE(n, k));
    ReadsBack(b, off + |fields|, n, k);
  }

  /** One more field after a run of fields. */
  lemma NextField(b: seq<Byte>, off: nat, fields: seq<Byte>, at: nat, k: nat)
    requires Has(b, off, fields) && at == off + |fields| && at + k <= |b|
    ensures Has(b, off, fields + LE(Read(b, at, k), k)) && Read(b, at, k) < Pow(k)
  {
    WritesBack(b, at, k);
    HasConcat(b, off, fields, LE(Read(b, at, k), k));
    ReadFits(b, at, k);
  }

  /** Copy a record's bytes to `off`, and touch nothing else. */
  method Put(buf: array<Byte>, off: nat, x: seq<Byte>)
    requires off + |x| <= buf.Length
    modifies buf
    ensures Has(buf[..], off, x)
    ensures forall i :: 0 <= i < buf.Length && !(off <= i < off + |x|) ==> buf[i] == old(buf[i])
  {
    for i := 0 to |x|
      invariant forall j :: 0 <= j < i ==> buf[off + j] == x[j]
      invariant forall j :: 0 <= j < buf.Length && !(off <= j < off + |x|) ==> buf[j] == old(buf[j])
    {
      buf[off + i] := x[i];
    }
  }
}
