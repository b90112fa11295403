/** Little-endian integers and byte strings, as both code bases lay them out in memory. */
module Bytes {

  newtype byte = x: int | 0 <= x < 256

  /** The bytes of a text. */
  function Ascii(s: string): (r: seq<byte>)
    requires forall i :: 0 <= i < |s| ==> s[i] as int < 128
    ensures |r| == |s| && forall i :: 0 <= i < |s| ==> r[i] as int == s[i] as int
  {
    seq(|s|, i requires 0 <= i < |s| => s[i] as int as byte)
  }

  function Pow256(k: nat): (p: nat)
    ensures p >= 1
  {
    if k == 0 then 1 else 256 * Pow256(k - 1)
  }

  /** The `k` low bytes of `n`, least significant first: a store of a `k`-byte integer. */
  function LE(n: nat, k: nat): (s: seq<byte>)
    ensures |s| == k
    decreases k
  {
    if k == 0 then [] else [(n % 256) as byte] + LE(n / 256, k - 1)
  }

  /** The value a load of those bytes yields. */
  function FromLE(s: seq<byte>): nat {
    if s == [] then 0 else s[0] as nat + 256 * FromLE(s[1..])
  }

  /** A load reads back what a store wrote, truncated to the width of the store. */
  lemma {:induction false} LERoundTrip(n: nat, k: nat)
    requires n < Pow256(k)
    ensures FromLE(LE(n, k)) == n
    decreases k
  {
    if k > 0 {
      LERoundTrip(n / 256, k - 1);
      assert LE(n, k)[1..] == LE(n / 256, k - 1);
    }
  }

  lemma {:induction false} LEInjective(a: nat, b: nat, k: nat)
    requires a < Pow256(k) && b < Pow256(k)
    requires LE(a, k) == LE(b, k)
    ensures a == b
  {
    LERoundTrip(a, k);
    LERoundTrip(b, k);
  }

  /** The four-byte store and load, written out. */
  function LE32(n: nat): (s: seq<byte>)
    ensures |s| == 4
  {
    [(n % 256) as byte, (n / 256 % 256) as byte, (n / 65536 % 256) as byte, (n / 16777216 % 256) as byte]
  }

  function FromLE32(s: seq<byte>): nat
    requires |s| == 4
  {
    s[0] as nat + 256 * s[1] as nat + 65536 * s[2] as nat + 16777216 * s[3] as nat
  }

  lemma {:induction false} LE32RoundTrip(n: nat)
    requires n < 0x1_0000_0000
    ensures FromLE32(LE32(n)) == n
  {
    assert n == n % 256 + 256 * (n / 256);
    assert n / 256 == n / 256 % 256 + 256 * (n / 65536);
    assert n / 65536 == n / 65536 % 256 + 256 * (n / 16777216);
  }

  lemma {:induction false} Pow256Values()
    ensures Pow256(4) == 0x1_0000_0000
    ensures Pow256(8) == 0x1_0000_0000_0000_0000
  {
    assert Pow256(1) == 256;
    assert Pow256(2) == 65536;
    assert Pow256(3) == 16777216;
    assert Pow256(4) == 0x1_0000_0000;
    assert Pow256(5) == 256 * 0x1_0000_0000;
    assert Pow256(6) == 65536 * 0x1_0000_0000;
    assert Pow256(7) == 16777216 * 0x1_0000_0000;
  }

  // ---------------------------------------------------------------------------------------
  // Rings: position `p` of an unbounded stream lives in cell `p % n` of a ring of `n` cells
  // ---------------------------------------------------------------------------------------

  function Cell(n: nat, p: nat): (c: nat)
    requires n > 0
    ensures c < n
  {
    if p < n then p else Cell(n, p - n)
  }

  lemma {:induction false} CellIsMod(n: nat, p: nat)
    requires n > 0
    ensures Cell(n, p) == p % n
  {
    if p >= n {
      CellIsMod(n, p - n);
      ModLap(p, n);
    }
  }

  lemma {:induction false} ModLap(p: nat, n: nat)
    requires 0 < n <= p
    ensures p % n == (p - n) % n
  {
    var q := (p - n) / n;
    assert p == n * (q + 1) + (p - n) % n;
    DivUnique(p, n, q + 1, (p - n) % n);
  }

  /** Division with remainder is unique. */
  lemma {:induction false} DivUnique(x: nat, n: nat, q: nat, r: nat)
    requires r < n
    requires x == n * q + r
    ensures x / n == q && x % n == r
  {
    var d := x / n - q;
    assert n * d == r - x % n by {
      assert x == n * (x / n) + x % n;
      assert n * (x / n) - n * q == n * d;
    }
    MultipleBelow(n, d, r - x % n);
  }

  lemma {:induction false} MultipleBelow(n: int, d: int, v: int)
    requires n * d == v && -n < v < n
    ensures d == 0
  {
  }

  /** A step of at most one lap, with the wrap written as a branch. */
  lemma {:induction false} CellStep(n: nat, p: nat, k: nat)
    requires n > 0 && k <= n
    ensures Cell(n, p + k) == if Cell(n, p) + k < n then Cell(n, p) + k else Cell(n, p) + k - n
    ensures Cell(n, p) + k < 2 * n ==> Cell(n, Cell(n, p) + k) == Cell(n, p + k)
    decreases p
  {
    if p >= n {
      CellStep(n, p - n, k);
    }
  }

  /** Two positions less than one lap apart never share a cell. */
  lemma {:induction false} CellDistinct(n: nat, p: nat, q: nat)
    requires n > 0
    requires p < q < p + n
    ensures Cell(n, p) != Cell(n, q)
  {
    CellStep(n, p, q - p);
  }

  /** A ring of `w` words is a ring of `4 * w` bytes. */
  lemma {:induction false} CellScale(w: nat, p: nat)
    requires w > 0
    ensures Cell(4 * w, 4 * p) == 4 * Cell(w, p)
    decreases p
  {
    if p >= w {
      CellScale(w, p - w);
    }
  }
}
