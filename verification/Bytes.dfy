/** Byte strings, optional values and the fixed-width big-endian integers that
    the segment framing, the tickets and the receipts are written in. */
module Bytes {
  type byte = x: int | 0 <= x < 256
  type Bytes = seq<byte>

  datatype Option<+T> = None | Some(value: T)

  const TWO64: nat := 0x1_0000_0000_0000_0000

  function Pow256(k: nat): (r: nat)
    ensures r > 0
  {
    if k == 0 then 1 else 256 * Pow256(k - 1)
  }

  /** The k low-order bytes of n, most significant first (Go's BigEndian.PutUint*). */
  function BigEndian(n: nat, k: nat): (r: Bytes)
    ensures |r| == k
  {
    if k == 0 then [] else BigEndian(n / 256, k - 1) + [n % 256]
  }

  function FromBigEndian(s: Bytes): (n: nat)
    ensures n < Pow256(|s|)
  {
    if s == [] then 0 else 256 * FromBigEndian(s[..|s| - 1]) + s[|s| - 1]
  }

  lemma {:induction false} LastDigit(n: nat, m: nat) returns (q: nat, b: byte)
    requires n < 256 * m
    ensures n == 256 * q + b && q < m
  {
    q, b := n / 256, n % 256;
  }

  lemma {:induction false} OneMoreDigit(q: nat, b: byte, k: nat)
    requires FromBigEndian(BigEndian(q, k)) == q
    ensures FromBigEndian(BigEndian(256 * q + b, k + 1)) == 256 * q + b
  {
    var s := BigEndian(q, k);
    assert (256 * q + b) / 256 == q && (256 * q + b) % 256 == b;
    assert (s + [b])[..|s|] == s;
  }

  lemma {:induction false} ReadBackInteger(n: nat, k: nat)
    requires n < Pow256(k)
    ensures FromBigEndian(BigEndian(n, k)) == n
  {
    if k == 0 {
    } else {
      var q, b := LastDigit(n, Pow256(k - 1));
      ReadBackInteger(q, k - 1);
      OneMoreDigit(q, b, k - 1);
    }
  }

  lemma {:induction false} ReadBackBytes(s: Bytes)
    ensures BigEndian(FromBigEndian(s), |s|) == s
  {
    if s == [] {
    } else {
      ReadBackBytes(s[..|s| - 1]);
      assert s == s[..|s| - 1] + [s[|s| - 1]];
    }
  }

  lemma {:induction false} WidthEight()
    ensures Pow256(8) == TWO64
    ensures Pow256(2) == 0x1_0000
  {
    assert Pow256(4) == 0x1_0000_0000 by { assert Pow256(2) == 0x1_0000; }
    assert Pow256(6) == 0x1_0000_0000_0000;
  }

  /** Two counters below 2^64 with the same eight bytes are the same counter. */
  lemma {:induction false} CounterInjective(a: nat, b: nat)
    requires a < TWO64 && b < TWO64
    requires BigEndian(a, 8) == BigEndian(b, 8)
    ensures a == b
  {
    WidthEight();
    ReadBackInteger(a, 8);
    ReadBackInteger(b, 8);
  }

  lemma {:induction false} Assoc<T>(x: seq<T>, y: seq<T>, z: seq<T>)
    ensures (x + y) + z == x + (y + z)
  {
  }

  function Flatten(parts: seq<Bytes>): (r: Bytes)
  {
    if parts == [] then [] else parts[0] + Flatten(parts[1..])
  }

  /** s cut into pieces of k bytes, the last one possibly shorter; the empty
      string is one empty piece. */
  function Cut(s: Bytes, k: nat): (r: seq<Bytes>)
    requires k > 0
    ensures r != []
    ensures forall i :: 0 <= i < |r| ==> |r[i]| <= k
    ensures forall i :: 0 <= i < |r| - 1 ==> |r[i]| == k
    decreases |s|
  {
    if |s| <= k then [s] else [s[..k]] + Cut(s[k..], k)
  }

  lemma {:induction false} FlattenCut(s: Bytes, k: nat)
    requires k > 0
    ensures Flatten(Cut(s, k)) == s
    decreases |s|
  {
    if |s| <= k {
      assert Flatten([s][1..]) == [];
    } else {
      FlattenCut(s[k..], k);
      assert Cut(s, k)[1..] == Cut(s[k..], k);
      assert s == s[..k] + s[k..];
    }
  }

  /** Number of pieces: max(1, ceil(n / k)). */
  function Pieces(n: nat, k: nat): (r: nat)
    requires k > 0
    ensures r >= 1
  {
    if n == 0 then 1 else (n + k - 1) / k
  }

  lemma {:induction false} PiecesStep(n: nat, k: nat)
    requires 0 < k < n
    ensures Pieces(n, k) == 1 + Pieces(n - k, k)
  {
    assert (n - k + k - 1) / k + 1 == (n + k - 1) / k by { DivShift(n - 1, k); }
  }

  lemma {:induction false} DivShift(a: nat, k: nat)
    requires k > 0
    ensures (a + k) / k == a / k + 1
  {
    var q, r := a / k, a % k;
    assert a == q * k + r;
    assert a + k == (q + 1) * k + r;
    DivUnique(a + k, k, q + 1, r);
  }

  lemma {:induction false} DivUnique(a: int, k: int, q: int, r: int)
    requires k > 0 && 0 <= r < k && a == q * k + r
    ensures a / k == q && a % k == r
  {
    var q', r' := a / k, a % k;
    MulDiff(q, q', k);
    if q' > q {
      MulAtLeast(q' - q, k);
      assert false;
    }
    if q' < q {
      MulAtLeast(q - q', k);
      assert false;
    }
  }

  lemma {:induction false} MulDiff(x: int, y: int, k: int)
    ensures (x - y) * k == x * k - y * k
    ensures (y - x) * k == y * k - x * k
  {
  }

  lemma {:induction false} MulAtLeast(d: int, k: int)
    requires d >= 1 && k > 0
    ensures d * k >= k
  {
  }

  lemma {:induction false} CutLength(s: Bytes, k: nat)
    requires k > 0
    ensures |Cut(s, k)| == Pieces(|s|, k)
    decreases |s|
  {
    if |s| <= k {
      if s != [] {
        DivShift(|s| - 1, k);
        DivUnique(|s| - 1, k, 0, |s| - 1);
      }
    } else {
      CutLength(s[k..], k);
      PiecesStep(|s|, k);
    }
  }

  /** A string of n * k bytes is n full pieces. */
  lemma {:induction false} CutExact(s: Bytes, k: nat, n: nat)
    requires k > 0 && n > 0 && |s| == n * k
    ensures |Cut(s, k)| == n
    ensures forall i :: 0 <= i < n ==> |Cut(s, k)[i]| == k
    decreases n
  {
    if n > 1 {
      MulDiff(n, 1, k);
      MulAtLeast(n - 1, k);
      CutExact(s[k..], k, n - 1);
    }
  }
}
