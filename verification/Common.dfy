/** What the models share: bytes, 32-bit words and the size of sets. */
module Common {

  const UINT: nat := 0x1_0000_0000

  type byte = x: int | 0 <= x < 256

  function Min(a: nat, b: nat): nat { if a < b then a else b }

  function Max(a: nat, b: nat): nat { if a < b then b else a }

  function One(b: bool): nat { if b then 1 else 0 }

  function LittleEndian(a: int, b: int, c: int, d: int): int {
    a + 0x100 * b + 0x1_0000 * c + 0x100_0000 * d
  }

  function Bytes(w: nat): (r: seq<byte>)
    requires w < 0x1_0000_0000
    ensures |r| == 4 && LittleEndian(r[0], r[1], r[2], r[3]) == w
  {
    [w % 0x100, w / 0x100 % 0x100, w / 0x100 / 0x100 % 0x100, w / 0x100 / 0x100 / 0x100]
  }

  lemma SubsetSize(a: set<nat>, b: set<nat>)
    requires a <= b
    ensures |a| <= |b|
  {
    assert b == a + (b - a);
    assert |b| == |a| + |b - a|;
  }

  /** The numbers from a up to a + n. */
  ghost function Range(a: int, n: nat): (r: set<int>)
    ensures |r| == n && forall x :: x in r <==> a <= x < a + n
  {
    if n == 0 then {} else Range(a, n - 1) + {a + n - 1}
  }
}
