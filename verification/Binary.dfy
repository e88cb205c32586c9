/** Fixed-width integers in a byte buffer, both byte orders, and where the pieces of a concatenation lie. */
module Binary {
  import opened Bytes

  function Pow256(w: nat): (p: nat)
    ensures p > 0
  {
    if w == 0 then 1 else 256 * Pow256(w - 1)
  }

  function FromLittle(s: Data): (n: nat)
    ensures n < Pow256(|s|)
  {
    if s == [] then 0 else s[0] as nat + 256 * FromLittle(s[1..])
  }

  function ToLittle(n: nat, w: nat): (s: Data)
    ensures |s| == w
  {
    if w == 0 then [] else [(n % 256) as byte] + ToLittle(n / 256, w - 1)
  }

  function FromBig(s: Data): (n: nat)
    ensures n < Pow256(|s|)
  {
    if s == [] then 0 else 256 * FromBig(s[..|s| - 1]) + s[|s| - 1] as nat
  }

  function ToBig(n: nat, w: nat): (s: Data)
    ensures |s| == w
  {
    if w == 0 then [] else ToBig(n / 256, w - 1) + [(n % 256) as byte]
  }

  lemma {:induction false} LittleReadsBack(n: nat, w: nat)
    requires n < Pow256(w)
    ensures FromLittle(ToLittle(n, w)) == n
  {
    if w == 0 {
    } else {
      LittleReadsBack(n / 256, w - 1);
      assert ToLittle(n, w)[1..] == ToLittle(n / 256, w - 1);
    }
  }

  lemma {:induction false} BigReadsBack(n: nat, w: nat)
    requires n < Pow256(w)
    ensures FromBig(ToBig(n, w)) == n
  {
    if w == 0 {
    } else {
      BigReadsBack(n / 256, w - 1);
      assert ToBig(n, w)[..w - 1] == ToBig(n / 256, w - 1);
    }
  }

  lemma {:induction false} BigPrintsBack(s: Data)
    ensures ToBig(FromBig(s), |s|) == s
  {
    if s == [] {
    } else {
      var n := |s| - 1;
      BigPrintsBack(s[..n]);
      assert FromBig(s) / 256 == FromBig(s[..n]) && FromBig(s) % 256 == s[n] as nat;
      assert s == s[..n] + [s[n]];
    }
  }

  /** Which byte counts most. */
  lemma FourBytes(a: byte, b: byte, c: byte, d: byte)
    ensures FromBig([a, b, c, d]) == 0x100_0000 * a as int + 0x1_0000 * b as int + 0x100 * c as int + d as int
    ensures FromLittle([d, c, b, a]) == 0x100_0000 * a as int + 0x1_0000 * b as int + 0x100 * c as int + d as int
  {
    var big, three, two := [a, b, c, d], [a, b, c], [a, b];
    assert big[..3] == three && three[..2] == two && two[..1] == [a] && [a][..0] == [];
    assert FromBig([a]) == a as int && FromBig(two) == 0x100 * a as int + b as int;
    var little, front, last := [d, c, b, a], [c, b, a], [b, a];
    assert little[1..] == front && front[1..] == last && last[1..] == [a] && [a][1..] == [];
    assert FromLittle([a]) == a as int && FromLittle(last) == 0x100 * a as int + b as int;
  }

  /** Two's complement of a `w`-byte integer, `w > 0`. */
  function Signed(n: nat, w: nat): int {
    if 2 * n >= Pow256(w) then n - Pow256(w) else n
  }

  predicate Within(data: Data, offset: int, size: int) {
    0 <= offset && 0 <= size && offset + size <= |data|
  }

  // The reads of the parsers: each is at an offset that was checked before.

  function U16(data: Data, offset: nat): nat
    requires Within(data, offset, 2)
  {
    FromLittle(data[offset..offset + 2])
  }

  function U32(data: Data, offset: nat): nat
    requires Within(data, offset, 4)
  {
    FromLittle(data[offset..offset + 4])
  }

  function I32(data: Data, offset: nat): int
    requires Within(data, offset, 4)
  {
    Signed(U32(data, offset), 4)
  }

  function BigI32(data: Data, offset: nat): int
    requires Within(data, offset, 4)
  {
    Signed(FromBig(data[offset..offset + 4]), 4)
  }

  const LIMIT_32 := 0x8000_0000

  lemma Pow256Values()
    ensures Pow256(2) == 0x1_0000 && Pow256(4) == 0x1_0000_0000
  {
    assert Pow256(1) == 256 && Pow256(3) == 0x100_0000;
  }

  /** `data` holds `piece` at `offset`. */
  predicate At(data: Data, offset: int, piece: Data) {
    Within(data, offset, |piece|) && data[offset..offset + |piece|] == piece
  }

  /** Half of the values stand for negative numbers. */
  lemma SignedMeans(n: nat)
    requires n < 0x1_0000_0000
    ensures Signed(n, 4) == if n < LIMIT_32 then n else n - 0x1_0000_0000
  {
    Pow256Values();
  }

  lemma ReadsAt(data: Data, offset: nat, n: nat)
    ensures At(data, offset, ToLittle(n, 2)) && n < 0x1_0000 ==> U16(data, offset) == n
    ensures At(data, offset, ToLittle(n, 4)) && n < 0x1_0000_0000 ==> U32(data, offset) == n
    ensures At(data, offset, ToLittle(n, 4)) && n < LIMIT_32 ==> I32(data, offset) == n
    ensures At(data, offset, ToBig(n, 4)) && n < LIMIT_32 ==> BigI32(data, offset) == n
  {
    Pow256Values();
    if n < Pow256(2) {
      LittleReadsBack(n, 2);
    }
    if n < Pow256(4) {
      LittleReadsBack(n, 4);
      BigReadsBack(n, 4);
    }
  }

  /** What follows a piece that was read. */
  lemma NextPiece(data: Data, offset: nat, piece: Data, rest: Data)
    requires offset <= |data| && data[offset..] == piece + rest
    ensures At(data, offset, piece) && data[offset + |piece|..] == rest
  {
    assert data[offset + |piece|..] == data[offset..][|piece|..];
    assert data[offset..offset + |piece|] == data[offset..][..|piece|];
  }

  /** A piece of a piece is a piece. */
  lemma InnerIsAt(data: Data, offset: nat, piece: Data, inner: nat, part: Data)
    requires At(data, offset, piece) && At(piece, inner, part)
    ensures At(data, offset + inner, part)
  {
    assert forall k :: 0 <= k < |piece| ==> data[offset + k] == piece[k] by {
      assert forall k :: 0 <= k < |piece| ==> data[offset..offset + |piece|][k] == piece[k];
    }
    assert forall k :: 0 <= k < |part| ==> piece[inner + k] == part[k] by {
      assert forall k :: 0 <= k < |part| ==> piece[inner..inner + |part|][k] == part[k];
    }
  }
}
