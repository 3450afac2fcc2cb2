/** Machine integers, big-endian encoding and the outcome type shared by every layer. */
module Bytes {
  type byte = b: int | 0 <= b < 256

  const U32: int := 0x1_0000_0000
  const U64: int := 0x1_0000_0000_0000_0000

  type u32 = n: int | 0 <= n < 0x1_0000_0000
  type u64 = n: int | 0 <= n < 0x1_0000_0000_0000_0000

  /** The error values the storage engine hands to its callers. */
  datatype Error =
    | EOF
    | UnexpectedEOF
    | OffsetOutOfRange(offset: int)
    | NotExist
    | BadMessage

  datatype Result<+T> = Ok(value: T) | Err(error: Error)

  datatype Option<+T> = None | Some(value: T)

  function Pow256(w: nat): nat {
    if w == 0 then 1 else 256 * Pow256(w - 1)
  }

  /** The w low bytes of n, most significant first. */
  function BigEndian(n: nat, w: nat): (s: seq<byte>)
    ensures |s| == w
  {
    if w == 0 then [] else BigEndian(n / 256, w - 1) + [n % 256]
  }

  function FromBigEndian(s: seq<byte>): nat {
    if s == [] then 0 else 256 * FromBigEndian(s[..|s| - 1]) + s[|s| - 1]
  }

  lemma {:induction false} BigEndianRoundTrip(n: nat, w: nat)
    requires n < Pow256(w)
    ensures FromBigEndian(BigEndian(n, w)) == n
  {
    if w > 0 {
      assert n / 256 < Pow256(w - 1);
      BigEndianRoundTrip(n / 256, w - 1);
      assert BigEndian(n, w)[..w - 1] == BigEndian(n / 256, w - 1);
    }
  }

  /** Most significant byte first: what a byte in front of a string of bytes is worth. */
  lemma {:induction false} FromBigEndianCons(b: byte, s: seq<byte>)
    ensures FromBigEndian([b] + s) == b * Pow256(|s|) + FromBigEndian(s)
  {
    if s == [] {
      assert [b] + s == [b] && [b][..0] == [];
    } else {
      var front := s[..|s| - 1];
      FromBigEndianCons(b, front);
      assert ([b] + s)[..|s|] == [b] + front;
    }
  }

  /** The same of the encoder: the most significant byte leads. */
  lemma {:induction false} BigEndianCons(b: byte, n: nat, w: nat)
    requires n < Pow256(w)
    ensures BigEndian(b * Pow256(w) + n, w + 1) == [b] + BigEndian(n, w)
  {
    var m := b * Pow256(w) + n;
    if w == 0 {
      assert BigEndian(m / 256, 0) == [];
    } else {
      var p := Pow256(w - 1);
      assert m == 256 * (b * p + n / 256) + n % 256;
      assert m / 256 == b * p + n / 256 && m % 256 == n % 256;
      BigEndianCons(b, n / 256, w - 1);
    }
  }

  lemma WordSizes()
    ensures Pow256(4) == U32 && Pow256(8) == U64
  {
    assert Pow256(2) == 0x1_0000;
    assert Pow256(4) == 0x1_0000 * Pow256(2);
    assert Pow256(6) == 0x1_0000 * Pow256(4);
    assert Pow256(8) == 0x1_0000 * Pow256(6);
  }

  /** A w-byte big-endian field of either width used on disk decodes to what was encoded. */
  lemma WordRoundTrip(n: nat, w: nat)
    requires (w == 4 && n < U32) || (w == 8 && n < U64)
    ensures FromBigEndian(BigEndian(n, w)) == n
  {
    WordSizes();
    BigEndianRoundTrip(n, w);
  }

  /** Writes the w-byte big-endian form of n into the array at position `at`, in place. */
  method PutBigEndian(a: array<byte>, at: nat, n: nat, w: nat)
    requires at + w <= a.Length
    modifies a
    ensures a[..] == old(a[..at]) + BigEndian(n, w) + old(a[at + w..])
  {
    var rest, k := n, w;
    while k > 0
      invariant 0 <= k <= w
      invariant a[..at] == old(a[..at])
      invariant a[at + w..] == old(a[at + w..])
      invariant BigEndian(n, w) == BigEndian(rest, k) + a[at + k..at + w]
    {
      a[at + k - 1] := rest % 256;
      assert a[at + k - 1..at + w] == [rest % 256] + a[at + k..at + w];
      rest, k := rest / 256, k - 1;
    }
    assert a[..] == a[..at] + a[at..at + w] + a[at + w..];
  }
}
