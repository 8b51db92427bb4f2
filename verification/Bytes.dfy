/** Bytes, and the bounded copy that the containers and network buffers are filled with. */
module Bytes {
  newtype Byte = x: int | 0 <= x < 256

  function Zeros(n: nat): (r: seq<Byte>)
    ensures |r| == n && forall i :: 0 <= i < n ==> r[i] == 0
  {
    seq(n, _ => 0)
  }

  /** memcpy(&body[at], data, |data|). */
  method CopyInto(body: array<Byte>, at: nat, data: seq<Byte>)
    requires at + |data| <= body.Length
    modifies body
    ensures body[..] == old(body[..at]) + data + old(body[at + |data|..])
  {
    for i := 0 to |data|
      invariant body[..at + i] == old(body[..at]) + data[..i]
      invariant body[at + i..] == old(body[at + i..])
    {
      body[at + i] := data[i];
      assert body[..at + i + 1] == body[..at + i] + [data[i]];
    }
    assert body[..] == body[..at + |data|] + body[at + |data|..];
  }

  /** Four bytes, least significant first. */
  function Size32(b: seq<Byte>): nat
    requires |b| == 4
  {
    b[0] as nat + 0x100 * (b[1] as nat + 0x100 * (b[2] as nat + 0x100 * b[3] as nat))
  }

  function Bytes32(n: nat): (b: seq<Byte>)
    requires n < 0x1_0000_0000
    ensures |b| == 4 && Size32(b) == n
  {
    var (n1, n2, n3) := (n / 0x100, n / 0x100 / 0x100, n / 0x100 / 0x100 / 0x100);
    [(n % 0x100) as Byte, (n1 % 0x100) as Byte, (n2 % 0x100) as Byte, n3 as Byte]
  }
}
