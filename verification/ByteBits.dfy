/** Numbers below 256 as the eight bits that masks and cipher blocks are made of. */
module ByteBits {
  function ByteOf(x: nat): (b: bv8)
    requires x < 0x100
    ensures b as nat == x
  {
    if x == 0 then 0 else ByteOf(x - 1) + 1
  }

  lemma SameByte(x: nat, y: nat)
    requires x < 0x100 && y < 0x100 && ByteOf(x) == ByteOf(y)
    ensures x == y
  {
    hide ByteOf;
    assert ByteOf(x) as nat == ByteOf(y) as nat;
  }
}
