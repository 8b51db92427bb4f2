/**
 The masks of the key exchange, byte by byte: the enclave that hands out chunk keys under them, from a prepared buffer
 or computed on demand, and the client on the other side. The block cipher, hash and MAC under the current session key
 are uninterpreted functions.
 */
module CtrMask {
  import opened ByteBits
  import opened CtrSessions
  import opened Options

  /** Prepared mask bytes; one client's worth is the whole buffer. */
  const MASK_SIZE: nat := 80 * 1024 * 1024

  type Block = b: seq<bv8> | |b| == 16 witness seq(16, _ => 0)
  type Digest = d: seq<bv8> | |d| == 32 witness seq(32, _ => 0)

  /** encrypt is the block cipher under the session key; the secret is the server's. */
  datatype Crypto = Crypto(encrypt: Block -> Block, hash: seq<bv8> -> Digest, mac: seq<bv8> -> Digest, secret: Digest)

  /** The block that is encrypted: the counter's four bytes, least significant first, and the nonce. */
  function CounterBlock(counter: nat, nonce: Nonce): Block {
    var (c1, c2, c3) := (counter / 0x100, counter / 0x100 / 0x100, counter / 0x100 / 0x100 / 0x100);
    [ByteOf(counter % 0x100), ByteOf(c1 % 0x100), ByteOf(c2 % 0x100), ByteOf(c3 % 0x100)] + nonce
  }

  function EncryptCounter(k: Crypto, counter: nat, nonce: Nonce): Block {
    k.encrypt(CounterBlock(counter, nonce))
  }

  /** Byte i of the mask that starts at counter `base`. */
  function MaskByte(k: Crypto, nonce: Nonce, base: nat, i: nat): bv8 {
    EncryptCounter(k, Wrap32(base + i / 16), nonce)[i % 16]
  }

  function Mask(k: Crypto, nonce: Nonce, base: nat, n: nat): (m: seq<bv8>)
    ensures |m| == n && forall i :: 0 <= i < n ==> m[i] == MaskByte(k, nonce, base, i)
  {
    seq(n, i requires 0 <= i < n => MaskByte(k, nonce, base, i))
  }

  /** The chunk keys for a batch of 32-byte seeds. */
  function Keys(k: Crypto, seeds: seq<bv8>): (r: seq<bv8>)
    requires |seeds| % 32 == 0
    ensures |r| == |seeds|
    decreases |seeds|
  {
    if seeds == [] then [] else Keys(k, seeds[..|seeds| - 32]) + k.hash(seeds[|seeds| - 32..] + k.secret)
  }

  lemma SliceOfLeft(a: seq<bv8>, b: seq<bv8>, i: nat, j: nat)
    requires i <= j <= |a|
    ensures (a + b)[i..j] == a[i..j]
  {
  }

  lemma {:induction false} KeysAt(k: Crypto, seeds: seq<bv8>, j: nat)
    requires |seeds| % 32 == 0 && 32 * j + 32 <= |seeds|
    ensures Keys(k, seeds)[32 * j..32 * j + 32] == k.hash(seeds[32 * j..32 * j + 32] + k.secret)
    decreases |seeds|
  {
    var init, n := seeds[..|seeds| - 32], 32 * j;
    var last := k.hash(seeds[|seeds| - 32..] + k.secret);
    var all := Keys(k, seeds);
    assert all == Keys(k, init) + last;
    hide Keys;
    if n + 32 < |seeds| {
      KeysAt(k, init, j);
      SliceOfLeft(Keys(k, init), last, n, n + 32);
      SliceOfLeft(init, seeds[|seeds| - 32..], n, n + 32);
      assert init + seeds[|seeds| - 32..] == seeds;
    } else {
      assert all[n..n + 32] == last;
      assert seeds[n..n + 32] == seeds[|seeds| - 32..];
    }
  }

  function Xor(a: seq<bv8>, b: seq<bv8>): (r: seq<bv8>)
    requires |a| <= |b|
    ensures |r| == |a| && forall i :: 0 <= i < |a| ==> r[i] == a[i] ^ b[i]
  {
    seq(|a|, i requires 0 <= i < |a| => a[i] ^ b[i])
  }

  lemma XorPrefix(a: seq<bv8>, b: seq<bv8>)
    requires |a| <= |b|
    ensures Xor(a, b) == Xor(a, b[..|a|])
  {
  }

  lemma XorBack(x: bv8, y: bv8)
    ensures (x ^ y) ^ y == x
  {
  }

  lemma XorTwice(a: seq<bv8>, b: seq<bv8>)
    requires |a| == |b|
    ensures Xor(Xor(a, b), b) == a
  {
    forall i | 0 <= i < |a| ensures Xor(Xor(a, b), b)[i] == a[i] {
      XorBack(a[i], b[i]);
    }
  }

  lemma MaskBlock(k: Crypto, nonce: Nonce, base: nat, b: nat)
    ensures Mask(k, nonce, base, 16 * (b + 1))
      == Mask(k, nonce, base, 16 * b) + EncryptCounter(k, Wrap32(base + b), nonce)
  {
    var longer, shorter, block := Mask(k, nonce, base, 16 * (b + 1)), Mask(k, nonce, base, 16 * b),
        EncryptCounter(k, Wrap32(base + b), nonce);
    forall i | 0 <= i < |longer| ensures longer[i] == (shorter + block)[i] {
      if i >= 16 * b {
        assert i / 16 == b && i % 16 == i - 16 * b;
      }
    }
  }

  lemma WrapNext(base: nat, b: nat)
    ensures Wrap32(Wrap32(base + b) + 1) == Wrap32(base + (b + 1))
  {
  }

  lemma WrapSmall(x: nat)
    requires x < COUNTER_RANGE
    ensures Wrap32(x) == x
  {
  }

  /** Mask blocks for `number` counters, two at a time; an odd last one is not produced. */
  method GenerateMask(k: Crypto, nonce: Nonce, counter: nat, number: nat) returns (mask: seq<bv8>)
    requires counter < COUNTER_RANGE
    ensures mask == Mask(k, nonce, counter, 16 * (number / 2 * 2))
  {
    hide Mask, Wrap32;
    mask := [];
    var current := counter;
    assert current == Wrap32(counter + 0) by { WrapSmall(counter); }
    for i := 0 to number / 2
      invariant mask == Mask(k, nonce, counter, 16 * (2 * i))
      invariant current == Wrap32(counter + 2 * i)
    {
      MaskBlock(k, nonce, counter, 2 * i);
      MaskBlock(k, nonce, counter, 2 * i + 1);
      WrapNext(counter, 2 * i);
      WrapNext(counter, 2 * i + 1);
      mask := mask + EncryptCounter(k, current, nonce);
      current := Wrap32(current + 1);
      mask := mask + EncryptCounter(k, current, nonce);
      current := Wrap32(current + 1);
    }
  }

  // ---------------------------------------------------------------- the enclave

  /** The tests for the prepared buffer: one when seeds are unmasked, another when keys are masked. */
  predicate UnmasksFromBuffer(c: Client, length: nat) {
    c.offline && Wrap32(16 * Wrap32(c.current + length / 32 * 4)) < MASK_SIZE
  }

  predicate MasksFromBuffer(c: Client, length: nat) {
    c.offline && Wrap32(c.current * 16 + length) < MASK_SIZE
  }

  /** Reads past the end of the buffer return whatever memory lies there. */
  function Read(buffer: seq<bv8>, beyond: nat -> bv8, i: nat): bv8 {
    if i < |buffer| then buffer[i] else beyond(i)
  }

  function Span(buffer: seq<bv8>, beyond: nat -> bv8, offset: nat, n: nat): (m: seq<bv8>)
    ensures |m| == n && forall i :: 0 <= i < n ==> m[i] == Read(buffer, beyond, offset + i)
  {
    seq(n, i requires 0 <= i < n => Read(buffer, beyond, offset + i))
  }

  /** The mask bytes a batch really uses: `length` for the seeds, then `length` for the keys. */
  function UsedMask(k: Crypto, c: Client, buffer: seq<bv8>, beyond: nat -> bv8, length: nat): (m: seq<bv8>)
    ensures |m| == 2 * length
  {
    seq(2 * length, i requires 0 <= i < 2 * length =>
      if (if i < length then UnmasksFromBuffer(c, length) else MasksFromBuffer(c, length))
      then Read(buffer, beyond, c.maskOffset + c.current * 16 + i)
      else MaskByte(k, c.nonce, Total(c), i))
  }

  /** Each half of the mask comes from the buffer or is computed on demand. */
  lemma UsedHalves(k: Crypto, c: Client, buffer: seq<bv8>, beyond: nat -> bv8, n: nat)
    ensures var used := UsedMask(k, c, buffer, beyond, n);
      var mask := Mask(k, c.nonce, Total(c), 2 * n);
      && used[..n] == (if UnmasksFromBuffer(c, n) then Span(buffer, beyond, c.maskOffset + c.current * 16, n)
         else mask[..n])
      && used[n..] == (if MasksFromBuffer(c, n) then Span(buffer, beyond, c.maskOffset + c.current * 16 + n, n)
         else mask[n..])
  {
    hide UnmasksFromBuffer, MasksFromBuffer, MaskByte, Wrap32;
  }

  /** No 32-bit overflow in the buffer offsets of a batch. */
  predicate FitsCounters(c: Client, length: nat) {
    c.current * 16 + 2 * length < COUNTER_RANGE
  }

  /** The numbers of counters that the enclave and the client compute for a batch both cover twice its length. */
  lemma BlocksOfBatch(n: nat)
    requires n % 32 == 0
    ensures 16 * (n * 2 / 32 * 2 / 2 * 2) == 2 * n
    ensures 16 * (n / 32 * 4 / 2 * 2) == 2 * n
  {
    var m := n / 32;
    assert n == 32 * m;
  }

  lemma TotalFits(c: Client)
    ensures Total(c) < COUNTER_RANGE
  {
  }

  /** A batch whose seeds are unmasked from the buffer has its keys masked from it too. */
  lemma TestsAreOrdered(c: Client, length: nat)
    requires length % 32 == 0 && FitsCounters(c, length)
    ensures UnmasksFromBuffer(c, length) <==> c.offline && 16 * c.current + 2 * length < MASK_SIZE
    ensures MasksFromBuffer(c, length) <==> c.offline && 16 * c.current + length < MASK_SIZE
    ensures UnmasksFromBuffer(c, length) ==> MasksFromBuffer(c, length)
  {
    var blocks := c.current + length / 32 * 4;
    assert 16 * blocks == 16 * c.current + 2 * length;
    WrapSmall(blocks);
    WrapSmall(16 * blocks);
    WrapSmall(c.current * 16 + length);
  }

  /** The order in which the hash table is walked. */
  ghost predicate Enumerates(order: seq<int>, ids: set<int>) {
    && (forall i :: 0 <= i < |order| ==> order[i] in ids)
    && (forall id :: id in ids ==> id in order)
    && (forall i, j :: 0 <= i < j < |order| ==> order[i] != order[j])
  }

  lemma FoldedAt(clients: map<int, Client>, id: int)
    requires id in clients
    ensures Folded(clients)[id] == clients[id].(keyGen := Wrap32(clients[id].keyGen + clients[id].current),
      current := 0)
  {
  }

  datatype Reply = Reply(keys: seq<bv8>, mac: Digest)

  method DeriveKeys(k: Crypto, seeds: seq<bv8>) returns (keys: seq<bv8>)
    requires |seeds| % 32 == 0
    ensures keys == Keys(k, seeds)
  {
    keys := [];
    for i := 0 to |seeds| / 32
      invariant keys == Keys(k, seeds[..32 * i])
    {
      var upTo := seeds[..32 * i + 32];
      assert upTo[..|upTo| - 32] == seeds[..32 * i] && upTo[|upTo| - 32..] == seeds[32 * i..32 * i + 32];
      keys := keys + k.hash(seeds[32 * i..32 * i + 32] + k.secret);
    }
    assert seeds[..32 * (|seeds| / 32)] == seeds;
  }

  /** The buffer holds the mask of this nonce from counter `base` on. */
  ghost predicate Prepared(k: Crypto, nonce: Nonce, base: nat, buffer: seq<bv8>) {
    |buffer| == MASK_SIZE && forall i :: 0 <= i < MASK_SIZE ==> buffer[i] == MaskByte(k, nonce, base, i)
  }

  class Enclave {
    const k: Crypto
    const beyond: nat -> bv8
    var clients: map<int, Client>
    const buffer: array<bv8>

    constructor (k: Crypto, beyond: nat -> bv8)
      ensures clients == map[] && buffer.Length == MASK_SIZE && fresh(buffer) && this.k == k && this.beyond == beyond
    {
      this.k, this.beyond, clients := k, beyond, map[];
      buffer := new bv8[MASK_SIZE](_ => 0);
    }

    /** Closes the running session of every client, in the order of the client table. */
    method FoldCounters(order: seq<int>)
      requires Enumerates(order, clients.Keys)
      modifies this`clients
      ensures clients == Folded(old(clients))
    {
      hide Folded, Wrap32, Total;
      ghost var folded := Folded(clients);
      for i := 0 to |order|
        invariant clients.Keys == old(clients).Keys
        invariant forall j :: 0 <= j < i ==> clients[order[j]] == folded[order[j]]
        invariant forall j :: i <= j < |order| ==> clients[order[j]] == old(clients)[order[j]]
      {
        FoldedAt(old(clients), order[i]);
        var c := clients[order[i]];
        clients := clients[order[i] := c.(keyGen := Wrap32(c.keyGen + c.current), current := 0)];
      }
      forall id | id in clients ensures clients[id] == folded[id] {
        assert id in order;
      }
    }

    /** A login: counters are folded before the MAC is looked at. */
    method ClientStatusModify(order: seq<int>, id: int, counter: nat, nonce: Nonce, macOk: bool)
      returns (status: Status)
      requires Enumerates(order, clients.Keys)
      modifies this`clients
      ensures status == LoginStatus(old(clients), id, counter, nonce, macOk)
      ensures clients == LoginClients(old(clients), id, counter, nonce, macOk)
    {
      FoldCounters(order);
      if !macOk {
        return BadMac;
      }
      if id !in clients {
        for i := 0 to |order|
          invariant forall j :: 0 <= j < i ==> clients[order[j]].nonce != nonce
        {
          if clients[order[i]].nonce == nonce {
            assert clients.Keys == old(clients).Keys;
            assert exists other :: other in old(clients) && old(clients)[other].nonce == nonce by {
              assert order[i] in old(clients) && old(clients)[order[i]].nonce == nonce;
            }
            return NonceUsed;
          }
        }
        assert forall other :: other in old(clients) ==> clients[other].nonce == old(clients)[other].nonce;
        clients := clients[id := Client(nonce, 0, 0, false, 0)];
        return if counter == 0 then Success else Reset;
      }
      if clients[id].keyGen == counter {
        return Success;
      }
      clients := clients[id := clients[id].(nonce := nonce, keyGen := 0, current := 0, offline := false)];
      status := Reset;
    }

    /** Prepares masks for the first client in the order of the client table; the others are not touched. */
    method SetNextEncryptionMask(order: seq<int>)
      requires buffer.Length == MASK_SIZE && Enumerates(order, clients.Keys)
      modifies this`clients, buffer
      ensures clients.Keys == old(clients).Keys
      ensures forall id :: id in clients && (order == [] || id != order[0]) ==> clients[id] == old(clients)[id]
      ensures order == [] ==> buffer[..] == old(buffer[..])
      ensures order != [] ==>
        && clients[order[0]] == old(clients)[order[0]].(offline := true, maskOffset := 0)
        && Prepared(k, old(clients)[order[0]].nonce, Total(old(clients)[order[0]]), buffer[..])
    {
      if order == [] {
        return;
      }
      var c := clients[order[0]];
      clients := clients[order[0] := c.(offline := true, maskOffset := 0)];
      var mask := GenerateMask(k, c.nonce, Total(c), MASK_SIZE / 16);
      var i := 0;
      while i < MASK_SIZE
        modifies buffer
        invariant 0 <= i <= MASK_SIZE && |mask| == MASK_SIZE
        invariant forall j :: 0 <= j < i ==> buffer[j] == mask[j]
      {
        buffer[i] := mask[i];
        i := i + 1;
      }
    }

    /** Unmasks the seeds, derives the keys, masks them, and counts the blocks used. */
    method KeygenCtr(src: seq<bv8>, mac: Digest, id: int) returns (reply: Option<Reply>)
      requires |src| % 32 == 0 && buffer.Length == MASK_SIZE
      requires id in clients && FitsCounters(clients[id], |src|)
      modifies this`clients
      ensures reply.None? <==> mac != k.mac(src)
      ensures reply.None? ==> clients == old(clients)
      ensures reply.Some? ==>
        var used := UsedMask(k, old(clients)[id], buffer[..], beyond, |src|);
        && reply.value.keys == Xor(Keys(k, Xor(src, used[..|src|])), used[|src|..])
        && reply.value.mac == k.mac(reply.value.keys)
        && clients == old(clients)[id :=
           old(clients)[id].(current := Wrap32(old(clients)[id].current + |src| * 2 / 16))]
    {
      if mac != k.mac(src) {
        return None;
      }
      var c := clients[id];
      ghost var used := UsedMask(k, c, buffer[..], beyond, |src|);
      var originHash, mask := Unmask(src, c);
      var keySeed := DeriveKeys(k, originHash);
      var keys := MaskKeys(keySeed, c, mask);
      reply := Some(Reply(keys, k.mac(keys)));
      clients := clients[id := c.(current := Wrap32(c.current + |src| * 2 / 16))];
    }

    /** The seeds, and the whole mask if it was computed on demand. */
    method Unmask(src: seq<bv8>, c: Client) returns (seeds: seq<bv8>, mask: seq<bv8>)
      requires |src| % 32 == 0 && FitsCounters(c, |src|)
      ensures seeds == Xor(src, UsedMask(k, c, buffer[..], beyond, |src|)[..|src|])
      ensures !UnmasksFromBuffer(c, |src|) ==> mask == Mask(k, c.nonce, Total(c), 2 * |src|)
    {
      hide Wrap32, Xor, UnmasksFromBuffer, MasksFromBuffer;
      mask := [];
      UsedHalves(k, c, buffer[..], beyond, |src|);
      hide UsedMask, Mask, Span;
      if UnmasksFromBuffer(c, |src|) {
        seeds := XorBuffer(src, c.maskOffset + c.current * 16);
      } else {
        TotalFits(c);
        BlocksOfBatch(|src|);
        mask := GenerateMask(k, c.nonce, Total(c), |src| * 2 / 32 * 2);
        XorPrefix(src, mask);
        seeds := Xor(src, mask);
      }
    }

    /** The masked keys; a mask computed on demand is used unless this side takes the buffer. */
    method MaskKeys(keySeed: seq<bv8>, c: Client, mask: seq<bv8>) returns (keys: seq<bv8>)
      requires |keySeed| % 32 == 0 && FitsCounters(c, |keySeed|)
      requires !UnmasksFromBuffer(c, |keySeed|) ==> mask == Mask(k, c.nonce, Total(c), 2 * |keySeed|)
      ensures keys == Xor(keySeed, UsedMask(k, c, buffer[..], beyond, |keySeed|)[|keySeed|..])
    {
      hide Xor, UnmasksFromBuffer, MasksFromBuffer, Wrap32;
      UsedHalves(k, c, buffer[..], beyond, |keySeed|);
      hide UsedMask, Mask, Span;
      if MasksFromBuffer(c, |keySeed|) {
        keys := XorBuffer(keySeed, c.maskOffset + c.current * 16 + |keySeed|);
      } else {
        TestsAreOrdered(c, |keySeed|);
        keys := Xor(keySeed, mask[|keySeed|..]);
      }
    }

    method XorBuffer(data: seq<bv8>, offset: nat) returns (r: seq<bv8>)
      ensures r == Xor(data, Span(buffer[..], beyond, offset, |data|))
    {
      r := [];
      for i := 0 to |data|
        invariant |r| == i
        invariant forall j :: 0 <= j < i ==> r[j] == data[j] ^ Read(buffer[..], beyond, offset + j)
      {
        r := r + [data[i] ^ (if offset + i < buffer.Length then buffer[offset + i] else beyond(offset + i))];
      }
    }
  }

  // ---------------------------------------------------------------- when the masks of both sides agree

  /** The block cipher can be undone. */
  ghost predicate Injective(k: Crypto) {
    forall x: Block, y: Block :: k.encrypt(x) == k.encrypt(y) ==> x == y
  }

  lemma SameQuotient(a: nat, b: nat)
    requires a % 0x100 == b % 0x100 && a / 0x100 == b / 0x100
    ensures a == b
  {
  }

  lemma SameCounter(a: nat, b: nat)
    requires a < COUNTER_RANGE && b < COUNTER_RANGE && a % 0x100 == b % 0x100
      && a / 0x100 % 0x100 == b / 0x100 % 0x100 && a / 0x100 / 0x100 % 0x100 == b / 0x100 / 0x100 % 0x100
      && a / 0x100 / 0x100 / 0x100 % 0x100 == b / 0x100 / 0x100 / 0x100 % 0x100
    ensures a == b
  {
    SameQuotient(a / 0x100 / 0x100, b / 0x100 / 0x100);
    SameQuotient(a / 0x100, b / 0x100);
    SameQuotient(a, b);
  }

  lemma CounterBlockBytes(counter: nat, nonce: Nonce)
    ensures var x := CounterBlock(counter, nonce);
      && x[0] == ByteOf(counter % 0x100) && x[1] == ByteOf(counter / 0x100 % 0x100)
      && x[2] == ByteOf(counter / 0x100 / 0x100 % 0x100) && x[3] == ByteOf(counter / 0x100 / 0x100 / 0x100 % 0x100)
      && x[4..] == nonce
  {
    hide ByteOf;
  }

  /** Different counters or nonces give different mask blocks. */
  lemma DistinctBlocks(k: Crypto, a: nat, b: nat, m: Nonce, n: Nonce)
    requires Injective(k) && a < COUNTER_RANGE && b < COUNTER_RANGE
    requires EncryptCounter(k, a, m) == EncryptCounter(k, b, n)
    ensures a == b && m == n
  {
    hide CounterBlock;
    assert CounterBlock(a, m) == CounterBlock(b, n);
    CounterBlockBytes(a, m);
    CounterBlockBytes(b, n);
    SameByte(a % 0x100, b % 0x100);
    SameByte(a / 0x100 % 0x100, b / 0x100 % 0x100);
    SameByte(a / 0x100 / 0x100 % 0x100, b / 0x100 / 0x100 % 0x100);
    SameByte(a / 0x100 / 0x100 / 0x100 % 0x100, b / 0x100 / 0x100 / 0x100 % 0x100);
    SameCounter(a, b);
  }

  /** Such ciphers exist, whatever the hash and the MAC. */
  lemma SomeCipherIsInjective(k: Crypto)
    ensures exists encrypt: Block -> Block :: Injective(k.(encrypt := encrypt))
  {
    assert Injective(k.(encrypt := (b: Block) => b));
  }

  lemma BlockOfMask(k: Crypto, nonce: Nonce, base: nat, i: nat, b: Block)
    requires forall j :: 0 <= j < 16 ==> b[j] == MaskByte(k, nonce, base, 16 * i + j)
    ensures b == EncryptCounter(k, Wrap32(base + i), nonce)
  {
    forall j | 0 <= j < 16 ensures b[j] == EncryptCounter(k, Wrap32(base + i), nonce)[j] {
      assert (16 * i + j) / 16 == i && (16 * i + j) % 16 == j;
    }
  }

  lemma PreparedAt(k: Crypto, nonce: Nonce, base: nat, buffer: seq<bv8>, i: nat)
    requires Prepared(k, nonce, base, buffer) && i < MASK_SIZE
    ensures i < |buffer| && buffer[i] == MaskByte(k, nonce, base, i)
  {
  }

  lemma PreparedSize(k: Crypto, from: Session, buffer: seq<bv8>)
    requires Prepared(k, from.nonce, from.counter, buffer)
    ensures |buffer| == MASK_SIZE
  {
  }

  /** A buffer prepared for one base is not prepared for another. */
  lemma PreparedOnce(k: Crypto, m: Nonce, n: Nonce, a: nat, b: nat, buffer: seq<bv8>)
    requires Injective(k) && a < COUNTER_RANGE && b < COUNTER_RANGE
    requires Prepared(k, m, a, buffer) && Prepared(k, n, b, buffer)
    ensures a == b && m == n
  {
    hide MaskByte, Prepared, Wrap32, EncryptCounter;
    PreparedSize(k, Session(m, a), buffer);
    var block: Block := buffer[..16];
    forall j | 0 <= j < 16
      ensures block[j] == MaskByte(k, m, a, 16 * 0 + j) && block[j] == MaskByte(k, n, b, 16 * 0 + j)
    {
      PreparedAt(k, m, a, buffer, j);
      PreparedAt(k, n, b, buffer, j);
    }
    BlockOfMask(k, m, a, 0, block);
    BlockOfMask(k, n, b, 0, block);
    WrapSmall(a);
    WrapSmall(b);
    DistinctBlocks(k, a, b, m, n);
  }

  /** The prepared masks, if the client is to use them, continue the counter its session started from. */
  ghost predicate Fresh(k: Crypto, c: Client, buffer: seq<bv8>) {
    c.offline ==> c.maskOffset == 0 && Prepared(k, c.nonce, c.keyGen, buffer)
  }

  /** A prepared mask reaches only so far: the keys of this batch are masked with bytes from behind the buffer. */
  predicate Overruns(c: Client, length: nat) {
    c.offline && 16 * c.current + length < MASK_SIZE < 16 * c.current + 2 * length
  }

  /** Batch number j of a session with n seeds in every batch. */
  predicate BatchOverruns(c: Client, n: nat, j: nat) {
    Overruns(c.(current := 4 * n * j), 32 * n)
  }

  lemma QuotientIsNat(a: nat, m: nat)
    requires m > 0
    ensures a / m >= 0
  {
  }

  /** How many batches of n seeds the buffer serves, and how many of its bytes are then left. */
  function Served(n: nat): nat
    requires n > 0
  {
    QuotientIsNat(MASK_SIZE, 64 * n);
    MASK_SIZE / (64 * n)
  }

  function LeftOver(n: nat): nat
    requires n > 0
  {
    MASK_SIZE % (64 * n)
  }

  lemma OverrunAt(n: nat, j: nat)
    requires n > 0
    ensures 64 * n * j + 32 * n < MASK_SIZE < 64 * n * j + 64 * n <==> j == Served(n) && LeftOver(n) > 32 * n
  {
    var m, q := 64 * n, Served(n);
    assert MASK_SIZE == m * q + LeftOver(n);
    if j < q {
      assert m * (j + 1) <= m * q;
    } else if j > q {
      assert m * (q + 1) <= m * j;
    }
  }

  lemma BatchAt(c: Client, n: nat, j: nat)
    requires c.offline && n > 0
    ensures BatchOverruns(c, n, j) <==> j == Served(n) && LeftOver(n) > 32 * n
  {
    hide Served, LeftOver;
    assert 16 * (4 * n * j) == 64 * n * j;
    OverrunAt(n, j);
  }

  /**
   Some batch of a long session of equal batches overruns the buffer exactly if more than half of one fits in what is
   left.
   */
  lemma EqualBatchesOverrun(c: Client, n: nat)
    requires c.offline && n > 0
    ensures (exists j: nat :: BatchOverruns(c, n, j)) <==> LeftOver(n) > 32 * n
  {
    hide BatchOverruns, Served, LeftOver;
    forall j: nat ensures BatchOverruns(c, n, j) <==> j == Served(n) && LeftOver(n) > 32 * n {
      BatchAt(c, n, j);
    }
    assert LeftOver(n) > 32 * n ==> BatchOverruns(c, n, Served(n));
  }

  /** With the configured 4096 seeds in a batch no batch overruns, the smaller last one included; with 3000 one does. */
  lemma ConfiguredBatchesFit(c: Client, j: nat, last: nat)
    requires c.offline && last <= 4096
    ensures !Overruns(c.(current := 4 * 4096 * j), 32 * last)
    ensures BatchOverruns(c, 3000, 436)
  {
    assert MASK_SIZE == 64 * 4096 * 320;
  }

  lemma WrapPlus(a: nat, b: nat)
    ensures Wrap32(Wrap32(a) + b) == Wrap32(a + b)
  {
  }

  lemma PreparedByte(k: Crypto, c: Client, i: nat)
    requires c.current < COUNTER_RANGE
    ensures MaskByte(k, c.nonce, c.keyGen, c.current * 16 + i) == MaskByte(k, c.nonce, Total(c), i)
  {
    assert (c.current * 16 + i) / 16 == c.current + i / 16 && (c.current * 16 + i) % 16 == i % 16;
    WrapPlus(c.keyGen + c.current, i / 16);
  }

  lemma FreshBytes(k: Crypto, c: Client, buffer: seq<bv8>, beyond: nat -> bv8, length: nat)
    requires Fresh(k, c, buffer) && length % 32 == 0 && FitsCounters(c, length) && !Overruns(c, length)
    ensures UsedMask(k, c, buffer, beyond, length) == Mask(k, c.nonce, Total(c), 2 * length)
  {
    TestsAreOrdered(c, length);
    var used, expected := UsedMask(k, c, buffer, beyond, length), Mask(k, c.nonce, Total(c), 2 * length);
    forall i | 0 <= i < 2 * length ensures used[i] == expected[i] {
      PreparedByte(k, c, i);
    }
  }

  /**
   With fresh masks, a batch uses the same mask bytes it would compute on demand, whatever memory lies behind the
   buffer, exactly when it does not overrun the buffer.
   */
  lemma FreshMaskAgrees(k: Crypto, c: Client, buffer: seq<bv8>, length: nat)
    requires Fresh(k, c, buffer) && length % 32 == 0 && FitsCounters(c, length)
    ensures (forall beyond: nat -> bv8 ::
      UsedMask(k, c, buffer, beyond, length) == Mask(k, c.nonce, Total(c), 2 * length))
      <==> !Overruns(c, length)
  {
    TestsAreOrdered(c, length);
    var expected := Mask(k, c.nonce, Total(c), 2 * length);
    if Overruns(c, length) {
      var wrong := expected[2 * length - 1] ^ 1;
      var beyond := (i: nat) => wrong;
      var used := UsedMask(k, c, buffer, beyond, length);
      assert used[2 * length - 1] == wrong != expected[2 * length - 1];
    } else {
      forall beyond: nat -> bv8 ensures UsedMask(k, c, buffer, beyond, length) == expected {
        FreshBytes(k, c, buffer, beyond, length);
      }
    }
  }

  lemma SameShift(a: nat, b: nat, n: nat)
    requires a < COUNTER_RANGE && b < COUNTER_RANGE
    ensures Wrap32(a + n) == Wrap32(Wrap32(b + n) + 0) ==> a == b
    ensures Wrap32(a + n) < COUNTER_RANGE && Wrap32(Wrap32(b + n) + 0) < COUNTER_RANGE
  {
  }

  lemma OfflineFirstBlock(k: Crypto, c: Client, nonce: Nonce, base: nat, buffer: seq<bv8>, beyond: nat -> bv8,
                          length: nat)
    requires Injective(k) && Prepared(k, nonce, base, buffer) && base < COUNTER_RANGE && c.keyGen < COUNTER_RANGE
    requires c.maskOffset == 0 && length >= 32 && 16 * c.current + 16 <= MASK_SIZE && UnmasksFromBuffer(c, length)
    requires UsedMask(k, c, buffer, beyond, length) == Mask(k, c.nonce, Total(c), 2 * length)
    ensures base == c.keyGen && nonce == c.nonce
  {
    hide Wrap32, UnmasksFromBuffer, Prepared, MaskByte;
    var used := UsedMask(k, c, buffer, beyond, length);
    var block: Block := used[..16];
    forall j | 0 <= j < 16
      ensures block[j] == MaskByte(k, nonce, base, 16 * c.current + j)
      ensures block[j] == MaskByte(k, c.nonce, Total(c), 16 * 0 + j)
    {
      PreparedAt(k, nonce, base, buffer, c.current * 16 + j);
      assert used[j] == buffer[c.current * 16 + j];
    }
    BlockOfMask(k, nonce, base, c.current, block);
    BlockOfMask(k, c.nonce, Total(c), 0, block);
    SameShift(base, c.keyGen, c.current);
    DistinctBlocks(k, Wrap32(base + c.current), Wrap32(Total(c) + 0), nonce, c.nonce);
  }

  /**
   Offline, a batch within the buffer gets the on-demand mask exactly when the masks were prepared for its own base.
   */
  lemma OfflineMaskAgrees(k: Crypto, c: Client, nonce: Nonce, base: nat, buffer: seq<bv8>, beyond: nat -> bv8,
                          length: nat)
    requires Injective(k) && Prepared(k, nonce, base, buffer) && base < COUNTER_RANGE && c.keyGen < COUNTER_RANGE
    requires c.offline && c.maskOffset == 0 && length > 0 && length % 32 == 0 && FitsCounters(c, length)
    requires 16 * c.current + 2 * length <= MASK_SIZE && MasksFromBuffer(c, length) && UnmasksFromBuffer(c, length)
    ensures UsedMask(k, c, buffer, beyond, length) == Mask(k, c.nonce, Total(c), 2 * length)
      <==> base == c.keyGen && nonce == c.nonce
  {
    var used, expected := UsedMask(k, c, buffer, beyond, length), Mask(k, c.nonce, Total(c), 2 * length);
    if base == c.keyGen && nonce == c.nonce {
      TestsAreOrdered(c, length);
      FreshBytes(k, c, buffer, beyond, length);
    } else if used == expected {
      OfflineFirstBlock(k, c, nonce, base, buffer, beyond, length);
    }
  }

  // ---------------------------------------------------------------- what the client gets

  /** What the client gets if the enclave's mask is `used` and its own is `own`. */
  function Unwrapped(k: Crypto, own: seq<bv8>, used: seq<bv8>, seeds: seq<bv8>): (r: seq<bv8>)
    requires |seeds| % 32 == 0 && |own| == |used| == 2 * |seeds|
    ensures |r| == |seeds|
  {
    Xor(Xor(Keys(k, Xor(Xor(seeds, own), used[..|seeds|])), used[|seeds|..]), own[|seeds|..])
  }

  /**
   What the client makes of the reply to a batch: it masks the seeds and unmasks the keys with the mask it computes from
   its own nonce and counter, and the enclave uses the mask it has for its client c.
   */
  function Answer(k: Crypto, c: Client, nonce: Nonce, counter: nat, buffer: seq<bv8>, beyond: nat -> bv8,
                  seeds: seq<bv8>): (r: seq<bv8>)
    requires |seeds| % 32 == 0
    ensures |r| == |seeds|
  {
    Unwrapped(k, Mask(k, nonce, counter, 2 * |seeds|), UsedMask(k, c, buffer, beyond, |seeds|), seeds)
  }

  lemma MasksCancel(k: Crypto, seeds: seq<bv8>, mask: seq<bv8>)
    requires |seeds| % 32 == 0 && |mask| == 2 * |seeds|
    ensures Xor(Xor(Keys(k, Xor(Xor(seeds, mask), mask[..|seeds|])), mask[|seeds|..]), mask[|seeds|..])
      == Keys(k, seeds)
  {
    XorPrefix(seeds, mask);
    XorTwice(seeds, mask[..|seeds|]);
    XorTwice(Keys(k, seeds), mask[|seeds|..]);
  }

  lemma XorCommutes(a: seq<bv8>, b: seq<bv8>)
    requires |a| == |b|
    ensures Xor(a, b) == Xor(b, a)
  {
    var ab, ba := Xor(a, b), Xor(b, a);
    forall i | 0 <= i < |a| ensures ab[i] == ba[i] {
      assert ab[i] == a[i] ^ b[i] && ba[i] == b[i] ^ a[i];
    }
  }

  /** Two masks on top of each other cancel only if they are the same. */
  lemma XorsCancel(x: seq<bv8>, a: seq<bv8>, b: seq<bv8>)
    requires |x| == |a| == |b|
    ensures Xor(Xor(x, a), b) == x <==> a == b
  {
    XorTwice(x, a);
    XorTwice(Xor(x, a), b);
    XorCommutes(x, a);
    XorCommutes(x, b);
    XorTwice(a, x);
    XorTwice(b, x);
  }

  lemma {:induction false} ConstantKeys(k: Crypto, d: Digest, x: seq<bv8>, y: seq<bv8>)
    requires |x| == |y| && |x| % 32 == 0 && forall z :: k.hash(z) == d
    ensures Keys(k, x) == Keys(k, y)
    decreases |x|
  {
    if x != [] {
      ConstantKeys(k, d, x[..|x| - 32], y[..|y| - 32]);
    }
  }

  /** Different seeds have different keys under some hash function. */
  lemma SeedsShowInKeys(k: Crypto, x: seq<bv8>, y: seq<bv8>) returns (h: seq<bv8> -> Digest)
    requires |x| == |y| && |x| % 32 == 0 && x != y
    ensures Keys(k.(hash := h), x) != Keys(k.(hash := h), y)
  {
    var i :| 0 <= i < |x| && x[i] != y[i];
    var j := i / 32;
    var own, other := x[32 * j..32 * j + 32], y[32 * j..32 * j + 32];
    assert own[i - 32 * j] != other[i - 32 * j];
    assert (own + k.secret)[..32] == own && (other + k.secret)[..32] == other;
    var d0: Digest, d1: Digest := seq(32, _ => 0), seq(32, _ => 1);
    assert d0[0] != d1[0];
    h := z => if z == own + k.secret then d0 else d1;
    KeysAt(k.(hash := h), x, j);
    KeysAt(k.(hash := h), y, j);
  }

  lemma HashIsNotInMasks(k: Crypto, h: seq<bv8> -> Digest, c: Client, nonce: Nonce, counter: nat, buffer: seq<bv8>,
                         beyond: nat -> bv8, n: nat)
    ensures Mask(k.(hash := h), nonce, counter, 2 * n) == Mask(k, nonce, counter, 2 * n)
    ensures UsedMask(k.(hash := h), c, buffer, beyond, n) == UsedMask(k, c, buffer, beyond, n)
  {
    hide UnmasksFromBuffer, MasksFromBuffer, Wrap32;
    assert forall b: nat, i: nat, m :: MaskByte(k.(hash := h), m, b, i) == MaskByte(k, m, b, i);
  }

  /** With different masks some hash function gives the client wrong keys. */
  lemma WrongMaskShows(k: Crypto, own: seq<bv8>, used: seq<bv8>, seeds: seq<bv8>) returns (h: seq<bv8> -> Digest)
    requires |seeds| % 32 == 0 && |own| == |used| == 2 * |seeds| && own != used
    ensures Unwrapped(k.(hash := h), own, used, seeds) != Keys(k.(hash := h), seeds)
  {
    hide Xor, Keys;
    var n := |seeds|;
    XorPrefix(seeds, own);
    var got := Xor(Xor(seeds, own[..n]), used[..n]);
    if own[n..] != used[n..] {
      var d: Digest := seq(32, _ => 0);
      h := _ => d;
      ConstantKeys(k.(hash := h), d, got, seeds);
      XorsCancel(Keys(k.(hash := h), seeds), used[n..], own[n..]);
    } else {
      assert own == own[..n] + own[n..] && used == used[..n] + used[n..];
      XorsCancel(seeds, own[..n], used[..n]);
      h := SeedsShowInKeys(k, got, seeds);
      XorsCancel(Keys(k.(hash := h), got), used[n..], own[n..]);
    }
  }

  /** The client gets the keys of its seeds, whatever the hash function. */
  ghost predicate AnswersKeys(k: Crypto, c: Client, nonce: Nonce, counter: nat, buffer: seq<bv8>, beyond: nat -> bv8,
                              seeds: seq<bv8>)
    requires |seeds| % 32 == 0
  {
    forall h: seq<bv8> -> Digest ::
      Answer(k.(hash := h), c, nonce, counter, buffer, beyond, seeds) == Keys(k.(hash := h), seeds)
  }

  lemma SameMaskCancels(k: Crypto, mask: seq<bv8>, seeds: seq<bv8>)
    requires |seeds| % 32 == 0 && |mask| == 2 * |seeds|
    ensures Unwrapped(k, mask, mask, seeds) == Keys(k, seeds)
  {
    MasksCancel(k, seeds, mask);
  }

  /** This is so exactly if both sides use the same mask. */
  lemma AnswerIsRight(k: Crypto, c: Client, nonce: Nonce, counter: nat, buffer: seq<bv8>, beyond: nat -> bv8,
                      seeds: seq<bv8>)
    requires |seeds| % 32 == 0
    ensures AnswersKeys(k, c, nonce, counter, buffer, beyond, seeds)
      <==> UsedMask(k, c, buffer, beyond, |seeds|) == Mask(k, nonce, counter, 2 * |seeds|)
  {
    hide Xor, Keys, UsedMask, Mask;
    var n := |seeds|;
    var own, used := Mask(k, nonce, counter, 2 * n), UsedMask(k, c, buffer, beyond, n);
    forall h: seq<bv8> -> Digest
      ensures Answer(k.(hash := h), c, nonce, counter, buffer, beyond, seeds)
        == Unwrapped(k.(hash := h), own, used, seeds)
    {
      HashIsNotInMasks(k, h, c, nonce, counter, buffer, beyond, n);
    }
    hide Answer, Unwrapped;
    if used == own {
      forall h: seq<bv8> -> Digest ensures Unwrapped(k.(hash := h), own, used, seeds) == Keys(k.(hash := h), seeds) {
        SameMaskCancels(k.(hash := h), own, seeds);
      }
    } else {
      var h := WrongMaskShows(k, own, used, seeds);
      assert Answer(k.(hash := h), c, nonce, counter, buffer, beyond, seeds) != Keys(k.(hash := h), seeds);
    }
  }

  lemma WrapFits(x: nat)
    ensures Wrap32(x) < COUNTER_RANGE
  {
  }

  /** A block of the prepared buffer is the block that the client computes only if nonce and counter are the same. */
  lemma BufferBlock(k: Crypto, buffer: seq<bv8>, from: Session, nonce: Nonce, counter: nat, i: nat, b: nat,
                    block: Block)
    requires Injective(k) && Prepared(k, from.nonce, from.counter, buffer)
    requires 16 * i + 16 <= MASK_SIZE == |buffer| && block == buffer[16 * i..16 * i + 16]
    requires forall j :: 0 <= j < 16 ==> block[j] == MaskByte(k, nonce, counter, 16 * b + j)
    ensures from.nonce == nonce && Wrap32(from.counter + i) == Wrap32(counter + b)
  {
    hide MaskByte, Wrap32;
    forall j | 0 <= j < 16 ensures block[j] == MaskByte(k, from.nonce, from.counter, 16 * i + j) {
      PreparedAt(k, from.nonce, from.counter, buffer, 16 * i + j);
      assert block[j] == buffer[16 * i + j];
    }
    BlockOfMask(k, from.nonce, from.counter, i, block);
    BlockOfMask(k, nonce, counter, b, block);
    WrapFits(from.counter + i);
    WrapFits(counter + b);
    DistinctBlocks(k, Wrap32(from.counter + i), Wrap32(counter + b), from.nonce, nonce);
  }

  lemma SameStart(a: nat, g: nat, n: nat, b: nat)
    requires a < COUNTER_RANGE && g < COUNTER_RANGE && Wrap32(a + (n + b)) == Wrap32(Wrap32(g + n) + b)
    ensures a == g
  {
    WrapPlus(g + n, b);
    SameShift(a, g, n + b);
  }

  /** When the enclave has the same mask as the client, whatever memory lies behind the buffer. */
  predicate MaskIsRight(c: Client, nonce: Nonce, from: Option<Session>, length: nat) {
    && (UnmasksFromBuffer(c, length) || c.nonce == nonce)
    && (MasksFromBuffer(c, length) ==>
          from == Some(Session(nonce, c.keyGen)) && 16 * c.current + 2 * length <= MASK_SIZE)
  }

  lemma UsedByte(k: Crypto, c: Client, buffer: seq<bv8>, beyond: nat -> bv8, length: nat, i: nat)
    requires i < 2 * length
    ensures UsedMask(k, c, buffer, beyond, length)[i]
      == if (if i < length then UnmasksFromBuffer(c, length) else MasksFromBuffer(c, length))
         then Read(buffer, beyond, c.maskOffset + c.current * 16 + i)
         else MaskByte(k, c.nonce, Total(c), i)
  {
    hide UnmasksFromBuffer, MasksFromBuffer, MaskByte, Total, Read;
  }

  lemma SameTotal(c: Client, nonce: Nonce)
    ensures Total(c.(nonce := nonce)) == Total(c)
  {
  }

  lemma RightMaskByte(k: Crypto, c: Client, nonce: Nonce, from: Option<Session>, buffer: seq<bv8>, beyond: nat -> bv8,
                      length: nat, i: nat)
    requires c.offline ==> from.Some? && c.maskOffset == 0 && Prepared(k, from.value.nonce, from.value.counter, buffer)
    requires length % 32 == 0 && FitsCounters(c, length) && MaskIsRight(c, nonce, from, length) && i < 2 * length
    requires UnmasksFromBuffer(c, length) ==> MasksFromBuffer(c, length)
    ensures UsedMask(k, c, buffer, beyond, length)[i] == MaskByte(k, nonce, Total(c), i)
  {
    hide Prepared, MaskByte, Wrap32, UsedMask, Total;
    UsedByte(k, c, buffer, beyond, length, i);
    if MasksFromBuffer(c, length) {
      assert from == Some(Session(nonce, c.keyGen)) && c.offline;
      PreparedAt(k, nonce, c.keyGen, buffer, c.current * 16 + i);
      PreparedByte(k, c.(nonce := nonce), i);
      SameTotal(c, nonce);
    }
  }

  lemma RightMaskBytes(k: Crypto, c: Client, nonce: Nonce, from: Option<Session>, buffer: seq<bv8>, beyond: nat -> bv8,
                       length: nat)
    requires c.offline ==> from.Some? && c.maskOffset == 0 && Prepared(k, from.value.nonce, from.value.counter, buffer)
    requires length % 32 == 0 && FitsCounters(c, length) && MaskIsRight(c, nonce, from, length)
    ensures UsedMask(k, c, buffer, beyond, length) == Mask(k, nonce, Total(c), 2 * length)
  {
    hide UsedMask, MaskByte, MaskIsRight, Prepared, Wrap32;
    TestsAreOrdered(c, length);
    var used, own := UsedMask(k, c, buffer, beyond, length), Mask(k, nonce, Total(c), 2 * length);
    forall i | 0 <= i < 2 * length ensures used[i] == own[i] {
      RightMaskByte(k, c, nonce, from, buffer, beyond, length, i);
    }
  }

  lemma TotalIs(c: Client)
    ensures Total(c) == Wrap32(c.keyGen + c.current)
  {
  }

  /** What masks the keys comes from the buffer, so it is there where the two masks agree. */
  lemma SecondHalfByte(k: Crypto, c: Client, nonce: Nonce, buffer: seq<bv8>, beyond: nat -> bv8, length: nat, j: nat)
    requires |buffer| == MASK_SIZE && c.maskOffset == 0 && MasksFromBuffer(c, length)
    requires length % 32 == 0 && 16 * c.current + 2 * length <= MASK_SIZE && j < 16 && length > 0
    requires UsedMask(k, c, buffer, beyond, length) == Mask(k, nonce, Total(c), 2 * length)
    ensures buffer[16 * c.current + length + j] == MaskByte(k, nonce, Total(c), length + j)
  {
    hide Wrap32, MaskByte, UnmasksFromBuffer, MasksFromBuffer, Total, UsedMask, Mask;
    UsedByte(k, c, buffer, beyond, length, length + j);
    assert Mask(k, nonce, Total(c), 2 * length)[length + j] == MaskByte(k, nonce, Total(c), length + j);
  }

  lemma SecondHalf(k: Crypto, c: Client, nonce: Nonce, from: Session, buffer: seq<bv8>, beyond: nat -> bv8, b: nat)
    requires Injective(k) && c.keyGen < COUNTER_RANGE && from.counter < COUNTER_RANGE
    requires c.maskOffset == 0 && Prepared(k, from.nonce, from.counter, buffer) && MasksFromBuffer(c, 16 * b)
    requires b > 0 && 16 * b % 32 == 0 && 16 * c.current + 32 * b <= MASK_SIZE
    requires UsedMask(k, c, buffer, beyond, 16 * b) == Mask(k, nonce, Total(c), 32 * b)
    ensures from == Session(nonce, c.keyGen)
  {
    hide Wrap32, MaskByte, Prepared, UnmasksFromBuffer, MasksFromBuffer, Total, UsedMask, Mask, Injective;
    PreparedSize(k, from, buffer);
    var i := c.current + b;
    var block: Block := buffer[16 * i..16 * i + 16];
    forall j | 0 <= j < 16 ensures block[j] == MaskByte(k, nonce, Total(c), 16 * b + j) {
      SecondHalfByte(k, c, nonce, buffer, beyond, 16 * b, j);
    }
    BufferBlock(k, buffer, from, nonce, Total(c), i, b, block);
    TotalIs(c);
    SameStart(from.counter, c.keyGen, c.current, b);
  }

  lemma SameMaskIsRight(k: Crypto, c: Client, nonce: Nonce, from: Option<Session>, buffer: seq<bv8>, beyond: nat -> bv8,
                        length: nat)
    requires Injective(k) && c.keyGen < COUNTER_RANGE && (from.Some? ==> from.value.counter < COUNTER_RANGE)
    requires c.offline ==> from.Some? && c.maskOffset == 0 && Prepared(k, from.value.nonce, from.value.counter, buffer)
    requires length > 0 && length % 32 == 0 && FitsCounters(c, length)
    requires UsedMask(k, c, buffer, beyond, length) == Mask(k, nonce, Total(c), 2 * length)
    requires forall i :: beyond(i) != Mask(k, nonce, Total(c), 2 * length)[2 * length - 1]
    ensures MaskIsRight(c, nonce, from, length)
  {
    hide Wrap32, MaskByte, EncryptCounter, Prepared, UnmasksFromBuffer, MasksFromBuffer;
    var used, own := UsedMask(k, c, buffer, beyond, length), Mask(k, nonce, Total(c), 2 * length);
    TestsAreOrdered(c, length);
    TotalFits(c);
    if !UnmasksFromBuffer(c, length) {
      var block: Block := used[..16];
      forall j | 0 <= j < 16
        ensures block[j] == MaskByte(k, c.nonce, Total(c), 16 * 0 + j)
          && block[j] == MaskByte(k, nonce, Total(c), 16 * 0 + j)
      {
        assert used[j] == own[j];
      }
      BlockOfMask(k, c.nonce, Total(c), 0, block);
      BlockOfMask(k, nonce, Total(c), 0, block);
      WrapFits(Total(c) + 0);
      DistinctBlocks(k, Wrap32(Total(c) + 0), Wrap32(Total(c) + 0), c.nonce, nonce);
    }
    if MasksFromBuffer(c, length) {
      PreparedSize(k, from.value, buffer);
      assert used[2 * length - 1] == Read(buffer, beyond, c.maskOffset + c.current * 16 + (2 * length - 1));
      assert 16 * c.current + 2 * length <= MASK_SIZE;
      SecondHalf(k, c, nonce, from.value, buffer, beyond, length / 16);
    }
  }

  lemma MasksAgreeExactly(k: Crypto, c: Client, nonce: Nonce, from: Option<Session>, buffer: seq<bv8>, length: nat)
    requires Injective(k) && c.keyGen < COUNTER_RANGE && (from.Some? ==> from.value.counter < COUNTER_RANGE)
    requires c.offline ==> from.Some? && c.maskOffset == 0 && Prepared(k, from.value.nonce, from.value.counter, buffer)
    requires length > 0 && length % 32 == 0 && FitsCounters(c, length)
    ensures MaskIsRight(c, nonce, from, length)
      <==> forall beyond: nat -> bv8 :: UsedMask(k, c, buffer, beyond, length) == Mask(k, nonce, Total(c), 2 * length)
  {
    var own := Mask(k, nonce, Total(c), 2 * length);
    if MaskIsRight(c, nonce, from, length) {
      forall beyond: nat -> bv8 ensures UsedMask(k, c, buffer, beyond, length) == own {
        RightMaskBytes(k, c, nonce, from, buffer, beyond, length);
      }
    } else if forall beyond: nat -> bv8 :: UsedMask(k, c, buffer, beyond, length) == own {
      var wrong := own[2 * length - 1] ^ 1;
      var beyond := (i: nat) => wrong;
      assert wrong != own[2 * length - 1];
      SameMaskIsRight(k, c, nonce, from, buffer, beyond, length);
    }
  }

  // ---------------------------------------------------------------- masks over sessions

  /**
   Masks prepared between sessions are the ones the next session needs: its login folds the counter they start from.
   */
  lemma LoginMeetsPreparedMasks(k: Crypto, clients: map<int, Client>, id: int, counter: nat, nonce: Nonce,
                                buffer: seq<bv8>)
    requires id in clients && clients[id].maskOffset == 0 && Prepared(k, clients[id].nonce, Total(clients[id]), buffer)
    requires LoginStatus(clients, id, counter, nonce, true) == Success
    ensures Fresh(k, LoginClients(clients, id, counter, nonce, true)[id], buffer)
  {
  }

  /** A client that is reset, or new, does without prepared masks. */
  lemma ResetNeedsNoMasks(k: Crypto, clients: map<int, Client>, id: int, counter: nat, nonce: Nonce, buffer: seq<bv8>)
    requires LoginStatus(clients, id, counter, nonce, true) == Reset
      || (id !in clients && LoginStatus(clients, id, counter, nonce, true) == Success)
    ensures Fresh(k, LoginClients(clients, id, counter, nonce, true)[id], buffer)
  {
  }

  /**
   Any later login, of this client or another, moves the base. Masks that were fresh stay so exactly if no counter had
   been used: a second session before the next preparation works with stale masks.
   */
  lemma SecondLoginMakesMasksStale(k: Crypto, clients: map<int, Client>, other: int, id: int, counter: nat,
                                   nonce: Nonce, macOk: bool, buffer: seq<bv8>)
    requires Injective(k) && id in clients && clients[id].offline && Fresh(k, clients[id], buffer)
    requires clients[id].keyGen < COUNTER_RANGE && clients[id].current < COUNTER_RANGE
    requires other != id || LoginStatus(clients, id, counter, nonce, macOk) == Success
    ensures id in LoginClients(clients, other, counter, nonce, macOk)
    ensures Fresh(k, LoginClients(clients, other, counter, nonce, macOk)[id], buffer) <==> clients[id].current == 0
  {
    hide MaskByte;
    var c := clients[id];
    var after := LoginClients(clients, other, counter, nonce, macOk)[id];
    assert after == Folded(clients)[id];
    if Prepared(k, c.nonce, Total(c), buffer) {
      PreparedOnce(k, c.nonce, c.nonce, c.keyGen, Total(c), buffer);
    }
  }

  // ---------------------------------------------------------------- the client, and whole sessions

  class KeyClient {
    const k: Crypto
    var nonce: Nonce
    var counter: nat

    constructor (k: Crypto, nonce: Nonce, counter: nat)
      ensures this.k == k && this.nonce == nonce && this.counter == counter
    {
      this.k, this.nonce, this.counter := k, nonce, counter;
    }

    /** Sends a batch of seeds and gets the keys; the counter moves on even if the exchange fails. */
    method KeyExchange(enclave: Enclave, id: int, seeds: seq<bv8>) returns (keys: Option<seq<bv8>>)
      requires enclave.k == k && enclave.buffer.Length == MASK_SIZE && counter < COUNTER_RANGE
      requires |seeds| % 32 == 0 && id in enclave.clients && FitsCounters(enclave.clients[id], |seeds|)
      modifies this`counter, enclave`clients
      ensures counter == Wrap32(old(counter) + |seeds| / 32 * 4)
      ensures enclave.clients == old(enclave.clients)[id :=
        old(enclave.clients)[id].(current := Wrap32(old(enclave.clients)[id].current + |seeds| * 2 / 16))]
      ensures keys == Some(
        old(Answer(k, enclave.clients[id], nonce, counter, enclave.buffer[..], enclave.beyond, seeds)))
    {
      hide Xor, Mask, UsedMask, Keys, Wrap32;
      var base := GenerateMask(k, nonce, counter, |seeds| / 32 * 4);
      BlocksOfBatch(|seeds|);
      var sent := Xor(seeds, base);
      counter := Wrap32(counter + |seeds| / 32 * 4);
      var reply := enclave.KeygenCtr(sent, k.mac(sent), id);
      if reply.value.mac != k.mac(reply.value.keys) {
        assert false;
        return None;
      }
      keys := Some(Xor(reply.value.keys, base[|seeds|..]));
    }
  }

  /** Counters used by the first n batches. */
  function CountersUsed(batches: seq<seq<bv8>>, n: nat): nat
    requires n <= |batches|
  {
    if n == 0 then 0 else CountersUsed(batches, n - 1) + |batches[n - 1]| / 32 * 4
  }

  /** Client and enclave agree, and prepared masks, if any, are fresh. */
  ghost predicate InStep(client: KeyClient, enclave: Enclave, id: int)
    reads client, enclave, enclave.buffer
  {
    && client.k == enclave.k && enclave.buffer.Length == MASK_SIZE && id in enclave.clients
    && client.nonce == enclave.clients[id].nonce && client.counter == Total(enclave.clients[id])
    && Fresh(client.k, enclave.clients[id], enclave.buffer[..])
  }

  lemma CounterAdvances(c: Client, length: nat)
    requires length % 32 == 0 && FitsCounters(c, length)
    ensures Wrap32(c.current + length * 2 / 16) == c.current + length / 32 * 4
    ensures Wrap32(Total(c) + length / 32 * 4) == Total(c.(current := c.current + length / 32 * 4))
    ensures Total(c) < COUNTER_RANGE
  {
    assert length * 2 / 16 == length / 32 * 4;
    WrapSmall(c.current + length / 32 * 4);
    WrapSum(c.keyGen, c.current, length / 32 * 4);
  }

  /** Freshness does not depend on how far the session has come. */
  lemma FreshOfSession(k: Crypto, c: Client, current: nat, buffer: seq<bv8>)
    requires Fresh(k, c, buffer)
    ensures Fresh(k, c.(current := current), buffer)
  {
  }

  method SessionBatch(client: KeyClient, enclave: Enclave, id: int, seeds: seq<bv8>) returns (keys: Option<seq<bv8>>)
    requires InStep(client, enclave, id)
    requires |seeds| % 32 == 0 && FitsCounters(enclave.clients[id], |seeds|) && !Overruns(enclave.clients[id], |seeds|)
    modifies client`counter, enclave`clients
    ensures InStep(client, enclave, id) && keys == Some(Keys(client.k, seeds))
    ensures enclave.clients == old(enclave.clients)[id :=
      old(enclave.clients)[id].(current := old(enclave.clients)[id].current + |seeds| / 32 * 4)]
  {
    hide Mask, UsedMask, Keys, Fresh, Overruns, Wrap32, Prepared;
    ghost var c := enclave.clients[id];
    FreshBytes(client.k, c, enclave.buffer[..], enclave.beyond, |seeds|);
    CounterAdvances(c, |seeds|);
    FreshOfSession(client.k, c, c.current + |seeds| / 32 * 4, enclave.buffer[..]);
    MasksCancel(client.k, seeds, Mask(client.k, c.nonce, Total(c), 2 * |seeds|));
    keys := client.KeyExchange(enclave, id, seeds);
  }

  /** Batch j fits behind the ones before it. */
  predicate BatchFits(start: Client, batches: seq<seq<bv8>>, j: nat)
    requires j < |batches|
  {
    var c := start.(current := start.current + CountersUsed(batches, j));
    |batches[j]| % 32 == 0 && FitsCounters(c, |batches[j]|) && !Overruns(c, |batches[j]|)
  }

  lemma NoCounters(batches: seq<seq<bv8>>)
    ensures CountersUsed(batches, 0) == 0
  {
  }

  lemma NextCounters(batches: seq<seq<bv8>>, j: nat)
    requires j < |batches|
    ensures CountersUsed(batches, j + 1) == CountersUsed(batches, j) + |batches[j]| / 32 * 4
  {
  }

  /**
   A session with counters and nonces in agreement and fresh masks, if any: every batch that does not overrun the
   prepared buffer yields the hash of each seed with the server's secret, and both sides stay in agreement.
   */
  method UploadSession(client: KeyClient, enclave: Enclave, id: int, batches: seq<seq<bv8>>)
    returns (keys: seq<Option<seq<bv8>>>)
    requires InStep(client, enclave, id)
    requires forall j :: 0 <= j < |batches| ==> BatchFits(enclave.clients[id], batches, j)
    modifies client`counter, enclave`clients
    ensures InStep(client, enclave, id)
    ensures |keys| == |batches| && forall j :: 0 <= j < |batches| ==>
      |batches[j]| % 32 == 0 && keys[j] == Some(Keys(client.k, batches[j]))
  {
    hide Keys, Fresh, Overruns, CountersUsed;
    ghost var start := enclave.clients[id];
    keys := [];
    NoCounters(batches);
    for j := 0 to |batches|
      invariant |keys| == j
      invariant forall i :: 0 <= i < j ==> |batches[i]| % 32 == 0 && keys[i] == Some(Keys(client.k, batches[i]))
      invariant InStep(client, enclave, id)
      invariant enclave.clients[id] == start.(current := start.current + CountersUsed(batches, j))
    {
      assert BatchFits(start, batches, j);
      NextCounters(batches, j);
      var answer := SessionBatch(client, enclave, id, batches[j]);
      keys := keys + [answer];
    }
  }
}
