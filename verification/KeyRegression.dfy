/**
 The session key that the key enclave and the data server both derive from the attested session: a hash chain whose
 length goes down by one with every update. SHA-256 is an uninterpreted function.
 */
module KeyRegression {
  import opened Bytes

  type Data = seq<Byte>

  /** `times` links of the chain. */
  function Chain(hash: Data -> Data, seed: Data, times: nat): Data {
    if times == 0 then seed else hash(Chain(hash, seed, times - 1))
  }

  function SessionKey(hash: Data -> Data, link: Data): Data {
    hash(Zeros(8) + link)
  }

  /** The enclave hashes in place, so an empty loop leaves the seed. */
  method EnclaveKey(hash: Data -> Data, seed: Data, times: nat) returns (key: Data)
    ensures key == SessionKey(hash, Chain(hash, seed, times))
  {
    var hashData := seed;
    for i := 0 to times
      invariant hashData == Chain(hash, seed, i)
    {
      var hashResult := hash(hashData);
      hashData := hashResult;
    }
    key := hash(Zeros(8) + hashData);
  }

  /** The server takes the result buffer, which holds `stale` bytes when the loop has not run. */
  method ServerKey(hash: Data -> Data, seed: Data, times: nat, stale: Data) returns (key: Data)
    ensures key == SessionKey(hash, if times == 0 then stale else Chain(hash, seed, times))
  {
    var hashData, hashResult := seed, stale;
    for i := 0 to times
      invariant hashData == Chain(hash, seed, i)
      invariant hashResult == if i == 0 then stale else Chain(hash, seed, i)
    {
      hashResult := hash(hashData);
      hashData := hashResult;
    }
    key := hash(Zeros(8) + hashResult);
  }

  /**
   Whatever the server's buffer held before, both sides have the same key exactly while the chain is not used up; all
   that is asked of the hash is that it does not give one key for all links.
   */
  lemma KeysAgree(hash: Data -> Data, seed: Data, times: nat)
    requires exists x, y :: |x| == |y| == 32 && SessionKey(hash, x) != SessionKey(hash, y)
    ensures (forall stale :: |stale| == 32 ==>
              SessionKey(hash, Chain(hash, seed, times))
                == SessionKey(hash, if times == 0 then stale else Chain(hash, seed, times)))
      <==> times > 0
  {
    if times == 0 {
      hide SessionKey;
      var x, y :| |x| == |y| == 32 && SessionKey(hash, x) != SessionKey(hash, y);
      assert SessionKey(hash, x) != SessionKey(hash, seed) || SessionKey(hash, y) != SessionKey(hash, seed);
    }
  }

  /** A later key's link gives all earlier links; going back needs the inverse of the hash. */
  lemma {:induction false} EarlierLink(hash: Data -> Data, seed: Data, later: nat, earlier: nat)
    requires later <= earlier
    ensures Chain(hash, seed, earlier) == Chain(hash, Chain(hash, seed, later), earlier - later)
  {
    if later < earlier {
      EarlierLink(hash, seed, later, earlier - 1);
    }
  }
}
