/**
 A single ledger block (class `Block` of r3/blockchain.py): construction,
 the hash commitment over its fields, and proof-of-work sealing.
 */
module Blocks {
  import opened Wrappers
  import opened Json

  /**
   The commitment function: SHA-256 (hex) of the canonical, key-sorted JSON
   serialisation of (index, timestamp, data, previous_hash, nonce). It is left
   abstract: every operation that needs it takes it as a parameter, and no
   property proved here depends on what it computes.
   */
  type Hasher = (nat, string, Dict, string, nat) -> string

  datatype Block = Block(
    index: nat,
    timestamp: string,
    data: Dict,
    previousHash: string,
    nonce: nat,
    hash: string
  )

  /** The digest of `b`'s committed fields with the nonce replaced by `n`. */
  function DigestAt(h: Hasher, b: Block, n: nat): string
  {
    h(b.index, b.timestamp, b.data, b.previousHash, n)
  }

  /** `calculate_hash`: the digest of the block's current fields. */
  function CalculateHash(h: Hasher, b: Block): string
  {
    DigestAt(h, b, b.nonce)
  }

  /** Invariant I1 for one block: the stored hash is the commitment of its fields. */
  predicate HashBinds(h: Hasher, b: Block)
  {
    b.hash == CalculateHash(h, b)
  }

  /** The four fields that sealing must leave untouched agree. */
  predicate SameContent(a: Block, b: Block)
  {
    a.index == b.index && a.timestamp == b.timestamp && a.data == b.data && a.previousHash == b.previousHash
  }

  /** `Block.__init__`: nonce starts at 0 and the hash is computed at once; no sealing. */
  function NewBlock(h: Hasher, index: nat, timestamp: string, data: Dict, previousHash: string): (b: Block)
    ensures b.index == index && b.timestamp == timestamp && b.data == data && b.previousHash == previousHash
    ensures b.nonce == 0
    ensures HashBinds(h, b)
  {
    Block(index, timestamp, data, previousHash, 0, h(index, timestamp, data, previousHash, 0))
  }

  /** `"0" * d`. */
  function Zeros(d: nat): (z: string)
    ensures |z| == d
    ensures forall k :: 0 <= k < d ==> z[k] == '0'
  {
    seq(d, _ => '0')
  }

  /** Python's slice `s[:d]`, which is the whole string when `d` exceeds its length. */
  function Prefix(s: string, d: nat): string
  {
    if d <= |s| then s[..d] else s
  }

  /** The mining loop's exit test `hash[:difficulty] == "0" * difficulty`. */
  predicate MeetsTarget(hash: string, difficulty: nat)
  {
    Prefix(hash, difficulty) == Zeros(difficulty)
  }

  /** Invariant I3: the hash starts with `difficulty` zero characters. */
  predicate HasZeroPrefix(hash: string, difficulty: nat)
  {
    difficulty <= |hash| && forall k :: 0 <= k < difficulty ==> hash[k] == '0'
  }

  /** The slice comparison the source performs means exactly "starts with d zeros";
      in particular a hash shorter than the difficulty never meets the target. */
  lemma MeetsTargetIff(hash: string, difficulty: nat)
    ensures MeetsTarget(hash, difficulty) <==> HasZeroPrefix(hash, difficulty)
  {
  }

  /** One step of the mining loop: bump the nonce to `n` and recompute the hash. */
  function Retry(h: Hasher, b: Block, n: nat): (r: Block)
    ensures SameContent(b, r) && r.nonce == n && HashBinds(h, r)
  {
    b.(nonce := n, hash := DigestAt(h, b, n))
  }

  /**
   `mine_block(difficulty)` as a function, allowed at most `fuel` nonce increments.
   The source loop has no bound; `None` is the outcome of running out of fuel.
   The first hash tested is the block's stored one, as in the source.
   */
  function Mine(h: Hasher, b: Block, difficulty: nat, fuel: nat): (r: Option<Block>)
    decreases fuel
    ensures r.Some? ==> HasZeroPrefix(r.value.hash, difficulty)
    ensures r.Some? ==> SameContent(b, r.value) && b.nonce <= r.value.nonce <= b.nonce + fuel
    ensures r.Some? && r.value.nonce == b.nonce ==> r.value == b
    ensures r.Some? && r.value.nonce > b.nonce ==> HashBinds(h, r.value) && !HasZeroPrefix(b.hash, difficulty)
    ensures r.Some? && HashBinds(h, b) ==> HashBinds(h, r.value)
    ensures r.Some? ==> forall n: nat :: b.nonce < n < r.value.nonce ==> !HasZeroPrefix(DigestAt(h, b, n), difficulty)
    ensures r.None? <==>
              !HasZeroPrefix(b.hash, difficulty) &&
              forall n: nat :: b.nonce < n <= b.nonce + fuel ==> !HasZeroPrefix(DigestAt(h, b, n), difficulty)
  {
    MeetsTargetIff(b.hash, difficulty);
    if MeetsTarget(b.hash, difficulty) then
      Some(b)
    else if fuel == 0 then
      None
    else
      var next := Retry(h, b, b.nonce + 1);
      assert forall n: nat :: DigestAt(h, next, n) == DigestAt(h, b, n);
      assert next.hash == DigestAt(h, b, b.nonce + 1);
      Mine(h, next, difficulty, fuel - 1)
  }

  /** For a freshly built block, mining succeeds exactly when some nonce within the fuel
      seals it, and the sealed block carries the least such nonce. */
  lemma MineFresh(h: Hasher, b: Block, difficulty: nat, fuel: nat)
    requires b.nonce == 0 && HashBinds(h, b)
    ensures Mine(h, b, difficulty, fuel).Some? <==>
              exists n: nat :: n <= fuel && HasZeroPrefix(DigestAt(h, b, n), difficulty)
    ensures Mine(h, b, difficulty, fuel).Some? ==>
              var m := Mine(h, b, difficulty, fuel).value;
              m.hash == DigestAt(h, b, m.nonce) &&
              forall n: nat :: n < m.nonce ==> !HasZeroPrefix(DigestAt(h, b, n), difficulty)
  {
    var r := Mine(h, b, difficulty, fuel);
    if r.None? {
      forall n: nat | n <= fuel
        ensures !HasZeroPrefix(DigestAt(h, b, n), difficulty)
      {
        if n == 0 {
          assert DigestAt(h, b, n) == b.hash;
        }
      }
    } else {
      assert HasZeroPrefix(DigestAt(h, b, r.value.nonce), difficulty);
      forall n: nat | n < r.value.nonce
        ensures !HasZeroPrefix(DigestAt(h, b, n), difficulty)
      {
        if n == 0 {
          assert DigestAt(h, b, n) == b.hash;
        }
      }
    }
  }

  /** `mine_block` as the source's loop, with at most `maxAttempts` increments. */
  method MineBlock(h: Hasher, b: Block, difficulty: nat, maxAttempts: nat) returns (r: Option<Block>)
    ensures r == Mine(h, b, difficulty, maxAttempts)
    ensures r.Some? ==> HasZeroPrefix(r.value.hash, difficulty) && SameContent(b, r.value)
  {
    var current := b;
    var attempts := 0;
    while !MeetsTarget(current.hash, difficulty)
      invariant attempts <= maxAttempts
      invariant Mine(h, current, difficulty, maxAttempts - attempts) == Mine(h, b, difficulty, maxAttempts)
      decreases maxAttempts - attempts
    {
      if attempts == maxAttempts {
        return None;
      }
      current := Retry(h, current, current.nonce + 1);
      attempts := attempts + 1;
    }
    MeetsTargetIff(current.hash, difficulty);
    return Some(current);
  }
}
