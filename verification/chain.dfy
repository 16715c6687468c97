/**
 Integrity of a sequence of blocks: the four ledger invariants, the check
 `DocumentBlockchain.is_chain_valid` performs, and what tampering does to it.
 */
module Chain {
  import opened Json
  import opened Blocks

  /** I1 for every block, genesis included. */
  predicate AllHashesBind(h: Hasher, c: seq<Block>)
  {
    forall i :: 0 <= i < |c| ==> HashBinds(h, c[i])
  }

  /** I2: each non-genesis block names its predecessor's hash. */
  predicate Linked(c: seq<Block>)
  {
    forall i :: 1 <= i < |c| ==> c[i].previousHash == c[i - 1].hash
  }

  /** I3: every block, genesis included, meets the difficulty target. */
  predicate AllSealed(c: seq<Block>, difficulty: nat)
  {
    forall i :: 0 <= i < |c| ==> HasZeroPrefix(c[i].hash, difficulty)
  }

  /** I4: indices are the positions, so they start at 0 and grow by one. */
  predicate Consecutive(c: seq<Block>)
  {
    forall i :: 0 <= i < |c| ==> c[i].index == i
  }

  /** The genesis marker: index 0, predecessor `"0"`, payload type `"genesis"`. */
  predicate IsGenesis(b: Block)
  {
    b.index == 0 && b.previousHash == "0" && GetIs(b.data, "type", "genesis")
  }

  /** Everything a ledger built by genesis creation and appends satisfies. */
  predicate WellFormed(h: Hasher, c: seq<Block>, difficulty: nat)
  {
    && |c| > 0
    && IsGenesis(c[0])
    && AllHashesBind(h, c)
    && Linked(c)
    && AllSealed(c, difficulty)
    && Consecutive(c)
  }

  /** Block `i` passes both checks of `is_chain_valid` against block `i - 1`. */
  predicate ValidAt(h: Hasher, c: seq<Block>, i: int)
    requires 1 <= i < |c|
  {
    c[i].hash == CalculateHash(h, c[i]) && c[i].previousHash == c[i - 1].hash
  }

  /**
   The meaning of `is_chain_valid`: every non-genesis block's hash is its
   commitment and links to its predecessor. Genesis content, indices and the
   difficulty prefix are not checked.
   */
  predicate ValidChain(h: Hasher, c: seq<Block>)
  {
    forall i :: 1 <= i < |c| ==> ValidAt(h, c, i)
  }

  /** `is_chain_valid`: the source's loop, returning at the first failing block. */
  method IsChainValid(h: Hasher, c: seq<Block>) returns (ok: bool)
    ensures ok <==> ValidChain(h, c)
    ensures !ok ==> exists i :: 1 <= i < |c| && !ValidAt(h, c, i)
  {
    var i := 1;
    while i < |c|
      invariant 1 <= i
      invariant forall j :: 1 <= j < i && j < |c| ==> ValidAt(h, c, j)
    {
      if c[i].hash != CalculateHash(h, c[i]) {
        assert !ValidAt(h, c, i);
        return false;
      }
      if c[i].previousHash != c[i - 1].hash {
        assert !ValidAt(h, c, i);
        return false;
      }
      i := i + 1;
    }
    return true;
  }

  /** The invariants of a well-formed ledger imply what validation checks. */
  lemma WellFormedIsValid(h: Hasher, c: seq<Block>, difficulty: nat)
    requires WellFormed(h, c, difficulty)
    ensures ValidChain(h, c)
  {
  }

  /** Appending a block that commits to its fields and links to the tip keeps a chain valid;
      a block that fails either check makes it invalid. */
  lemma AppendValid(h: Hasher, c: seq<Block>, b: Block)
    requires |c| > 0 && ValidChain(h, c)
    ensures ValidChain(h, c + [b]) <==> (HashBinds(h, b) && b.previousHash == c[|c| - 1].hash)
  {
    var c' := c + [b];
    if HashBinds(h, b) && b.previousHash == c[|c| - 1].hash {
      forall i | 1 <= i < |c'|
        ensures ValidAt(h, c', i)
      {
        if i < |c| {
          assert ValidAt(h, c, i);
        }
      }
    } else {
      assert !ValidAt(h, c', |c|);
    }
  }

  /** Editing the payload of block `i >= 1` without resealing is detected, unless the
      edited fields happen to commit to the very same hash (a hash collision). */
  lemma TamperDataDetected(h: Hasher, c: seq<Block>, i: nat, data: Dict)
    requires ValidChain(h, c) && 1 <= i < |c|
    ensures ValidChain(h, c[i := c[i].(data := data)]) <==> CalculateHash(h, c[i].(data := data)) == c[i].hash
  {
    var c' := c[i := c[i].(data := data)];
    if CalculateHash(h, c'[i]) == c[i].hash {
      forall j | 1 <= j < |c'|
        ensures ValidAt(h, c', j)
      {
        assert ValidAt(h, c, j);
      }
    } else {
      assert !ValidAt(h, c', i);
    }
  }

  /** Replacing the predecessor link of block `i >= 1` by any other value is always detected. */
  lemma TamperLinkDetected(h: Hasher, c: seq<Block>, i: nat, previousHash: string)
    requires ValidChain(h, c) && 1 <= i < |c|
    requires previousHash != c[i].previousHash
    ensures !ValidChain(h, c[i := c[i].(previousHash := previousHash)])
  {
    assert ValidAt(h, c, i);
    assert !ValidAt(h, c[i := c[i].(previousHash := previousHash)], i);
  }

  /** Resealing a tampered block (so that its own hash checks out again) changes its hash,
      which breaks the link held by its successor. */
  lemma ResealBreaksSuccessor(h: Hasher, c: seq<Block>, i: nat, b: Block)
    requires ValidChain(h, c) && i + 1 < |c|
    requires b.hash != c[i].hash
    ensures !ValidChain(h, c[i := b])
  {
    assert ValidAt(h, c, i + 1);
    assert !ValidAt(h, c[i := b], i + 1);
  }

  /** Validation never looks at the genesis payload: it can be rewritten freely. */
  lemma GenesisContentUnchecked(h: Hasher, c: seq<Block>, data: Dict)
    requires |c| > 0 && ValidChain(h, c)
    ensures ValidChain(h, c[0 := c[0].(data := data)])
  {
    var c' := c[0 := c[0].(data := data)];
    forall j | 1 <= j < |c'|
      ensures ValidAt(h, c', j)
    {
      assert ValidAt(h, c, j);
    }
  }
}
