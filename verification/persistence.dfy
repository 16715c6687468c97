/**
 The persisted form of the ledger: `Block.to_dict`, `save_to_file`'s list of
 records and the record-to-block reconstruction of `load_from_file`. Reading
 and writing the JSON file is not modelled; the file's content is a parameter.
 */
module Persistence {
  import opened Wrappers
  import opened Json
  import opened Blocks
  import opened Chain
  import opened DocumentChain

  /** The six-field record `to_dict` produces and the file stores, one per block. */
  datatype BlockRecord = BlockRecord(
    index: nat,
    timestamp: string,
    data: Dict,
    previousHash: string,
    nonce: nat,
    hash: string
  )

  /** `Block.to_dict`. */
  function ToRecord(b: Block): BlockRecord
  {
    BlockRecord(b.index, b.timestamp, b.data, b.previousHash, b.nonce, b.hash)
  }

  /**
   One step of `load_from_file`: construct the block (which computes a hash with
   nonce 0) and then overwrite its nonce and hash with the stored ones, so the
   block carries exactly the stored fields and is never re-mined.
   */
  function FromRecord(h: Hasher, r: BlockRecord): (b: Block)
    ensures ToRecord(b) == r
  {
    NewBlock(h, r.index, r.timestamp, r.data, r.previousHash).(nonce := r.nonce, hash := r.hash)
  }

  /** The list `save_to_file` writes. */
  function Save(l: Ledger): (rs: seq<BlockRecord>)
    ensures |rs| == |l.chain|
    ensures forall i :: 0 <= i < |rs| ==> rs[i] == ToRecord(l.chain[i])
  {
    seq(|l.chain|, i requires 0 <= i < |l.chain| => ToRecord(l.chain[i]))
  }

  /** The outcome of `load_from_file`: the ledger afterwards and the boolean it returns. */
  datatype Loaded = Loaded(ledger: Ledger, found: bool)

  /**
   `load_from_file`, with the file's parsed content as `file` (`None` when the file
   does not exist). A missing file leaves the ledger unchanged and yields `false`;
   otherwise the chain is replaced by the reconstructed blocks and the difficulty kept.
   */
  function Load(h: Hasher, l: Ledger, file: Option<seq<BlockRecord>>): (r: Loaded)
    ensures file.None? ==> r == Loaded(l, false)
    ensures file.Some? ==>
              && r.found
              && r.ledger.difficulty == l.difficulty
              && |r.ledger.chain| == |file.value|
              && forall i :: 0 <= i < |file.value| ==> ToRecord(r.ledger.chain[i]) == file.value[i]
  {
    match file
    case None => Loaded(l, false)
    case Some(rs) => Loaded(l.(chain := seq(|rs|, i requires 0 <= i < |rs| => FromRecord(h, rs[i]))), true)
  }

  /** A record and its block carry the same fields both ways. */
  lemma RecordRoundTrip(h: Hasher, b: Block, r: BlockRecord)
    ensures FromRecord(h, ToRecord(b)) == b
    ensures ToRecord(FromRecord(h, r)) == r
  {
  }

  /** Reconstruction does not depend on the hash function: the stored hash is kept,
      never recomputed. */
  lemma FromRecordIgnoresHasher(h1: Hasher, h2: Hasher, r: BlockRecord)
    ensures FromRecord(h1, r) == FromRecord(h2, r)
    ensures FromRecord(h1, r).hash == r.hash && FromRecord(h1, r).nonce == r.nonce
  {
  }

  /**
   Saving and loading back gives a chain identical field for field, so validity,
   the invariants and every query answer are those of the saved ledger.
   */
  lemma SaveLoadRoundTrip(h: Hasher, saved: Ledger, current: Ledger)
    ensures var r := Load(h, current, Some(Save(saved)));
            && r.found
            && r.ledger == Ledger(saved.chain, current.difficulty)
            && (ValidChain(h, r.ledger.chain) <==> ValidChain(h, saved.chain))
            && AllDocuments(r.ledger) == AllDocuments(saved)
  {
  }

  /** A stored record whose hash is not the commitment of its fields is loaded as is and
      makes the loaded chain fail validation: loading never repairs tampering. */
  lemma LoadKeepsTampering(h: Hasher, l: Ledger, rs: seq<BlockRecord>, i: nat)
    requires 1 <= i < |rs|
    requires rs[i].hash != h(rs[i].index, rs[i].timestamp, rs[i].data, rs[i].previousHash, rs[i].nonce)
    ensures !ValidChain(h, Load(h, l, Some(rs)).ledger.chain)
  {
    var c := Load(h, l, Some(rs)).ledger.chain;
    assert ToRecord(c[i]) == rs[i];
    assert !ValidAt(h, c, i);
  }
}
