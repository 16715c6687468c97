/**
 The document ledger (class `DocumentBlockchain` of r3/blockchain.py): genesis
 creation, appending documents, and the three linear-scan queries. The clock
 (`datetime.now()`) is a `now` parameter and the unbounded mining loop gets a
 `fuel` bound, as in module Blocks.
 */
module DocumentChain {
  import opened Wrappers
  import opened Json
  import opened Blocks
  import opened Chain

  /** The ledger state: the block list and the difficulty fixed at construction. */
  datatype Ledger = Ledger(chain: seq<Block>, difficulty: nat)

  /** Why an append or the genesis step can fail. */
  datatype Fault =
    | EmptyChain    // `self.chain[-1]` on an empty chain raises IndexError
    | SealingFault  // the mining loop did not find a nonce within its fuel

  /** The summary `add_document` returns (its `"success": True` entry is constant). */
  datatype Receipt = Receipt(blockNumber: nat, blockHash: string, timestamp: string)

  datatype Added = Added(ledger: Ledger, receipt: Receipt)

  /** The answer of `verify_document` when found (its `"valid": True` entry is constant). */
  datatype Verification = Verification(blockNumber: nat, timestamp: string, data: Dict)

  const GenesisMessage: string := "Genesis Block - DocuChain System"

  /** The genesis payload `{"type": "genesis", "message": ...}`. */
  function GenesisData(): (d: Dict)
    ensures GetIs(d, "type", "genesis")
  {
    map["type" := Str("genesis"), "message" := Str(GenesisMessage)]
  }

  /** The unsealed genesis block built at time `now`. */
  function GenesisCandidate(h: Hasher, now: string): (b: Block)
    ensures IsGenesis(b) && b.nonce == 0 && HashBinds(h, b)
  {
    NewBlock(h, 0, now, GenesisData(), "0")
  }

  /**
   `__init__` / `create_genesis_block`: a ledger holding only the sealed genesis block,
   or `SealingFault` when no nonce up to `fuel` seals it.
   */
  function Create(h: Hasher, difficulty: nat, now: string, fuel: nat): (r: Result<Ledger, Fault>)
    ensures r.Success? ==>
              && r.value.difficulty == difficulty
              && |r.value.chain| == 1
              && IsGenesis(r.value.chain[0])
              && r.value.chain[0].timestamp == now
              && r.value.chain[0].data == GenesisData()
              && WellFormed(h, r.value.chain, difficulty)
    ensures r.Failure? <==>
              forall n: nat :: n <= fuel ==> !HasZeroPrefix(DigestAt(h, GenesisCandidate(h, now), n), difficulty)
    ensures r.Failure? ==> r.error == SealingFault
  {
    var candidate := GenesisCandidate(h, now);
    MineFresh(h, candidate, difficulty, fuel);
    match Mine(h, candidate, difficulty, fuel)
    case None => Failure(SealingFault)
    case Some(genesis) => Success(Ledger([genesis], difficulty))
  }

  /** `get_latest_block`: the tip, or `None` where the source raises IndexError. */
  function LatestBlock(l: Ledger): (r: Option<Block>)
    ensures r.None? <==> |l.chain| == 0
    ensures r.Some? ==> r.value == l.chain[|l.chain| - 1]
  {
    if |l.chain| == 0 then None else Some(l.chain[|l.chain| - 1])
  }

  /** The unsealed block `add_document` builds on top of the tip. */
  function Candidate(h: Hasher, l: Ledger, data: Dict, now: string): (b: Block)
    requires |l.chain| > 0
    ensures b.index == |l.chain| && b.timestamp == now && b.data == data
    ensures b.previousHash == l.chain[|l.chain| - 1].hash
    ensures b.nonce == 0 && HashBinds(h, b)
  {
    NewBlock(h, |l.chain|, now, data, l.chain[|l.chain| - 1].hash)
  }

  /**
   `add_document`: build a block at index `|chain|` linked to the tip, seal it at the
   ledger's difficulty and append it; nothing already in the chain changes.
   */
  function AddDocument(h: Hasher, l: Ledger, data: Dict, now: string, fuel: nat): (r: Result<Added, Fault>)
    ensures |l.chain| == 0 <==> r == Failure(EmptyChain)
    ensures r.Success? ==> |r.value.ledger.chain| == |l.chain| + 1 > 1
    ensures r.Success? ==>
              var c := r.value.ledger.chain;
              var b := c[|l.chain|];
              && c[..|l.chain|] == l.chain
              && r.value.ledger.difficulty == l.difficulty
              && b.index == |l.chain|
              && b.timestamp == now
              && b.data == data
              && b.previousHash == l.chain[|l.chain| - 1].hash
              && HashBinds(h, b)
              && HasZeroPrefix(b.hash, l.difficulty)
              && r.value.receipt == Receipt(b.index, b.hash, b.timestamp)
    ensures |l.chain| > 0 ==>
              (r.Failure? <==>
                 forall n: nat :: n <= fuel ==> !HasZeroPrefix(DigestAt(h, Candidate(h, l, data, now), n), l.difficulty))
    ensures |l.chain| > 0 && r.Failure? ==> r.error == SealingFault
  {
    if |l.chain| == 0 then
      Failure(EmptyChain)
    else
      var candidate := Candidate(h, l, data, now);
      MineFresh(h, candidate, l.difficulty, fuel);
      match Mine(h, candidate, l.difficulty, fuel)
      case None => Failure(SealingFault)
      case Some(b) =>
        var c := l.chain + [b];
        assert c[..|l.chain|] == l.chain;
        Success(Added(l.(chain := c), Receipt(b.index, b.hash, b.timestamp)))
  }

  /** The tip after a successful append is the block that was appended. */
  lemma LatestAfterAdd(h: Hasher, l: Ledger, data: Dict, now: string, fuel: nat)
    requires AddDocument(h, l, data, now, fuel).Success?
    ensures var a := AddDocument(h, l, data, now, fuel).value;
            LatestBlock(a.ledger) == Some(a.ledger.chain[a.receipt.blockNumber]) &&
            a.receipt.blockHash == LatestBlock(a.ledger).value.hash &&
            LatestBlock(a.ledger).value.previousHash == LatestBlock(l).value.hash
  {
  }

  /** `is_chain_valid` holding before an append still holds after it. */
  lemma AddPreservesValid(h: Hasher, l: Ledger, data: Dict, now: string, fuel: nat)
    requires ValidChain(h, l.chain)
    requires AddDocument(h, l, data, now, fuel).Success?
    ensures ValidChain(h, AddDocument(h, l, data, now, fuel).value.ledger.chain)
  {
    var c := AddDocument(h, l, data, now, fuel).value.ledger.chain;
    assert c == l.chain + [c[|c| - 1]];
    AppendValid(h, l.chain, c[|c| - 1]);
  }

  /** All four ledger invariants (I1-I4 plus the genesis marker) survive an append. */
  lemma AddPreservesWellFormed(h: Hasher, l: Ledger, data: Dict, now: string, fuel: nat)
    requires WellFormed(h, l.chain, l.difficulty)
    requires AddDocument(h, l, data, now, fuel).Success?
    ensures var l' := AddDocument(h, l, data, now, fuel).value.ledger;
            WellFormed(h, l'.chain, l'.difficulty)
  {
  }

  /** A run of `add_document` calls, one per (payload, clock reading), stopping at the first failure. */
  function AddAll(h: Hasher, l: Ledger, docs: seq<(Dict, string)>, fuel: nat): (r: Result<Ledger, Fault>)
    decreases |docs|
    ensures r.Success? ==>
              && |r.value.chain| == |l.chain| + |docs|
              && r.value.chain[..|l.chain|] == l.chain
              && r.value.difficulty == l.difficulty
    ensures |docs| > 0 && |l.chain| == 0 ==> r == Failure(EmptyChain)
  {
    if |docs| == 0 then Success(l)
    else
      match AddDocument(h, l, docs[0].0, docs[0].1, fuel)
      case Failure(e) => Failure(e)
      case Success(a) =>
        var r := AddAll(h, a.ledger, docs[1..], fuel);
        assert r.Success? ==> r.value.chain[..|l.chain|] == r.value.chain[..|a.ledger.chain|][..|l.chain|];
        r
  }

  /** Every ledger built from a well-formed one by repeated appends is well formed,
      so `is_chain_valid` holds after each append. */
  lemma {:induction false} AddAllWellFormed(h: Hasher, l: Ledger, docs: seq<(Dict, string)>, fuel: nat)
    requires WellFormed(h, l.chain, l.difficulty)
    requires AddAll(h, l, docs, fuel).Success?
    ensures WellFormed(h, AddAll(h, l, docs, fuel).value.chain, l.difficulty)
    ensures ValidChain(h, AddAll(h, l, docs, fuel).value.chain)
    decreases |docs|
  {
    if |docs| > 0 {
      var a := AddDocument(h, l, docs[0].0, docs[0].1, fuel).value;
      AddPreservesWellFormed(h, l, docs[0].0, docs[0].1, fuel);
      AddAllWellFormed(h, a.ledger, docs[1..], fuel);
    }
    WellFormedIsValid(h, AddAll(h, l, docs, fuel).value.chain, l.difficulty);
  }

  /** `chain[1:]`: the blocks after genesis (empty for an empty chain). */
  function AfterGenesis(c: seq<Block>): (r: seq<Block>)
    ensures |c| > 0 ==> |r| == |c| - 1 && forall i :: 1 <= i < |c| ==> r[i - 1] == c[i]
    ensures |c| == 0 ==> r == []
  {
    if |c| == 0 then [] else c[1..]
  }

  /** The payload names the document hash `docHash`. */
  predicate HasDocument(b: Block, docHash: string)
  {
    GetIs(b.data, "document_hash", docHash)
  }

  /** The position of the first block at or after `from` that names `docHash`. */
  function FirstWithDocument(c: seq<Block>, docHash: string, from: nat): (r: Option<nat>)
    decreases |c| - from
    ensures r.Some? ==>
              && from <= r.value < |c|
              && HasDocument(c[r.value], docHash)
              && forall j :: from <= j < r.value ==> !HasDocument(c[j], docHash)
    ensures r.None? <==> forall j :: from <= j < |c| ==> !HasDocument(c[j], docHash)
  {
    if from >= |c| then None
    else if HasDocument(c[from], docHash) then Some(from)
    else FirstWithDocument(c, docHash, from + 1)
  }

  /** What `verify_document` reports about a block. */
  function VerificationOf(b: Block): Verification
  {
    Verification(b.index, b.timestamp, b.data)
  }

  /**
   `verify_document`: the first non-genesis block whose payload names `docHash`,
   or `None` exactly when there is none. Genesis is never reported.
   */
  function VerifyDocument(l: Ledger, docHash: string): (r: Option<Verification>)
    ensures r.None? <==> forall i :: 1 <= i < |l.chain| ==> !HasDocument(l.chain[i], docHash)
    ensures r.Some? ==>
              exists i :: 1 <= i < |l.chain| && HasDocument(l.chain[i], docHash) && r.value == VerificationOf(l.chain[i]) &&
                          forall j :: 1 <= j < i ==> !HasDocument(l.chain[j], docHash)
  {
    match FirstWithDocument(l.chain, docHash, 1)
    case None => None
    case Some(i) => Some(VerificationOf(l.chain[i]))
  }

  /** Scanning a chain extended by one block finds the old answer, or else the new block. */
  lemma {:induction false} FirstWithDocumentAppend(c: seq<Block>, b: Block, docHash: string, from: nat)
    requires from <= |c|
    ensures FirstWithDocument(c + [b], docHash, from) ==
              match FirstWithDocument(c, docHash, from)
              case Some(i) => Some(i)
              case None => if HasDocument(b, docHash) then Some(|c|) else None
    decreases |c| - from
  {
    var c' := c + [b];
    if from == |c| {
      assert c'[from] == b;
    } else {
      assert c'[from] == c[from];
      if !HasDocument(c[from], docHash) {
        FirstWithDocumentAppend(c, b, docHash, from + 1);
      }
    }
  }

  /** After an append, a document found before is found at the same block; one not found
      before is found exactly when the new block names it. */
  lemma VerifyAfterAdd(h: Hasher, l: Ledger, data: Dict, now: string, fuel: nat, docHash: string)
    requires AddDocument(h, l, data, now, fuel).Success?
    ensures var a := AddDocument(h, l, data, now, fuel).value;
            VerifyDocument(a.ledger, docHash) ==
              match VerifyDocument(l, docHash)
              case Some(v) => Some(v)
              case None => if GetIs(data, "document_hash", docHash)
                           then Some(Verification(a.receipt.blockNumber, now, data))
                           else None
  {
    var a := AddDocument(h, l, data, now, fuel).value;
    var c := a.ledger.chain;
    var b := c[|c| - 1];
    assert c == l.chain + [b];
    FirstWithDocumentAppend(l.chain, b, docHash, 1);
  }

  /** The record `{"block_number": ..., "timestamp": ..., **data}`: payload keys win,
      so the annotations hold only where the payload does not reuse those keys. */
  function Annotate(b: Block): (d: Dict)
    ensures d.Keys == b.data.Keys + {"block_number", "timestamp"}
    ensures forall k :: k in b.data ==> d[k] == b.data[k]
    ensures "block_number" !in b.data ==> d["block_number"] == Int(b.index)
    ensures "timestamp" !in b.data ==> d["timestamp"] == Str(b.timestamp)
  {
    map["block_number" := Int(b.index), "timestamp" := Str(b.timestamp)] + b.data
  }

  /** The annotated records of the blocks whose payload has `key` equal to `value`, in order. */
  function Select(bs: seq<Block>, key: string, value: string): (r: seq<Dict>)
    ensures |r| <= |bs|
    ensures forall d :: d in r ==> exists i :: 0 <= i < |bs| && GetIs(bs[i].data, key, value) && d == Annotate(bs[i])
    ensures forall i :: 0 <= i < |bs| && GetIs(bs[i].data, key, value) ==> Annotate(bs[i]) in r
  {
    if |bs| == 0 then []
    else
      var rest := Select(bs[1..], key, value);
      assert forall i :: 1 <= i < |bs| ==> bs[i] == bs[1..][i - 1];
      if GetIs(bs[0].data, key, value) then [Annotate(bs[0])] + rest else rest
  }

  /** Selection distributes over concatenation, so it keeps chain order. */
  lemma {:induction false} SelectAppend(a: seq<Block>, b: seq<Block>, key: string, value: string)
    ensures Select(a + b, key, value) == Select(a, key, value) + Select(b, key, value)
    decreases |a|
  {
    if |a| > 0 {
      assert (a + b)[1..] == a[1..] + b;
      SelectAppend(a[1..], b, key, value);
    } else {
      assert a + b == b;
    }
  }

  /** `get_documents_by_recipient`: the annotated non-genesis blocks for `recipientId`, in chain order. */
  function DocumentsByRecipient(l: Ledger, recipientId: string): (r: seq<Dict>)
    ensures forall d :: d in r ==>
              exists i :: 1 <= i < |l.chain| && GetIs(l.chain[i].data, "recipient_id", recipientId) && d == Annotate(l.chain[i])
    ensures forall i :: 1 <= i < |l.chain| && GetIs(l.chain[i].data, "recipient_id", recipientId) ==> Annotate(l.chain[i]) in r
  {
    var bs := AfterGenesis(l.chain);
    assert forall i :: 0 <= i < |bs| ==> bs[i] == l.chain[i + 1];
    Select(bs, "recipient_id", recipientId)
  }

  /** `get_all_documents`: the annotated non-genesis blocks of type `"document"`, in chain order. */
  function AllDocuments(l: Ledger): (r: seq<Dict>)
    ensures forall d :: d in r ==>
              exists i :: 1 <= i < |l.chain| && GetIs(l.chain[i].data, "type", "document") && d == Annotate(l.chain[i])
    ensures forall i :: 1 <= i < |l.chain| && GetIs(l.chain[i].data, "type", "document") ==> Annotate(l.chain[i]) in r
  {
    var bs := AfterGenesis(l.chain);
    assert forall i :: 0 <= i < |bs| ==> bs[i] == l.chain[i + 1];
    Select(bs, "type", "document")
  }

  /** A successful append extends the chain by exactly the reported block. */
  lemma AddedChain(h: Hasher, l: Ledger, data: Dict, now: string, fuel: nat)
    requires AddDocument(h, l, data, now, fuel).Success?
    ensures var a := AddDocument(h, l, data, now, fuel).value;
            a.receipt.blockNumber == |l.chain| > 0 &&
            a.ledger.chain == l.chain + [a.ledger.chain[a.receipt.blockNumber]] &&
            AfterGenesis(a.ledger.chain) == AfterGenesis(l.chain) + [a.ledger.chain[a.receipt.blockNumber]]
  {
  }

  /** An append adds at most one record to the document listing, at its end, and only
      when the new payload is of type `"document"`. */
  lemma AllDocumentsAfterAdd(h: Hasher, l: Ledger, data: Dict, now: string, fuel: nat)
    requires AddDocument(h, l, data, now, fuel).Success?
    ensures var a := AddDocument(h, l, data, now, fuel).value;
            AllDocuments(a.ledger) ==
              AllDocuments(l) + (if GetIs(data, "type", "document") then [Annotate(a.ledger.chain[a.receipt.blockNumber])] else [])
  {
    var a := AddDocument(h, l, data, now, fuel).value;
    AddedChain(h, l, data, now, fuel);
    SelectAppend(AfterGenesis(l.chain), [a.ledger.chain[a.receipt.blockNumber]], "type", "document");
  }

  /** An append adds at most one record to a recipient's listing, at its end, and only
      when the new payload names that recipient. */
  lemma RecipientDocumentsAfterAdd(h: Hasher, l: Ledger, data: Dict, now: string, fuel: nat, recipientId: string)
    requires AddDocument(h, l, data, now, fuel).Success?
    ensures var a := AddDocument(h, l, data, now, fuel).value;
            DocumentsByRecipient(a.ledger, recipientId) ==
              DocumentsByRecipient(l, recipientId) +
              (if GetIs(data, "recipient_id", recipientId) then [Annotate(a.ledger.chain[a.receipt.blockNumber])] else [])
  {
    var a := AddDocument(h, l, data, now, fuel).value;
    AddedChain(h, l, data, now, fuel);
    SelectAppend(AfterGenesis(l.chain), [a.ledger.chain[a.receipt.blockNumber]], "recipient_id", recipientId);
  }

  /** A fresh ledger lists no documents, finds no document hash, and validates. */
  lemma FreshLedgerIsEmpty(h: Hasher, difficulty: nat, now: string, fuel: nat, docHash: string, recipientId: string)
    requires Create(h, difficulty, now, fuel).Success?
    ensures var l := Create(h, difficulty, now, fuel).value;
            && AllDocuments(l) == []
            && DocumentsByRecipient(l, recipientId) == []
            && VerifyDocument(l, docHash) == None
            && ValidChain(h, l.chain)
  {
  }

  /** Issuing one document on a fresh ledger: it lands in block 1, is found by its hash,
      and is the single record listed for its recipient. */
  lemma FirstDocumentScenario(h: Hasher, difficulty: nat, t0: string, t1: string, fuel: nat,
                              data: Dict, docHash: string, recipientId: string)
    requires Create(h, difficulty, t0, fuel).Success?
    requires GetIs(data, "document_hash", docHash) && GetIs(data, "recipient_id", recipientId)
    requires AddDocument(h, Create(h, difficulty, t0, fuel).value, data, t1, fuel).Success?
    ensures var a := AddDocument(h, Create(h, difficulty, t0, fuel).value, data, t1, fuel).value;
            && a.receipt.blockNumber == 1
            && VerifyDocument(a.ledger, docHash) == Some(Verification(1, t1, data))
            && DocumentsByRecipient(a.ledger, recipientId) == [Annotate(a.ledger.chain[1])]
            && ValidChain(h, a.ledger.chain)
  {
    var l := Create(h, difficulty, t0, fuel).value;
    FreshLedgerIsEmpty(h, difficulty, t0, fuel, docHash, recipientId);
    VerifyAfterAdd(h, l, data, t1, fuel, docHash);
    RecipientDocumentsAfterAdd(h, l, data, t1, fuel, recipientId);
    AddPreservesValid(h, l, data, t1, fuel);
  }
}
