# DocuChain ledger model

A Dafny model of the hash-linked document ledger in `r3/blockchain.py`: the
`Block` record with its hash commitment and proof-of-work sealing, and the
`DocumentBlockchain` that creates a genesis block, appends mined document
blocks linked to the tip, validates the chain, answers the three document
queries and reconstructs itself from saved block records.

Modules:

- `Wrappers` (`wrappers.dfy`): `Option` and `Result`, standing in for Python's `None` returns and raised exceptions.
- `Json` (`json.dfy`): JSON values; a block payload is a `Dict` (a `map<string, Value>`). `GetIs(d, k, s)` is the source's `d.get(k) == s`.
- `Blocks` (`blocks.dfy`): `Block`, `NewBlock` (`__init__`), `CalculateHash`, the loop exit test `MeetsTarget` (`hash[:d] == "0" * d`) and sealing, as the function `Mine` and the loop `MineBlock`.
- `Chain` (`chain.dfy`): the ledger invariants I1 (hash is the commitment of the fields), I2 (link to predecessor), I3 (difficulty prefix) and I4 (consecutive indices); `ValidChain`, what `is_chain_valid` checks, and its loop `IsChainValid`; what tampering does to validity.
- `DocumentChain` (`ledger.dfy`): `Ledger` (chain plus difficulty), `Create`, `LatestBlock`, `AddDocument`, `VerifyDocument`, `AllDocuments`, `DocumentsByRecipient`, and how each query answers after an append.
- `Persistence` (`persistence.dfy`): `to_dict` records, `Save`, and `Load` (record-to-block reconstruction without re-mining; a missing file leaves the ledger unchanged and yields `false`).

The hash commitment (SHA-256 over `json.dumps(..., sort_keys=True)`) is the
abstract `Hasher` function value `(index, timestamp, data, previous_hash, nonce) -> string`,
passed as a parameter `h`. No proved property depends on what it computes. The
clock (`datetime.now().isoformat()`) is a `now` parameter. The source's mining
loop has no bound. Here it gets `fuel`, the most nonce increments allowed. When
the fuel runs out the result is `SealingFault`. All contracts about mining state exactly which nonces were tried,
so that `Failure(SealingFault)` holds iff no nonce from 0 to `fuel` seals the block.

Behaviour of the code that the model keeps:

- `is_chain_valid` checks I1 and I2 for blocks 1 onward only. It does not check the genesis block, the indices or the difficulty prefix (`GenesisContentUnchecked`).
- The query records are `{"block_number": ..., "timestamp": ..., **data}`, so payload keys of the same name override the annotations (`Annotate`).
- `verify_document` reports `block.index`, not the position. The two agree on a well-formed chain (I4), but a loaded chain is not re-indexed.
- Loading a file holding `[]` leaves an empty chain, and a later `add_document` raises IndexError on `self.chain[-1]`. This is `Failure(EmptyChain)`.

## Model

| member | source | states |
|---|---|---|
| `Blocks.NewBlock` | r3/blockchain.py:15-21 | a new block carries the given fields, nonce 0, and a hash that is the commitment of those fields (I1) |
| `Blocks.MeetsTargetIff` | r3/blockchain.py:36-37 | the loop test `hash[:d] == "0" * d` holds iff the hash has at least d characters and its first d are all `'0'` |
| `Blocks.Mine` | r3/blockchain.py:34-39 | the sealed block meets the difficulty target and keeps index, timestamp, data and previous hash. Its nonce is the least one from the start nonce that meets the target. After any increment the hash is the commitment of the fields with that nonce. `None` iff no nonce within the fuel meets the target |
| `Blocks.MineFresh` | r3/blockchain.py:34-39 | for a freshly built block, sealing succeeds iff some nonce 0..fuel meets the target. The result's hash is the commitment at its nonce, and no smaller nonce meets the target |
| `Blocks.MineBlock` | r3/blockchain.py:34-39 | the increment-and-rehash loop computes exactly `Mine`: a sealed block with unchanged content meeting the difficulty prefix |
| `Blocks.Retry` | r3/blockchain.py:38-39 | one loop step sets the nonce, recomputes the hash as the commitment and changes nothing else |
| `Chain.IsChainValid` | r3/blockchain.py:106-120 | the loop returns true iff every block i >= 1 has hash equal to its commitment and previous hash equal to block i-1's hash; on false some block i >= 1 fails a check |
| `Chain.WellFormedIsValid` | r3/blockchain.py:106-120 | a chain satisfying I1-I4 with a genesis marker passes validation |
| `Chain.AppendValid` | r3/blockchain.py:106-120 | appending to a valid chain keeps it valid iff the new block's hash is its commitment and it links to the old tip |
| `Chain.TamperDataDetected` | r3/blockchain.py:112-114 | rewriting the payload of block i >= 1 without resealing leaves the chain valid iff the edited fields commit to the same hash (a collision) |
| `Chain.TamperLinkDetected` | r3/blockchain.py:116-118 | replacing block i's previous hash (i >= 1) by any different value makes the chain invalid |
| `Chain.ResealBreaksSuccessor` | r3/blockchain.py:116-118 | giving any block that has a successor a different hash makes the chain invalid |
| `Chain.GenesisContentUnchecked` | r3/blockchain.py:108-110 | validation starts at block 1: rewriting the genesis payload keeps a valid chain valid |
| `DocumentChain.GenesisData` | r3/blockchain.py:65-68 | the genesis payload has type `"genesis"` |
| `DocumentChain.GenesisCandidate` | r3/blockchain.py:65-68 | the unsealed genesis block has index 0, previous hash `"0"`, type `"genesis"`, nonce 0 and a binding hash |
| `DocumentChain.Create` | r3/blockchain.py:57-70 | a fresh ledger holds exactly one block, the sealed genesis block at index 0 with previous hash `"0"`, the fixed payload and timestamp `now`. The ledger satisfies I1-I4 at the chosen difficulty. Creation fails (SealingFault) iff no nonce within the fuel seals genesis |
| `DocumentChain.LatestBlock` | r3/blockchain.py:72-74 | the last block of the chain; absent exactly for an empty chain |
| `DocumentChain.Candidate` | r3/blockchain.py:78-83 | the block to append has index = chain length, timestamp `now`, the given data, the tip's hash as previous hash, nonce 0 and a binding hash |
| `DocumentChain.AddDocument` | r3/blockchain.py:76-92 | the chain grows by exactly one block and its old blocks are unchanged. The new block has index = old length, previous hash = old tip's hash, the given data, a binding hash and the difficulty prefix. The receipt reports its index, hash and timestamp. Fails with EmptyChain iff the chain is empty, and with SealingFault iff no nonce within the fuel seals it |
| `DocumentChain.LatestAfterAdd` | r3/blockchain.py:76-92 | after an append the tip is the reported block and links to the previous tip |
| `DocumentChain.AddPreservesValid` | r3/blockchain.py:76-92 | if `is_chain_valid` holds before an append it holds after |
| `DocumentChain.AddPreservesWellFormed` | r3/blockchain.py:76-92 | I1-I4 and the genesis marker are preserved by an append |
| `DocumentChain.AddAll` | r3/blockchain.py:76-92 | a run of appends that all succeed grows the chain by one block per document, keeps the old blocks and the difficulty. On an empty chain the first append fails with EmptyChain |
| `DocumentChain.AddAllWellFormed` | r3/blockchain.py:76-120 | every ledger built from a well-formed one by repeated appends satisfies I1-I4 and passes `is_chain_valid` |
| `DocumentChain.AfterGenesis` | r3/blockchain.py:96 | `chain[1:]` holds the blocks after genesis, in order, and is empty for an empty chain |
| `DocumentChain.FirstWithDocument` | r3/blockchain.py:96-104 | the scan returns the first position at or after its start whose payload has the document hash. It returns none iff no such position exists |
| `DocumentChain.VerifyDocument` | r3/blockchain.py:94-104 | the result is absent iff no block i >= 1 has the document hash. Otherwise it reports the index, timestamp and data of the first such block i >= 1, so genesis is never reported |
| `DocumentChain.FirstWithDocumentAppend` | r3/blockchain.py:96-104 | scanning a chain extended by one block gives the old answer, or the new block's position if there was none and it matches |
| `DocumentChain.VerifyAfterAdd` | r3/blockchain.py:94-104 | after an append a document found before is reported from the same block. One not found before is reported from the new block iff its payload has that hash |
| `DocumentChain.Annotate` | r3/blockchain.py:127-131 | the record holds every payload key with its value plus `block_number` and `timestamp`. These equal the block's index and timestamp unless the payload has keys of the same name |
| `DocumentChain.Select` | r3/blockchain.py:125-132 | every record returned is the annotation of a block whose payload matches. Every matching block's annotation is returned, and the result is no longer than the input |
| `DocumentChain.SelectAppend` | r3/blockchain.py:125-132 | selection distributes over concatenation, so results keep chain order |
| `DocumentChain.AllDocuments` | r3/blockchain.py:122-132 | the records are exactly the annotations of blocks i >= 1 whose type is `"document"` |
| `DocumentChain.DocumentsByRecipient` | r3/blockchain.py:134-144 | the records are exactly the annotations of blocks i >= 1 whose `recipient_id` is the argument |
| `DocumentChain.AddedChain` | r3/blockchain.py:84-89 | a successful append yields the old chain followed by the reported block |
| `DocumentChain.AllDocumentsAfterAdd` | r3/blockchain.py:122-132 | after an append the document listing is the old one, followed by the new block's record iff its type is `"document"` |
| `DocumentChain.RecipientDocumentsAfterAdd` | r3/blockchain.py:134-144 | after an append a recipient's listing is the old one, followed by the new block's record iff it names that recipient |
| `DocumentChain.FreshLedgerIsEmpty` | r3/blockchain.py:57-70 | a freshly created ledger lists no documents, finds no document hash and validates |
| `DocumentChain.FirstDocumentScenario` | r3/blockchain.py:76-104 | the first document issued on a fresh ledger lands in block 1. It is found by its hash with its timestamp and data, and it is the only record for its recipient |
| `Persistence.FromRecord` | r3/blockchain.py:160-167 | the reconstructed block carries exactly the record's six fields, including the stored nonce and hash |
| `Persistence.Save` | r3/blockchain.py:146-150 | one `to_dict` record per block, in chain order |
| `Persistence.Load` | r3/blockchain.py:152-172 | a missing file leaves the ledger unchanged and returns false. Otherwise it returns true, keeps the difficulty, and replaces the chain with one block per record, each carrying exactly that record's fields |
| `Persistence.RecordRoundTrip` | r3/blockchain.py:42-51 | `to_dict` and reconstruction are inverse in both directions |
| `Persistence.FromRecordIgnoresHasher` | r3/blockchain.py:165-167 | reconstruction does not depend on the hash function: the stored hash and nonce are kept and nothing is re-mined |
| `Persistence.SaveLoadRoundTrip` | r3/blockchain.py:146-172 | loading what was saved yields the saved chain field for field, with the same validity and the same document listing |
| `Persistence.LoadKeepsTampering` | r3/blockchain.py:158-168 | a stored block i >= 1 whose hash is not its commitment is loaded as is, and the loaded chain fails validation |

## Left out

- SHA-256 and `json.dumps(..., sort_keys=True)`: library behaviour, modelled as the abstract `Hasher` parameter. Consequently the hex format and length of digests are not modelled.
- `datetime.now().isoformat()`: the timestamp is a parameter.
- `Blocks.Mine`, `Blocks.MineBlock`, `DocumentChain.Create`, `DocumentChain.AddDocument`: the source's mining loop is unbounded and runs forever when no nonce meets the target. The model bounds it by `fuel` and reports `SealingFault` instead, so non-termination is not modelled.
- The `print` of the mined hash in `mine_block`: console output.
- A negative `difficulty`: Python would accept it. The model takes a `nat`.
- The unused `pending_documents` field.
- Opening, reading, writing and JSON-parsing the ledger file in `save_to_file` and `load_from_file`: file I/O. `Load` takes the parsed records, or `None` for a missing file. A file whose records lack keys makes the source raise KeyError partway through, leaving a partially rebuilt chain. Such files are not modelled, because records are typed.
- JSON floating-point values in payloads.
- `cli_interface.py`, `api_server.py` and their copies under `r3/`: console menus, HTTP routing and upload handling.
- `r3/document_processor.py`: file hashing and storage over `hashlib`, `os` and `shutil`.
