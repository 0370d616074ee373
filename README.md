# WipeForge wipe-log chain, modelled in Dafny

WipeForge records each simulated disk wipe as a block in an in-memory,
hash-linked log (`WipeForge/webcode/blockchain_simulation.py`). A `Block` holds
an index, a timestamp, a payload (`data`), the previous block's hash and its
own hash. A `Blockchain` owns the list of blocks. It seeds the list with a
genesis block, appends caller-built blocks after pointing them at the current
tail, and validates the list by one linear scan.

The model has five modules:

- `Blocks` (`blocks.dfy`): the block record, the digest input, the block
  constructor and `calculate_hash`.
- `Validation` (`validation.dfy`): what the validation scan decides, both as
  "every index passes both checks" and as "the first failing check".
- `Ledger` (`ledger.dfy`): the `Blockchain` class. Its only state is the field
  `chain: seq<Block>`, which the methods reassign.
- `Integrity` (`integrity.dfy`): lemmas about appending and tampering, under the
  code's own digest and under an idealised one.
- `Demo` (`demo.dfy`): the file's `__main__` scenario as two client methods.

**The digest.** `calculate_hash` runs SHA-256 over `json.dumps(self.__dict__,
sort_keys=True)`. The keys are sorted, so the JSON text depends only on which
attributes exist and what their values are. The model therefore takes the
digest as a parameter `d: HashInput -> string`. A `HashInput` holds the four
content fields plus an `Option<string>` for the `hash` attribute:

- In `Block.__init__` the `hash` attribute does not exist yet, so the input
  carries `None`.
- On every later call (in `add_block` and in `is_chain_valid`) the input
  carries `Some(current hash)`.

Nothing is assumed about SHA-256. Some lemmas take `Injective(d)` as a
premise; this is collision freedom, the idealised form of collision
resistance. `Strip(d)` is the digest of the four content fields only. That is
what `calculate_hash` would compute if it left its own `hash` key out.
`IgnoresHashKey` describes every digest with that property.

**Points of the code the model keeps as they are:**
- `calculate_hash` hashes every attribute present at call time, the `hash`
  attribute included once it exists (see Findings).
- `add_block` keeps the caller's index and does not assign
  `latest.index + 1`. The demo passes the literal indices 1 and 2
  (blockchain_simulation.py:93 and :104), and the web caller passes `len(chain)` (views.py:30). Both equal
  `len(chain)` at the call, so both keep the convention "block i has index i"
  (`Integrity.CallerIndexConvention`).
- `is_chain_valid` stops at the first failure. `failure` records which check
  failed and where; it stands for the message the code prints.

## Model

| member | source | states |
|---|---|---|
| `Blocks.NewBlock` | WipeForge/webcode/blockchain_simulation.py:11-16 | the constructor keeps the four given fields, and its hash is the digest of those four fields with no `hash` key present |
| `Blocks.CalculateHashCommits` | WipeForge/webcode/blockchain_simulation.py:18-23 | under a collision-free digest, equal recomputed hashes mean equal blocks: the recomputation commits to all five attributes, the stored hash included |
| `Blocks.ConstructedFailsRecalculation` | WipeForge/webcode/blockchain_simulation.py:16-23 | under a collision-free digest, a block still carrying its constructor's hash never passes the recomputation check, because the constructor hashed a dictionary without the `hash` key |
| `Blocks.IdealisedRecalculation` | WipeForge/webcode/blockchain_simulation.py:22-23 | under a digest that ignores the `hash` key, recomputing a block's hash gives the digest of its four content fields, whatever hash it stores |
| `Blocks.CalculateHash` | WipeForge/webcode/blockchain_simulation.py:18-23 | the recomputed hash is the digest of all five current attributes, the stored `hash` among them (its consequences are in `CalculateHashCommits` and `ConstructedFailsRecalculation`) |
| `Blocks.Rehash` | WipeForge/webcode/blockchain_simulation.py:53 | `block.hash = block.calculate_hash()` (in `add_block` and in the demo's attack at :125) keeps the four content fields and stores the digest of the five attributes as they were, old hash included; under a digest that ignores the `hash` key the result passes the hash check |
| `Blocks.HashOk` | WipeForge/webcode/blockchain_simulation.py:67 | the first check of the scan: stored hash equals the recomputation; under a digest that ignores the `hash` key it holds exactly when the block carries the hash of its four content fields |
| `Blocks.Strip` | WipeForge/webcode/blockchain_simulation.py:18-23 | the corrected digest (the `hash` key left out) ignores the `hash` key, recomputing under it hashes exactly the four content fields, and it gives constructed blocks the same hashes as the original digest |
| `Validation.FirstFailureFrom` | WipeForge/webcode/blockchain_simulation.py:63-75 | the scan from index i finds no failure iff both checks hold at every index from i on; a reported failure lies in range, every earlier index passes both checks, a hash failure really fails the hash check, and a link failure passes the hash check at that index but fails the link check there, because the hash check runs first |
| `Validation.LinkOk` | WipeForge/webcode/blockchain_simulation.py:71 | the second check of the scan: block i's `previous_hash` equals block i-1's `hash` |
| `Validation.ChainValid` | WipeForge/webcode/blockchain_simulation.py:63-75 | the all-indices verdict: both checks hold at every index from 1 to the end |
| `Validation.FirstFailure` | WipeForge/webcode/blockchain_simulation.py:63-75 | the scan from index 1 finds no failure iff the chain is valid in the all-indices sense; a reported failure lies within the chain at an index of at least 1 |
| `Validation.SingleBlockValid` | WipeForge/webcode/blockchain_simulation.py:63-75 | a chain of at most one block is valid and the scan reports nothing, because the loop body never runs |
| `Validation.LinkMismatchDetected` | WipeForge/webcode/blockchain_simulation.py:71-73 | a broken back-link at any index i ≥ 1 makes the chain invalid, and the scan stops at i or earlier |
| `Validation.HashMismatchDetected` | WipeForge/webcode/blockchain_simulation.py:67-69 | a stale hash at any index i ≥ 1 makes the chain invalid; the scan stops at i or earlier, and if it stops at i it reports the hash check |
| `Ledger.Genesis` | WipeForge/webcode/blockchain_simulation.py:37 | the genesis block has index 0, the clock reading as timestamp, data "Genesis Block", previous hash "0", and the constructor's hash over those four fields |
| `Ledger.Linked` | WipeForge/webcode/blockchain_simulation.py:52-53 | the appended block keeps the caller's index, timestamp and data; its link is the tail's hash; its hash is the digest of its new fields together with the caller's stale hash |
| `Ledger.Blockchain.constructor` | WipeForge/webcode/blockchain_simulation.py:29-37 | a new chain holds exactly the genesis block: index 0, data "Genesis Block", previous hash "0", the given timestamp, and a hash over those four fields taken before `hash` existed; this chain is valid |
| `Ledger.Blockchain.CreateGenesisBlock` | WipeForge/webcode/blockchain_simulation.py:33-37 | appends the genesis block to the chain and changes nothing else |
| `Ledger.Blockchain.GetLatestBlock` | WipeForge/webcode/blockchain_simulation.py:39-43 | on the never-empty chain, returns the last block |
| `Ledger.Blockchain.AddBlock` | WipeForge/webcode/blockchain_simulation.py:45-54 | the chain grows by exactly one block and every earlier block is unchanged; the new block links to the old tail's hash, keeps the caller's index, timestamp and data, and carries the recomputed hash over its relinked fields including its old `hash` key; the chain stays non-empty |
| `Ledger.Blockchain.IsChainValid` | WipeForge/webcode/blockchain_simulation.py:56-75 | returns true iff, at every index i ≥ 1, the block's hash equals its recomputation and its link equals the previous block's hash; the reported failure is the first failing check, with the hash check before the link check; it has no modifies clause, so it changes nothing |
| `Integrity.AppendAll` | WipeForge/webcode/blockchain_simulation.py:45-54 | a run of appends adds exactly one block per call and leaves the starting chain as a prefix |
| `Integrity.ChainValidSnoc` | WipeForge/webcode/blockchain_simulation.py:63-75 | a chain extended by one block is valid iff the old chain is valid, the new block passes the hash check, and the new block links to the old tail |
| `Integrity.AppendValidIff` | WipeForge/webcode/blockchain_simulation.py:52-54 | as written, `add_block` always gets the back-link right, and a valid chain stays valid after the append iff the appended block's recomputed hash reproduces itself (a digest fixed point) |
| `Integrity.AppendedBlockFailsHashCheck` | WipeForge/webcode/blockchain_simulation.py:52-54 | as written, under a collision-free digest, a constructed block appended by `add_block` fails its own hash check, the extended chain is invalid, and the scan of a previously valid chain stops at the new block with a hash failure |
| `Integrity.AsWrittenChainNeverValid` | WipeForge/webcode/blockchain_simulation.py:29-54 | as written, under a collision-free digest, a fresh chain followed by at least one append of a constructed block is invalid, and the scan reports a hash failure at index 1 |
| `Integrity.IdealisedAppendPreservesValidity` | WipeForge/webcode/blockchain_simulation.py:45-54 | under an idealised digest that ignores the `hash` key, `add_block` keeps a valid chain valid |
| `Integrity.IdealisedAppendsPreserveValidity` | WipeForge/webcode/blockchain_simulation.py:45-54 | under an idealised digest, a valid chain stays valid through any run of appends |
| `Integrity.CorrectedChainStaysValid` | WipeForge/webcode/blockchain_simulation.py:22-54 | with the hash computed over the four content fields, the constructor's chain stays valid through any run of `add_block` calls |
| `Integrity.CorrectedTamperDataDetected` | WipeForge/webcode/blockchain_simulation.py:67-69 | with the corrected digest, changing block 1's data without recomputing its hash makes the scan stop at index 1 with a hash failure |
| `Integrity.CorrectedTamperRehashDetected` | WipeForge/webcode/blockchain_simulation.py:122-131 | with the corrected digest, changing block 1's data and recomputing its hash lets index 1 pass; the scan stops at index 2 with a link failure |
| `Integrity.AsWrittenTamperRehashDetected` | WipeForge/webcode/blockchain_simulation.py:122-131 | as written, under a collision-free digest, the demo's attack on an appended block 1 breaks block 2's back-link, but the scan stops earlier, at block 1's stale hash |
| `Integrity.CallerIndexConvention` | WipeForge/webcode/views.py:30-31 | `add_block` keeps the caller's index: the convention "block i has index i" survives an append iff the caller passes `len(chain)`, and the genesis chain satisfies it |
| `Demo.AsWrittenDemo` | WipeForge/webcode/blockchain_simulation.py:78-131 | the demo as written, under a collision-free digest: both validations (before and after the attack) fail at block 1's hash check |
| `Demo.CorrectedDemo` | WipeForge/webcode/blockchain_simulation.py:78-131 | the demo with the corrected digest: the first validation succeeds, and the attack is caught at block 2's back-link |

## Findings

| source | as written | input that shows it | evidently intended | confidence | as-written member | corrected member |
|---|---|---|---|---|---|---|
| WipeForge/webcode/blockchain_simulation.py:22 | `calculate_hash` serialises the whole attribute dictionary. After construction that dictionary includes `hash`, so `add_block` hashes a dictionary holding the constructor's hash, and `is_chain_valid` hashes one holding the hash `add_block` stored. The two differ. | `Blockchain()`, then `add_block(Block(1, t, log, ""))`, then `is_chain_valid()`. This returns False at index 1 for every collision-free digest. The demo's first check therefore prints "tampered with". | Hash the four content fields only, so that a chain built through the API validates and tampering is what makes it fail. | not executed; proved for every collision-free digest, SHA-256 taken as one | `Integrity.AsWrittenChainNeverValid` | `Integrity.CorrectedChainStaysValid` |

The `Blockchain` class models the code as written. Its constructor takes the
digest as a parameter, so the corrected behaviour is the same class built with
`Strip(d)`, as `Demo.CorrectedDemo` does. The corrected-digest lemmas
(`CorrectedChainStaysValid`, `CorrectedTamperDataDetected`,
`CorrectedTamperRehashDetected`) state what the source itself says it
intends: the docstring of `calculate_hash` (:20) calls it the hash of the
block's contents. The demo expects "The blockchain is valid and secure." on
the untouched chain (:117-118) and calls a valid verdict after the attack
something that "should not happen" (:128-131).

## Left out

- JSON encoding and SHA-256 are not modelled. The digest is a parameter.
  Collision resistance appears only as the premise `Injective(d)` and is never
  proved.
- The `print` calls inside `is_chain_valid` and throughout the demo are left
  out. Which message `is_chain_valid` prints is modelled by its `failure`
  out-parameter.
- The wall clock (`datetime.now()`) is left out. Timestamps are opaque strings
  passed in as parameters.
- Dictionary aliasing is not modelled. The demo changes block 1's data through
  a shared mutable dict; the model replaces the block in the sequence instead.
- `add_block` mutates the caller's `Block` object in place. The model returns
  that updated block as `added` instead of sharing an object. Adding the same
  object twice, and similar object-identity effects, are not captured.
- Payloads are strings or flat string-to-string dictionaries (all the source
  ever builds). Payloads that cannot be serialised, which would raise an error
  in `json.dumps`, are not modelled.
- `views.py` (Django request handling, the module-level chain, the wipe engine,
  template rendering) is not part of this model. The only piece used is its
  index convention, in `CallerIndexConvention`.
- `urls.py` holds routing only and is not part of this model.
- `get_latest_block` would raise `IndexError` on an empty list. The list is
  never empty (`Valid()`), and `GetLatestBlock`/`AddBlock` require it.
- Concurrency is left out. The source is single-threaded.
