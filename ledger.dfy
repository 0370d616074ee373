/**
 * `Blockchain`: the list of blocks, seeded with a genesis block, appended to by
 * `add_block` and scanned by `is_chain_valid`.
 *
 * The clock read by `create_genesis_block` is the constructor parameter `now`;
 * the digest is the constructor parameter `digest`.
 */
module Ledger {
  import opened Blocks
  import opened Validation

  const GenesisData: Payload := Text("Genesis Block")
  const GenesisPreviousHash: string := "0"

  /** The block `create_genesis_block` builds from the clock reading `now`. */
  function Genesis(d: Digest, now: string): (g: Block)
    ensures g.index == 0 && g.timestamp == now
    ensures g.data == Text("Genesis Block") && g.previousHash == "0"
    ensures Constructed(d, g)
  {
    NewBlock(d, 0, now, GenesisData, GenesisPreviousHash)
  }

  /** The last block of a non-empty chain. */
  function Tail(c: seq<Block>): Block
    requires |c| >= 1
  {
    c[|c| - 1]
  }

  /**
   * The block that `add_block` appends: the caller's block with its link
   * overwritten by the tail's hash, and then its hash overwritten by a
   * recomputation over a dictionary that still holds the caller's stale hash.
   */
  function Linked(d: Digest, tail: Block, newBlock: Block): (l: Block)
    ensures l.index == newBlock.index && l.timestamp == newBlock.timestamp && l.data == newBlock.data
    ensures l.previousHash == tail.hash
    ensures l.hash == d(FieldsOf(l, Some(newBlock.hash)))
  {
    Rehash(d, newBlock.(previousHash := tail.hash))
  }

  class Blockchain {
    const digest: Digest
    var chain: seq<Block>

    /** The chain is never empty: the constructor seeds it and `AddBlock` only appends. */
    ghost predicate Valid()
      reads this
    {
      |chain| >= 1
    }

    constructor (digest: Digest, now: string)
      ensures Valid() && this.digest == digest
      ensures chain == [Genesis(digest, now)]
      ensures chain[0].index == 0 && chain[0].timestamp == now
      ensures chain[0].data == Text("Genesis Block") && chain[0].previousHash == "0"
      ensures chain[0].hash == digest(HashInput(0, now, Text("Genesis Block"), "0", None))
      ensures ChainValid(digest, chain) && FirstFailure(digest, chain) == None
    {
      this.digest := digest;
      chain := [];
      new;
      CreateGenesisBlock(now);
    }

    method CreateGenesisBlock(now: string)
      modifies this
      ensures chain == old(chain) + [Genesis(digest, now)]
    {
      chain := chain + [NewBlock(digest, 0, now, GenesisData, GenesisPreviousHash)];
    }

    method GetLatestBlock() returns (latest: Block)
      requires Valid()
      ensures latest == chain[|chain| - 1]
    {
      latest := chain[|chain| - 1];
    }

    /**
     * `add_block`. The out-parameter is the caller's block as the source leaves
     * it after the call (its `previous_hash` and `hash` were overwritten in place).
     * The index is not assigned here: it is whatever the caller put in.
     */
    method AddBlock(newBlock: Block) returns (added: Block)
      requires Valid()
      modifies this
      ensures Valid()
      ensures chain == old(chain) + [added]
      ensures |chain| == |old(chain)| + 1 && chain[..|old(chain)|] == old(chain)
      ensures added == Linked(digest, Tail(old(chain)), newBlock)
      ensures added.previousHash == Tail(old(chain)).hash
      ensures added.index == newBlock.index && added.timestamp == newBlock.timestamp && added.data == newBlock.data
      ensures added.hash == CalculateHash(digest, newBlock.(previousHash := Tail(old(chain)).hash))
    {
      var latest := GetLatestBlock();
      added := Rehash(digest, newBlock.(previousHash := latest.hash));
      chain := chain + [added];
    }

    /**
     * `is_chain_valid`. It has no modifies clause: it changes neither the chain
     * nor any block. `failure` stands for the message printed before the early
     * `return False`.
     */
    method IsChainValid() returns (valid: bool, failure: Option<Failure>)
      ensures failure == FirstFailure(digest, chain)
      ensures valid <==> failure == None
      ensures valid <==> ChainValid(digest, chain)
    {
      var i := 1;
      while i < |chain|
        invariant 1 <= i
        invariant forall j :: 1 <= j < i && j < |chain| ==> BlockOk(digest, chain, j)
        invariant FirstFailureFrom(digest, chain, i) == FirstFailure(digest, chain)
      {
        var current := chain[i];
        var previous := chain[i - 1];
        if current.hash != CalculateHash(digest, current) {
          return false, Some(HashMismatch(i));
        }
        if current.previousHash != previous.hash {
          return false, Some(LinkMismatch(i));
        }
        i := i + 1;
      }
      return true, None;
    }
  }
}
