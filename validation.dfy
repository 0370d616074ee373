/**
 * What `Blockchain.is_chain_valid` decides about a sequence of blocks.
 *
 * The scan starts at index 1 (the genesis block is never checked) and, at
 * each index, tests first the block's own hash and then its back-link,
 * stopping at the first test that fails. `FirstFailure` names that test;
 * `ChainValid` is the all-indices reading of the same verdict.
 */
module Validation {
  import opened Blocks

  /** The second check of `is_chain_valid`: block `i` links to block `i - 1`. */
  predicate LinkOk(c: seq<Block>, i: int)
    requires 1 <= i < |c|
  {
    c[i].previousHash == c[i - 1].hash
  }

  predicate BlockOk(d: Digest, c: seq<Block>, i: int)
    requires 1 <= i < |c|
  {
    HashOk(d, c[i]) && LinkOk(c, i)
  }

  /** Both checks hold at every index from 1 on. */
  predicate ChainValid(d: Digest, c: seq<Block>)
  {
    forall i :: 1 <= i < |c| ==> BlockOk(d, c, i)
  }

  /** Which check stopped the scan, and where; it selects the message printed before `return False`. */
  datatype Failure = HashMismatch(at: nat) | LinkMismatch(at: nat)

  /** The scan from index `i` on, with its early exit. */
  function FirstFailureFrom(d: Digest, c: seq<Block>, i: nat): (r: Option<Failure>)
    requires 1 <= i
    ensures r.None? <==> forall j :: i <= j < |c| ==> BlockOk(d, c, j)
    ensures r.Some? ==>
              i <= r.value.at < |c| &&
              (forall j :: i <= j < r.value.at ==> BlockOk(d, c, j)) &&
              (r.value.HashMismatch? ==> !HashOk(d, c[r.value.at])) &&
              (r.value.LinkMismatch? ==> HashOk(d, c[r.value.at]) && !LinkOk(c, r.value.at))
    decreases |c| - i
  {
    if i >= |c| then None
    else if !HashOk(d, c[i]) then assert !BlockOk(d, c, i); Some(HashMismatch(i))
    else if !LinkOk(c, i) then assert !BlockOk(d, c, i); Some(LinkMismatch(i))
    else FirstFailureFrom(d, c, i + 1)
  }

  /** The verdict of the whole scan; the early-exit scan and the all-indices reading agree. */
  function FirstFailure(d: Digest, c: seq<Block>): (r: Option<Failure>)
    ensures r.None? <==> ChainValid(d, c)
    ensures r.Some? ==> 1 <= r.value.at < |c|
  {
    FirstFailureFrom(d, c, 1)
  }

  /** A chain of one block (a freshly constructed one) is valid: the loop body never runs. */
  lemma SingleBlockValid(d: Digest, c: seq<Block>)
    requires |c| <= 1
    ensures ChainValid(d, c) && FirstFailure(d, c) == None
  {
  }

  /** A broken back-link anywhere makes the chain invalid; the scan stops there or earlier. */
  lemma LinkMismatchDetected(d: Digest, c: seq<Block>, i: nat)
    requires 1 <= i < |c| && !LinkOk(c, i)
    ensures !ChainValid(d, c)
    ensures FirstFailure(d, c).Some? && FirstFailure(d, c).value.at <= i
  {
    assert !BlockOk(d, c, i);
  }

  /** A stale hash anywhere makes the chain invalid; the scan stops there or earlier, and at
      that index it reports the hash check, which is evaluated first. */
  lemma HashMismatchDetected(d: Digest, c: seq<Block>, i: nat)
    requires 1 <= i < |c| && !HashOk(d, c[i])
    ensures !ChainValid(d, c)
    ensures FirstFailure(d, c).Some? && FirstFailure(d, c).value.at <= i
    ensures FirstFailure(d, c).value.at == i ==> FirstFailure(d, c).value.HashMismatch?
  {
    assert !BlockOk(d, c, i);
  }
}
