/**
 * What appending and tampering do to the verdict of `is_chain_valid`.
 *
 * Two digests matter. The code as written recomputes a block's hash over a
 * dictionary that holds its current `hash`; under a collision-free digest
 * that recomputation never reproduces a hash set by the constructor or by
 * `add_block`, so every chain of two or more blocks is reported invalid.
 * The idealised digests of `IgnoresHashKey` (among them `Strip(d)`, the
 * digest of the four content fields, which is what a `calculate_hash` that
 * leaves out its own `hash` key computes) make the chain validate after every
 * append and make the two tamper scenarios of the demo detectable.
 */
module Integrity {
  import opened Blocks
  import opened Validation
  import opened Ledger

  /** The chain left by a run of `add_block` calls, one per block of `bs`, in order. */
  function AppendAll(d: Digest, c: seq<Block>, bs: seq<Block>): (r: seq<Block>)
    requires |c| >= 1
    ensures |r| == |c| + |bs|
    ensures r[..|c|] == c
    decreases |bs|
  {
    if bs == [] then c
    else
      var next := c + [Linked(d, Tail(c), bs[0])];
      assert next[..|c|] == c;
      AppendAll(d, next, bs[1..])
  }

  /** Validity of a chain extended by one block splits into the old chain and the new last index. */
  lemma ChainValidSnoc(d: Digest, c: seq<Block>, b: Block)
    requires |c| >= 1
    ensures ChainValid(d, c + [b]) <==> ChainValid(d, c) && HashOk(d, b) && b.previousHash == Tail(c).hash
  {
    var e := c + [b];
    assert forall i :: 0 <= i < |c| ==> e[i] == c[i];
    if ChainValid(d, e) {
      forall i | 1 <= i < |c|
        ensures BlockOk(d, c, i)
      {
        assert BlockOk(d, e, i);
      }
      assert BlockOk(d, e, |c|);
    }
    if ChainValid(d, c) && HashOk(d, b) && b.previousHash == Tail(c).hash {
      forall i | 1 <= i < |e|
        ensures BlockOk(d, e, i)
      {
        if i < |c| {
          assert BlockOk(d, c, i);
        }
      }
    }
  }

  /**
   * As written, `add_block` always gets the back-link right, and the extended
   * chain validates exactly when the recomputed hash of the appended block is a
   * fixed point of the digest.
   */
  lemma AppendValidIff(d: Digest, c: seq<Block>, newBlock: Block)
    requires |c| >= 1 && ChainValid(d, c)
    ensures LinkOk(c + [Linked(d, Tail(c), newBlock)], |c|)
    ensures ChainValid(d, c + [Linked(d, Tail(c), newBlock)]) <==> HashOk(d, Linked(d, Tail(c), newBlock))
  {
    ChainValidSnoc(d, c, Linked(d, Tail(c), newBlock));
  }

  /**
   * As written, under a collision-free digest, a block built by the constructor
   * and appended by `add_block` fails its own hash check, and the scan of an
   * otherwise valid chain stops at it.
   */
  lemma AppendedBlockFailsHashCheck(d: Digest, c: seq<Block>, newBlock: Block)
    requires Injective(d) && |c| >= 1 && Constructed(d, newBlock)
    ensures !HashOk(d, Linked(d, Tail(c), newBlock))
    ensures !ChainValid(d, c + [Linked(d, Tail(c), newBlock)])
    ensures ChainValid(d, c) ==> FirstFailure(d, c + [Linked(d, Tail(c), newBlock)]) == Some(HashMismatch(|c|))
  {
    var l := Linked(d, Tail(c), newBlock);
    var e := c + [l];
    HashMismatchDetected(d, e, |c|);
    if ChainValid(d, c) {
      forall j | 1 <= j < |c|
        ensures BlockOk(d, e, j)
      {
        assert e[j] == c[j] && e[j - 1] == c[j - 1];
        assert BlockOk(d, c, j);
      }
      var f := FirstFailure(d, e);
      assert !BlockOk(d, e, f.value.at);
      assert f.value.at == |c|;
    }
  }

  /**
   * As written, the chain that the constructor and any non-empty run of
   * `add_block` calls on constructed blocks produce is invalid under a
   * collision-free digest: the scan reports a stale hash at index 1.
   */
  lemma AsWrittenChainNeverValid(d: Digest, now: string, bs: seq<Block>)
    requires Injective(d) && |bs| >= 1 && Constructed(d, bs[0])
    ensures !ChainValid(d, AppendAll(d, [Genesis(d, now)], bs))
    ensures FirstFailure(d, AppendAll(d, [Genesis(d, now)], bs)) == Some(HashMismatch(1))
  {
    var g := [Genesis(d, now)];
    var r := AppendAll(d, g, bs);
    var first := g + [Linked(d, Tail(g), bs[0])];
    assert r == AppendAll(d, first, bs[1..]);
    assert r[..2] == first;
    assert r[1] == first[1];
    AppendedBlockFailsHashCheck(d, g, bs[0]);
    HashMismatchDetected(d, r, 1);
  }

  /** Under an idealised digest that ignores the `hash` key, `add_block` keeps a valid chain valid. */
  lemma IdealisedAppendPreservesValidity(d: Digest, c: seq<Block>, newBlock: Block)
    requires IgnoresHashKey(d) && |c| >= 1 && ChainValid(d, c)
    ensures ChainValid(d, c + [Linked(d, Tail(c), newBlock)])
  {
    var l := Linked(d, Tail(c), newBlock);
    IdealisedRecalculation(d, l);
    assert l.hash == d(FieldsOf(l, None));
    ChainValidSnoc(d, c, l);
  }

  /** Under an idealised digest, validity holds after every append of a run of appends. */
  lemma {:induction false} IdealisedAppendsPreserveValidity(d: Digest, c: seq<Block>, bs: seq<Block>)
    requires IgnoresHashKey(d) && |c| >= 1 && ChainValid(d, c)
    ensures ChainValid(d, AppendAll(d, c, bs))
    decreases |bs|
  {
    if bs != [] {
      var next := c + [Linked(d, Tail(c), bs[0])];
      IdealisedAppendPreservesValidity(d, c, bs[0]);
      IdealisedAppendsPreserveValidity(d, next, bs[1..]);
    }
  }

  /**
   * Corrected behaviour: with `calculate_hash` over the four content fields
   * only, the constructor's chain stays valid through any run of `add_block` calls.
   */
  lemma CorrectedChainStaysValid(d: Digest, now: string, bs: seq<Block>)
    ensures ChainValid(Strip(d), AppendAll(Strip(d), [Genesis(Strip(d), now)], bs))
  {
    IdealisedAppendsPreserveValidity(Strip(d), [Genesis(Strip(d), now)], bs);
  }

  /**
   * Corrected behaviour, tampering without recomputation: changing block 1's
   * data in a valid chain is caught by the hash check at index 1.
   */
  lemma CorrectedTamperDataDetected(d: Digest, c: seq<Block>, newData: Payload)
    requires Injective(d) && |c| >= 2 && ChainValid(Strip(d), c) && newData != c[1].data
    ensures FirstFailure(Strip(d), c[1 := c[1].(data := newData)]) == Some(HashMismatch(1))
  {
    var s := Strip(d);
    var t := c[1 := c[1].(data := newData)];
    assert BlockOk(s, c, 1);
  }

  /**
   * Corrected behaviour, the demo's attack: changing block 1's data and
   * recomputing its hash passes the checks at index 1 and is caught by the
   * back-link check at index 2.
   */
  lemma CorrectedTamperRehashDetected(d: Digest, c: seq<Block>, newData: Payload)
    requires Injective(d) && |c| >= 3 && ChainValid(Strip(d), c) && newData != c[1].data
    ensures FirstFailure(Strip(d), c[1 := Rehash(Strip(d), c[1].(data := newData))]) == Some(LinkMismatch(2))
  {
    var s := Strip(d);
    var b := Rehash(s, c[1].(data := newData));
    var t := c[1 := b];
    assert BlockOk(s, c, 1) && BlockOk(s, c, 2);
    assert HashOk(s, t[1]) && LinkOk(t, 1);
    assert HashOk(s, t[2]);
    assert FirstFailureFrom(s, t, 1) == FirstFailureFrom(s, t, 2);
  }

  /**
   * As written, the demo's attack on a block that `add_block` appended breaks
   * block 2's back-link under a collision-free digest; the scan still stops
   * earlier, at the stale hash of block 1.
   */
  lemma AsWrittenTamperRehashDetected(d: Digest, c: seq<Block>, tail: Block, newBlock: Block, newData: Payload)
    requires Injective(d) && |c| >= 3 && c[1] == Linked(d, tail, newBlock) && LinkOk(c, 2)
    requires newData != c[1].data
    ensures !LinkOk(c[1 := Rehash(d, c[1].(data := newData))], 2)
    ensures FirstFailure(d, c[1 := Rehash(d, c[1].(data := newData))]) == Some(HashMismatch(1))
  {
  }

  /** The index convention of the web caller: block `i` carries `index == i`. */
  predicate IndexedByPosition(c: seq<Block>)
  {
    forall i :: 0 <= i < |c| ==> c[i].index == i
  }

  /**
   * `add_block` keeps the caller's index, so the convention survives an append
   * exactly when the caller passes `len(chain)`; the genesis chain starts it.
   */
  lemma CallerIndexConvention(d: Digest, now: string, c: seq<Block>, newBlock: Block)
    requires |c| >= 1 && IndexedByPosition(c)
    ensures IndexedByPosition(c + [Linked(d, Tail(c), newBlock)]) <==> newBlock.index == |c|
    ensures IndexedByPosition([Genesis(d, now)])
  {
    var e := c + [Linked(d, Tail(c), newBlock)];
    assert e[|c|].index == newBlock.index;
  }
}
