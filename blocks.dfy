/**
 * A block of the wipe-log chain and the digest it carries.
 *
 * The source digests `json.dumps(self.__dict__, sort_keys=True)` with SHA-256.
 * Because the keys are sorted, the bytes depend only on the values of the
 * attributes present at call time, so the digest is modelled as a function of
 * a `HashInput`: the four content fields plus the `hash` attribute, which is
 * absent while the constructor runs and present on every later call.
 * The digest itself is a parameter `d`; nothing about SHA-256 is assumed except
 * where a lemma states `Injective(d)` (collision freedom) as a premise.
 */
module Blocks {

  datatype Option<+T> = None | Some(value: T)

  /** A block's `data`: a plain string (the genesis block) or a dictionary of strings (a wipe log). */
  datatype Payload = Text(text: string) | Record(entries: map<string, string>)

  /** The attribute dictionary that `calculate_hash` serialises. */
  datatype HashInput = HashInput(
    index: int,
    timestamp: string,
    data: Payload,
    previousHash: string,
    hash: Option<string>)

  datatype Block = Block(
    index: int,
    timestamp: string,
    data: Payload,
    previousHash: string,
    hash: string)

  /** SHA-256 over the canonical JSON text, rendered as lowercase hex. */
  type Digest = HashInput -> string

  /** The dictionary of `b`'s content fields, with the `hash` key as given. */
  function FieldsOf(b: Block, hashKey: Option<string>): HashInput
  {
    HashInput(b.index, b.timestamp, b.data, b.previousHash, hashKey)
  }

  /** `Block.__init__`: the hash is taken before the `hash` attribute exists. */
  function NewBlock(d: Digest, index: int, timestamp: string, data: Payload, previousHash: string): (b: Block)
    ensures b.index == index && b.timestamp == timestamp && b.data == data
    ensures b.previousHash == previousHash
    ensures Constructed(d, b)
  {
    Block(index, timestamp, data, previousHash, d(HashInput(index, timestamp, data, previousHash, None)))
  }

  /** `b` carries the hash its constructor computed, over the four fields without a `hash` key. */
  predicate Constructed(d: Digest, b: Block)
  {
    b.hash == d(FieldsOf(b, None))
  }

  /** `Block.calculate_hash` on a constructed block: the current `hash` is part of the input. */
  function CalculateHash(d: Digest, b: Block): string
  {
    d(FieldsOf(b, Some(b.hash)))
  }

  /**
   * `block.hash = block.calculate_hash()`: the stored hash replaced by a
   * recomputation over the current attributes, the old hash among them.
   */
  function Rehash(d: Digest, b: Block): (r: Block)
    ensures r.index == b.index && r.timestamp == b.timestamp && r.data == b.data
    ensures r.previousHash == b.previousHash
    ensures r.hash == d(FieldsOf(b, Some(b.hash)))
    ensures IgnoresHashKey(d) ==> HashOk(d, r)
  {
    b.(hash := CalculateHash(d, b))
  }

  /** The first check of `is_chain_valid`: the stored hash equals a recomputation. */
  predicate HashOk(d: Digest, b: Block)
    ensures IgnoresHashKey(d) ==> (HashOk(d, b) <==> Constructed(d, b))
  {
    b.hash == CalculateHash(d, b)
  }

  /** Collision freedom of the digest, the idealisation of SHA-256's collision resistance. */
  ghost predicate Injective(d: Digest)
  {
    forall x, y :: d(x) == d(y) ==> x == y
  }

  /** A digest on which the presence and value of the `hash` key make no difference. */
  ghost predicate IgnoresHashKey(d: Digest)
  {
    forall i, t, p, ph, h :: d(HashInput(i, t, p, ph, Some(h))) == d(HashInput(i, t, p, ph, None))
  }

  /**
   * The digest a corrected `calculate_hash` computes: the given digest applied to
   * the dictionary with the `hash` key removed, that is, to the four content fields.
   */
  function Strip(d: Digest): (s: Digest)
    ensures IgnoresHashKey(s)
    ensures forall b :: CalculateHash(s, b) == d(FieldsOf(b, None))
    ensures forall b :: Constructed(s, b) <==> Constructed(d, b)
  {
    (x: HashInput) => d(x.(hash := None))
  }

  /** Under an idealised digest, recomputing a block's hash no longer depends on its stored hash. */
  lemma IdealisedRecalculation(d: Digest, b: Block)
    requires IgnoresHashKey(d)
    ensures CalculateHash(d, b) == d(FieldsOf(b, None))
  {
    assert FieldsOf(b, Some(b.hash)) == HashInput(b.index, b.timestamp, b.data, b.previousHash, Some(b.hash));
  }

  /** Under collision freedom the recomputed hash commits to all five attributes, the stored hash included. */
  lemma CalculateHashCommits(d: Digest, a: Block, b: Block)
    requires Injective(d)
    requires CalculateHash(d, a) == CalculateHash(d, b)
    ensures a == b
  {
    assert FieldsOf(a, Some(a.hash)) == FieldsOf(b, Some(b.hash));
  }

  /**
   * As written, a freshly constructed block never passes the recomputation
   * check under a collision-free digest: the constructor hashed a dictionary
   * without the `hash` key, every recomputation hashes one with it.
   */
  lemma ConstructedFailsRecalculation(d: Digest, b: Block)
    requires Injective(d) && Constructed(d, b)
    ensures !HashOk(d, b)
  {
  }
}
