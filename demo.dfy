/**
 * The module's example usage as two client methods: build a chain with two
 * wipe logs, validate it, tamper with block 1 (change its status and
 * recompute its hash in place), validate again. The clock readings are
 * parameters. One run uses the code as written, the other the corrected
 * digest over the four content fields.
 */
module Demo {
  import opened Blocks
  import opened Validation
  import opened Ledger
  import opened Integrity

  function WipeLog(logId: string, deviceId: string, wipingMethod: string, status: string, timestamp: string): Payload
  {
    Record(map["log_id" := logId, "device_id" := deviceId, "wiping_method" := wipingMethod,
               "status" := status, "timestamp" := timestamp])
  }

  /** The attack's `data["status"] = "Wipe Failed"`. */
  function MarkFailed(p: Payload): Payload
  {
    match p
    case Record(m) => Record(m["status" := "Wipe Failed"])
    case Text(_) => p
  }

  /**
   * The demo as written, under a collision-free digest: the first validation
   * already fails at block 1's hash check, and so does the one after the attack.
   */
  method AsWrittenDemo(d: Digest, t0: string, t1: string, t2: string)
    returns (before: Option<Failure>, after: Option<Failure>)
    requires Injective(d)
    ensures before == Some(HashMismatch(1))
    ensures after == Some(HashMismatch(1))
  {
    var bc := new Blockchain(d, t0);
    var genesis := bc.chain;
    var log1 := WipeLog("log_1A2B-3C4D-5E6F", "1A2B-3C4D-5E6F", "Gutmann Method", "Wipe Successful", t1);
    var block1 := NewBlock(d, 1, t1, log1, "");
    var _ := bc.AddBlock(block1);
    var log2 := WipeLog("log_7G8H-9I0J-1K2L", "7G8H-9I0J-1K2L", "DoD 5220.22-M", "Wipe Successful", t2);
    var _ := bc.AddBlock(NewBlock(d, 2, t2, log2, ""));
    AppendedBlockFailsHashCheck(d, genesis, block1);
    HashMismatchDetected(d, bc.chain, 1);
    var validBefore, f := bc.IsChainValid();
    before := f;

    var tampered := MarkFailed(bc.chain[1].data);
    assert tampered.entries["status"] != log1.entries["status"];
    AsWrittenTamperRehashDetected(d, bc.chain, genesis[0], block1, tampered);
    bc.chain := bc.chain[1 := Rehash(d, bc.chain[1].(data := tampered))];
    var validAfter, g := bc.IsChainValid();
    after := g;
  }

  /**
   * The demo with the corrected digest: the chain validates, and the attack is
   * caught by block 2's back-link.
   */
  method CorrectedDemo(d: Digest, t0: string, t1: string, t2: string)
    returns (before: bool, after: Option<Failure>)
    requires Injective(d)
    ensures before
    ensures after == Some(LinkMismatch(2))
  {
    var s := Strip(d);
    var bc := new Blockchain(s, t0);
    var log1 := WipeLog("log_1A2B-3C4D-5E6F", "1A2B-3C4D-5E6F", "Gutmann Method", "Wipe Successful", t1);
    var block1 := NewBlock(s, 1, t1, log1, "");
    IdealisedAppendPreservesValidity(s, bc.chain, block1);
    var _ := bc.AddBlock(block1);
    var log2 := WipeLog("log_7G8H-9I0J-1K2L", "7G8H-9I0J-1K2L", "DoD 5220.22-M", "Wipe Successful", t2);
    var block2 := NewBlock(s, 2, t2, log2, "");
    IdealisedAppendPreservesValidity(s, bc.chain, block2);
    var _ := bc.AddBlock(block2);
    assert ChainValid(s, bc.chain);
    var failureBefore;
    before, failureBefore := bc.IsChainValid();

    var tampered := MarkFailed(bc.chain[1].data);
    assert tampered.entries["status"] != log1.entries["status"];
    CorrectedTamperRehashDetected(d, bc.chain, tampered);
    bc.chain := bc.chain[1 := Rehash(s, bc.chain[1].(data := tampered))];
    var validAfter;
    validAfter, after := bc.IsChainValid();
  }
}
