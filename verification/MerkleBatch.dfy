/** The batch object, the offline verifier and the batch builder, in the stateful form
    of application/merkle.py, each proved against the functions of module Merkle. */
module MerkleBatches {
  import opened Basics
  import opened Merkle

  datatype BatchError = EmptyBatch | NotClosed | IndexOutOfRange

  lemma {:induction false} PairsOfPadded(h: Hash, level: seq<Bytes>, i: nat)
    requires |level| > 1 && 2 * i + 1 < |Padded(level)|
    ensures |Padded(level)| == 2 * |Up(h, level)|
    ensures HashPair(h, Padded(level)[2 * i], Padded(level)[2 * i + 1]) == Up(h, level)[i]
  {
    UpAt(h, level, i);
  }

  /** One step of the walk: head and tail of what remains of the levels and of the proof. */
  lemma {:induction false} WalkStep(h: Hash, all: seq<seq<Bytes>>, proof: seq<ProofStep>, k: nat, level: seq<Bytes>, idx: nat)
    requires idx < |level| && k + 1 < |all| == |proof| + 1
    requires all[k..] == Levels(h, level) && proof[k..] == ProofFor(h, level, idx)
    ensures |level| > 1 && all[k] == Padded(level)
    ensures var sibling := if idx % 2 == 1 then idx - 1 else idx + 1;
            && sibling < |all[k]|
            && proof[k] == ProofStep(all[k][sibling], if idx % 2 == 1 then Left else Right)
    ensures all[k + 1..] == Levels(h, Up(h, level)) && proof[k + 1..] == ProofFor(h, Up(h, level), idx / 2)
  {
    assert |Levels(h, level)| > 1;
    assert all[k] == all[k..][0] && all[k + 1..] == all[k..][1..];
    assert proof[k] == proof[k..][0] && proof[k + 1..] == proof[k..][1..];
  }

  /** The tree loop: pads and pairs until one node is left. */
  method BuildLevels(h: Hash, leaves: seq<Bytes>) returns (levels: seq<seq<Bytes>>, root: Bytes)
    requires leaves != []
    ensures levels == Levels(h, leaves) && root == Root(h, leaves)
  {
    var level := leaves;
    ghost var all := Levels(h, leaves);
    levels := [];
    while |level| > 1
      invariant level != [] && Root(h, level) == Root(h, leaves)
      invariant |levels| < |all| && all[..|levels|] == levels && all[|levels|..] == Levels(h, level)
      decreases |level|
    {
      ghost var below := level;
      if |level| % 2 == 1 {
        level := level + [level[|level| - 1]];
      }
      LevelsStep(h, all, levels, below);
      levels := levels + [level];
      level := PairUp(h, level, below);
    }
    levels := levels + [level];
    root := level[0];
  }

  function PairUp(h: Hash, padded: seq<Bytes>, ghost level: seq<Bytes>): (pairs: seq<Bytes>)
    requires |level| > 1 && padded == Padded(level)
    ensures pairs == Up(h, level)
  {
    var pairs := seq(|padded| / 2, i requires 0 <= i < |padded| / 2 => HashPair(h, padded[2 * i], padded[2 * i + 1]));
    assert pairs == Up(h, level) by {
      PairsOfPadded(h, level, 0);
      forall i | 0 <= i < |pairs|
        ensures pairs[i] == Up(h, level)[i]
      {
        PairsOfPadded(h, level, i);
      }
    }
    pairs
  }

  lemma {:induction false} LevelsStep(h: Hash, all: seq<seq<Bytes>>, built: seq<seq<Bytes>>, level: seq<Bytes>)
    requires |level| > 1 && |built| < |all|
    requires all[..|built|] == built && all[|built|..] == Levels(h, level)
    ensures |built| + 1 < |all|
    ensures all[..|built| + 1] == built + [Padded(level)] && all[|built| + 1..] == Levels(h, Up(h, level))
  {
    assert |Levels(h, level)| > 1;
    assert all[|built|] == all[|built|..][0] && all[|built| + 1..] == all[|built|..][1..];
  }

  /** The proof loop over the stored levels. */
  method WalkProof(h: Hash, levels: seq<seq<Bytes>>, ghost leaves: seq<Bytes>, leafIndex: nat) returns (steps: seq<ProofStep>)
    requires leafIndex < |leaves| && levels == Levels(h, leaves)
    ensures steps == ProofFor(h, leaves, leafIndex)
  {
    steps := [];
    var idx := leafIndex;
    ghost var level, proof := leaves, ProofFor(h, leaves, leafIndex);
    for k := 0 to |levels| - 1
      invariant 0 <= idx < |level| && |levels| == |proof| + 1
      invariant levels[k..] == Levels(h, level)
      invariant steps == proof[..k] && proof[k..] == ProofFor(h, level, idx)
    {
      WalkStep(h, levels, proof, k, level, idx);
      var isRight := idx % 2 == 1;
      var siblingIdx := if isRight then idx - 1 else idx + 1;
      var sibling := levels[k][siblingIdx];
      steps := steps + [ProofStep(sibling, if isRight then Left else Right)];
      level, idx := Up(h, level), idx / 2;
    }
  }

  class MerkleBatch {
    const h: Hash
    const leaves: seq<Bytes>
    var levels: seq<seq<Bytes>>

    ghost predicate Valid()
      reads this
    {
      levels == [] || (leaves != [] && levels == Levels(h, leaves))
    }

    constructor (h: Hash, leaves: seq<Bytes>)
      ensures this.h == h && this.leaves == leaves && levels == [] && Valid()
    {
      this.h, this.leaves, levels := h, leaves, [];
    }

    method Close() returns (r: Result<Bytes, BatchError>)
      requires Valid()
      modifies this`levels
      ensures Valid()
      ensures leaves == [] ==> r == Failure(EmptyBatch) && levels == old(levels)
      ensures leaves != [] ==> r == Success(Root(h, leaves)) && levels == Levels(h, leaves)
    {
      if leaves == [] {
        return Failure(EmptyBatch);
      }
      var built, root := BuildLevels(h, leaves);
      levels := built;
      return Success(root);
    }

    method ProofOf(leafIndex: int) returns (r: Result<seq<ProofStep>, BatchError>)
      requires Valid()
      ensures levels == [] ==> r == Failure(NotClosed)
      ensures levels != [] && !(0 <= leafIndex < |leaves|) ==> r == Failure(IndexOutOfRange)
      ensures levels != [] && 0 <= leafIndex < |leaves| ==>
                && r == Success(ProofFor(h, leaves, leafIndex))
                && |r.value| == Depth(|leaves|)
                && Verifies(h, leaves[leafIndex], r.value, Root(h, leaves))
    {
      if levels == [] {
        return Failure(NotClosed);
      }
      if !(0 <= leafIndex < |leaves|) {
        return Failure(IndexOutOfRange);
      }
      var steps := WalkProof(h, levels, leaves, leafIndex);
      ProofsVerify(h, leaves, leafIndex);
      return Success(steps);
    }
  }

  method VerifyInclusionProof(h: Hash, leafHash: Bytes, proof: seq<ProofStep>, expectedRoot: Bytes) returns (ok: bool)
    ensures ok <==> Verifies(h, leafHash, proof, expectedRoot)
  {
    var current := leafHash;
    for k := 0 to |proof|
      invariant Fold(h, current, proof[k..]) == Fold(h, leafHash, proof)
    {
      var step := proof[k];
      if step.position == Right {
        current := HashPair(h, current, step.sibling);
      } else {
        current := HashPair(h, step.sibling, current);
      }
      assert proof[k..][1..] == proof[k + 1..];
    }
    return current == expectedRoot;
  }

  datatype PendingLeaf = PendingLeaf(leafHash: Digest, eventId: nat, decision: Text)

  function LeafHashes(pending: seq<PendingLeaf>): (leaves: seq<Bytes>)
    ensures |leaves| == |pending| && AllDigests(leaves)
    ensures forall i :: 0 <= i < |pending| ==> leaves[i] == pending[i].leafHash
  {
    seq(|pending|, i requires 0 <= i < |pending| => pending[i].leafHash)
  }

  class MerkleBatchBuilder {
    const h: Hash
    const maxLeaves: int
    const maxSeconds: real
    var pending: seq<PendingLeaf>
    var firstLeafTs: Option<real>

    ghost predicate Valid()
      reads this
    {
      firstLeafTs.None? <==> pending == []
    }

    constructor (h: Hash, maxLeaves: int, maxSeconds: real)
      ensures this.h == h && this.maxLeaves == maxLeaves && this.maxSeconds == maxSeconds
      ensures pending == [] && Valid()
    {
      this.h, this.maxLeaves, this.maxSeconds := h, maxLeaves, maxSeconds;
      pending, firstLeafTs := [], None;
    }

    method AddLeaf(leafHash: Digest, eventId: nat, decision: Text, now: real)
      requires Valid()
      modifies this
      ensures Valid()
      ensures pending == old(pending) + [PendingLeaf(leafHash, eventId, decision)]
      ensures firstLeafTs == if old(pending) == [] then Some(now) else old(firstLeafTs)
    {
      if firstLeafTs.None? {
        firstLeafTs := Some(now);
      }
      pending := pending + [PendingLeaf(leafHash, eventId, decision)];
    }

    /** The two close triggers: enough leaves, or enough time since the first of them. */
    method ShouldClose(now: real) returns (due: bool)
      requires Valid()
      ensures due <==>
                && pending != []
                && (|pending| >= maxLeaves || (firstLeafTs.Some? && now - firstLeafTs.value >= maxSeconds))
    {
      if pending == [] {
        return false;
      }
      if |pending| >= maxLeaves {
        return true;
      }
      if firstLeafTs.Some? && now - firstLeafTs.value >= maxSeconds {
        return true;
      }
      return false;
    }

    method HasPending() returns (any: bool)
      ensures any <==> pending != []
    {
      return pending != [];
    }

    /** Drains the builder in one step; an empty builder raises and keeps its state. */
    method CloseAndReset() returns (r: Result<(MerkleBatch, Bytes, seq<PendingLeaf>), BatchError>)
      requires Valid()
      modifies this
      ensures Valid()
      ensures old(pending) == [] ==>
                r == Failure(EmptyBatch) && pending == [] && firstLeafTs == old(firstLeafTs)
      ensures old(pending) != [] ==>
                && r.Success?
                && pending == [] && firstLeafTs == None
                && r.value.2 == old(pending)
                && var batch := r.value.0;
                   && fresh(batch) && batch.Valid() && batch.h == h
                   && batch.leaves == LeafHashes(old(pending))
                   && batch.levels == Levels(h, batch.leaves)
                   && r.value.1 == Root(h, batch.leaves)
    {
      var taken := pending;
      var batch := new MerkleBatch(h, LeafHashes(taken));
      var root :- batch.Close();
      pending, firstLeafTs := [], None;
      return Success((batch, root, taken));
    }
  }
}
