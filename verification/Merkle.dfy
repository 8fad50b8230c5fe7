/** The Merkle tree over a closed batch: levels, inclusion proofs and their verification,
    as pure functions, with completeness, soundness and binding. */
module Merkle {
  import opened Basics

  /** Where the sibling sits. The verifier treats every string but "RIGHT" as LEFT. */
  datatype Position = Left | Right

  datatype ProofStep = ProofStep(sibling: Bytes, position: Position)

  function HashPair(h: Hash, left: Bytes, right: Bytes): Digest {
    h(left + right)
  }

  // ---- Building the tree ----------------------------------------------------

  function Min(a: int, b: int): int {
    if a <= b then a else b
  }

  /** Node i of a level; the position just past the end repeats the last node. */
  function Node(level: seq<Bytes>, i: nat): Bytes
    requires level != []
  {
    level[Min(i, |level| - 1)]
  }

  /** A level made even by repeating its last node. */
  function Padded(level: seq<Bytes>): seq<Bytes>
    requires level != []
  {
    if |level| % 2 == 1 then level + [level[|level| - 1]] else level
  }

  function Parent(h: Hash, level: seq<Bytes>, i: nat): Digest
    requires level != []
  {
    HashPair(h, Node(level, 2 * i), Node(level, 2 * i + 1))
  }

  /** The level above. */
  function Up(h: Hash, level: seq<Bytes>): (up: seq<Bytes>)
    requires level != []
    ensures |up| == (|level| + 1) / 2
  {
    ParentsFrom(h, level, 0)
  }

  function ParentsFrom(h: Hash, level: seq<Bytes>, i: nat): (parents: seq<Bytes>)
    requires level != [] && i <= (|level| + 1) / 2
    ensures |parents| == (|level| + 1) / 2 - i
    decreases |level| - i
  {
    if i == (|level| + 1) / 2 then [] else [Parent(h, level, i)] + ParentsFrom(h, level, i + 1)
  }

  lemma {:induction false} ParentsFromAt(h: Hash, level: seq<Bytes>, i: nat, k: nat)
    requires level != [] && i <= k < (|level| + 1) / 2
    ensures ParentsFrom(h, level, i)[k - i] == Parent(h, level, k)
    decreases k - i
  {
    if i < k {
      ParentsFromAt(h, level, i + 1, k);
    }
  }

  lemma {:induction false} UpAt(h: Hash, level: seq<Bytes>, k: nat)
    requires level != [] && k < (|level| + 1) / 2
    ensures Up(h, level)[k] == Parent(h, level, k)
  {
    ParentsFromAt(h, level, 0, k);
  }

  lemma {:induction false} UpIsDigests(h: Hash, level: seq<Bytes>)
    requires level != []
    ensures AllDigests(Up(h, level))
  {
    forall k | 0 <= k < |Up(h, level)|
      ensures |Up(h, level)[k]| == 32
    {
      UpAt(h, level, k);
    }
  }

  ghost predicate AllDigests(level: seq<Bytes>) {
    forall i :: 0 <= i < |level| ==> |level[i]| == 32
  }

  /** The padded levels, leaves first, ending with the unpadded root level. */
  function Levels(h: Hash, level: seq<Bytes>): (levels: seq<seq<Bytes>>)
    requires level != []
    ensures |levels| == Depth(|level|) + 1
    decreases |level|
  {
    if |level| == 1 then [level] else [Padded(level)] + Levels(h, Up(h, level))
  }

  function Root(h: Hash, level: seq<Bytes>): Bytes
    requires level != []
    decreases |level|
  {
    if |level| == 1 then level[0] else Root(h, Up(h, level))
  }

  function Depth(n: nat): nat {
    if n <= 1 then 0 else 1 + Depth((n + 1) / 2)
  }

  function Pow2(k: nat): (p: nat)
    ensures p >= 1
  {
    if k == 0 then 1 else 2 * Pow2(k - 1)
  }

  /** The depth is the least k with 2^k >= n. */
  lemma {:induction false} DepthIsCeilLog2(n: nat)
    requires n >= 1
    ensures n <= Pow2(Depth(n))
    ensures forall k: nat :: n <= Pow2(k) ==> Depth(n) <= k
  {
    if n > 1 {
      DepthIsCeilLog2((n + 1) / 2);
      forall k: nat | n <= Pow2(k)
        ensures Depth(n) <= k
      {
        assert k >= 1 && (n + 1) / 2 <= Pow2(k - 1);
      }
    }
  }

  // ---- Proofs -----------------------------------------------------------------

  /** The proof for a real leaf: at each level the neighbour of the walking index. */
  function ProofFor(h: Hash, level: seq<Bytes>, i: nat): (proof: seq<ProofStep>)
    requires i < |level|
    ensures |proof| == Depth(|level|)
    decreases |level|
  {
    if |level| == 1 then []
    else
      var sibling := if i % 2 == 1 then i - 1 else i + 1;
      [ProofStep(Node(level, sibling), if i % 2 == 1 then Left else Right)]
      + ProofFor(h, Up(h, level), i / 2)
  }

  /** The bytes hashed when `current` is combined with a step. */
  function Joined(current: Bytes, step: ProofStep): Bytes {
    if step.position.Right? then current + step.sibling else step.sibling + current
  }

  function Fold(h: Hash, current: Bytes, proof: seq<ProofStep>): Bytes
    decreases |proof|
  {
    if proof == [] then current else Fold(h, h(Joined(current, proof[0])), proof[1..])
  }

  predicate Verifies(h: Hash, leaf: Bytes, proof: seq<ProofStep>, root: Bytes) {
    Fold(h, leaf, proof) == root
  }

  /** Completeness: the proof of every leaf of every batch verifies against its root. */
  lemma {:induction false} ProofsVerify(h: Hash, leaves: seq<Bytes>, i: nat)
    requires i < |leaves|
    ensures Verifies(h, leaves[i], ProofFor(h, leaves, i), Root(h, leaves))
    decreases |leaves|
  {
    if |leaves| > 1 {
      var up, proof := Up(h, leaves), ProofFor(h, leaves, i);
      UpAt(h, leaves, i / 2);
      assert h(Joined(leaves[i], proof[0])) == up[i / 2];
      assert proof[1..] == ProofFor(h, up, i / 2);
      ProofsVerify(h, up, i / 2);
    }
  }

  /** The smallest trees in full: inner nodes hash the plain concatenation, an odd node is paired with itself. */
  lemma {:induction false} SmallRoots(h: Hash, a: Bytes, b: Bytes, c: Bytes)
    ensures Root(h, [a]) == a && Root(h, [a, b]) == h(a + b) && Root(h, [a, b, c]) == h(h(a + b) + h(c + c))
  {
    UpAt(h, [a, b], 0);
    UpAt(h, [a, b, c], 0);
    UpAt(h, [a, b, c], 1);
    var two: seq<Bytes> := [h(a + b), h(c + c)];
    UpAt(h, two, 0);
    hide Up;
    assert Up(h, [a, b]) == [h(a + b)];
    assert Up(h, [a, b, c]) == two;
    assert Up(h, two) == [h(h(a + b) + h(c + c))];
    assert Root(h, two) == Root(h, Up(h, two));
  }

  // ---- Soundness ----------------------------------------------------------------

  function Bit(step: ProofStep): nat {
    if step.position.Left? then 1 else 0
  }

  /** The leaf picked by a proof's LEFT/RIGHT pattern: read top-down, clamped at each width. */
  function Picked(n: nat, proof: seq<ProofStep>): (i: nat)
    requires n >= 1
    ensures i < n
    decreases |proof|
  {
    if n == 1 || proof == [] then 0
    else Min(2 * Picked((n + 1) / 2, proof[1..]) + Bit(proof[0]), n - 1)
  }

  /** x is the picked leaf and every sibling in the proof is the tree's own node. */
  predicate IsTreeProof(h: Hash, leaves: seq<Bytes>, x: Bytes, proof: seq<ProofStep>)
    requires leaves != []
    decreases |proof|
  {
    if |leaves| == 1 || proof == [] then x == leaves[0] && proof == [] && |leaves| == 1
    else
      var up := Up(h, leaves);
      var c := Picked(|up|, proof[1..]);
      && IsTreeProof(h, up, up[c], proof[1..])
      && x == Node(leaves, 2 * c + Bit(proof[0]))
      && proof[0].sibling == Node(leaves, 2 * c + 1 - Bit(proof[0]))
  }

  /** The pair of preimages extracted from a verifying proof that is not a tree proof. */
  function ForgeryCollision(h: Hash, leaves: seq<Bytes>, x: Bytes, proof: seq<ProofStep>): (Bytes, Bytes)
    requires leaves != []
    decreases |proof|
  {
    if |leaves| == 1 || proof == [] then ([], [])
    else
      var up, above, rest := Up(h, leaves), h(Joined(x, proof[0])), proof[1..];
      if IsTreeProof(h, up, above, rest) then
        var c := Picked(|up|, rest);
        (Joined(x, proof[0]), Node(leaves, 2 * c) + Node(leaves, 2 * c + 1))
      else
        ForgeryCollision(h, up, above, rest)
  }

  /** Soundness: a 32-byte value verifying with a proof of full depth is the leaf that the
      proof's pattern picks, and the proof is the tree's own; or a collision is computed. */
  lemma {:induction false} Soundness(h: Hash, leaves: seq<Bytes>, x: Bytes, proof: seq<ProofStep>)
    requires leaves != [] && AllDigests(leaves) && |x| == 32
    requires |proof| == Depth(|leaves|)
    requires Verifies(h, x, proof, Root(h, leaves))
    ensures || (IsTreeProof(h, leaves, x, proof) && x == leaves[Picked(|leaves|, proof)])
            || var c := ForgeryCollision(h, leaves, x, proof); Collides(h, c.0, c.1)
    decreases |leaves|
  {
    if |leaves| > 1 {
      var up, above, rest := Up(h, leaves), h(Joined(x, proof[0])), proof[1..];
      UpIsDigests(h, leaves);
      Soundness(h, up, above, rest);
      if IsTreeProof(h, up, above, rest) {
        TreeProofLeaf(h, up, above, rest);
        UpAt(h, leaves, Picked(|up|, rest));
        SoundnessStep(h, leaves, x, proof, Picked(|up|, rest));
      }
    }
  }

  /** One level down: the same hash comes from the same pair of nodes, or from a collision. */
  lemma {:induction false} SoundnessStep(h: Hash, leaves: seq<Bytes>, x: Bytes, proof: seq<ProofStep>, c: nat)
    requires |leaves| > 1 && AllDigests(leaves) && |x| == 32 && proof != []
    requires c == Picked(|Up(h, leaves)|, proof[1..])
    requires IsTreeProof(h, Up(h, leaves), Up(h, leaves)[c], proof[1..])
    requires h(Joined(x, proof[0])) == Parent(h, leaves, c)
    ensures || (IsTreeProof(h, leaves, x, proof) && x == leaves[Picked(|leaves|, proof)])
            || Collides(h, Joined(x, proof[0]), Node(leaves, 2 * c) + Node(leaves, 2 * c + 1))
  {
    hide Up;
    var left, right := Node(leaves, 2 * c), Node(leaves, 2 * c + 1);
    if Joined(x, proof[0]) == left + right {
      SplitJoined(x, proof[0], left, right);
    }
  }

  lemma {:induction false} TreeProofLeaf(h: Hash, leaves: seq<Bytes>, x: Bytes, proof: seq<ProofStep>)
    requires leaves != [] && IsTreeProof(h, leaves, x, proof)
    ensures x == leaves[Picked(|leaves|, proof)]
  {
  }

  lemma {:induction false} TreeProofLength(h: Hash, leaves: seq<Bytes>, x: Bytes, proof: seq<ProofStep>)
    requires leaves != [] && IsTreeProof(h, leaves, x, proof)
    ensures |proof| == Depth(|leaves|)
    decreases |proof|
  {
    if |leaves| > 1 {
      var up := Up(h, leaves);
      TreeProofLength(h, up, up[Picked(|up|, proof[1..])], proof[1..]);
    }
  }

  lemma SplitJoined(x: Bytes, step: ProofStep, left: Bytes, right: Bytes)
    requires |x| == |left| == |right| == 32
    requires Joined(x, step) == left + right
    ensures step.position.Right? ==> x == left && step.sibling == right
    ensures step.position.Left? ==> x == right && step.sibling == left
  {
    var joined := Joined(x, step);
    assert left == joined[..32] && right == joined[32..];
    if step.position.Right? {
      assert x == joined[..32] && step.sibling == joined[32..];
    } else {
      assert |step.sibling| == 32;
      assert step.sibling == joined[..32] && x == joined[32..];
    }
  }

  /** Conversely every tree proof verifies, at padding positions too. */
  lemma {:induction false} TreeProofsVerify(h: Hash, leaves: seq<Bytes>, x: Bytes, proof: seq<ProofStep>)
    requires leaves != [] && IsTreeProof(h, leaves, x, proof)
    ensures Verifies(h, x, proof, Root(h, leaves))
    decreases |proof|
  {
    if |leaves| > 1 {
      var up := Up(h, leaves);
      var c := Picked(|up|, proof[1..]);
      UpAt(h, leaves, c);
      TreeProofsVerify(h, up, up[c], proof[1..]);
    }
  }

  /** The position spelled by a proof's pattern, lowest step first. */
  function PathIndex(proof: seq<ProofStep>): nat {
    if proof == [] then 0 else 2 * PathIndex(proof[1..]) + Bit(proof[0])
  }

  /** Every issued proof is a tree proof for its own position. */
  lemma {:induction false} IssuedIsTreeProof(h: Hash, leaves: seq<Bytes>, i: nat)
    requires i < |leaves|
    ensures PathIndex(ProofFor(h, leaves, i)) == Picked(|leaves|, ProofFor(h, leaves, i)) == i
    ensures IsTreeProof(h, leaves, leaves[i], ProofFor(h, leaves, i))
    decreases |leaves|
  {
    hide Up, Node;
    if |leaves| > 1 {
      var c, bit := i / 2, i % 2;
      IssuedIsTreeProof(h, Up(h, leaves), c);
      IssuedStep(h, leaves, c, bit, ProofFor(h, leaves, i), ProofFor(h, Up(h, leaves), c));
    }
  }

  lemma {:induction false} IssuedStep(h: Hash, leaves: seq<Bytes>, c: nat, bit: nat, proof: seq<ProofStep>, rest: seq<ProofStep>)
    requires |leaves| > 1 && bit <= 1 && 2 * c + bit < |leaves|
    requires proof == [ProofStep(Node(leaves, 2 * c + 1 - bit), if bit == 1 then Left else Right)] + rest
    requires PathIndex(rest) == Picked(|Up(h, leaves)|, rest) == c
    requires IsTreeProof(h, Up(h, leaves), Up(h, leaves)[c], rest)
    ensures PathIndex(proof) == Picked(|leaves|, proof) == 2 * c + bit
    ensures IsTreeProof(h, leaves, leaves[2 * c + bit], proof)
  {
    hide Up;
    assert proof[1..] == rest;
  }

  /** Tree proofs with one pattern are one proof. */
  lemma {:induction false} TreeProofIsUnique(h: Hash, leaves: seq<Bytes>, x: Bytes, p: seq<ProofStep>, y: Bytes, q: seq<ProofStep>)
    requires leaves != [] && |p| == |q|
    requires IsTreeProof(h, leaves, x, p) && IsTreeProof(h, leaves, y, q) && PathIndex(p) == PathIndex(q)
    ensures x == y && p == q
    decreases |p|
  {
    hide Up;
    if |leaves| > 1 {
      var up := Up(h, leaves);
      assert Bit(p[0]) == Bit(q[0]) && PathIndex(p[1..]) == PathIndex(q[1..]);
      TreeProofIsUnique(h, up, up[Picked(|up|, p[1..])], p[1..], up[Picked(|up|, q[1..])], q[1..]);
      HeadAndTail(p, q);
    }
  }

  /** So a tree proof whose pattern spells a real position is the very proof issued for it. */
  lemma {:induction false} TreeProofIsIssued(h: Hash, leaves: seq<Bytes>, x: Bytes, proof: seq<ProofStep>)
    requires leaves != [] && IsTreeProof(h, leaves, x, proof) && PathIndex(proof) < |leaves|
    ensures proof == ProofFor(h, leaves, PathIndex(proof)) && x == leaves[PathIndex(proof)]
  {
    var i := PathIndex(proof);
    TreeProofLength(h, leaves, x, proof);
    IssuedIsTreeProof(h, leaves, i);
    TreeProofIsUnique(h, leaves, x, proof, leaves[i], ProofFor(h, leaves, i));
  }

  lemma HeadAndTail<T>(s: seq<T>, t: seq<T>)
    requires s != [] && t != [] && s[0] == t[0] && s[1..] == t[1..]
    ensures s == t
  {
    assert s == [s[0]] + s[1..] && t == [t[0]] + t[1..];
  }

  /** The level reached after going up d times. */
  function LevelAt(h: Hash, leaves: seq<Bytes>, d: nat): (level: seq<Bytes>)
    requires leaves != [] && d <= Depth(|leaves|)
    ensures level != []
    decreases d
  {
    if d == 0 then leaves else LevelAt(h, Up(h, leaves), d - 1)
  }

  lemma {:induction false} LevelAtKeepsRoot(h: Hash, leaves: seq<Bytes>, d: nat)
    requires leaves != [] && d <= Depth(|leaves|)
    ensures var level := LevelAt(h, leaves, d);
            && (AllDigests(leaves) ==> AllDigests(level))
            && Depth(|level|) == Depth(|leaves|) - d && Root(h, level) == Root(h, leaves)
    decreases d
  {
    if d > 0 {
      UpIsDigests(h, leaves);
      LevelAtKeepsRoot(h, Up(h, leaves), d - 1);
    }
  }

  /** The level that a proof of at most full depth starts from. */
  function StartLevel(h: Hash, leaves: seq<Bytes>, proof: seq<ProofStep>): (level: seq<Bytes>)
    requires leaves != [] && |proof| <= Depth(|leaves|)
    ensures level != []
  {
    LevelAt(h, leaves, Depth(|leaves|) - |proof|)
  }

  /** Without the length check, a shorter proof speaks for the node of its height that its pattern
      picks, or a collision is computed from it ... */
  lemma {:induction false} ShortProofSoundness(h: Hash, leaves: seq<Bytes>, x: Bytes, proof: seq<ProofStep>)
    requires leaves != [] && AllDigests(leaves) && |x| == 32
    requires |proof| <= Depth(|leaves|) && Verifies(h, x, proof, Root(h, leaves))
    ensures var level := StartLevel(h, leaves, proof);
            || (IsTreeProof(h, level, x, proof) && x == level[Picked(|level|, proof)])
            || var c := ForgeryCollision(h, level, x, proof); Collides(h, c.0, c.1)
  {
    LevelAtKeepsRoot(h, leaves, Depth(|leaves|) - |proof|);
    Soundness(h, StartLevel(h, leaves, proof), x, proof);
  }

  /** ... and a longer one for a chain of hashes that ends in a leaf. */
  lemma {:induction false} LongProofSoundness(h: Hash, leaves: seq<Bytes>, x: Bytes, proof: seq<ProofStep>)
    requires leaves != [] && AllDigests(leaves) && |x| == 32
    requires |proof| >= Depth(|leaves|) && Verifies(h, x, proof, Root(h, leaves))
    ensures var extra := |proof| - Depth(|leaves|);
            var below, rest := Fold(h, x, proof[..extra]), proof[extra..];
            || (IsTreeProof(h, leaves, below, rest) && below == leaves[Picked(|leaves|, rest)])
            || var c := ForgeryCollision(h, leaves, below, rest); Collides(h, c.0, c.1)
  {
    var extra := |proof| - Depth(|leaves|);
    FoldSplit(h, x, proof, extra);
    FoldLength(h, x, proof[..extra]);
    Soundness(h, leaves, Fold(h, x, proof[..extra]), proof[extra..]);
  }

  /** Both are really accepted: a tree proof that starts at a higher level verifies ... */
  lemma {:induction false} ShortTreeProofsVerify(h: Hash, leaves: seq<Bytes>, x: Bytes, proof: seq<ProofStep>)
    requires leaves != [] && |proof| <= Depth(|leaves|)
    requires IsTreeProof(h, StartLevel(h, leaves, proof), x, proof)
    ensures Verifies(h, x, proof, Root(h, leaves))
  {
    LevelAtKeepsRoot(h, leaves, Depth(|leaves|) - |proof|);
    TreeProofsVerify(h, StartLevel(h, leaves, proof), x, proof);
  }

  /** ... and so does one lengthened by a chain of hashes ending in its leaf. */
  lemma {:induction false} LongTreeProofsVerify(h: Hash, leaves: seq<Bytes>, x: Bytes, chain: seq<ProofStep>, proof: seq<ProofStep>)
    requires leaves != [] && IsTreeProof(h, leaves, Fold(h, x, chain), proof)
    ensures Verifies(h, x, chain + proof, Root(h, leaves))
  {
    assert (chain + proof)[..|chain|] == chain && (chain + proof)[|chain|..] == proof;
    FoldSplit(h, x, chain + proof, |chain|);
    TreeProofsVerify(h, leaves, Fold(h, x, chain), proof);
  }

  lemma {:induction false} FoldSplit(h: Hash, x: Bytes, proof: seq<ProofStep>, m: nat)
    requires m <= |proof|
    ensures Fold(h, x, proof) == Fold(h, Fold(h, x, proof[..m]), proof[m..])
    decreases m
  {
    if m == 0 {
      assert proof[0..] == proof;
    } else {
      assert proof[..m][1..] == proof[1..][..m - 1];
      assert proof[1..][m - 1..] == proof[m..];
      FoldSplit(h, h(Joined(x, proof[0])), proof[1..], m - 1);
    }
  }

  lemma {:induction false} FoldLength(h: Hash, x: Bytes, proof: seq<ProofStep>)
    ensures proof != [] || |x| == 32 ==> |Fold(h, x, proof)| == 32
    decreases |proof|
  {
    if proof != [] {
      FoldLength(h, h(Joined(x, proof[0])), proof[1..]);
    }
  }

  /** The proof length must be fixed: under every hash, every node of every level passes with the
      proof issued for it there, which is as much shorter as the level is higher. */
  lemma {:induction false} ShortProofAcceptsInnerNode(h: Hash, leaves: seq<Bytes>, d: nat, i: nat)
    requires leaves != [] && d <= Depth(|leaves|) && i < |LevelAt(h, leaves, d)|
    ensures var level := LevelAt(h, leaves, d);
            && |ProofFor(h, level, i)| == Depth(|leaves|) - d
            && Verifies(h, level[i], ProofFor(h, level, i), Root(h, leaves))
  {
    LevelAtKeepsRoot(h, leaves, d);
    ProofsVerify(h, LevelAt(h, leaves, d), i);
  }

  // ---- Refinement of the perfect tree ----------------------------------------------

  /** The root of a perfect binary tree over 2^k nodes, split in halves. */
  function PerfectRoot(h: Hash, nodes: seq<Bytes>, k: nat): (root: Bytes)
    requires |nodes| == Pow2(k)
    ensures k > 0 || AllDigests(nodes) ==> |root| == 32
    decreases k
  {
    if k == 0 then nodes[0]
    else
      var half := Pow2(k - 1);
      HashPair(h, PerfectRoot(h, nodes[..half], k - 1), PerfectRoot(h, nodes[half..], k - 1))
  }

  /** The leaf at virtual position j: the index is clamped top-down at each level's width. */
  function Clamp(n: nat, j: nat): (i: nat)
    requires n >= 1
    ensures i < n
    ensures j < n ==> i == j
    decreases n
  {
    if n == 1 then 0 else Min(2 * Clamp((n + 1) / 2, j / 2) + j % 2, n - 1)
  }

  /** It is the leaf that a proof spelling that position speaks for. */
  lemma {:induction false} PickedIsClamped(n: nat, proof: seq<ProofStep>)
    requires n >= 1 && |proof| == Depth(n)
    ensures Picked(n, proof) == Clamp(n, PathIndex(proof))
    decreases n
  {
    if n > 1 {
      PickedIsClamped((n + 1) / 2, proof[1..]);
      var j, bit := PathIndex(proof[1..]), Bit(proof[0]);
      assert (2 * j + bit) / 2 == j && (2 * j + bit) % 2 == bit;
    }
  }

  /** The 2^k virtual leaves of a batch, k its depth. */
  function Virtual(leaves: seq<Bytes>): (nodes: seq<Bytes>)
    requires leaves != []
    ensures |nodes| == Pow2(Depth(|leaves|))
    ensures forall j :: 0 <= j < |nodes| ==> nodes[j] == leaves[Clamp(|leaves|, j)]
  {
    seq(Pow2(Depth(|leaves|)), j requires 0 <= j => leaves[Clamp(|leaves|, j)])
  }

  lemma {:induction false} PerfectRootOfPairs(h: Hash, nodes: seq<Bytes>, k: nat)
    requires k > 0 && |nodes| == Pow2(k)
    ensures PerfectRoot(h, nodes, k) == PerfectRoot(h, Up(h, nodes), k - 1)
    decreases k
  {
    if k > 1 {
      var half := Pow2(k - 1);
      UpOfHalves(h, nodes, Pow2(k - 2));
      PerfectRootOfPairs(h, nodes[..half], k - 1);
      PerfectRootOfPairs(h, nodes[half..], k - 1);
    }
  }

  lemma {:induction false} UpOfHalves(h: Hash, nodes: seq<Bytes>, q: nat)
    requires q > 0 && |nodes| == 4 * q
    ensures Up(h, nodes[..2 * q]) == Up(h, nodes)[..q]
    ensures Up(h, nodes[2 * q..]) == Up(h, nodes)[q..]
  {
    forall i | 0 <= i < q
      ensures Up(h, nodes[..2 * q])[i] == Up(h, nodes)[i]
      ensures Up(h, nodes[2 * q..])[i] == Up(h, nodes)[q + i]
    {
      UpAt(h, nodes[..2 * q], i);
      UpAt(h, nodes[2 * q..], i);
      UpAt(h, nodes, i);
      UpAt(h, nodes, q + i);
    }
  }

  /** Refinement: the padded bottom-up loop computes the root of the perfect tree
      over the virtual leaves. */
  lemma {:induction false} RootIsPerfectRoot(h: Hash, leaves: seq<Bytes>)
    requires leaves != []
    ensures Root(h, leaves) == PerfectRoot(h, Virtual(leaves), Depth(|leaves|))
    decreases |leaves|
  {
    if |leaves| > 1 {
      var up, k := Up(h, leaves), Depth(|leaves|);
      RootIsPerfectRoot(h, up);
      PerfectRootOfPairs(h, Virtual(leaves), k);
      PairsOfVirtual(h, leaves);
    }
  }

  lemma {:induction false} PairsOfVirtual(h: Hash, leaves: seq<Bytes>)
    requires |leaves| > 1
    ensures Up(h, Virtual(leaves)) == Virtual(Up(h, leaves))
  {
    var nodes, up := Virtual(leaves), Up(h, leaves);
    hide Up, Virtual;
    forall j | 0 <= j < |Virtual(up)|
      ensures Up(h, nodes)[j] == Virtual(up)[j]
    {
      var c := Clamp(|up|, j);
      UpAt(h, nodes, j);
      UpAt(h, leaves, c);
      VirtualPair(leaves, j);
    }
  }

  lemma {:induction false} VirtualPair(leaves: seq<Bytes>, j: nat)
    requires |leaves| > 1 && 2 * j + 1 < |Virtual(leaves)|
    ensures var c := Clamp((|leaves| + 1) / 2, j);
            Virtual(leaves)[2 * j] == Node(leaves, 2 * c) && Virtual(leaves)[2 * j + 1] == Node(leaves, 2 * c + 1)
  {
    hide Virtual;
    assert (2 * j) / 2 == j && (2 * j + 1) / 2 == j;
  }

  // ---- Binding ------------------------------------------------------------------------

  /** The pair of preimages extracted from two different perfect trees with one root. */
  function BindingCollision(h: Hash, a: seq<Bytes>, b: seq<Bytes>, k: nat): (Bytes, Bytes)
    requires |a| == |b| == Pow2(k)
    decreases k
  {
    if k == 0 then ([], [])
    else
      var half := Pow2(k - 1);
      var x := PerfectRoot(h, a[..half], k - 1) + PerfectRoot(h, a[half..], k - 1);
      var y := PerfectRoot(h, b[..half], k - 1) + PerfectRoot(h, b[half..], k - 1);
      if x != y then (x, y)
      else if a[..half] != b[..half] then BindingCollision(h, a[..half], b[..half], k - 1)
      else BindingCollision(h, a[half..], b[half..], k - 1)
  }

  lemma {:induction false} PerfectBinding(h: Hash, a: seq<Bytes>, b: seq<Bytes>, k: nat)
    requires |a| == |b| == Pow2(k) && AllDigests(a) && AllDigests(b)
    requires PerfectRoot(h, a, k) == PerfectRoot(h, b, k)
    ensures a == b || var c := BindingCollision(h, a, b, k); Collides(h, c.0, c.1)
    decreases k
  {
    if k == 0 {
      assert a == [a[0]] && b == [b[0]];
    } else {
      var half := Pow2(k - 1);
      var al, ar := PerfectRoot(h, a[..half], k - 1), PerfectRoot(h, a[half..], k - 1);
      var bl, br := PerfectRoot(h, b[..half], k - 1), PerfectRoot(h, b[half..], k - 1);
      if al + ar == bl + br {
        assert al == (al + ar)[..32] && bl == (bl + br)[..32];
        assert ar == (al + ar)[32..] && br == (bl + br)[32..];
        if a[..half] != b[..half] {
          PerfectBinding(h, a[..half], b[..half], k - 1);
        } else {
          assert a == a[..half] + a[half..] && b == b[..half] + b[half..];
          PerfectBinding(h, a[half..], b[half..], k - 1);
        }
      }
    }
  }

  /** At equal depth, up to a collision, roots agree exactly when the virtual leaves do. */
  lemma {:induction false} RootsAgreeIffVirtualLeavesAgree(h: Hash, a: seq<Bytes>, b: seq<Bytes>)
    requires a != [] && b != [] && AllDigests(a) && AllDigests(b)
    requires Depth(|a|) == Depth(|b|)
    ensures Virtual(a) == Virtual(b) ==> Root(h, a) == Root(h, b)
    ensures Root(h, a) == Root(h, b) ==>
              || Virtual(a) == Virtual(b)
              || var c := BindingCollision(h, Virtual(a), Virtual(b), Depth(|a|)); Collides(h, c.0, c.1)
  {
    RootIsPerfectRoot(h, a);
    RootIsPerfectRoot(h, b);
    if Root(h, a) == Root(h, b) {
      PerfectBinding(h, Virtual(a), Virtual(b), Depth(|a|));
    }
  }

  /** Binding: a root and a leaf count fix the whole leaf list, or a collision is computed. */
  lemma {:induction false} Binding(h: Hash, a: seq<Bytes>, b: seq<Bytes>)
    requires a != [] && AllDigests(a) && AllDigests(b)
    requires |a| == |b| && Root(h, a) == Root(h, b)
    ensures || a == b
            || var c := BindingCollision(h, Virtual(a), Virtual(b), Depth(|a|)); Collides(h, c.0, c.1)
  {
    RootsAgreeIffVirtualLeavesAgree(h, a, b);
    DepthIsCeilLog2(|a|);
    if Virtual(a) == Virtual(b) {
      forall i | 0 <= i < |a|
        ensures a[i] == b[i]
      {
        assert Virtual(a)[i] == a[i] && Virtual(b)[i] == b[i];
      }
    }
  }

  /** The leaf count must be fixed: repeating the last leaf of an odd batch keeps its root. */
  lemma {:induction false} PaddingKeepsRoot(h: Hash, leaves: seq<Bytes>)
    requires |leaves| > 1 && |leaves| % 2 == 1
    ensures Root(h, leaves + [leaves[|leaves| - 1]]) == Root(h, leaves)
  {
    UpOfRepeatedLast(h, leaves);
  }

  lemma {:induction false} UpOfRepeatedLast(h: Hash, leaves: seq<Bytes>)
    requires leaves != [] && |leaves| % 2 == 1
    ensures Up(h, leaves + [leaves[|leaves| - 1]]) == Up(h, leaves)
  {
    var longer := leaves + [leaves[|leaves| - 1]];
    assert |Up(h, longer)| == |Up(h, leaves)|;
    forall i | 0 <= i < |Up(h, leaves)|
      ensures Up(h, longer)[i] == Up(h, leaves)[i]
    {
      UpAt(h, longer, i);
      UpAt(h, leaves, i);
    }
  }
}
