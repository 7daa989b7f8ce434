/** What the database's block table stands for: the blocks 0..n-1 of one chain, each naming its predecessor. */
module BlockChain {
  import opened Collections

  type Hash = string

  datatype ChainBlock = ChainBlock(hash: Hash, prev: Hash)

  type Chain = seq<ChainBlock>

  predicate Has(c: Chain, hash: Hash) {
    exists i :: 0 <= i < |c| && c[i].hash == hash
  }

  /** Distinct blocks, each but the first naming the hash of the one below it. */
  predicate Linked(c: Chain) {
    && (forall i, j :: 0 <= i < j < |c| ==> c[i].hash != c[j].hash)
    && (forall i :: 0 < i < |c| ==> c[i].prev == c[i - 1].hash)
  }

  function Top(c: Chain): ChainBlock
    requires c != []
  {
    c[|c| - 1]
  }

  function Pop(c: Chain): Chain
    requires c != []
  {
    c[..|c| - 1]
  }

  /** How ProcessBlock ends; a row for the block may or may not have been written by then. */
  datatype Ending = Commits | FailsBeforeRow | FailsAfterRow | PanicsBeforeRow | PanicsAfterRow

  /** The answers of the node and the failures of the database during one call of RunBlockProcessing. */
  datatype Env = Env(
    block: Option<ChainBlock>, // the node's block at the height being processed, if it answers
    prevOf: map<nat, Hash>, // the node's previous hash at a height, where it answers
    queryFails: set<nat>, // heights whose row cannot be read
    deleteFails: set<nat>, // heights whose row cannot be deleted
    ending: Ending,
    recovery: Recovery)

  /** After a panic: marking the row of the block fails; the cleanup of the head fails before it deletes. */
  datatype Recovery = Recovery(markFails: bool, cleanupFails: bool)

  const REORG_LIMIT := 100

  datatype WalkResult = WalkResult(chain: Chain, found: bool)

  /** The loop of checkHandleReorg: blocks are deleted from the top until one has the hash the node names. */
  function Walk(c: Chain, wanted: Hash, depth: nat, env: Env): (r: WalkResult)
    requires c != []
    ensures r.chain != [] && r.chain <= c
    ensures r.found ==> |c| - |r.chain| + depth <= REORG_LIMIT || c == r.chain
    decreases |c|
  {
    var at := |c| - 1;
    if Top(c).hash == wanted then WalkResult(c, true)
    else if depth >= REORG_LIMIT || at == 0 then WalkResult(c, false)
    else if at in env.deleteFails then WalkResult(c, false)
    else if at !in env.prevOf || at - 1 in env.queryFails then WalkResult(Pop(c), false)
    else Walk(Pop(c), env.prevOf[at], depth + 1, env)
  }

  datatype ReorgResult = ReorgResult(chain: Chain, height: nat, err: bool)

  /** checkHandleReorg. */
  function CheckHandleReorg(c: Chain, height: nat, chainPrev: Hash, env: Env): (r: ReorgResult)
    requires 0 < height && |c| <= height
  {
    if height - 1 in env.queryFails then ReorgResult(c, height, true)
    else if |c| < height then ReorgResult(c, height - 1, false)
    else
      var w := Walk(c, chainPrev, 0, env);
      if !w.found then ReorgResult(w.chain, height, true)
      else if w.chain != c then ReorgResult(w.chain, |w.chain| - 1, false)
      else ReorgResult(c, height, false)
  }

  datatype BlockResult = BlockResult(chain: Chain, height: nat)

  /** processBlockWithRecover: RunBlockProcessing and, when it panics, the cleanup of the incomplete head. */
  function ProcessHeight(c: Chain, genesis: ChainBlock, height: nat, env: Env): (r: BlockResult)
    requires |c| <= height || |c| == 1
  {
    if height == 0 then
      if env.ending.PanicsBeforeRow? || env.ending.PanicsAfterRow? then BlockResult([], 0)
      else BlockResult([genesis], 0)
    else if env.block.None? then BlockResult(c, height - 1)
    else
      var reorg := CheckHandleReorg(c, height, env.block.value.prev, env);
      if reorg.err then BlockResult(reorg.chain, height - 1)
      else if reorg.height != height then BlockResult(reorg.chain, reorg.height)
      else if env.ending.Commits? then BlockResult(reorg.chain + [env.block.value], height)
      else BlockResult(reorg.chain, height - 1)
  }

  /** The stored chain when height is sent for processing. */
  predicate Sendable(c: Chain, genesis: ChainBlock, height: nat) {
    Linked(c) && (c != [] ==> c[0].hash == genesis.hash) && (if height == 0 then |c| <= 1 else |c| <= height)
  }

  /** Hashes do not repeat along a chain. */
  predicate FairEnv(c: Chain, env: Env) {
    env.block.Some? ==> !Has(c, env.block.value.hash)
  }

  /** A processed height never exceeds the one sent, and what is stored stays one linked chain reaching at most it. */
  lemma KeepsChain(c: Chain, genesis: ChainBlock, height: nat, env: Env)
    requires Sendable(c, genesis, height) && FairEnv(c, env)
    ensures var r := ProcessHeight(c, genesis, height, env);
            && r.height <= height && Linked(r.chain) && |r.chain| <= r.height + 1
            && (r.chain != [] ==> r.chain[0].hash == genesis.hash)
            && (height > 0 ==>
                  r.chain <= c || (env.block.Some? && r.chain == c + [env.block.value] && r.height == height))
  {
    if height > 0 && env.block.Some? && |c| == height && height - 1 !in env.queryFails {
      var w := Walk(c, env.block.value.prev, 0, env);
      if w.found && w.chain == c {
        WalkStays(c, env.block.value.prev, env);
      }
    }
  }

  lemma WalkStays(c: Chain, wanted: Hash, env: Env)
    requires c != [] && Walk(c, wanted, 0, env) == WalkResult(c, true)
    ensures Top(c).hash == wanted
  {
  }

  /** The hash the node names for height k, once the blocks above k are gone. */
  function WantedAt(c: Chain, wanted: Hash, k: nat, env: Env): Option<Hash> {
    if k + 1 == |c| then Some(wanted) else if k + 1 in env.prevOf then Some(env.prevOf[k + 1]) else None
  }

  /** The block at height k is not the node's, and the walk can delete it and look at the one below. */
  predicate Stale(c: Chain, wanted: Hash, k: nat, env: Env)
    requires k < |c|
  {
    && Some(c[k].hash) != WantedAt(c, wanted, k, env)
    && 0 < k && k !in env.deleteFails && k in env.prevOf && k - 1 !in env.queryFails
  }

  /** f is the height of the last stored block that the node has too, and nothing fails on the way down to it. */
  predicate ForkAt(c: Chain, wanted: Hash, f: nat, env: Env) {
    f < |c| && (forall k :: f < k < |c| ==> Stale(c, wanted, k, env)) && Some(c[f].hash) == WantedAt(c, wanted, f, env)
  }

  /** The walk succeeds exactly when there is such a height within the limit, and keeps the blocks up to it. */
  lemma {:induction false} WalkIff(c: Chain, wanted: Hash, depth: nat, env: Env, f: nat)
    requires c != [] && f < |c|
    ensures Walk(c, wanted, depth, env) == WalkResult(c[..f + 1], true) <==>
            ForkAt(c, wanted, f, env) && (f == |c| - 1 || |c| - 1 - f + depth <= REORG_LIMIT)
    decreases |c|
  {
    var at := |c| - 1;
    if Top(c).hash == wanted {
      assert f < at ==> !Stale(c, wanted, at, env);
    } else if f == at {
      assert !ForkAt(c, wanted, f, env);
      WalkPops(c, wanted, depth, env);
    } else if Stale(c, wanted, at, env) && depth < REORG_LIMIT {
      WalkIff(Pop(c), env.prevOf[at], depth + 1, env, f);
      assert Pop(c)[..f + 1] == c[..f + 1];
      ForkAtPop(c, wanted, f, env);
    }
  }

  lemma WalkPops(c: Chain, wanted: Hash, depth: nat, env: Env)
    requires c != [] && Top(c).hash != wanted
    ensures Walk(c, wanted, depth, env).found ==> |Walk(c, wanted, depth, env).chain| < |c|
  {
  }

  lemma ForkAtPop(c: Chain, wanted: Hash, f: nat, env: Env)
    requires 1 < |c| && f < |c| - 1 && Stale(c, wanted, |c| - 1, env)
    ensures ForkAt(c, wanted, f, env) <==> ForkAt(Pop(c), env.prevOf[|c| - 1], f, env)
  {
    var p, w := Pop(c), env.prevOf[|c| - 1];
    assert forall k :: 0 <= k < |p| ==> WantedAt(p, w, k, env) == WantedAt(c, wanted, k, env);
    assert forall k :: 0 <= k < |p| ==> (Stale(p, w, k, env) <==> Stale(c, wanted, k, env));
  }

  /** The walk deletes the block at height k when it comes to it. */
  predicate Deletes(c: Chain, wanted: Hash, k: nat, env: Env)
    requires k < |c|
  {
    Some(c[k].hash) != WantedAt(c, wanted, k, env) && 0 < k && k !in env.deleteFails
  }

  /** After that it can look at the block below. */
  predicate LooksBelow(k: nat, env: Env) {
    k in env.prevOf && k > 0 && k - 1 !in env.queryFails
  }

  /** The walk ends in vain with f as the highest block: every block above is deleted, and then the one below the last
      of them cannot be looked at, or f is not the node's and is genesis, cannot be deleted or is as deep as the walk
      may go. */
  predicate BreaksAt(c: Chain, wanted: Hash, depth: nat, f: nat, env: Env) {
    && f < |c| && (forall k :: f < k < |c| ==> Deletes(c, wanted, k, env))
    && (forall k :: f + 1 < k < |c| ==> LooksBelow(k, env))
    && (f + 1 < |c| ==> |c| - 2 - f + depth < 100)
    && ((f + 1 < |c| && !LooksBelow(f + 1, env))
        || (Some(c[f].hash) != WantedAt(c, wanted, f, env)
            && (f == 0 || f in env.deleteFails || |c| - 1 - f + depth >= 100)))
  }

  lemma BreaksAtPop(c: Chain, wanted: Hash, depth: nat, f: nat, env: Env)
    requires 1 < |c| && f < |c| - 1 && Stale(c, wanted, |c| - 1, env) && depth < 100
    ensures BreaksAt(c, wanted, depth, f, env) <==> BreaksAt(Pop(c), env.prevOf[|c| - 1], depth + 1, f, env)
  {
    var p, w := Pop(c), env.prevOf[|c| - 1];
    assert forall k :: 0 <= k < |p| ==> WantedAt(p, w, k, env) == WantedAt(c, wanted, k, env);
    assert forall k :: 0 <= k < |p| ==> (Deletes(p, w, k, env) <==> Deletes(c, wanted, k, env));
    assert Deletes(c, wanted, |c| - 1, env) && LooksBelow(|c| - 1, env);
  }

  /** What a walk in vain leaves. */
  lemma {:induction false} WalkBreaksIff(c: Chain, wanted: Hash, depth: nat, env: Env, f: nat)
    requires c != [] && f < |c|
    ensures Walk(c, wanted, depth, env) == WalkResult(c[..f + 1], false) <==> BreaksAt(c, wanted, depth, f, env)
    decreases |c|
  {
    var at := |c| - 1;
    if f == at {
      assert c[..f + 1] == c;
      if Deletes(c, wanted, at, env) && depth < 100 { FailedPops(c, wanted, depth, env); }
    } else if Stale(c, wanted, at, env) && depth < 100 {
      WalkBreaksIff(Pop(c), env.prevOf[at], depth + 1, env, f);
      assert Pop(c)[..f + 1] == c[..f + 1];
      BreaksAtPop(c, wanted, depth, f, env);
    } else {
      assert |c[..f + 1]| == f + 1 < |c|;
      if Deletes(c, wanted, at, env) && depth < 100 {
        assert Walk(c, wanted, depth, env) == WalkResult(Pop(c), false);
        assert !LooksBelow(at, env);
        assert f == at - 1 ==> c[..f + 1] == Pop(c);
      } else {
        assert Walk(c, wanted, depth, env).chain == c;
      }
    }
  }

  lemma FailedPops(c: Chain, wanted: Hash, depth: nat, env: Env)
    requires c != [] && Top(c).hash != wanted && depth < 100 && |c| > 1 && |c| - 1 !in env.deleteFails
    ensures |Walk(c, wanted, depth, env).chain| < |c|
  {
  }

  /** A node's chain answers the walk. */
  ghost predicate AnswersFrom(env: Env, node: Chain, height: nat) {
    && height < |node| && env.block == Some(node[height])
    && (forall k :: k in env.prevOf ==> k < |node| && env.prevOf[k] == node[k].prev)
  }

  /** Equal hashes stand for equal histories, as a block's hash covers the hash of its predecessor. */
  ghost predicate HashesCommit(c: Chain, node: Chain) {
    forall i, j :: 0 <= i < |c| && 0 <= j < |node| && c[i].hash == node[j].hash ==>
                     i == j && c[..i + 1] == node[..i + 1]
  }

  /** When it succeeds, a reorg against one node chain keeps exactly the common prefix of the two chains. */
  lemma ReorgKeepsCommonPrefix(c: Chain, node: Chain, height: nat, env: Env)
    requires 0 < height == |c| && Linked(node) && AnswersFrom(env, node, height) && HashesCommit(c, node)
    requires !CheckHandleReorg(c, height, node[height].prev, env).err
    ensures var kept := CheckHandleReorg(c, height, node[height].prev, env).chain;
            kept != [] && kept <= c && kept <= node && (|kept| < |c| ==> c[|kept|] != node[|kept|])
  {
    var wanted := node[height].prev;
    var w := Walk(c, wanted, 0, env);
    var f := |w.chain| - 1;
    assert w.chain == c[..f + 1];
    WalkIff(c, wanted, 0, env, f);
    assert WantedAt(c, wanted, f, env) == Some(node[f].hash);
    assert c[f].hash == node[f].hash && c[..f + 1] == node[..f + 1];
    if f + 1 < |c| {
      assert Stale(c, wanted, f + 1, env);
      assert f + 2 < |c| ==> Stale(c, wanted, f + 2, env);
      assert WantedAt(c, wanted, f + 1, env) == Some(node[f + 2].prev) == Some(node[f + 1].hash);
    }
  }

  /** A node with this chain that always answers, and a database that works; genesis is not asked for by its height. */
  function NodeEnv(node: Chain, height: nat): Env
    requires height < |node|
  {
    var prevOf := map k: nat | k < |node| :: node[k].prev;
    Env(if height == 0 then None else Some(node[height]), prevOf, {}, {}, Commits, Recovery(false, false))
  }

  /** The stored chain and the node's part no deeper than a reorg may go. */
  predicate Near(c: Chain, node: Chain, p: nat) {
    1 <= p <= |c| && p <= |node| && c[..p] == node[..p] && |c| - p <= 100
  }

  lemma {:induction false} SharedPart(c: Chain, node: Chain, p: nat) returns (q: nat)
    requires Near(c, node, p)
    ensures Near(c, node, q) && p <= q && (q < |c| && q < |node| ==> c[q] != node[q])
    decreases |c| - p
  {
    if p < |c| && p < |node| && c[p] == node[p] {
      assert c[..p + 1] == node[..p + 1];
      q := SharedPart(c, node, p + 1);
    } else {
      q := p;
    }
  }

  lemma SameBelow(c: Chain, node: Chain, q: nat, k: nat)
    requires HashesCommit(c, node) && q <= k < |c| && k < |node| && c[k].hash == node[k].hash
    ensures c[q] == node[q]
  {
    assert c[..k + 1][q] == node[..k + 1][q];
  }

  /** Such a node leads the walk down to the last common block. */
  lemma NodeHasFork(c: Chain, node: Chain, p: nat)
    requires 0 < |c| < |node| && Linked(node) && HashesCommit(c, node) && Near(c, node, p)
    ensures HasFork(c, node[|c|].prev, NodeEnv(node, |c|))
  {
    var q := SharedPart(c, node, p);
    var env, wanted := NodeEnv(node, |c|), node[|c|].prev;
    assert forall k :: 0 <= k < |c| ==> WantedAt(c, wanted, k, env) == Some(node[k].hash);
    forall k | q <= k < |c|
      ensures Stale(c, wanted, k, env)
    {
      if c[k].hash == node[k].hash { SameBelow(c, node, q, k); }
    }
    assert c[q - 1] == c[..q][q - 1] == node[..q][q - 1] == node[q - 1];
    assert ForkAt(c, wanted, q - 1, env);
  }

  lemma PrefixCommits(c: Chain, node: Chain)
    requires c <= node && Linked(node)
    ensures HashesCommit(c, node) && Linked(c)
  {
  }

  lemma AppendsNode(c: Chain, genesis: ChainBlock, node: Chain)
    requires 0 < |c| < |node| && Linked(node) && c <= node
    ensures ProcessHeight(c, genesis, |c|, NodeEnv(node, |c|)) == BlockResult(node[..|c| + 1], |c|)
  {
    assert c[|c| - 1] == node[|c| - 1];
    assert c + [node[|c|]] == node[..|c| + 1];
  }

  lemma BacksToNode(c: Chain, genesis: ChainBlock, node: Chain, p: nat)
    requires 0 < |c| < |node| && Linked(c) && Linked(node) && HashesCommit(c, node) && Near(c, node, p) && !(c <= node)
    ensures var r := ProcessHeight(c, genesis, |c|, NodeEnv(node, |c|));
            r.chain != [] && r.chain <= node && InStep(r) && r.height < |c|
  {
    NodeHasFork(c, node, p);
    WalkFindsIff(c, node[|c|].prev, NodeEnv(node, |c|));
    ReorgKeepsCommonPrefix(c, node, |c|, NodeEnv(node, |c|));
  }

  /** With such a node, one height either appends the node's block to a chain that is the start of the node's, or leaves
      the part that both share. */
  lemma FollowsNode(c: Chain, genesis: ChainBlock, node: Chain, p: nat)
    requires 0 < |c| < |node| && Linked(c) && Linked(node) && HashesCommit(c, node) && Near(c, node, p)
    ensures FairEnv(c, NodeEnv(node, |c|))
    ensures var r := ProcessHeight(c, genesis, |c|, NodeEnv(node, |c|));
            r.chain != [] && r.chain <= node && InStep(r) && if c <= node then r.height == |c| else r.height < |c|
  {
    if c <= node {
      AppendsNode(c, genesis, node);
    } else {
      BacksToNode(c, genesis, node, p);
    }
  }

  /** Processing goes on from the new top, so that the next height sent is the first missing one. */
  predicate InStep(r: BlockResult) {
    |r.chain| == r.height + 1
  }

  /** The node names another predecessor than the highest stored block, and that block is deleted. */
  predicate StartsReorg(c: Chain, height: nat, env: Env) {
    && env.block.Some? && 1 < height == |c| && Top(c).hash != env.block.value.prev
    && height - 1 !in env.queryFails && height - 1 !in env.deleteFails
  }

  /** The answers lead from the highest stored block down to a common one that is near enough. */
  predicate HasFork(c: Chain, wanted: Hash, env: Env) {
    exists f :: 0 <= f < |c| && ForkAt(c, wanted, f, env) && |c| - 1 - f <= 100
  }

  /** A reorg is begun that cannot be brought to its end. */
  predicate LosesBlocks(c: Chain, height: nat, env: Env) {
    StartsReorg(c, height, env) && !HasFork(c, env.block.value.prev, env)
  }

  lemma WalkFindsIff(c: Chain, wanted: Hash, env: Env)
    requires c != []
    ensures Walk(c, wanted, 0, env).found <==> HasFork(c, wanted, env)
  {
    var w := Walk(c, wanted, 0, env);
    if w.found {
      var f := |w.chain| - 1;
      assert w.chain == c[..f + 1];
      WalkIff(c, wanted, 0, env, f);
    }
    if f :| 0 <= f < |c| && ForkAt(c, wanted, f, env) && |c| - 1 - f <= REORG_LIMIT {
      WalkIff(c, wanted, 0, env, f);
    }
  }

  /** The reorg check fails after a deletion exactly when it loses blocks. */
  lemma LosesIff(c: Chain, height: nat, env: Env)
    requires 0 < height && |c| <= height && env.block.Some?
    ensures var r := CheckHandleReorg(c, height, env.block.value.prev, env); r.err && r.chain != c <==>
              LosesBlocks(c, height, env)
  {
    if |c| == height {
      WalkFindsIff(c, env.block.value.prev, env);
    }
  }

  /** From a store in step, processing stays in step exactly unless a reorg is begun, its first deletion works,
      and the answers do not lead on to a common block within the limit. */
  lemma InStepIff(c: Chain, genesis: ChainBlock, height: nat, env: Env)
    requires Sendable(c, genesis, height) && FairEnv(c, env) && 0 < height == |c|
    ensures InStep(ProcessHeight(c, genesis, height, env)) <==> !LosesBlocks(c, height, env)
  {
    KeepsChain(c, genesis, height, env);
    if env.block.Some? {
      LosesIff(c, height, env);
    }
  }

  /** Once blocks are missing below the height sent, processing it changes nothing and the same height is due again. */
  lemma GapIsNeverFilled(c: Chain, genesis: ChainBlock, height: nat, env: Env)
    requires |c| < height
    ensures ProcessHeight(c, genesis, height, env) == BlockResult(c, height - 1)
  {
  }

  /** A fork of one block, where the node stops answering after the first deletion, loses that block: the process
      cannot fill the gap, whatever the node answers when the same height is sent again. */
  lemma LosesBlocksExample()
    ensures var g, a, b, n := ChainBlock("g", ""), ChainBlock("a", "g"), ChainBlock("b", "a"), ChainBlock("n", "m");
            var c := [g, a, b];
            var env := Env(Some(n), map[], {}, {}, Commits, Recovery(false, false));
            && Sendable(c, g, 3) && FairEnv(c, env) && LosesBlocks(c, 3, env)
            && ProcessHeight(c, g, 3, env) == BlockResult([g, a], 2)
            && forall env' :: ProcessHeight([g, a], g, 3, env') == BlockResult([g, a], 2)
  {
    var g, a, b, n := ChainBlock("g", ""), ChainBlock("a", "g"), ChainBlock("b", "a"), ChainBlock("n", "m");
    var c := [g, a, b];
    assert Pop(c) == [g, a];
    assert "m"[0] != "b"[0];
    assert forall i, j :: 0 <= i < j < 3 ==> c[i].hash[0] != c[j].hash[0];
    assert forall i :: 0 <= i < 3 ==> c[i].hash[0] != "n"[0];
    forall env' {
      GapIsNeverFilled([g, a], g, 3, env');
    }
  }
}
