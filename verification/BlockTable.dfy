/** The block table and the code of daemon/processing/block.go that reads and changes it. */
module BlockTable {
  import opened Collections
  import opened BlockChain

  /** Legacy is a row without a state, from before states were recorded. */
  datatype ProcessingState = Processing | Incomplete | Complete | Legacy
  datatype Row = Row(height: nat, prev: Hash, state: ProcessingState)
  type Rows = map<Hash, Row>

  /** The table that holds exactly the blocks of c, all complete. */
  function RowsOf(c: Chain): Rows {
    if c == [] then map[] else RowsOf(Pop(c))[Top(c).hash := Row(|c| - 1, Top(c).prev, Complete)]
  }

  lemma HasPop(c: Chain, k: Hash)
    requires c != []
    ensures Has(c, k) <==> Has(Pop(c), k) || k == Top(c).hash
  {
    if Has(Pop(c), k) {
      var i :| 0 <= i < |Pop(c)| && Pop(c)[i].hash == k;
      assert c[i].hash == k;
    }
    if i :| 0 <= i < |c| && c[i].hash == k {
      assert i == |c| - 1 || Pop(c)[i].hash == k;
    }
  }

  lemma {:induction false} RowsOfKeys(c: Chain)
    requires Linked(c)
    ensures forall k :: k in RowsOf(c) <==> Has(c, k)
    ensures forall i :: 0 <= i < |c| ==> c[i].hash in RowsOf(c) && RowsOf(c)[c[i].hash] == Row(i, c[i].prev, Complete)
  {
    if c == [] {
    } else {
      var p := Pop(c);
      RowsOfKeys(p);
      forall k
        ensures k in RowsOf(c) <==> Has(c, k)
      {
        HasPop(c, k);
      }
      forall i | 0 <= i < |c|
        ensures c[i].hash in RowsOf(c) && RowsOf(c)[c[i].hash] == Row(i, c[i].prev, Complete)
      {
        if i < |c| - 1 {
          assert p[i] == c[i] && c[i].hash != Top(c).hash;
        }
      }
    }
  }

  lemma RowAt(c: Chain, k: Hash)
    requires Linked(c) && k in RowsOf(c)
    ensures var h := RowsOf(c)[k].height; h < |c| && c[h].hash == k && RowsOf(c)[k].state == Complete
  {
    RowsOfKeys(c);
    var i :| 0 <= i < |c| && c[i].hash == k;
  }

  lemma PopLinked(c: Chain)
    requires Linked(c) && c != []
    ensures Linked(Pop(c)) && !Has(Pop(c), Top(c).hash)
  {
  }

  lemma {:induction false} PopRows(c: Chain)
    requires Linked(c) && c != []
    ensures Linked(Pop(c)) && RowsOf(Pop(c)) == RowsOf(c) - {Top(c).hash}
  {
    PopLinked(c);
    RowsOfKeys(Pop(c));
    var rest := RowsOf(Pop(c));
    assert Top(c).hash !in rest;
    assert rest[Top(c).hash := Row(|c| - 1, Top(c).prev, Complete)] - {Top(c).hash} == rest;
  }

  /** A row of a failed block whose deletion has failed. */
  datatype Leftover = NoRow | LeftRow(hash: Hash, row: Row)

  function WithRow(rows: Rows, left: Leftover): Rows {
    match left
    case NoRow => rows
    case LeftRow(hash, row) => rows[hash := row]
  }

  /** The row is at the height or above it, not complete, and not one of the chain. */
  predicate Aside(left: Leftover, c: Chain, height: nat) {
    left.LeftRow? ==> !Has(c, left.hash) && left.row.height >= height
                      && (left.row.state == Processing || left.row.state == Incomplete)
  }

  lemma MinusOther(rows: Rows, hash: Hash, row: Row, k: Hash)
    requires hash != k
    ensures rows[hash := row] - {k} == (rows - {k})[hash := row]
  {
  }

  lemma WithRowPop(c: Chain, left: Leftover, height: nat)
    requires Linked(c) && c != [] && Aside(left, c, height)
    ensures Linked(Pop(c)) && Aside(left, Pop(c), height)
    ensures WithRow(RowsOf(Pop(c)), left) == WithRow(RowsOf(c), left) - {Top(c).hash}
  {
    PopRows(c);
    if left.LeftRow? {
      HasPop(c, left.hash);
      MinusOther(RowsOf(c), left.hash, left.row, Top(c).hash);
    }
  }

  lemma TopRow(c: Chain, left: Leftover, height: nat)
    requires Linked(c) && c != [] && Aside(left, c, height)
    ensures Top(c).hash in WithRow(RowsOf(c), left) && WithRow(RowsOf(c), left)[Top(c).hash].height == |c| - 1
  {
    RowsOfKeys(c);
    assert Has(c, c[|c| - 1].hash);
  }

  lemma SetTwice(rows: Rows, hash: Hash, row: Row, row': Row)
    ensures rows[hash := row][hash := row'] == rows[hash := row']
  {
  }

  lemma SetBoth(rows: Rows, hash: Hash, row: Row, hash': Hash, row': Row)
    requires hash != hash'
    ensures rows[hash := row][hash' := row'] == rows[hash' := row'][hash := row]
  {
  }

  lemma RowsOfPush(c: Chain, block: ChainBlock)
    ensures RowsOf(c + [block]) == RowsOf(c)[block.hash := Row(|c|, block.prev, Complete)]
  {
    assert Pop(c + [block]) == c;
  }

  /** Another block comes on top: a row that was left for it is used for it. */
  lemma WithRowPush(c: Chain, left: Leftover, block: ChainBlock)
    ensures var rows := WithRow(RowsOf(c), left)[block.hash := Row(|c|, block.prev, Complete)];
            rows == WithRow(RowsOf(c + [block]), if left.LeftRow? && left.hash == block.hash then NoRow else left)
  {
    RowsOfPush(c, block);
    if left.LeftRow? {
      if left.hash == block.hash {
        SetTwice(RowsOf(c), block.hash, left.row, Row(|c|, block.prev, Complete));
      } else {
        SetBoth(RowsOf(c), left.hash, left.row, block.hash, Row(|c|, block.prev, Complete));
      }
    }
  }

  lemma WithRowAt(c: Chain, left: Leftover, k: Hash)
    requires Linked(c) && k in WithRow(RowsOf(c), left)
    ensures (left.LeftRow? && k == left.hash) ||
            (k in RowsOf(c) && WithRow(RowsOf(c), left)[k] == RowsOf(c)[k] && RowsOf(c)[k].height < |c|
             && c[RowsOf(c)[k].height].hash == k)
  {
    if left.NoRow? || k != left.hash { RowAt(c, k); }
  }

  /** The block fits on the stored chain, so that its own row may be written. */
  predicate Attempted(c: Chain, height: nat, env: Env) {
    && env.block.Some? && 0 < height == |c| && height - 1 !in env.queryFails && Top(c).hash == env.block.value.prev
  }

  /** These are the blocks that the reorg check lets through. */
  lemma AttemptedIff(c: Chain, height: nat, env: Env)
    requires 0 < height && |c| <= height && env.block.Some?
    ensures var r := CheckHandleReorg(c, height, env.block.value.prev, env);
            !r.err && r.height == height <==> Attempted(c, height, env)
  {
  }

  predicate Panics(ending: Ending) { ending.PanicsBeforeRow? || ending.PanicsAfterRow? }

  function OwnRow(height: nat, env: Env): Leftover
    requires env.block.Some?
  {
    LeftRow(env.block.value.hash, Row(height, env.block.value.prev, Processing))
  }

  /** MarkIncompleteBlockHeight, for a row beside the chain. */
  function Marked(left: Leftover, height: nat, env: Env): Leftover {
    if left.NoRow? || env.recovery.markFails || left.row.height != height then left
    else left.(row := left.row.(state := Incomplete))
  }

  /** The cleanup of the head, which such a row is, whatever block it is of. */
  function Cleaned(left: Leftover, env: Env): Leftover {
    if left.NoRow? || env.recovery.cleanupFails then left
    else if left.row.height in env.deleteFails then left.(row := left.row.(state := Incomplete))
    else NoRow
  }

  /** The recovery from a panic. */
  function Recovered(left: Leftover, height: nat, env: Env): Leftover {
    Cleaned(Marked(left, height, env), env)
  }

  /** What is left beside the chain after the height has been processed. */
  function LeftAfter(c: Chain, left: Leftover, height: nat, env: Env): Leftover {
    if !Attempted(c, height, env) then left
    else
      var own := OwnRow(height, env);
      var other := if left.LeftRow? && left.hash == own.hash then NoRow else left;
      match env.ending
      case Commits => other
      case FailsBeforeRow => left
      case FailsAfterRow => if height in env.deleteFails then own else other
      case PanicsBeforeRow => Recovered(left, height, env)
      case PanicsAfterRow => Recovered(own, height, env)
  }

  /** The block's own row comes to stand beside one left before, of another block. */
  predicate TwoRows(c: Chain, left: Leftover, height: nat, env: Env) {
    && left.LeftRow? && Attempted(c, height, env) && left.hash != env.block.value.hash
    && (env.ending.PanicsAfterRow? || (env.ending.FailsAfterRow? && height in env.deleteFails))
  }

  /** No second row comes to stand beside the chain: neither is one left by another block, nor is another block
      committed at the height of the row. Genesis is not processed in vain while there is one. */
  predicate OneRowAtMost(c: Chain, left: Leftover, height: nat, env: Env) {
    && !TwoRows(c, left, height, env)
    && (left.LeftRow? && Attempted(c, height, env) && env.ending.Commits? && left.row.height == height ==>
          left.hash == env.block.value.hash)
    && (left.LeftRow? && height == 0 ==> !Panics(env.ending))
  }

  /** The table after a height above 0 has been processed. */
  function TableAfter(c: Chain, left: Leftover, genesis: ChainBlock, height: nat, env: Env): Rows
    requires 0 < height && |c| <= height
  {
    WithRow(RowsOf(ProcessHeight(c, genesis, height, env).chain), LeftAfter(c, left, height, env))
  }

  lemma EndsAs(c: Chain, genesis: ChainBlock, height: nat, env: Env)
    requires 0 < height && Sendable(c, genesis, height) && FairEnv(c, env)
    ensures var r := ProcessHeight(c, genesis, height, env);
            if Attempted(c, height, env) && env.ending.Commits? then r == BlockResult(c + [env.block.value], height)
            else r.chain <= c && r.height < height
  {
    KeepsChain(c, genesis, height, env);
    if env.block.Some? { AttemptedIff(c, height, env); }
  }

  lemma HasWithin(p: Chain, c: Chain, k: Hash)
    requires p <= c
    ensures Has(p, k) ==> Has(c, k)
  {
    if i :| 0 <= i < |p| && p[i].hash == k {
      assert c[i].hash == k;
    }
  }

  lemma AsideWithin(left: Leftover, c: Chain, height: nat, p: Chain, low: nat)
    requires Aside(left, c, height) && p <= c && low <= height
    ensures Aside(left, p, low)
  {
    if left.LeftRow? { HasWithin(p, c, left.hash); }
  }

  lemma AsideOn(left: Leftover, c: Chain, height: nat, block: ChainBlock)
    requires Aside(left, c, height) && (left.LeftRow? ==> left.hash != block.hash && left.row.height != height)
    ensures Aside(left, c + [block], height + 1)
  {
    assert Pop(c + [block]) == c;
    if left.LeftRow? { HasPop(c + [block], left.hash); }
  }

  /** The row left beside the chain stays above every height that may be sent next. */
  lemma StaysAside(c: Chain, left: Leftover, genesis: ChainBlock, height: nat, env: Env)
    requires 0 < height && Sendable(c, genesis, height) && FairEnv(c, env)
    requires Aside(left, c, height) && OneRowAtMost(c, left, height, env)
    ensures var r := ProcessHeight(c, genesis, height, env);
            Aside(LeftAfter(c, left, height, env), r.chain, r.height + 1)
  {
    EndsAs(c, genesis, height, env);
    var r, l := ProcessHeight(c, genesis, height, env), LeftAfter(c, left, height, env);
    if Attempted(c, height, env) && env.ending.Commits? {
      AsideOn(l, c, height, env.block.value);
    } else {
      AsideWithin(l, c, height, r.chain, r.height + 1);
    }
  }

  ghost predicate IsChainTable(rows: Rows) {
    exists c :: Linked(c) && rows == RowsOf(c)
  }

  lemma LeftRowBreaks(rows: Rows, hash: Hash)
    requires hash in rows && rows[hash].state != Complete
    ensures !IsChainTable(rows)
  {
    if c :| Linked(c) && rows == RowsOf(c) {
      RowAt(c, hash);
    }
  }

  /** The block's row is written, its processing does not come to its end, and the row cannot be removed. */
  predicate LeavesRow(c: Chain, height: nat, env: Env) {
    && Attempted(c, height, env)
    && ((env.ending.FailsAfterRow? && height in env.deleteFails)
        || (env.ending.PanicsAfterRow? && (height in env.deleteFails || env.recovery.cleanupFails)))
  }

  /** A row left before goes: when the block it is of is committed in it, or fails or panics again and is removed this
      time, or when another block panics before it has a row and the cleanup takes this one for its own. */
  predicate RemovesRow(c: Chain, left: Leftover, height: nat, env: Env)
    requires left.LeftRow?
  {
    && Attempted(c, height, env)
    && match env.ending
       case FailsBeforeRow => false
       case PanicsBeforeRow => left.row.height !in env.deleteFails && !env.recovery.cleanupFails
       case _ => left.hash == env.block.value.hash && !LeavesRow(c, height, env)
  }

  lemma LeftAfterIff(c: Chain, left: Leftover, height: nat, env: Env)
    requires Aside(left, c, height) && !TwoRows(c, left, height, env)
    ensures var l := LeftAfter(c, left, height, env);
            && (l.NoRow? <==> if left.NoRow? then !LeavesRow(c, height, env) else RemovesRow(c, left, height, env))
            && (l.LeftRow? ==> l.row.state != Complete)
  {
  }

  /** From a table that holds complete blocks of one chain, and perhaps a row left beside them, processing a height
      leads to one that holds complete blocks of one chain only: exactly unless the block's row is left behind, or, if
      there was such a row before, exactly if it goes now. */
  lemma TableIsChainIff(c: Chain, left: Leftover, genesis: ChainBlock, height: nat, env: Env)
    requires 0 < height && Sendable(c, genesis, height) && FairEnv(c, env)
    requires Aside(left, c, height) && !TwoRows(c, left, height, env)
    ensures IsChainTable(TableAfter(c, left, genesis, height, env)) <==>
            if left.NoRow? then !LeavesRow(c, height, env) else RemovesRow(c, left, height, env)
  {
    LeftAfterIff(c, left, height, env);
    KeepsChain(c, genesis, height, env);
    var l := LeftAfter(c, left, height, env);
    if l.LeftRow? {
      LeftRowBreaks(TableAfter(c, left, genesis, height, env), l.hash);
    }
  }

  const DELETE_ATTEMPTS := 3

  class Table {
    var rows: Rows

    /** The table holds the blocks of c, and perhaps one row left beside them, at the height or above it. */
    ghost predicate Holds(c: Chain, left: Leftover, height: nat)
      reads this
    {
      Linked(c) && Aside(left, c, height) && rows == WithRow(RowsOf(c), left)
    }

    /** select one row by height; which one is open if there are several. */
    method AtHeight(height: nat) returns (found: Option<Hash>)
      ensures found.None? ==> forall k :: k in rows ==> rows[k].height != height
      ensures found.Some? ==> found.value in rows && rows[found.value].height == height
    {
      if exists k :: k in rows && rows[k].height == height {
        var k :| k in rows && rows[k].height == height;
        found := Some(k);
      } else {
        found := None;
      }
    }

    /** The same, below any row that is left. */
    method TopAt(at: nat, ghost c: Chain, ghost left: Leftover, ghost height: nat) returns (found: Option<Hash>)
      requires Holds(c, left, height) && |c| <= at + 1 <= height
      ensures found == if |c| == at + 1 then Some(Top(c).hash) else None
    {
      found := AtHeight(at);
      if found.Some? { WithRowAt(c, left, found.value); }
      if |c| == at + 1 { TopRow(c, left, height); }
    }

    /** deleteBlockWithRetry: up to three attempts. */
    method DeleteBlockWithRetry(hash: Hash, fails: nat -> bool) returns (ok: bool)
      modifies this
      ensures ok <==> exists i :: 0 <= i < 3 && !fails(i)
      ensures rows == if ok then old(rows) - {hash} else old(rows)
    {
      for i := 0 to DELETE_ATTEMPTS
        invariant rows == old(rows) && forall k :: 0 <= k < i ==> fails(k)
      {
        if !fails(i) {
          rows := rows - {hash};
          return true;
        }
      }
      ok := false;
    }

    /** The deletion of the highest block during a reorg. */
    method DeleteTop(hash: Hash, ghost c: Chain, ghost left: Leftover, ghost height: nat)
      requires Holds(c, left, height) && c != [] && hash == Top(c).hash
      modifies this
      ensures Holds(Pop(c), left, height)
    {
      rows := rows - {hash};
      WithRowPop(c, left, height);
    }

    /** checkHandleReorg: a row that was left is not touched. */
    method CheckReorg(height: nat, chainPrevHash: Hash, env: Env, ghost c: Chain, ghost left: Leftover)
      returns (r: nat, err: bool)
      requires 0 < height && |c| <= height && Holds(c, left, height)
      modifies this
      ensures var spec := CheckHandleReorg(c, height, chainPrevHash, env);
              Holds(spec.chain, left, height) && r == spec.height && err == spec.err
    {
      if height - 1 in env.queryFails {
        return height, true;
      }
      var prevBlock := TopAt(height - 1, c, left, height);
      if prevBlock.None? {
        return height - 1, false;
      }
      var depth, prevHeight;
      prevHeight, depth, err := WalkDown(height - 1, prevBlock.value, chainPrevHash, env, c, left);
      if err {
        return height, true;
      }
      if depth > 0 {
        return prevHeight, false;
      }
      return height, false;
    }

    /** One turn of the loop of checkHandleReorg: the block is deleted; then the node's previous hash at its height and
        the hash stored below are fetched. */
    method StepDown(at: nat, hash: Hash, env: Env, ghost c: Chain, ghost left: Leftover, ghost height: nat)
      returns (ok: bool, below: Hash, wanted: Hash)
      requires Holds(c, left, height) && |c| == at + 1 <= height && 0 < at && hash == Top(c).hash
      modifies this
      ensures ok <==> at !in env.deleteFails && at in env.prevOf && at - 1 !in env.queryFails
      ensures Holds(if at in env.deleteFails then c else Pop(c), left, height)
      ensures ok ==> below == Top(Pop(c)).hash && wanted == env.prevOf[at]
    {
      ok, below, wanted := false, hash, hash;
      if at in env.deleteFails {
        return;
      }
      DeleteTop(hash, c, left, height);
      if at !in env.prevOf || at - 1 in env.queryFails {
        return;
      }
      var found := TopAt(at - 1, Pop(c), left, height);
      return true, found.value, env.prevOf[at]; // in a chain without gaps the row is always there
    }

    /** The loop of checkHandleReorg and the test after it; top is the hash stored at height start. */
    method WalkDown(start: nat, top: Hash, chainPrevHash: Hash, env: Env, ghost c: Chain, ghost left: Leftover)
      returns (prevHeight: nat, depth: nat, err: bool)
      requires Holds(c, left, start + 1) && |c| == start + 1 && top == Top(c).hash
      modifies this
      ensures var w := Walk(c, chainPrevHash, 0, env);
              && Holds(w.chain, left, start + 1) && err == !w.found
              && (!err ==> prevHeight == |w.chain| - 1 && depth == |c| - |w.chain|)
    {
      var prevBlock, wanted := top, chainPrevHash;
      prevHeight, depth := start, 0;
      ghost var cur, w := c, Walk(c, chainPrevHash, 0, env);
      while prevBlock != wanted && depth < REORG_LIMIT && prevHeight > 0
        invariant Holds(cur, left, start + 1) && |cur| == prevHeight + 1 <= |c| && depth == |c| - |cur|
        invariant prevBlock == Top(cur).hash
        invariant w == Walk(cur, wanted, depth, env)
        decreases prevHeight
      {
        var ok, below, prev := StepDown(prevHeight, prevBlock, env, cur, left, start + 1);
        if !ok {
          return prevHeight, depth, true;
        }
        prevHeight, prevBlock, wanted, depth := prevHeight - 1, below, prev, depth + 1;
        cur := Pop(cur);
      }
      return prevHeight, depth, prevBlock != wanted;
    }

    /** MarkIncompleteBlockHeight; an error leaves the table alone. */
    method MarkIncomplete(height: nat, fails: bool) returns (marked: Option<Hash>)
      modifies this
      ensures fails ==> marked.None? && rows == old(rows)
      ensures !fails && marked.None? ==> rows == old(rows) && forall k :: k in rows ==> rows[k].height != height
      ensures marked.Some? ==>
                && marked.value in old(rows) && old(rows)[marked.value].height == height
                && rows == old(rows)[marked.value := old(rows)[marked.value].(state := Incomplete)]
    {
      if fails {
        return None;
      }
      marked := AtHeight(height);
      if marked.Some? {
        rows := rows[marked.value := rows[marked.value].(state := Incomplete)];
      }
    }

    /**
     * cleanupIncompleteHead. hasTxs says whether a block's row has all its transactions, fails whether reading the head
     * or writing its state fails, deleteFails which attempts to delete a row fail.
     */
    method CleanupIncompleteHead(hasTxs: Hash -> bool, fails: bool, deleteFails: Hash -> nat -> bool)
      modifies this
      ensures old(rows) == map[] || fails ==> rows == old(rows)
      ensures forall k | !fails && IsHead(old(rows), k) && (forall j :: IsHead(old(rows), j) ==> j == k) ::
                var row, deletes := old(rows)[k], exists i :: 0 <= i < 3 && !deleteFails(k)(i);
                && (hasTxs(k) && (row.state == Complete || row.state == Legacy) ==>
                      rows == old(rows)[k := row.(state := Complete)])
                && (!hasTxs(k) || row.state == Processing || row.state == Incomplete ==>
                      rows == if deletes then old(rows) - {k} else old(rows)[k := row.(state := Incomplete)])
    {
      if rows == map[] || fails {
        return;
      }
      HeadExists(rows);
      var k :| k in rows && IsHead(rows, k);
      if !hasTxs(k) || rows[k].state == Processing || rows[k].state == Incomplete {
        rows := rows[k := rows[k].(state := Incomplete)];
        ghost var marked := rows;
        var ok := DeleteBlockWithRetry(k, deleteFails(k));
        assert marked - {k} == old(rows) - {k};
        return;
      }
      if rows[k].state == Legacy {
        rows := rows[k := rows[k].(state := Complete)];
      }
      assert rows == old(rows)[k := old(rows)[k].(state := Complete)];
    }

    /** ProcessBlock; a row of the same hash is used again, and wrote says whether the block's row was written. */
    method ProcessBlock(height: nat, block: ChainBlock, ending: Ending)
      returns (err: bool, panicked: bool, wrote: bool)
      modifies this
      ensures err == (ending.FailsBeforeRow? || ending.FailsAfterRow?) && panicked == Panics(ending)
      ensures wrote == !(ending.FailsBeforeRow? || ending.PanicsBeforeRow?)
      ensures var state := if ending.Commits? then Complete else Processing;
              rows == if wrote then old(rows)[block.hash := Row(height, block.prev, state)] else old(rows)
    {
      if ending.FailsBeforeRow? || ending.PanicsBeforeRow? {
        return ending.FailsBeforeRow?, ending.PanicsBeforeRow?, false;
      }
      rows := rows[block.hash := Row(height, block.prev, Processing)];
      if ending.FailsAfterRow? || ending.PanicsAfterRow? {
        return ending.FailsAfterRow?, ending.PanicsAfterRow?, true;
      }
      rows := rows[block.hash := Row(height, block.prev, Complete)];
      return false, false, true;
    }

    /** RunBlockProcessing above height 0, up to a return or a panic. */
    method RunBlockProcessing(height: nat, env: Env, genesis: ChainBlock, ghost c: Chain, ghost left: Leftover)
      returns (r: nat, panicked: bool)
      requires 0 < height && Sendable(c, genesis, height) && Holds(c, left, height) && FairEnv(c, env)
      modifies this
      ensures panicked <==> Attempted(c, height, env) && Panics(env.ending)
      ensures !panicked ==> r == ProcessHeight(c, genesis, height, env).height
      ensures !panicked && !TwoRows(c, left, height, env) ==> rows == TableAfter(c, left, genesis, height, env)
      ensures !panicked && TwoRows(c, left, height, env) ==>
                rows == WithRow(WithRow(RowsOf(c), left), OwnRow(height, env))
      ensures panicked ==>
                rows == if env.ending.PanicsBeforeRow? then old(rows) else WithRow(old(rows), OwnRow(height, env))
    {
      if env.block.None? {
        return height - 1, false;
      }
      var reorgHeight, err := CheckReorg(height, env.block.value.prev, env, c, left);
      AttemptedIff(c, height, env);
      if err {
        return height - 1, false;
      }
      if reorgHeight != height {
        return reorgHeight, false;
      }
      r, panicked := ProcessAttempted(height, env, c, left);
    }

    /** The part of RunBlockProcessing after the reorg check. */
    method ProcessAttempted(height: nat, env: Env, ghost c: Chain, ghost left: Leftover)
      returns (r: nat, panicked: bool)
      requires Attempted(c, height, env) && Holds(c, left, height) && !Has(c, env.block.value.hash)
      modifies this
      ensures panicked <==> Panics(env.ending)
      ensures !panicked ==> r == if env.ending.Commits? then height else height - 1
      ensures !panicked && !TwoRows(c, left, height, env) ==>
                rows == WithRow(RowsOf(if env.ending.Commits? then c + [env.block.value] else c),
                                LeftAfter(c, left, height, env))
      ensures !panicked && TwoRows(c, left, height, env) ==> rows == WithRow(old(rows), OwnRow(height, env))
      ensures panicked ==>
                rows == if env.ending.PanicsBeforeRow? then old(rows) else WithRow(old(rows), OwnRow(height, env))
    {
      var block := env.block.value;
      var failed, wrote;
      failed, panicked, wrote := ProcessBlock(height, block, env.ending);
      if failed {
        if wrote {
          WithRowTwice(c, left, OwnRow(height, env));
          var attempts := (i: nat) => height in env.deleteFails;
          assert attempts(0) == (height in env.deleteFails);
          var ok := DeleteBlockWithRetry(block.hash, attempts);
        }
        return height - 1, false;
      }
      r := height;
      WithRowPush(c, left, block);
      WithRowTwice(c, left, OwnRow(height, env));
    }

    /** processBlockWithRecover above height 0. */
    method ProcessBlockWithRecover(height: nat, env: Env, genesis: ChainBlock, ghost c: Chain, ghost left: Leftover)
      returns (r: nat)
      requires 0 < height && Sendable(c, genesis, height) && Holds(c, left, height) && FairEnv(c, env)
      modifies this
      ensures r == ProcessHeight(c, genesis, height, env).height
      ensures !TwoRows(c, left, height, env) ==> rows == TableAfter(c, left, genesis, height, env)
    {
      var panicked;
      r, panicked := RunBlockProcessing(height, env, genesis, c, left);
      if panicked {
        r := height - 1;
        WithRowTwice(c, left, OwnRow(height, env));
        Recover(height, env, c, if env.ending.PanicsBeforeRow? then left else OwnRow(height, env));
      }
    }

    /** The first half of the cleanup after a panic. */
    method MarkPanicked(height: nat, env: Env, ghost c: Chain, ghost left: Leftover)
      requires |c| == height
      modifies this
      ensures old(Holds(c, left, height)) ==> rows == WithRow(RowsOf(c), Marked(left, height, env))
    {
      if Holds(c, left, height) {
        OnlyRowAtHeight(c, left, height);
      }
      var marked := MarkIncomplete(height, env.recovery.markFails);
      if marked.Some? && old(Holds(c, left, height)) {
        assert rows == WithRow(RowsOf(c), Marked(left, height, env));
      }
    }

    /** The second half, and what is done before the daemon starts. */
    method CleanupHeadRow(height: nat, env: Env, ghost c: Chain, ghost left: Leftover)
      requires c != [] && |c| == height
      modifies this
      ensures old(Holds(c, left, height)) ==> rows == WithRow(RowsOf(c), Cleaned(left, env))
    {
      if Holds(c, left, height) {
        HeadOf(c, left, height);
        CleanHeadOf(c, left);
      }
      var table := rows;
      var deleteFails := (k: Hash) => (i: nat) => k in table && table[k].height in env.deleteFails;
      assert forall k :: deleteFails(k)(0) == (k in table && table[k].height in env.deleteFails);
      CleanupIncompleteHead(_ => true, env.recovery.cleanupFails, deleteFails);
    }

    /** The cleanup after a panic, where at most one row is left beside the chain. */
    method Recover(height: nat, env: Env, ghost c: Chain, ghost left: Leftover)
      requires c != [] && |c| == height
      modifies this
      ensures old(Holds(c, left, height)) ==> rows == WithRow(RowsOf(c), Recovered(left, height, env))
    {
      MarkPanicked(height, env, c, left);
      CleanupHeadRow(height, env, c, Marked(left, height, env));
    }
  }

  lemma WithRowTwice(c: Chain, left: Leftover, own: Leftover)
    requires Linked(c) && own.LeftRow? && !Has(c, own.hash)
    ensures left.NoRow? || left.hash == own.hash ==>
              WithRow(WithRow(RowsOf(c), left), own) == WithRow(RowsOf(c), own)
    ensures WithRow(WithRow(RowsOf(c), left), own) - {own.hash} ==
            WithRow(RowsOf(c), if left.LeftRow? && left.hash == own.hash then NoRow else left)
  {
    RowsOfKeys(c);
  }

  /** What the cleanup makes of the head. */
  lemma CleanHeadOf(c: Chain, left: Leftover)
    requires Linked(c) && c != [] && Aside(left, c, |c|)
    ensures var rows := WithRow(RowsOf(c), left);
            match left
            case NoRow => Top(c).hash in rows && rows[Top(c).hash := rows[Top(c).hash].(state := Complete)] == rows
            case LeftRow(hash, row) =>
              && hash in rows && rows - {hash} == RowsOf(c)
              && rows[hash := rows[hash].(state := Incomplete)] ==
                 WithRow(RowsOf(c), left.(row := row.(state := Incomplete)))
  {
    HeadOf(c, left, |c|);
    assert IsHead(WithRow(RowsOf(c), left), if left.LeftRow? then left.hash else Top(c).hash);
    if left.LeftRow? {
      SetTwice(RowsOf(c), left.hash, left.row, left.row.(state := Incomplete));
    } else {
      assert RowsOf(c)[Top(c).hash := RowsOf(c)[Top(c).hash]] == RowsOf(c);
    }
  }

  lemma OnlyRowAtHeight(c: Chain, left: Leftover, height: nat)
    requires Linked(c) && |c| == height && Aside(left, c, height)
    ensures var rows := WithRow(RowsOf(c), left);
            forall k :: k in rows && rows[k].height == height ==> left.LeftRow? && k == left.hash
  {
    forall k | k in WithRow(RowsOf(c), left) {
      WithRowAt(c, left, k);
    }
  }

  /** The head of the table is the row that is left, and without one the highest block. */
  lemma HeadOf(c: Chain, left: Leftover, height: nat)
    requires Linked(c) && c != [] && |c| == height && Aside(left, c, height)
    ensures var rows := WithRow(RowsOf(c), left);
            var head := if left.LeftRow? then left.hash else Top(c).hash;
            && (forall j :: IsHead(rows, j) <==> j == head)
            && (left.NoRow? ==> rows[head].state == Complete)
            && (left.LeftRow? ==> rows - {head} == RowsOf(c))
  {
    RowsOfKeys(c);
    var rows := WithRow(RowsOf(c), left);
    assert Top(c) == c[height - 1];
    assert left.LeftRow? ==> left.hash !in RowsOf(c);
    forall k | k in rows {
      WithRowAt(c, left, k);
    }
    assert IsHead(rows, if left.LeftRow? then left.hash else Top(c).hash);
  }

  /** The row of greatest height, which chainHeadBlock selects. */
  predicate IsHead(rows: Rows, k: Hash) {
    k in rows && forall j :: j in rows ==> rows[j].height <= rows[k].height
  }

  lemma {:induction false} HeadExists(rows: Rows)
    requires rows != map[]
    ensures exists k :: IsHead(rows, k)
  {
    var k :| k in rows;
    var rest := rows - {k};
    assert |rest| < |rows|;
    assert forall j :: j in rows ==> j == k || j in rest;
    if rest == map[] {
      assert IsHead(rows, k);
    } else {
      HeadExists(rest);
      var m :| IsHead(rest, m);
      assert IsHead(rows, if rows[k].height <= rows[m].height then m else k);
    }
  }
}
