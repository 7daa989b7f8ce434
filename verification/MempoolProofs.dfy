/** What a mempool pass does to the transaction table, for every order in which the maps yield their keys. */
module MempoolProofs {
  import opened Collections
  import opened Mempool

  // ---- one family, one scan ----

  /** The transaction goes through processMempoolTx. */
  predicate Healthy(env: Env, raw: set<TxId>, rows: Rows, id: TxId) {
    env.fate(id) != LookupFails && (id in rows || (id in raw && env.fate(id) == Works))
  }

  predicate AllHealthy(env: Env, raw: set<TxId>, rows: Rows, ids: set<TxId>) {
    forall id :: id in ids ==> Healthy(env, raw, rows, id)
  }

  function Grown(rows: Rows, ids: set<TxId>): Rows {
    map id | id in rows.Keys + ids :: if id in rows then rows[id] else Row(MEMPOOL, true)
  }

  /** The hand-offs of b after those of a. */
  function New(a: Store, b: Store): seq<TxId>
    requires a.handed <= b.handed
  {
    b.handed[|a.handed|..]
  }

  /** b is a after all of ids have gone through: the missing rows are there, each handed to ProcessTx once. */
  ghost predicate Ran(a: Store, b: Store, ids: set<TxId>) {
    && b.rows == Grown(a.rows, ids) && a.handed <= b.handed && Distinct(New(a, b))
    && (forall id :: id in New(a, b) <==> id in ids && id !in a.rows)
  }

  /** b is a after some of ids, whether they went through or not. */
  ghost predicate Kept(a: Store, b: Store, ids: set<TxId>) {
    && (forall id :: id in a.rows ==> id in b.rows && b.rows[id] == a.rows[id])
    && (forall id :: id in b.rows && id !in a.rows ==> id in ids && b.rows[id].block == MEMPOOL)
    && a.handed <= b.handed && Distinct(New(a, b))
    && (forall id :: id in New(a, b) ==> id in ids && id !in a.rows)
  }

  lemma NewSplits(a: Store, b: Store, c: Store)
    requires a.handed <= b.handed && b.handed <= c.handed
    ensures a.handed <= c.handed && New(a, c) == New(a, b) + New(b, c)
  {
  }

  lemma DistinctBoth(x: seq<TxId>, y: seq<TxId>)
    requires Distinct(x) && Distinct(y) && forall id :: id in x ==> id !in y
    ensures Distinct(x + y)
  {
    assert forall i :: 0 <= i < |x| ==> x[i] in x;
    assert forall j :: 0 <= j < |y| ==> y[j] in y;
  }

  lemma GrownTwice(rows: Rows, ids: set<TxId>, more: set<TxId>)
    ensures Grown(Grown(rows, ids), more) == Grown(rows, ids + more)
  {
  }

  lemma RanRan(a: Store, b: Store, c: Store, ids: set<TxId>, more: set<TxId>)
    requires Ran(a, b, ids) && Ran(b, c, more)
    ensures Ran(a, c, ids + more)
  {
    NewSplits(a, b, c);
    GrownTwice(a.rows, ids, more);
    DistinctBoth(New(a, b), New(b, c));
    forall id
      ensures id in New(a, c) <==> id in ids + more && id !in a.rows
    {
      assert id in New(a, c) <==> id in New(a, b) || id in New(b, c);
    }
  }

  lemma RanKept(a: Store, b: Store, c: Store, ids: set<TxId>, more: set<TxId>)
    requires Ran(a, b, ids) && Kept(b, c, more)
    ensures Kept(a, c, ids + more)
  {
    NewSplits(a, b, c);
    DistinctBoth(New(a, b), New(b, c));
  }

  lemma ProcessIff(env: Env, raw: set<TxId>, s: Store, id: TxId)
    ensures var r := Process(env, raw, s, id);
            && (r.1 <==> Healthy(env, raw, s.rows, id)) && Kept(s, r.0, {id}) && (r.1 ==> Ran(s, r.0, {id}))
  {
  }

  lemma HealthyGrown(env: Env, raw: set<TxId>, rows: Rows, ids: set<TxId>, more: set<TxId>)
    requires AllHealthy(env, raw, rows, ids)
    ensures AllHealthy(env, raw, Grown(rows, ids), more) <==> AllHealthy(env, raw, rows, more)
  {
    forall id
      ensures Healthy(env, raw, Grown(rows, ids), id) <==> Healthy(env, raw, rows, id)
    {
      if id in ids { assert Healthy(env, raw, rows, id); }
    }
  }

  lemma {:induction false} ProcessAllIff(env: Env, raw: set<TxId>, s: Store, ids: seq<TxId>)
    ensures var r := ProcessAll(env, raw, s, ids);
            && (r.1 <==> AllHealthy(env, raw, s.rows, SetOf(ids)))
            && Kept(s, r.0, SetOf(ids)) && (r.1 ==> Ran(s, r.0, SetOf(ids)))
    decreases ids
  {
    if ids == [] {
    } else {
      var one := Process(env, raw, s, ids[0]);
      ProcessIff(env, raw, s, ids[0]);
      assert SetOf(ids) == {ids[0]} + SetOf(ids[1..]);
      if one.1 {
        ProcessAllIff(env, raw, one.0, ids[1..]);
        HealthyGrown(env, raw, s.rows, {ids[0]}, SetOf(ids[1..]));
        var r := ProcessAll(env, raw, one.0, ids[1..]);
        RanKept(s, one.0, r.0, {ids[0]}, SetOf(ids[1..]));
        if r.1 { RanRan(s, one.0, r.0, {ids[0]}, SetOf(ids[1..])); }
      }
    }
  }

  predicate NoneTooHigh(pool: Pool, head: nat, order: seq<TxId>)
    requires forall id :: id in order ==> id in pool
  {
    forall id :: id in order ==> pool[id].height <= head + 1
  }

  lemma TouchedFirst(pool: Pool, order: seq<TxId>)
    requires order != [] && forall id :: id in order ==> id in pool
    ensures Touched(pool, order) == SetOf(Family(pool, order[0])) + Touched(pool, order[1..])
  {
    assert order == [order[0]] + order[1..];
  }

  lemma {:induction false} ScanIff(env: Env, pool: Pool, raw: set<TxId>, head: nat, s: Store, order: seq<TxId>)
    requires forall id :: id in order ==> id in pool
    ensures var r := Scan(env, pool, raw, head, s, order);
            && (r.1 == Finished <==>
                  NoneTooHigh(pool, head, order) && AllHealthy(env, raw, s.rows, Touched(pool, order)))
            && Kept(s, r.0, Touched(pool, order))
            && (r.1 == Finished ==> Ran(s, r.0, Touched(pool, order)))
            && (r.1 == Running ==> !NoneTooHigh(pool, head, order))
            && (r.1 == Failed ==> !AllHealthy(env, raw, s.rows, Touched(pool, order)))
    decreases order
  {
    if order == [] || TooHigh(pool, head, order[0]) {
    } else {
      var first, rest := SetOf(Family(pool, order[0])), Touched(pool, order[1..]);
      var one := ProcessAll(env, raw, s, Family(pool, order[0]));
      TouchedFirst(pool, order);
      ProcessAllIff(env, raw, s, Family(pool, order[0]));
      if one.1 {
        ScanIff(env, pool, raw, head, one.0, order[1..]);
        HealthyGrown(env, raw, s.rows, first, rest);
        var r := Scan(env, pool, raw, head, one.0, order[1..]);
        RanKept(s, one.0, r.0, first, rest);
        if r.1 == Finished { RanRan(s, one.0, r.0, first, rest); }
      }
    }
  }

  // ---- the sweep ----

  function Stale(rows: Rows, ids: set<TxId>): set<TxId> {
    set id | id in ids && id in rows && rows[id].block == MEMPOOL
  }

  predicate Sweepable(env: Env, rows: Rows, ids: set<TxId>) {
    forall id :: id in ids ==> env.fate(id) != LookupFails && (id in Stale(rows, ids) ==> env.deletes(id))
  }

  lemma {:induction false} SweepIff(env: Env, rows: Rows, order: seq<TxId>)
    requires Distinct(order)
    ensures var r := Sweep(env, rows, order);
            && r.1 != Running && (r.1 == Finished <==> Sweepable(env, rows, SetOf(order)))
            && (r.1 == Finished ==> r.0 == rows - Stale(rows, SetOf(order)))
            && (forall id :: id in rows && id !in Stale(rows, SetOf(order)) ==> id in r.0)
            && (forall id :: id in r.0 ==> id in rows && r.0[id] == rows[id])
    decreases order
  {
    if order == [] {
    } else {
      var id, rest := order[0], SetOf(order[1..]);
      assert SetOf(order) == {id} + rest && id !in rest;
      if id in Stale(rows, SetOf(order)) {
        SweepIff(env, rows - {id}, order[1..]);
        assert Stale(rows - {id}, rest) == Stale(rows, rest);
        assert Stale(rows, SetOf(order)) == {id} + Stale(rows, rest);
      } else {
        SweepIff(env, rows, order[1..]);
        assert Stale(rows, SetOf(order)) == Stale(rows, rest);
      }
    }
  }

  // ---- a whole pass ----

  /** The table a pass leaves: every transaction of the pool and every dependency has a row, and the stale rows of the
      mempool block that are neither are gone. */
  function Settled(rows: Rows, pool: Pool, stale: set<TxId>): Rows {
    Grown(rows, Ids(pool)) - Stale(rows, stale - Ids(pool))
  }

  /** Nothing stands in the way of the pass. */
  ghost predicate Sound(env: Env, pool: Pool, raw: set<TxId>, head: nat, rows: Rows, stale: set<TxId>) {
    && (forall t :: t in pool ==> pool[t].height <= head + 1)
    && AllHealthy(env, raw, rows, Ids(pool))
    && Sweepable(env, rows, stale - Ids(pool))
  }

  /** The two orders as processTxSet leaves them: complete where a loop came to its end. */
  ghost predicate Orders(env: Env, pool: Pool, raw: set<TxId>, head: nat, s: Store, stale: set<TxId>, order: seq<TxId>,
                         swept: seq<TxId>) {
    && Yields(order, pool.Keys) && Yields(swept, stale - Ids(pool))
    && (Scan(env, pool, raw, head, s, order).1 == Finished ==> YieldsAll(order, pool.Keys))
    && (Pass(env, pool, raw, head, s, order, swept).1 == Finished ==> YieldsAll(swept, stale - Ids(pool)))
  }

  /** The pool has the transaction, or an entry of the pool depends on it. */
  ghost predicate InPool(pool: Pool, id: TxId) {
    id in pool || exists t :: t in pool && id in pool[t].depends
  }

  /** The row of a stale transaction that has left the pool. */
  ghost predicate Leaves(pool: Pool, rows: Rows, stale: set<TxId>, id: TxId) {
    id in rows && rows[id].block == "MEMPOOL" && id in stale && !InPool(pool, id)
  }

  /** The settled table row by row: those of transactions in the pool are there, new ones whole and of the mempool
      block, and of the others all but the stale ones of that block. */
  lemma SettledRows(rows: Rows, pool: Pool, stale: set<TxId>, id: TxId)
    ensures id in Settled(rows, pool, stale) <==>
            InPool(pool, id) || (id in rows && !Leaves(pool, rows, stale, id))
    ensures id in Settled(rows, pool, stale) ==>
              Settled(rows, pool, stale)[id] == if id in rows then rows[id] else Row("MEMPOOL", true)
    ensures id in Ids(pool) <==> InPool(pool, id)
  {
  }

  /** Whatever the orders, the pass finishes exactly when nothing stands in its way, and then its result is the same:
      the settled table, with each missing transaction handed to ProcessTx once. It reports that the daemon is behind
      only if an entry is too high. */
  lemma PassIff(env: Env, pool: Pool, raw: set<TxId>, head: nat, s: Store, stale: set<TxId>, order: seq<TxId>,
                swept: seq<TxId>)
    requires Orders(env, pool, raw, head, s, stale, order, swept)
    ensures var r := Pass(env, pool, raw, head, s, order, swept);
            && (r.1 == Finished <==> Sound(env, pool, raw, head, s.rows, stale))
            && (r.1 == Finished ==> r.0.rows == Settled(s.rows, pool, stale))
            && s.handed <= r.0.handed && Distinct(New(s, r.0))
            && (r.1 == Finished ==> forall id :: id in New(s, r.0) <==> id in Ids(pool) && id !in s.rows)
            && (r.1 == Running ==> exists t :: t in pool && pool[t].height > head + 1)
            && (r.1 == Failed ==> !AllHealthy(env, raw, s.rows, Ids(pool)) ||
                                  !Sweepable(env, s.rows, stale - Ids(pool)))
  {
    ScanIff(env, pool, raw, head, s, order);
    TouchedWithin(pool, order);
    if Scan(env, pool, raw, head, s, order).1 == Finished {
      TouchedAll(pool, order);
      SweptIff(env, pool, s.rows, stale - Ids(pool), swept);
    }
  }

  lemma SweptIff(env: Env, pool: Pool, rows: Rows, stale: set<TxId>, swept: seq<TxId>)
    requires stale !! Ids(pool) && Yields(swept, stale)
    requires Sweep(env, Grown(rows, Ids(pool)), swept).1 == Finished ==> YieldsAll(swept, stale)
    ensures var d := Sweep(env, Grown(rows, Ids(pool)), swept);
            && d.1 != Running && (d.1 == Finished <==> Sweepable(env, rows, stale))
            && (d.1 == Finished ==> d.0 == Grown(rows, Ids(pool)) - Stale(rows, stale))
  {
    SweepIff(env, Grown(rows, Ids(pool)), swept);
    SameStale(rows, pool, stale);
    SameStale(rows, pool, SetOf(swept));
    if Sweepable(env, rows, stale) {
      PartialSweep(env, rows, SetOf(swept), stale);
    }
    assert YieldsAll(swept, stale) ==> SetOf(swept) == stale;
  }

  lemma TouchedWithin(pool: Pool, order: seq<TxId>)
    requires Yields(order, pool.Keys)
    ensures Touched(pool, order) <= Ids(pool)
  {
    forall x | x in Touched(pool, order)
      ensures x in Ids(pool)
    {
      var t :| t in order && x in Family(pool, t);
    }
  }

  lemma SameStale(rows: Rows, pool: Pool, ids: set<TxId>)
    requires ids !! Ids(pool)
    ensures Stale(Grown(rows, Ids(pool)), ids) == Stale(rows, ids)
  {
  }

  lemma PartialSweep(env: Env, rows: Rows, some: set<TxId>, all: set<TxId>)
    requires some <= all && Sweepable(env, rows, all)
    ensures Sweepable(env, rows, some)
  {
    assert Stale(rows, some) <= Stale(rows, all);
  }

  /** Two passes over the same pool agree, whatever the orders of their maps. */
  lemma OrderIsIrrelevant(env: Env, pool: Pool, raw: set<TxId>, head: nat, s: Store, stale: set<TxId>,
                          order: seq<TxId>, swept: seq<TxId>, order': seq<TxId>, swept': seq<TxId>)
    requires Orders(env, pool, raw, head, s, stale, order, swept)
             && Orders(env, pool, raw, head, s, stale, order', swept')
    requires Pass(env, pool, raw, head, s, order, swept).1 == Finished
    ensures Pass(env, pool, raw, head, s, order', swept').1 == Finished
    ensures Pass(env, pool, raw, head, s, order', swept').0.rows == Pass(env, pool, raw, head, s, order, swept).0.rows
  {
    PassIff(env, pool, raw, head, s, stale, order, swept);
    PassIff(env, pool, raw, head, s, stale, order', swept');
  }

  /** Whatever happens, a pass changes no row: it adds mempool rows for the pool, and takes away stale mempool
      rows that are not in the pool, these only when the scan came to its end. */
  lemma OtherRowsKept(env: Env, pool: Pool, raw: set<TxId>, head: nat, s: Store, stale: set<TxId>, order: seq<TxId>,
                      swept: seq<TxId>, id: TxId)
    requires Orders(env, pool, raw, head, s, stale, order, swept)
    ensures var r := Pass(env, pool, raw, head, s, order, swept);
            && (id in s.rows && id in r.0.rows ==> r.0.rows[id] == s.rows[id])
            && (id in s.rows && id !in r.0.rows ==>
                  s.rows[id].block == MEMPOOL && id in stale && id !in Ids(pool)
                    && Scan(env, pool, raw, head, s, order).1 == Finished)
            && (id !in s.rows && id in r.0.rows ==> id in Ids(pool) && r.0.rows[id].block == MEMPOOL)
  {
    ScanIff(env, pool, raw, head, s, order);
    TouchedWithin(pool, order);
    SweepIff(env, Scan(env, pool, raw, head, s, order).0.rows, swept);
  }

  // ---- transactions written by half ----

  predicate Half(rows: Rows, id: TxId) {
    id in rows && !rows[id].whole
  }

  /** ProcessTx saves the row of the transaction, as a whole or not. */
  predicate Saves(fate: Fate) { fate == Works || fate == FailsLate }

  /** From a to b rows come from ProcessTx saving them, and are by half where it failed after that. */
  ghost predicate HalvesGrow(env: Env, a: Store, b: Store) {
    && a.handed <= b.handed
    && (forall id :: id in b.rows <==> id in a.rows || (id in New(a, b) && Saves(env.fate(id))))
    && (forall id :: Half(b.rows, id) <==> Half(a.rows, id) || (id in New(a, b) && env.fate(id) == FailsLate))
  }

  lemma HalvesTwice(env: Env, a: Store, b: Store, c: Store)
    requires HalvesGrow(env, a, b) && HalvesGrow(env, b, c)
    ensures HalvesGrow(env, a, c)
  {
    NewSplits(a, b, c);
    assert forall id :: id in New(a, c) <==> id in New(a, b) || id in New(b, c);
  }

  lemma {:induction false} ProcessAllHalves(env: Env, raw: set<TxId>, s: Store, ids: seq<TxId>)
    ensures HalvesGrow(env, s, ProcessAll(env, raw, s, ids).0)
    decreases ids
  {
    if ids == [] {
    } else {
      var one := Process(env, raw, s, ids[0]);
      if one.1 {
        ProcessAllHalves(env, raw, one.0, ids[1..]);
        HalvesTwice(env, s, one.0, ProcessAll(env, raw, one.0, ids[1..]).0);
      }
    }
  }

  lemma {:induction false} ScanHalves(env: Env, pool: Pool, raw: set<TxId>, head: nat, s: Store, order: seq<TxId>)
    requires forall id :: id in order ==> id in pool
    ensures HalvesGrow(env, s, Scan(env, pool, raw, head, s, order).0)
    decreases order
  {
    if order == [] || TooHigh(pool, head, order[0]) {
    } else {
      var one := ProcessAll(env, raw, s, Family(pool, order[0]));
      ProcessAllHalves(env, raw, s, Family(pool, order[0]));
      if one.1 {
        ScanHalves(env, pool, raw, head, one.0, order[1..]);
        HalvesTwice(env, s, one.0, Scan(env, pool, raw, head, one.0, order[1..]).0);
      }
    }
  }

  /** In every pass, finished or not, a transaction of the pool has a row at the end exactly if it had one before,
      or the pass handed it to ProcessTx and that saved it; it is written by half exactly if it was so before, and
      then it is not tried again, or that failed after saving. */
  lemma HalfWrittenIff(env: Env, pool: Pool, raw: set<TxId>, head: nat, s: Store, stale: set<TxId>, order: seq<TxId>,
                       swept: seq<TxId>, id: TxId)
    requires Orders(env, pool, raw, head, s, stale, order, swept) && InPool(pool, id)
    ensures var r := Pass(env, pool, raw, head, s, order, swept).0;
            && s.handed <= r.handed && (id in s.rows ==> id !in New(s, r))
            && (id in r.rows <==> id in s.rows || (id in New(s, r) && Saves(env.fate(id))))
            && (Half(r.rows, id) <==> Half(s.rows, id) || (id in New(s, r) && env.fate(id) == FailsLate))
  {
    var r := Scan(env, pool, raw, head, s, order);
    assert id in Ids(pool);
    ScanIff(env, pool, raw, head, s, order);
    ScanHalves(env, pool, raw, head, s, order);
    SweepIff(env, r.0.rows, swept);
  }

  /** Success hides it: a pass that finishes leaves every transaction of the pool written as a whole exactly if none
      of those it found a row for was written by half. */
  lemma FinishedIsWholeIff(env: Env, pool: Pool, raw: set<TxId>, head: nat, s: Store, stale: set<TxId>,
                           order: seq<TxId>, swept: seq<TxId>)
    requires Orders(env, pool, raw, head, s, stale, order, swept)
    requires Pass(env, pool, raw, head, s, order, swept).1 == Finished
    ensures var r := Pass(env, pool, raw, head, s, order, swept).0;
            (forall id :: InPool(pool, id) ==> id in r.rows && r.rows[id].whole) <==>
            (forall id :: InPool(pool, id) ==> !Half(s.rows, id))
  {
    PassIff(env, pool, raw, head, s, stale, order, swept);
    var rows := Pass(env, pool, raw, head, s, order, swept).0.rows;
    forall id | InPool(pool, id)
      ensures id in rows && (rows[id].whole <==> !Half(s.rows, id))
    {
      assert rows == Settled(s.rows, pool, stale) && id in Ids(pool);
    }
  }

  // ---- up to the first failure ----

  /** The transactions a scan walks through, in order: every entry after its dependencies, up to one that is too
      high. */
  function Walked(pool: Pool, head: nat, order: seq<TxId>): seq<TxId>
    requires forall id :: id in order ==> id in pool
  {
    if order == [] || pool[order[0]].height > head + 1 then []
    else pool[order[0]].depends + [order[0]] + Walked(pool, head, order[1..])
  }

  lemma {:induction false} ScanWalks(env: Env, pool: Pool, raw: set<TxId>, head: nat, s: Store, order: seq<TxId>)
    requires forall id :: id in order ==> id in pool
    ensures Scan(env, pool, raw, head, s, order).0 == ProcessAll(env, raw, s, Walked(pool, head, order)).0
    decreases order
  {
    if order == [] || TooHigh(pool, head, order[0]) {
    } else {
      var family := Family(pool, order[0]);
      var one := ProcessAll(env, raw, s, family);
      if one.1 {
        ScanWalks(env, pool, raw, head, one.0, order[1..]);
        ProcessAllSplits(env, raw, s, family, Walked(pool, head, order[1..]));
      } else {
        ProcessAllFails(env, raw, s, family, Walked(pool, head, order[1..]));
      }
    }
  }

  lemma {:induction false} ProcessAllFails(env: Env, raw: set<TxId>, s: Store, a: seq<TxId>, b: seq<TxId>)
    requires !ProcessAll(env, raw, s, a).1
    ensures ProcessAll(env, raw, s, a + b) == ProcessAll(env, raw, s, a)
    decreases a
  {
    if a == [] {
    } else {
      assert (a + b)[1..] == a[1..] + b;
      if Process(env, raw, s, a[0]).1 { ProcessAllFails(env, raw, Process(env, raw, s, a[0]).0, a[1..], b); }
    }
  }

  /** k is the place of the first transaction that cannot go through. */
  ghost predicate FirstBad(env: Env, raw: set<TxId>, rows: Rows, ids: seq<TxId>, k: nat) {
    && k <= |ids| && (forall j :: 0 <= j < k ==> Healthy(env, raw, rows, ids[j]))
    && (k < |ids| ==> !Healthy(env, raw, rows, ids[k]))
  }

  /** A list is followed up to the first transaction that cannot go through, and no further: what is handed to
      ProcessTx are the transactions without a row before it, and it, if it has no row either, can be looked up
      and was fetched. */
  lemma HandsUpToFirstBad(env: Env, raw: set<TxId>, s: Store, ids: seq<TxId>, k: nat, id: TxId)
    requires FirstBad(env, raw, s.rows, ids, k)
    ensures var r := ProcessAll(env, raw, s, ids).0;
            s.handed <= r.handed &&
            (id in New(s, r) <==>
               id !in s.rows && (id in ids[..k]
                                 || (k < |ids| && id == ids[k] && id in raw && env.fate(id) != LookupFails)))
  {
    var front := ids[..k];
    GoesThrough(env, raw, s, front, id);
    if k == |ids| {
      assert front == ids;
    } else {
      SplitAtBad(env, raw, s, ids, k);
      FirstBadEnds(env, raw, s, ProcessAll(env, raw, s, front).0, ids, k, id);
    }
  }

  lemma SplitAtBad(env: Env, raw: set<TxId>, s: Store, ids: seq<TxId>, k: nat)
    requires k <= |ids| && ProcessAll(env, raw, s, ids[..k]).1
    ensures ProcessAll(env, raw, s, ids) == ProcessAll(env, raw, ProcessAll(env, raw, s, ids[..k]).0, ids[k..])
  {
    assert ids == ids[..k] + ids[k..];
    ProcessAllSplits(env, raw, s, ids[..k], ids[k..]);
  }

  lemma GoesThrough(env: Env, raw: set<TxId>, s: Store, ids: seq<TxId>, id: TxId)
    requires forall j :: 0 <= j < |ids| ==> Healthy(env, raw, s.rows, ids[j])
    ensures var r := ProcessAll(env, raw, s, ids);
            r.1 && Ran(s, r.0, SetOf(ids)) && (id in New(s, r.0) <==> id !in s.rows && id in ids)
  {
    ProcessAllIff(env, raw, s, ids);
    assert id in SetOf(ids) <==> id in ids;
  }

  lemma FirstBadEnds(env: Env, raw: set<TxId>, s: Store, b: Store, ids: seq<TxId>, k: nat, id: TxId)
    requires FirstBad(env, raw, s.rows, ids, k) && k < |ids| && Ran(s, b, SetOf(ids[..k]))
    ensures var r := ProcessAll(env, raw, b, ids[k..]).0;
            s.handed <= r.handed &&
            (id in New(s, r) <==>
               id in New(s, b) || (id == ids[k] && id !in s.rows && id in raw && env.fate(id) != LookupFails))
  {
    assert ids[k..][0] == ids[k];
    var r := ProcessAll(env, raw, b, ids[k..]).0;
    HealthyGrown(env, raw, s.rows, SetOf(ids[..k]), {ids[k]});
    assert !Healthy(env, raw, b.rows, ids[k]);
    assert r == Process(env, raw, b, ids[k]).0;
    NewSplits(s, b, r);
  }

  /** So is the pool: whatever its order, a pass hands over exactly that much of what the scan walks through. */
  lemma PassHandsUpToFirstBad(env: Env, pool: Pool, raw: set<TxId>, head: nat, s: Store, order: seq<TxId>,
                              swept: seq<TxId>, k: nat, id: TxId)
    requires (forall t :: t in order ==> t in pool) && FirstBad(env, raw, s.rows, Walked(pool, head, order), k)
    ensures var ids, r := Walked(pool, head, order), Pass(env, pool, raw, head, s, order, swept).0;
            s.handed <= r.handed &&
            (id in New(s, r) <==>
               id !in s.rows && (id in ids[..k]
                                 || (k < |ids| && id == ids[k] && id in raw && env.fate(id) != LookupFails)))
  {
    ScanWalks(env, pool, raw, head, s, order);
    HandsUpToFirstBad(env, raw, s, Walked(pool, head, order), k, id);
  }

  /** A transaction whose ProcessTx failed after its row was saved is not tried again while it stays in the pool. */
  lemma HalfWrittenStays(env: Env, pool: Pool, raw: set<TxId>, head: nat, s: Store, stale: set<TxId>, order: seq<TxId>,
                         swept: seq<TxId>, id: TxId)
    requires Orders(env, pool, raw, head, s, stale, order, swept)
    requires id in Ids(pool) && id in s.rows && s.rows[id] == Row(MEMPOOL, false)
    ensures var r := Pass(env, pool, raw, head, s, order, swept).0;
            id in r.rows && r.rows[id] == Row(MEMPOOL, false) && s.handed <= r.handed && id !in New(s, r)
  {
    OtherRowsKept(env, pool, raw, head, s, stale, order, swept, id);
    ScanIff(env, pool, raw, head, s, order);
  }

  /** Such a row comes about: by the pass in which ProcessTx fails late. */
  lemma HalfWrittenReached(env: Env, raw: set<TxId>, head: nat, id: TxId)
    requires env.fate(id) == FailsLate && id in raw
    ensures var pool := map[id := Entry(head + 1, [])];
            var r := Pass(env, pool, raw, head, Store(map[], []), [id], []);
            r == (Store(map[id := Row(MEMPOOL, false)], [id]), Failed)
  {
    var pool := map[id := Entry(head + 1, [])];
    assert Family(pool, id) == [id];
    assert map[][id := Row(MEMPOOL, false)] == map[id := Row(MEMPOOL, false)];
  }

  /** With the transactions that fetchMempoolRawTransactions returns, none is ever missing: the scan runs as if every
      transaction there is had been fetched. */
  lemma {:induction false} NoneIsMissing(env: Env, pool: Pool, raw: set<TxId>, more: set<TxId>, head: nat, s: Store,
                                         order: seq<TxId>)
    requires Ids(pool) <= raw <= more && forall id :: id in order ==> id in pool
    ensures Scan(env, pool, raw, head, s, order) == Scan(env, pool, more, head, s, order)
    decreases order
  {
    if order == [] || TooHigh(pool, head, order[0]) {
    } else {
      var family := Family(pool, order[0]);
      assert forall id :: id in family ==> id in Ids(pool);
      NoneMissing(env, raw, more, s, family);
      NoneIsMissing(env, pool, raw, more, head, ProcessAll(env, raw, s, family).0, order[1..]);
    }
  }

  lemma {:induction false} NoneMissing(env: Env, raw: set<TxId>, more: set<TxId>, s: Store, ids: seq<TxId>)
    requires forall id :: id in ids ==> id in raw && id in more
    ensures ProcessAll(env, raw, s, ids) == ProcessAll(env, more, s, ids)
    decreases ids
  {
    if ids == [] {
    } else {
      assert ids[0] in ids;
      NoneMissing(env, raw, more, Process(env, raw, s, ids[0]).0, ids[1..]);
    }
  }

  /** fetchMempoolRawTransactions; fetches says whether the node answers for a transaction. */
  method FetchMempoolRawTransactions(pool: Pool, fetches: TxId -> bool) returns (raw: Option<set<TxId>>)
    ensures raw.Some? <==> forall id :: id in Ids(pool) ==> fetches(id)
    ensures raw.Some? ==> raw.value == Ids(pool)
  {
    var ids := CollectIds(pool);
    raw := FetchAll(ids, fetches);
  }

  method FetchAll(ids: set<TxId>, fetches: TxId -> bool) returns (raw: Option<set<TxId>>)
    ensures raw.Some? <==> forall id :: id in ids ==> fetches(id)
    ensures raw.Some? ==> raw.value == ids
  {
    var todo, fetched := ids, {};
    while todo != {}
      invariant todo + fetched == ids && forall id :: id in fetched ==> fetches(id)
      decreases |todo|
    {
      var id :| id in todo;
      if !fetches(id) {
        return None;
      }
      todo, fetched := todo - {id}, fetched + {id};
    }
    raw := Some(fetched);
  }

  method CollectIds(pool: Pool) returns (ids: set<TxId>)
    ensures ids == Ids(pool)
  {
    var todo := pool.Keys;
    ids := {};
    while todo != {}
      invariant todo <= pool.Keys
      invariant forall x :: x in ids <==> InFamilies(pool, pool.Keys - todo, x)
      decreases |todo|
    {
      var id :| id in todo;
      InFamiliesOne(pool, pool.Keys - todo, id);
      assert pool.Keys - todo + {id} == pool.Keys - (todo - {id});
      todo := todo - {id};
      ids := ids + {id} + set d | d in pool[id].depends;
    }
    InFamiliesAll(pool);
    assert pool.Keys - todo == pool.Keys;
  }

  lemma InFamiliesAll(pool: Pool)
    ensures forall x :: InFamilies(pool, pool.Keys, x) <==> x in Ids(pool)
  {
    forall x
      ensures InFamilies(pool, pool.Keys, x) <==> x in Ids(pool)
    {
      if x in pool { assert x in Family(pool, x); }
      if x in Depending(pool) {
        var t :| t in pool && x in pool[t].depends;
        assert x in Family(pool, t);
      }
    }
  }

  ghost predicate InFamilies(pool: Pool, ts: set<TxId>, x: TxId) {
    exists t :: t in pool && t in ts && x in Family(pool, t)
  }

  lemma InFamiliesOne(pool: Pool, ts: set<TxId>, id: TxId)
    requires id in pool
    ensures forall x :: InFamilies(pool, ts + {id}, x) <==> InFamilies(pool, ts, x) || x in Family(pool, id)
  {
  }

  // ---- the order in which transactions are handed over ----

  function Needs(pool: Pool, id: TxId): seq<TxId> {
    if id in pool then pool[id].depends else []
  }

  /** Each transaction comes after those it depends on, as far as they did not have a row before. */
  ghost predicate Topological(pool: Pool, rows: Rows, handed: seq<TxId>) {
    forall k, d :: 0 <= k < |handed| && d in Needs(pool, handed[k]) ==> d in rows || d in handed[..k]
  }

  ghost predicate FamilyInOrder(pool: Pool, rows: Rows, family: seq<TxId>) {
    forall k, d :: 0 <= k < |family| && d in Needs(pool, family[k]) ==>
                     family[k] in rows || d in rows || d in family[..k]
  }

  /** Every list of dependencies names, before a transaction, all that one depends on. */
  ghost predicate ParentsFirst(pool: Pool, rows: Rows) {
    forall t :: t in pool ==> FamilyInOrder(pool, rows, Family(pool, t))
  }

  /** Every row that was not there before belongs to a transaction handed over. */
  ghost predicate Accounted(pool: Pool, rows: Rows, s: Store) {
    && Topological(pool, rows, s.handed) && (forall id :: id in rows ==> id in s.rows)
    && (forall id :: id in s.rows ==> id in rows || id in s.handed)
  }

  lemma ProcessAccounts(env: Env, pool: Pool, raw: set<TxId>, rows: Rows, s: Store, id: TxId)
    requires Accounted(pool, rows, s)
    requires id in rows || forall d :: d in Needs(pool, id) ==> d in s.rows
    ensures Topological(pool, rows, Process(env, raw, s, id).0.handed)
    ensures Process(env, raw, s, id).1 ==> Accounted(pool, rows, Process(env, raw, s, id).0)
  {
    var more := s.handed + [id];
    forall k, d | 0 <= k < |more| && d in Needs(pool, more[k]) && id !in s.rows
      ensures d in rows || d in more[..k]
    {
      if k < |s.handed| {
        assert more[..k] == s.handed[..k] && d in Needs(pool, s.handed[k]);
      } else {
        assert more[..k] == s.handed;
      }
    }
  }

  lemma {:induction false} FamilyAccounts(env: Env, pool: Pool, raw: set<TxId>, rows: Rows, s: Store,
                                          family: seq<TxId>, k: nat)
    requires Accounted(pool, rows, s) && FamilyInOrder(pool, rows, family)
    requires k <= |family| && forall id :: id in family[..k] ==> id in s.rows
    ensures var r := ProcessAll(env, raw, s, family[k..]);
            Topological(pool, rows, r.0.handed) && (r.1 ==> Accounted(pool, rows, r.0))
    decreases |family| - k
  {
    if k < |family| {
      var id := family[k];
      assert family[k..][0] == id && family[k..][1..] == family[k + 1..];
      ProcessAccounts(env, pool, raw, rows, s, id);
      var one := Process(env, raw, s, id);
      if one.1 {
        assert family[..k + 1] == family[..k] + [id];
        FamilyAccounts(env, pool, raw, rows, one.0, family, k + 1);
      }
    }
  }

  lemma {:induction false} ScanAccounts(env: Env, pool: Pool, raw: set<TxId>, head: nat, rows: Rows, s: Store,
                                        order: seq<TxId>)
    requires Accounted(pool, rows, s) && ParentsFirst(pool, rows) && forall id :: id in order ==> id in pool
    ensures Topological(pool, rows, Scan(env, pool, raw, head, s, order).0.handed)
    decreases order
  {
    if order == [] || TooHigh(pool, head, order[0]) {
    } else {
      var family := Family(pool, order[0]);
      assert family[0..] == family;
      FamilyAccounts(env, pool, raw, rows, s, family, 0);
      var one := ProcessAll(env, raw, s, family);
      if one.1 {
        ScanAccounts(env, pool, raw, head, rows, one.0, order[1..]);
      }
    }
  }

  lemma {:induction false} ProcessAllSplits(env: Env, raw: set<TxId>, s: Store, a: seq<TxId>, b: seq<TxId>)
    requires ProcessAll(env, raw, s, a).1
    ensures ProcessAll(env, raw, s, a + b) == ProcessAll(env, raw, ProcessAll(env, raw, s, a).0, b)
    decreases a
  {
    if a == [] {
      assert a + b == b;
    } else {
      assert (a + b)[1..] == a[1..] + b;
      ProcessAllSplits(env, raw, Process(env, raw, s, a[0]).0, a[1..], b);
    }
  }

  /** After the first k of a list, exactly these have been handed over, as far as they had no row. */
  lemma HandedSoFar(env: Env, raw: set<TxId>, rows: Rows, family: seq<TxId>, k: nat) returns (before: seq<TxId>)
    requires AllHealthy(env, raw, rows, SetOf(family)) && k < |family| && family[k] !in rows
    ensures forall id :: id in before <==> id in family[..k] && id !in rows
    ensures var all := ProcessAll(env, raw, Store(rows, []), family).0.handed;
            before <= all && (family[k] !in before ==> before + [family[k]] <= all)
  {
    var s, y := Store(rows, []), family[k];
    ProcessAllIff(env, raw, s, family[..k]);
    var b := ProcessAll(env, raw, s, family[..k]).0;
    before := b.handed;
    assert before == New(s, b);
    assert family == family[..k] + family[k..];
    ProcessAllSplits(env, raw, s, family[..k], family[k..]);
    ProcessAllIff(env, raw, b, family[k..]);
    assert family[k..][0] == y;
    assert Healthy(env, raw, rows, y);
    ProcessAllIff(env, raw, Process(env, raw, b, y).0, family[k..][1..]);
  }

  /** A list that names a transaction before one it depends on is followed as it stands. */
  lemma FollowsList(env: Env, pool: Pool, raw: set<TxId>, rows: Rows, family: seq<TxId>, k: nat, d: TxId,
                    handed: seq<TxId>)
    requires AllHealthy(env, raw, rows, SetOf(family)) && k < |family| && d in Needs(pool, family[k])
    requires family[k] !in rows && d !in rows && d !in family[..k]
    requires ProcessAll(env, raw, Store(rows, []), family).0.handed <= handed
    ensures !Topological(pool, rows, handed)
  {
    var before := HandedSoFar(env, raw, rows, family, k);
    var y := family[k];
    var p := if y in before then IndexOf(before, y) else |before|;
    assert handed[..|before|] == before;
    assert handed[p] == y;
    forall id | id in handed[..p]
      ensures id in before
    {
      assert handed[..p] == before[..p];
    }
    assert d !in handed[..p];
  }

  lemma ListFrom(pool: Pool, t: TxId) returns (order: seq<TxId>)
    requires t in pool
    ensures YieldsAll(order, pool.Keys) && order != [] && order[0] == t
  {
    var rest := ListOf(pool.Keys - {t});
    assert forall id :: id in rest <==> id in SetOf(rest);
    order := [t] + rest;
  }

  lemma BadListIsFollowed(env: Env, pool: Pool, raw: set<TxId>, head: nat, rows: Rows, t: TxId)
    returns (order: seq<TxId>)
    requires (forall id :: id in pool ==> pool[id].height <= head + 1) && AllHealthy(env, raw, rows, Ids(pool))
    requires t in pool && !FamilyInOrder(pool, rows, Family(pool, t))
    ensures YieldsAll(order, pool.Keys)
    ensures !Topological(pool, rows, Scan(env, pool, raw, head, Store(rows, []), order).0.handed)
  {
    order := ListFrom(pool, t);
    var family := Family(pool, t);
    assert forall id :: id in family ==> id in Ids(pool);
    var k, d :| 0 <= k < |family| && d in Needs(pool, family[k])
      && !(family[k] in rows || d in rows || d in family[..k]);
    ScanExtends(env, pool, raw, head, rows, order);
    FollowsList(env, pool, raw, rows, family, k, d, Scan(env, pool, raw, head, Store(rows, []), order).0.handed);
  }

  lemma ScanExtends(env: Env, pool: Pool, raw: set<TxId>, head: nat, rows: Rows, order: seq<TxId>)
    requires order != [] && (forall id :: id in order ==> id in pool) && pool[order[0]].height <= head + 1
    requires AllHealthy(env, raw, rows, SetOf(Family(pool, order[0])))
    ensures var s := Store(rows, []);
            ProcessAll(env, raw, s, Family(pool, order[0])).0.handed <= Scan(env, pool, raw, head, s, order).0.handed
  {
    ProcessAllIff(env, raw, Store(rows, []), Family(pool, order[0]));
    ScanIff(env, pool, raw, head, ProcessAll(env, raw, Store(rows, []), Family(pool, order[0])).0, order[1..]);
  }

  /** Dependencies are handed over before what needs them, for every order in which the pool is walked, exactly
      when every list of dependencies is complete and in order itself: a pass looks one level deep only. */
  lemma TopologicalIff(env: Env, pool: Pool, raw: set<TxId>, head: nat, rows: Rows)
    requires (forall id :: id in pool ==> pool[id].height <= head + 1) && AllHealthy(env, raw, rows, Ids(pool))
    ensures ParentsFirst(pool, rows) <==>
            forall order :: YieldsAll(order, pool.Keys) ==>
                              Topological(pool, rows, Scan(env, pool, raw, head, Store(rows, []), order).0.handed)
  {
    if ParentsFirst(pool, rows) {
      forall order | YieldsAll(order, pool.Keys)
        ensures Topological(pool, rows, Scan(env, pool, raw, head, Store(rows, []), order).0.handed)
      {
        ScanAccounts(env, pool, raw, head, rows, Store(rows, []), order);
      }
    } else {
      var t :| t in pool && !FamilyInOrder(pool, rows, Family(pool, t));
      var order := BadListIsFollowed(env, pool, raw, head, rows, t);
    }
  }

  // ---- the flag that keeps passes apart ----

  /** passes are under way, resets are delayed resets that have not fired. */
  datatype Flag = Flag(on: bool, passes: nat, resets: nat)
  datatype Event = Call | Return(running: bool) | ResetFires

  predicate CanHappen(f: Flag, e: Event) {
    match e
    case Call => true
    case Return(_) => f.passes > 0
    case ResetFires => f.resets > 0
  }

  function Happen(f: Flag, e: Event): Flag
    requires CanHappen(f, e)
  {
    match e
    case Call => if f.on then f else Flag(true, f.passes + 1, f.resets)
    case Return(running) => if running then Flag(f.on, f.passes - 1, f.resets + 1)
                            else Flag(false, f.passes - 1, f.resets)
    case ResetFires => Flag(false, f.passes, f.resets - 1)
  }

  predicate History(f: Flag, es: seq<Event>)
    decreases es
  {
    es == [] || (CanHappen(f, es[0]) && History(Happen(f, es[0]), es[1..]))
  }

  function Later(f: Flag, es: seq<Event>): Flag
    requires History(f, es)
    decreases es
  {
    if es == [] then f else Later(Happen(f, es[0]), es[1..])
  }

  lemma {:induction false} LaterOn(f: Flag, es: seq<Event>, k: nat)
    requires History(f, es) && k <= |es|
    ensures History(f, es[..k]) && History(Later(f, es[..k]), es[k..])
    ensures Later(f, es) == Later(Later(f, es[..k]), es[k..])
    decreases es
  {
    if k == 0 {
      assert es[0..] == es;
    } else {
      LaterOn(Happen(f, es[0]), es[1..], k - 1);
      assert es[..k][1..] == es[1..][..k - 1] && es[1..][k - 1..] == es[k..];
    }
  }

  lemma {:induction false} CallsOnly(f: Flag, es: seq<Event>)
    requires History(f, es) && forall j :: 0 <= j < |es| ==> es[j] == Call
    ensures Later(f, es) == if es == [] || f.on then f else Flag(true, f.passes + 1, f.resets)
    decreases es
  {
    if es == [] {
    } else {
      CallsOnly(Happen(f, es[0]), es[1..]);
    }
  }

  /** The state after any history follows from its last return or reset and whether a call came after it: a call then
      starts a pass, unless that was a return that found the daemon behind, which leaves its reset pending. */
  lemma FlagFollows(es: seq<Event>, k: nat)
    requires History(Flag(false, 0, 0), es) && k <= |es|
    requires (forall j :: k <= j < |es| ==> es[j] == Call) && (k > 0 ==> es[k - 1] != Call)
    ensures Later(Flag(false, 0, 0), es) ==
            if k > 0 && es[k - 1] == Return(true) then Flag(true, 0, 1)
            else if k < |es| then Flag(true, 1, 0)
            else Flag(false, 0, 0)
  {
    LaterOn(Flag(false, 0, 0), es, k);
    if k == 0 {
      assert es[..k] == [];
    } else {
      AfterReturn(es[..k]);
    }
    CallsOnly(Later(Flag(false, 0, 0), es[..k]), es[k..]);
  }

  lemma AfterReturn(es: seq<Event>)
    requires History(Flag(false, 0, 0), es) && es != [] && es[|es| - 1] != Call
    ensures Later(Flag(false, 0, 0), es) == if es[|es| - 1] == Return(true) then Flag(true, 0, 1) else Flag(false, 0, 0)
  {
    var off, n := Flag(false, 0, 0), |es| - 1;
    LaterOn(off, es, n);
    OnePassAtATime(off, es[..n]);
    LastEvent(Later(off, es[..n]), es[n..]);
    ReturnFrom(Later(off, es[..n]), es[n]);
  }

  lemma ReturnFrom(f: Flag, e: Event)
    requires CanHappen(f, e) && e != Call && f.passes + f.resets == if f.on then 1 else 0
    ensures Happen(f, e) == if e == Return(true) then Flag(true, 0, 1) else Flag(false, 0, 0)
  {
  }

  lemma LastEvent(f: Flag, es: seq<Event>)
    requires |es| == 1 && History(f, es)
    ensures CanHappen(f, es[0]) && Later(f, es) == Happen(f, es[0])
  {
    assert es[1..] == [];
  }

  /** At any time at most one pass runs or one delayed reset is pending, and the flag is set exactly while one is:
      no two passes overlap, a pass that found the daemon behind keeps others out until its reset fires, and the
      flag is never left set. */
  lemma {:induction false} OnePassAtATime(f: Flag, es: seq<Event>)
    requires History(f, es) && f.passes + f.resets == (if f.on then 1 else 0)
    ensures var g := Later(f, es); g.passes + g.resets == if g.on then 1 else 0
    decreases es
  {
    if es == [] {
    } else {
      OnePassAtATime(Happen(f, es[0]), es[1..]);
    }
  }
}
