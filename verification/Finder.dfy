/** The output selector of e2e/finder.go and the transaction e2e/transaction.go funds with it; amounts are exact. */
module Finder {

  datatype Output = Output(txId: string, vout: nat, spendable: bool, amount: real)
  datatype Result<T> = Ok(value: T) | Err

  const FEE := 0.1

  /** The spendable outputs at positions lo to hi - 1, in order. */
  function Between(unspent: seq<Output>, lo: nat, hi: nat): seq<Output>
    requires lo <= hi <= |unspent|
    decreases hi - lo
  {
    if lo == hi then []
    else Between(unspent, lo, hi - 1) + if unspent[hi - 1].spendable then [unspent[hi - 1]] else []
  }

  function Sum(outputs: seq<Output>): real {
    if outputs == [] then 0.0 else Sum(outputs[..|outputs| - 1]) + outputs[|outputs| - 1].amount
  }

  /** The spendable outputs after the cursor up to i; none while i has not passed the cursor. */
  function Gathered(unspent: seq<Output>, cursor: int, i: int): seq<Output>
    requires -1 <= cursor && i < |unspent|
  {
    if i <= cursor then [] else Between(unspent, cursor + 1, i + 1)
  }

  /** What they add up to. */
  function Total(unspent: seq<Output>, cursor: int, i: int): real
    requires -1 <= cursor && i < |unspent|
    decreases i + 1
  {
    if i <= cursor then 0.0 else Total(unspent, cursor, i - 1) + if unspent[i].spendable then unspent[i].amount else 0.0
  }

  lemma {:induction false} TotalIsSum(unspent: seq<Output>, cursor: int, i: int)
    requires -1 <= cursor && i < |unspent|
    ensures Total(unspent, cursor, i) == Sum(Gathered(unspent, cursor, i))
    decreases i + 1
  {
    if i > cursor {
      TotalIsSum(unspent, cursor, i - 1);
      GatheredStep(unspent, cursor, i);
      SumIf(Gathered(unspent, cursor, i - 1), unspent[i], unspent[i].spendable);
    }
  }

  lemma SumSnoc(outputs: seq<Output>, o: Output)
    ensures Sum(outputs + [o]) == Sum(outputs) + o.amount
  {
    assert (outputs + [o])[..|outputs|] == outputs;
  }

  lemma SumIf(outputs: seq<Output>, o: Output, more: bool)
    ensures Sum(outputs + if more then [o] else []) == Sum(outputs) + if more then o.amount else 0.0
  {
    if more {
      SumSnoc(outputs, o);
    } else {
      assert outputs + [] == outputs;
    }
  }

  lemma GatheredStep(unspent: seq<Output>, cursor: int, i: nat)
    requires -1 <= cursor && i < |unspent|
    ensures Gathered(unspent, cursor, i) ==
            Gathered(unspent, cursor, i - 1) + if i > cursor && unspent[i].spendable then [unspent[i]] else []
  {
    assert i > cursor ==> Gathered(unspent, cursor, i - 1) == Between(unspent, cursor + 1, i);
  }

  /** Nothing before position n reaches the minimum. */
  ghost predicate Short(unspent: seq<Output>, cursor: int, min: real, n: nat)
    requires -1 <= cursor && n <= |unspent|
  {
    forall k :: 0 <= k < n ==> Total(unspent, cursor, k) < min
  }

  /** The first position, from the start of the list, at which enough is gathered. */
  ghost predicate StopsAt(unspent: seq<Output>, cursor: int, min: real, i: int)
    requires -1 <= cursor
  {
    0 <= i < |unspent| && Total(unspent, cursor, i) >= min && Short(unspent, cursor, min, i)
  }

  /** One call: what is returned, and the cursor afterwards. */
  ghost predicate Next(unspent: seq<Output>, cursor: int, min: real, r: Result<seq<Output>>, cursor': int)
    requires -1 <= cursor
  {
    if unspent == [] then r == Ok([]) && cursor' == cursor
    else if r.Ok? then StopsAt(unspent, cursor, min, cursor') && r.value == Gathered(unspent, cursor, cursor')
    else cursor' == cursor && Short(unspent, cursor, min, |unspent|)
  }

  class OutputFinder {
    const unspent: seq<Output>
    var lastChecked: int

    constructor (unspentResults: seq<Output>)
      ensures unspent == unspentResults && lastChecked == -1
    {
      unspent, lastChecked := unspentResults, -1;
    }

    method NextBatch(minAmount: real) returns (r: Result<seq<Output>>)
      requires -1 <= lastChecked
      modifies this
      ensures -1 <= lastChecked && Next(unspent, old(lastChecked), minAmount, r, lastChecked)
    {
      var batch: seq<Output> := [];
      var lbcBatched := 0.0;
      for i := 0 to |unspent|
        invariant lastChecked == old(lastChecked)
        invariant batch == Gathered(unspent, lastChecked, i - 1) && lbcBatched == Total(unspent, lastChecked, i - 1)
        invariant Short(unspent, lastChecked, minAmount, i)
        invariant i == |unspent| ==> unspent == []
      {
        GatheredStep(unspent, lastChecked, i);
        if i > lastChecked {
          if unspent[i].spendable {
            batch := batch + [unspent[i]];
            lbcBatched := lbcBatched + unspent[i].amount;
          }
        }
        if lbcBatched >= minAmount {
          lastChecked := i;
          return Ok(batch);
        }
        if i == |unspent| - 1 {
          return Err;
        }
      }
      r := Ok(batch);
    }
  }

  // ---- what one call promises ----

  ghost predicate NonNegative(unspent: seq<Output>) {
    forall i :: 0 <= i < |unspent| ==> unspent[i].amount >= 0.0
  }

  lemma {:induction false} BetweenGrows(unspent: seq<Output>, lo: nat, mid: nat, hi: nat)
    requires NonNegative(unspent) && lo <= mid <= hi <= |unspent|
    ensures 0.0 <= Sum(Between(unspent, lo, mid)) <= Sum(Between(unspent, lo, hi))
    decreases hi
  {
    if mid < hi {
      BetweenGrows(unspent, lo, mid, hi - 1);
      BetweenStep(unspent, lo, hi);
    } else if lo < hi {
      BetweenGrows(unspent, lo, lo, hi - 1);
      BetweenStep(unspent, lo, hi);
    }
  }

  lemma BetweenStep(unspent: seq<Output>, lo: nat, hi: nat)
    requires lo < hi <= |unspent|
    ensures var o := unspent[hi - 1];
            Sum(Between(unspent, lo, hi)) == Sum(Between(unspent, lo, hi - 1)) + if o.spendable then o.amount else 0.0
  {
    SumIf(Between(unspent, lo, hi - 1), unspent[hi - 1], unspent[hi - 1].spendable);
  }

  /** For a positive minimum: a call fails exactly when the spendable outputs left do not reach it. */
  lemma FailsIff(unspent: seq<Output>, cursor: int, min: real, r: Result<seq<Output>>, cursor': int)
    requires NonNegative(unspent) && unspent != [] && min > 0.0 && -1 <= cursor < |unspent|
             && Next(unspent, cursor, min, r, cursor')
    ensures r == Err <==> Sum(Between(unspent, cursor + 1, |unspent|)) < min
  {
    if r.Ok? {
      assert cursor' > cursor;
      SumReaches(unspent, cursor, cursor');
    } else {
      TotalIsSum(unspent, cursor, |unspent| - 1);
      assert Total(unspent, cursor, |unspent| - 1) < min;
    }
  }

  lemma GatheredIs(unspent: seq<Output>, cursor: int, i: nat)
    requires -1 <= cursor < i < |unspent|
    ensures Total(unspent, cursor, i) == Sum(Between(unspent, cursor + 1, i + 1))
  {
    TotalIsSum(unspent, cursor, i);
  }

  lemma SumReaches(unspent: seq<Output>, cursor: int, i: nat)
    requires NonNegative(unspent) && -1 <= cursor < i < |unspent|
    ensures Total(unspent, cursor, i) <= Sum(Between(unspent, cursor + 1, |unspent|))
  {
    GatheredIs(unspent, cursor, i);
    BetweenGrows(unspent, cursor + 1, i + 1, |unspent|);
  }

  /** The batch reaches the minimum, and without its last output it does not. */
  lemma BatchIsMinimal(unspent: seq<Output>, cursor: int, min: real, r: Result<seq<Output>>, cursor': int)
    requires unspent != [] && min > 0.0 && -1 <= cursor && Next(unspent, cursor, min, r, cursor') && r.Ok?
    ensures cursor < cursor' < |unspent| && r.value == Between(unspent, cursor + 1, cursor' + 1)
    ensures r.value != [] && Sum(r.value) >= min && Sum(r.value[..|r.value| - 1]) < min
  {
    assert cursor' > cursor;
    var before := Between(unspent, cursor + 1, cursor');
    GatheredIs(unspent, cursor, cursor');
    TotalIsSum(unspent, cursor, cursor' - 1);
    BetweenStep(unspent, cursor + 1, cursor' + 1);
    if cursor' > 0 {
      assert Total(unspent, cursor, cursor' - 1) < min;
    }
    assert Sum(before) < min;
    assert r.value[..|r.value| - 1] == before;
  }

  /** The cursor never moves back, except exactly when the minimum is not positive: then the search stops at the
      first output. */
  lemma RewindsIff(unspent: seq<Output>, cursor: int, min: real, r: Result<seq<Output>>, cursor': int)
    requires NonNegative(unspent) && -1 <= cursor < |unspent| && Next(unspent, cursor, min, r, cursor')
    ensures cursor' < cursor <==> min <= 0.0 && cursor > 0
  {
    if unspent != [] && min <= 0.0 {
      assert Total(unspent, cursor, 0) >= 0.0;
    }
  }

  // ---- what a sequence of calls promises ----

  /** The calls of a run: minimum, result and cursor afterwards. */
  datatype Call = Call(min: real, r: Result<seq<Output>>, cursor: int)

  ghost predicate Calls(unspent: seq<Output>, cursor: int, calls: seq<Call>)
    requires -1 <= cursor
    decreases |calls|
  {
    calls == [] || (Next(unspent, cursor, calls[0].min, calls[0].r, calls[0].cursor) && -1 <= calls[0].cursor
                    && Calls(unspent, calls[0].cursor, calls[1..]))
  }

  /** No call asks for nothing once the cursor has passed the first output. */
  predicate NeverRewinds(cursor: int, calls: seq<Call>)
    decreases |calls|
  {
    calls == [] || ((calls[0].min > 0.0 || cursor <= 0) && NeverRewinds(calls[0].cursor, calls[1..]))
  }

  function LastCursor(cursor: int, calls: seq<Call>): int {
    if calls == [] then cursor else calls[|calls| - 1].cursor
  }

  lemma LastCursorTail(cursor: int, calls: seq<Call>)
    requires calls != []
    ensures LastCursor(cursor, calls) == LastCursor(calls[0].cursor, calls[1..])
  {
  }

  /** Everything the calls returned, one batch after the other. */
  function Batches(calls: seq<Call>): seq<Output>
    decreases |calls|
  {
    if calls == [] then [] else Batch(calls[0]) + Batches(calls[1..])
  }

  lemma {:induction false} BetweenSplits(unspent: seq<Output>, lo: nat, mid: nat, hi: nat)
    requires lo <= mid <= hi <= |unspent|
    ensures Between(unspent, lo, hi) == Between(unspent, lo, mid) + Between(unspent, mid, hi)
    decreases hi
  {
    if mid == hi {
    } else {
      BetweenSplits(unspent, lo, mid, hi - 1);
    }
  }

  lemma BetweenCursors(unspent: seq<Output>, a: int, b: int, c: int)
    requires -1 <= a <= b <= c < |unspent|
    ensures Between(unspent, a + 1, b + 1) + Between(unspent, b + 1, c + 1) == Between(unspent, a + 1, c + 1)
  {
    BetweenSplits(unspent, a + 1, b + 1, c + 1);
  }

  /** While no call rewinds, the batches, put together, are the spendable outputs between the first and the last
      cursor, in order: no position is handed out twice and none is passed over. */
  lemma {:induction false} BatchesPartition(unspent: seq<Output>, cursor: int, calls: seq<Call>)
    requires -1 <= cursor < |unspent| && Calls(unspent, cursor, calls) && NeverRewinds(cursor, calls)
    ensures cursor <= LastCursor(cursor, calls) < |unspent|
    ensures Batches(calls) == Between(unspent, cursor + 1, LastCursor(cursor, calls) + 1)
    decreases |calls|
  {
    if calls == [] {
    } else {
      var c := calls[0];
      OneBatch(unspent, cursor, c);
      BatchesPartition(unspent, c.cursor, calls[1..]);
      LastCursorTail(cursor, calls);
      BetweenCursors(unspent, cursor, c.cursor, LastCursor(cursor, calls));
    }
  }

  function Batch(c: Call): seq<Output> {
    if c.r.Ok? then c.r.value else []
  }

  lemma OneBatch(unspent: seq<Output>, cursor: int, c: Call)
    requires -1 <= cursor < |unspent| && (c.min > 0.0 || cursor <= 0) && Next(unspent, cursor, c.min, c.r, c.cursor)
    ensures cursor <= c.cursor < |unspent| && Batch(c) == Between(unspent, cursor + 1, c.cursor + 1)
    ensures c.r == Err || unspent == [] ==> c.cursor == cursor
  {
    if c.r.Ok? && unspent != [] && c.min > 0.0 {
      BatchIsMinimal(unspent, cursor, c.min, c.r, c.cursor);
    }
  }

  /** A call with minimum zero between two others: the second output is handed out twice. */
  lemma HandedOutTwice(a: Output, b: Output)
    requires a.spendable && b.spendable && a.amount == b.amount == 1.0
    ensures Next([a, b], -1, 2.0, Ok([a, b]), 1) && Next([a, b], 1, 0.0, Ok([]), 0) && Next([a, b], 0, 1.0, Ok([b]), 1)
  {
    var u := [a, b];
    GatheredStep(u, -1, 0);
    GatheredStep(u, -1, 1);
    GatheredStep(u, 0, 1);
    assert Total(u, -1, 0) == 1.0 && Total(u, -1, 1) == 2.0 && Total(u, 1, 0) == 0.0 && Total(u, 0, 0) == 0.0
           && Total(u, 0, 1) == 1.0;
  }

  // ---- funding a transaction ----

  /** The loop of getEmptyTx that collects the inputs and adds up their amounts. */
  method CollectInputs(outputs: seq<Output>) returns (inputs: seq<(string, nat)>, totalInputSpend: real)
    ensures |inputs| == |outputs| && forall k :: 0 <= k < |inputs| ==> inputs[k] == (outputs[k].txId, outputs[k].vout)
    ensures totalInputSpend == Sum(outputs)
  {
    inputs, totalInputSpend := [], 0.0;
    for k := 0 to |outputs|
      invariant |inputs| == k && forall j :: 0 <= j < k ==> inputs[j] == (outputs[j].txId, outputs[j].vout)
      invariant totalInputSpend == Sum(outputs[..k])
    {
      assert outputs[..k + 1][..k] == outputs[..k];
      inputs := inputs + [(outputs[k].txId, outputs[k].vout)];
      totalInputSpend := totalInputSpend + outputs[k].amount;
    }
    assert outputs[..|outputs|] == outputs;
  }

  /** What a new selector returns for a minimum. */
  lemma FirstBatch(unspent: seq<Output>, min: real, r: Result<seq<Output>>, cursor': int)
    requires Next(unspent, -1, min, r, cursor')
    ensures r.Ok? && r.value != [] ==>
              Sum(r.value) >= min && exists n: nat :: n <= |unspent| && r.value == Between(unspent, 0, n)
    ensures NonNegative(unspent) && min > 0.0 ==>
              (r.Ok? && r.value != [] <==> Sum(Between(unspent, 0, |unspent|)) >= min)
  {
    if unspent != [] {
      if NonNegative(unspent) && min > 0.0 { FailsIff(unspent, -1, min, r, cursor'); }
      if r.Ok? {
        TotalIsSum(unspent, -1, cursor');
        if min > 0.0 { BatchIsMinimal(unspent, -1, min, r, cursor'); }
        assert r.value == Between(unspent, 0, cursor' + 1);
      }
    }
  }

  /** getEmptyTx up to the raw transaction: the inputs and the change. */
  method GetEmptyTx(unspentResults: seq<Output>, totalOutputSpend: real)
    returns (r: Result<(seq<(string, nat)>, real)>, ghost spent: seq<Output>)
    ensures r.Ok? ==>
              && spent != [] && |r.value.0| == |spent|
              && (forall k :: 0 <= k < |spent| ==> r.value.0[k] == (spent[k].txId, spent[k].vout))
              && Sum(spent) == totalOutputSpend + 0.1 + r.value.1 && r.value.1 >= 0.0
              && exists n: nat :: n <= |unspentResults| && spent == Between(unspentResults, 0, n)
    ensures NonNegative(unspentResults) && totalOutputSpend + 0.1 > 0.0 ==>
              (r.Ok? <==> Sum(Between(unspentResults, 0, |unspentResults|)) >= totalOutputSpend + 0.1)
  {
    var finder := new OutputFinder(unspentResults);
    var outputs := finder.NextBatch(totalOutputSpend + FEE);
    FirstBatch(unspentResults, totalOutputSpend + FEE, outputs, finder.lastChecked);
    if outputs.Err? || |outputs.value| == 0 {
      return Err, [];
    }
    spent := outputs.value;
    var inputs, totalInputSpend := CollectInputs(outputs.value);
    r := Ok((inputs, totalInputSpend - totalOutputSpend - FEE));
  }
}
