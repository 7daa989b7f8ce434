/** When the output selector hands a position out twice. */
module FinderRepeats {
  import opened Collections
  import opened Finder

  /** The spendable positions from lo to hi - 1. */
  function Spendable(unspent: seq<Output>, lo: nat, hi: nat): seq<nat>
    requires lo <= hi <= |unspent|
    decreases hi - lo
  {
    if lo == hi then [] else Spendable(unspent, lo, hi - 1) + if unspent[hi - 1].spendable then [hi - 1] else []
  }

  ghost predicate AscendsBelow(ps: seq<nat>, hi: nat) {
    (forall k :: 0 <= k < |ps| ==> ps[k] < hi) && forall i, j :: 0 <= i < j < |ps| ==> ps[i] < ps[j]
  }

  lemma {:induction false} SpendableAscends(unspent: seq<Output>, lo: nat, hi: nat)
    requires lo <= hi <= |unspent|
    ensures AscendsBelow(Spendable(unspent, lo, hi), hi)
    decreases hi
  {
    if lo == hi {
    } else {
      SpendableAscends(unspent, lo, hi - 1);
      OneAbove(Spendable(unspent, lo, hi - 1), hi - 1);
    }
  }

  lemma OneAbove(ps: seq<nat>, p: nat)
    requires AscendsBelow(ps, p)
    ensures AscendsBelow(ps + [p], p + 1) && AscendsBelow(ps + [], p + 1)
  {
  }

  lemma {:induction false} SpendableHas(unspent: seq<Output>, lo: nat, hi: nat, p: nat)
    requires lo <= hi <= |unspent|
    ensures p in Spendable(unspent, lo, hi) <==> lo <= p < hi && unspent[p].spendable
    decreases hi
  {
    if lo == hi {
    } else {
      SpendableHas(unspent, lo, hi - 1, p);
    }
  }

  lemma SpendableIs(unspent: seq<Output>, lo: nat, hi: nat)
    requires lo <= hi <= |unspent|
    ensures Distinct(Spendable(unspent, lo, hi))
    ensures forall p :: p in Spendable(unspent, lo, hi) <==> lo <= p < hi && unspent[p].spendable
  {
    SpendableAscends(unspent, lo, hi);
    forall p: nat
      ensures p in Spendable(unspent, lo, hi) <==> lo <= p < hi && unspent[p].spendable
    {
      SpendableHas(unspent, lo, hi, p);
    }
  }

  /** The outputs at some positions. */
  function OutputsAt(unspent: seq<Output>, ps: seq<nat>): seq<Output>
    requires forall k :: 0 <= k < |ps| ==> ps[k] < |unspent|
  {
    seq(|ps|, k requires 0 <= k < |ps| => unspent[ps[k]])
  }

  lemma OutputsAtSnoc(unspent: seq<Output>, ps: seq<nat>, p: nat)
    requires (forall k :: 0 <= k < |ps| ==> ps[k] < |unspent|) && p < |unspent|
    ensures OutputsAt(unspent, ps + [p]) == OutputsAt(unspent, ps) + [unspent[p]]
  {
  }

  lemma {:induction false} BetweenIsAt(unspent: seq<Output>, lo: nat, hi: nat)
    requires lo <= hi <= |unspent|
    ensures forall k :: 0 <= k < |Spendable(unspent, lo, hi)| ==> Spendable(unspent, lo, hi)[k] < |unspent|
    ensures Between(unspent, lo, hi) == OutputsAt(unspent, Spendable(unspent, lo, hi))
    decreases hi
  {
    if lo == hi {
    } else {
      var ps := Spendable(unspent, lo, hi - 1);
      BetweenIsAt(unspent, lo, hi - 1);
      if unspent[hi - 1].spendable {
        OutputsAtSnoc(unspent, ps, hi - 1);
      } else {
        assert ps + [] == ps && Between(unspent, lo, hi - 1) + [] == Between(unspent, lo, hi - 1);
      }
    }
  }

  /** The positions of the outputs that a call returns. */
  function Positions(unspent: seq<Output>, cursor: int, c: Call): seq<nat>
    requires -1 <= cursor
  {
    if c.r.Ok? && cursor < c.cursor < |unspent| then Spendable(unspent, cursor + 1, c.cursor + 1) else []
  }

  /** They are the positions of its batch. */
  lemma PositionsOfBatch(unspent: seq<Output>, cursor: int, c: Call)
    requires -1 <= cursor && Next(unspent, cursor, c.min, c.r, c.cursor)
    ensures forall k :: 0 <= k < |Positions(unspent, cursor, c)| ==> Positions(unspent, cursor, c)[k] < |unspent|
    ensures Batch(c) == OutputsAt(unspent, Positions(unspent, cursor, c))
  {
    if c.r.Ok? && cursor < c.cursor < |unspent| {
      BetweenIsAt(unspent, cursor + 1, c.cursor + 1);
    }
  }

  /** All positions handed out, in order. */
  ghost function Handed(unspent: seq<Output>, cursor: int, calls: seq<Call>): seq<nat>
    requires -1 <= cursor && Calls(unspent, cursor, calls)
    decreases |calls|
  {
    if calls == [] then [] else Positions(unspent, cursor, calls[0]) + Handed(unspent, calls[0].cursor, calls[1..])
  }

  /** Where a search that has reached position i without success stops. */
  function SearchFrom(unspent: seq<Output>, cursor: int, min: real, i: nat): int
    requires -1 <= cursor && i <= |unspent|
    decreases |unspent| - i
  {
    if i == |unspent| then cursor
    else if Total(unspent, cursor, i) >= min then i
    else SearchFrom(unspent, cursor, min, i + 1)
  }

  /** The cursor after a call, from the amount asked for. */
  function CursorAfter(unspent: seq<Output>, cursor: int, min: real): (r: int)
    requires -1 <= cursor
    ensures -1 <= r
  {
    SearchStays(unspent, cursor, min, 0);
    SearchFrom(unspent, cursor, min, 0)
  }

  lemma {:induction false} SearchStays(unspent: seq<Output>, cursor: int, min: real, i: nat)
    requires -1 <= cursor && i <= |unspent|
    ensures -1 <= SearchFrom(unspent, cursor, min, i)
    decreases |unspent| - i
  {
    if i == |unspent| {
    } else {
      SearchStays(unspent, cursor, min, i + 1);
    }
  }

  lemma {:induction false} SearchFinds(unspent: seq<Output>, cursor: int, min: real, i: nat, p: int)
    requires -1 <= cursor && i <= |unspent|
    requires if p == |unspent| then Short(unspent, cursor, min, |unspent|)
             else i <= p && StopsAt(unspent, cursor, min, p)
    ensures SearchFrom(unspent, cursor, min, i) == if p == |unspent| then cursor else p
    decreases |unspent| - i
  {
    if i == p {
    } else {
      assert Total(unspent, cursor, i) < min;
      SearchFinds(unspent, cursor, min, i + 1, p);
    }
  }

  lemma CursorIs(unspent: seq<Output>, cursor: int, c: Call)
    requires -1 <= cursor && Next(unspent, cursor, c.min, c.r, c.cursor)
    ensures c.cursor == CursorAfter(unspent, cursor, c.min)
  {
    if unspent != [] {
      SearchFinds(unspent, cursor, c.min, 0, if c.r.Ok? then c.cursor else |unspent|);
    }
  }

  function Minimums(calls: seq<Call>): (ms: seq<real>)
    ensures |ms| == |calls| && forall k :: 0 <= k < |calls| ==> ms[k] == calls[k].min
  {
    seq(|calls|, k requires 0 <= k < |calls| => calls[k].min)
  }

  lemma MinimumsTail(calls: seq<Call>)
    requires calls != []
    ensures Minimums(calls)[1..] == Minimums(calls[1..])
  {
  }

  /** What is spendable after the first output: all that a call after a rewind can gather. */
  function AfterFirst(unspent: seq<Output>): real {
    if unspent == [] then 0.0 else Sum(Between(unspent, 1, |unspent|))
  }

  /** Of the amounts asked for, one rewinds, and a later one is positive and not more than what is spendable after the
      first output; rewound says that one has rewound before. */
  predicate AsksAfterRewind(unspent: seq<Output>, cursor: int, mins: seq<real>, rewound: bool)
    requires -1 <= cursor
    decreases |mins|
  {
    mins != []
    && ((rewound && 0.0 < mins[0] <= AfterFirst(unspent))
        || AsksAfterRewind(unspent, CursorAfter(unspent, cursor, mins[0]), mins[1..],
                           rewound || (mins[0] <= 0.0 && cursor > 0)))
  }

  lemma Repeats(h: seq<nat>, more: seq<nat>, rest: seq<nat>, p: nat)
    requires p in h && p in more
    ensures !Distinct(h + (more + rest))
  {
    var i :| 0 <= i < |h| && h[i] == p;
    var j :| 0 <= j < |more| && more[j] == p;
    var all := h + (more + rest);
    assert all[i] == all[|h| + j] == p;
  }

  lemma SucceedsAgain(unspent: seq<Output>, last: nat, calls: seq<Call>)
    requires 0 < last < |unspent| && unspent[last].spendable && Calls(unspent, 0, calls)
    requires calls != [] && calls[0].r.Ok? && calls[0].min > 0.0
    ensures !Distinct(Spendable(unspent, 0, last + 1) + Handed(unspent, 0, calls))
  {
    var c, h := calls[0], Spendable(unspent, 0, last + 1);
    LastIsSpendable(unspent, 0, c);
    SpendableIs(unspent, 0, last + 1);
    SpendableIs(unspent, 1, c.cursor + 1);
    var again := if c.cursor <= last then c.cursor else last;
    Repeats(h, Positions(unspent, 0, c), Handed(unspent, c.cursor, calls[1..]), again);
  }

  lemma StillAtFirst(unspent: seq<Output>, calls: seq<Call>)
    requires NonNegative(unspent) && unspent != [] && Calls(unspent, 0, calls) && calls != []
    requires calls[0].min <= 0.0 || calls[0].r == Err
    ensures calls[0].cursor == 0 && Handed(unspent, 0, calls) == Handed(unspent, 0, calls[1..])
  {
    StaysAtFirst(unspent, 0, calls[0]);
    assert Positions(unspent, 0, calls[0]) == [];
  }

  lemma AsksStep(unspent: seq<Output>, cursor: int, calls: seq<Call>, rewound: bool)
    requires NonNegative(unspent) && -1 <= cursor < |unspent| && Calls(unspent, cursor, calls) && calls != []
    requires rewound ==> cursor == 0
    ensures var c := calls[0];
            AsksAfterRewind(unspent, cursor, Minimums(calls), rewound) <==>
            (rewound && c.min > 0.0 && c.r.Ok?) ||
            AsksAfterRewind(unspent, c.cursor, Minimums(calls[1..]), rewound || (c.min <= 0.0 && cursor > 0))
  {
    var c := calls[0];
    CursorIs(unspent, cursor, c);
    MinimumsTail(calls);
    if unspent != [] && c.min > 0.0 { FailsIff(unspent, cursor, c.min, c.r, c.cursor); }
  }

  /** After a rewind: the positions up to last have been handed out, last among them. */
  lemma {:induction false} RewoundRepeats(unspent: seq<Output>, last: nat, calls: seq<Call>)
    requires NonNegative(unspent) && 0 < last < |unspent| && unspent[last].spendable && Calls(unspent, 0, calls)
    ensures Distinct(Spendable(unspent, 0, last + 1) + Handed(unspent, 0, calls)) <==>
              !AsksAfterRewind(unspent, 0, Minimums(calls), true)
    decreases |calls|
  {
    if calls == [] {
      SpendableIs(unspent, 0, last + 1);
      assert Spendable(unspent, 0, last + 1) + [] == Spendable(unspent, 0, last + 1);
    } else {
      AsksStep(unspent, 0, calls, true);
      if calls[0].r.Ok? && calls[0].min > 0.0 {
        SucceedsAgain(unspent, last, calls);
      } else {
        StillAtFirst(unspent, calls);
        RewoundRepeats(unspent, last, calls[1..]);
      }
    }
  }

  /** The cursor stops at a spendable output. */
  lemma LastIsSpendable(unspent: seq<Output>, cursor: int, c: Call)
    requires -1 <= cursor < |unspent| && c.min > 0.0 && c.r.Ok? && unspent != []
             && Next(unspent, cursor, c.min, c.r, c.cursor)
    ensures cursor < c.cursor < |unspent| && unspent[c.cursor].spendable
  {
    assert c.cursor > cursor;
    if c.cursor > 0 {
      assert Total(unspent, cursor, c.cursor - 1) < c.min;
    }
  }

  lemma StaysAtFirst(unspent: seq<Output>, cursor: int, c: Call)
    requires NonNegative(unspent) && 0 <= cursor < |unspent| && Next(unspent, cursor, c.min, c.r, c.cursor)
    requires c.min <= 0.0 || c.r == Err
    ensures c.cursor == if c.r == Err then cursor else 0
    ensures c.min <= 0.0 ==> c.r.Ok?
  {
    assert Total(unspent, cursor, 0) >= 0.0;
  }

  /** Before any rewind, from a cursor at a spendable output or not past the first one. */
  lemma {:induction false} RepeatsIff(unspent: seq<Output>, cursor: int, calls: seq<Call>)
    requires NonNegative(unspent) && -1 <= cursor < |unspent| && Calls(unspent, cursor, calls)
    requires cursor > 0 ==> unspent[cursor].spendable
    ensures Distinct(Spendable(unspent, 0, cursor + 1) + Handed(unspent, cursor, calls)) <==>
              !AsksAfterRewind(unspent, cursor, Minimums(calls), false)
    decreases |calls|
  {
    if calls == [] {
      SpendableIs(unspent, 0, cursor + 1);
      assert Spendable(unspent, 0, cursor + 1) + [] == Spendable(unspent, 0, cursor + 1);
    } else {
      AsksStep(unspent, cursor, calls, false);
      if calls[0].min <= 0.0 && cursor > 0 {
        StaysAtFirst(unspent, cursor, calls[0]);
        RewoundRepeats(unspent, cursor, calls[1..]);
        assert Handed(unspent, cursor, calls) == Handed(unspent, 0, calls[1..]);
      } else {
        Advances(unspent, cursor, calls);
        RepeatsIff(unspent, calls[0].cursor, calls[1..]);
      }
    }
  }

  /** A call that does not rewind continues the list of positions where it ended. */
  lemma Advances(unspent: seq<Output>, cursor: int, calls: seq<Call>)
    requires NonNegative(unspent) && -1 <= cursor < |unspent| && Calls(unspent, cursor, calls) && calls != []
    requires (calls[0].min > 0.0 || cursor <= 0) && (cursor > 0 ==> unspent[cursor].spendable)
    ensures var c := calls[0];
            && cursor <= c.cursor < |unspent| && (c.cursor > 0 ==> unspent[c.cursor].spendable)
            && Spendable(unspent, 0, cursor + 1) + Handed(unspent, cursor, calls)
               == Spendable(unspent, 0, c.cursor + 1) + Handed(unspent, c.cursor, calls[1..])
  {
    var c := calls[0];
    OneBatch(unspent, cursor, c);
    CursorSpendable(unspent, cursor, c);
    SpendableSplits(unspent, 0, cursor + 1, c.cursor + 1);
    PositionsAre(unspent, cursor, c);
    Regroup(Spendable(unspent, 0, cursor + 1), Positions(unspent, cursor, c), Handed(unspent, c.cursor, calls[1..]));
  }

  lemma Regroup(x: seq<nat>, y: seq<nat>, z: seq<nat>)
    ensures x + (y + z) == x + y + z
  {
  }

  lemma PositionsAre(unspent: seq<Output>, cursor: int, c: Call)
    requires -1 <= cursor <= c.cursor < |unspent| && (c.r.Ok? || c.cursor == cursor)
    ensures Positions(unspent, cursor, c) == Spendable(unspent, cursor + 1, c.cursor + 1)
  {
  }

  lemma CursorSpendable(unspent: seq<Output>, cursor: int, c: Call)
    requires NonNegative(unspent) && -1 <= cursor < |unspent| && (c.min > 0.0 || cursor <= 0)
    requires Next(unspent, cursor, c.min, c.r, c.cursor) && (cursor > 0 ==> unspent[cursor].spendable)
    ensures c.cursor > 0 ==> c.cursor < |unspent| && unspent[c.cursor].spendable
  {
    if c.r.Ok? && unspent != [] {
      if c.min > 0.0 {
        LastIsSpendable(unspent, cursor, c);
      } else {
        assert Total(unspent, cursor, 0) >= 0.0;
      }
    }
  }

  lemma {:induction false} SpendableSplits(unspent: seq<Output>, lo: nat, mid: nat, hi: nat)
    requires lo <= mid <= hi <= |unspent|
    ensures Spendable(unspent, lo, hi) == Spendable(unspent, lo, mid) + Spendable(unspent, mid, hi)
    decreases hi
  {
    if mid == hi {
    } else {
      SpendableSplits(unspent, lo, mid, hi - 1);
    }
  }

  /** Over any sequence of calls on a new selector, some position is handed out twice exactly if a call for nothing
      rewinds it and a later call asks for a positive amount that the outputs after the first one reach. */
  lemma HandedTwiceIff(unspent: seq<Output>, calls: seq<Call>)
    requires NonNegative(unspent) && Calls(unspent, -1, calls)
    ensures Distinct(Handed(unspent, -1, calls)) <==>
              !AsksAfterRewind(unspent, -1, Minimums(calls), false)
  {
    RepeatsIff(unspent, -1, calls);
    assert Spendable(unspent, 0, 0) + Handed(unspent, -1, calls) == Handed(unspent, -1, calls);
  }
}
