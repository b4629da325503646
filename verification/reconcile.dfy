/**
 * Stock reconciliation on editing an order or a sale: the previous part lines are compared
 * with the requested ones part by part, and each part's stock moves by the difference.
 */
module Reconciliation {
  import opened Outcomes
  import opened Domain
  import opened Lines
  import opened Ledger

  /**
   * The first loop's step for one previous line `o`, against the request keyed by part:
   * a removed part gets its units back, a decreased one the difference, an increased one
   * is checked against the current stock and decremented by the difference, and an
   * unchanged one is not written at all.
   */
  function SettleLine(parts: Stock, o: PartLine, wanted: map<PartId, PartLine>): Outcome<Stock> {
    if o.part !in wanted then Increment(parts, o.part, o.qty)
    else if wanted[o.part].qty < o.qty then Increment(parts, o.part, o.qty - wanted[o.part].qty)
    else if wanted[o.part].qty > o.qty then Take(parts, o.part, wanted[o.part].qty - o.qty, Internal)
    else Ok(parts)
  }

  /** The first loop: every previous line, in stored order. */
  function SettleOld(parts: Stock, prev: seq<PartLine>, wanted: map<PartId, PartLine>): Outcome<Stock>
    decreases |prev|
  {
    if |prev| == 0 then Ok(parts)
    else
      var next :- SettleLine(parts, prev[0], wanted);
      SettleOld(next, prev[1..], wanted)
  }

  /**
   * The second loop's step for one requested line `r`: a part no previous line mentions must
   * exist and hold at least `r.qty` units, which are then decremented.
   */
  function ClaimLine(parts: Stock, r: PartLine, oldIds: set<PartId>): Outcome<Stock> {
    if r.part in oldIds then Ok(parts) else Take(parts, r.part, r.qty, Conflict(PartMissing(r.part)))
  }

  /** The second loop: every requested line, in request order, duplicates included. */
  function ClaimAdded(parts: Stock, req: seq<PartLine>, oldIds: set<PartId>): Outcome<Stock>
    decreases |req|
  {
    if |req| == 0 then Ok(parts)
    else
      var next :- ClaimLine(parts, req[0], oldIds);
      ClaimAdded(next, req[1..], oldIds)
  }

  /** Both loops, in the source's order, inside the caller's transaction. */
  function Reconcile(parts: Stock, prev: seq<PartLine>, req: seq<PartLine>): Outcome<Stock> {
    var mid :- SettleOld(parts, prev, Keyed(req));
    ClaimAdded(mid, req, Ids(prev))
  }

  /** What the first loop adds to part `p`: each previous line of `p` moves it by its own quantity minus the wanted one. */
  function SettledDelta(prev: seq<PartLine>, wanted: map<PartId, PartLine>, p: PartId): int
    decreases |prev|
  {
    if |prev| == 0 then 0
    else (if prev[0].part == p then prev[0].qty - WantedQty(wanted, p) else 0) + SettledDelta(prev[1..], wanted, p)
  }

  /** What the second loop takes from part `p`: every requested line of a part no previous line mentions. */
  function ClaimedDelta(req: seq<PartLine>, oldIds: set<PartId>, p: PartId): int {
    if p in oldIds then 0 else Qty(req, p)
  }

  /** The first loop's step for `o` cannot fail. */
  predicate SettleFeasible(parts: Stock, o: PartLine, wanted: map<PartId, PartLine>) {
    if o.part in wanted && wanted[o.part].qty == o.qty then true
    else
      && o.part in parts
      && (o.part in wanted && wanted[o.part].qty > o.qty ==> parts[o.part].stock >= wanted[o.part].qty - o.qty)
  }

  /** The second loop's step for `r` cannot fail. */
  predicate ClaimFeasible(parts: Stock, r: PartLine, oldIds: set<PartId>) {
    r.part in oldIds || Covers(parts, r)
  }

  /**
   * Every step of the reconciliation passes its check against the stock as it was when the
   * edit began: each part whose quantity changes exists, each increase is covered, and
   * each added part exists and covers its line.
   */
  predicate Feasible(parts: Stock, prev: seq<PartLine>, req: seq<PartLine>) {
    && (forall i :: 0 <= i < |prev| ==> SettleFeasible(parts, prev[i], Keyed(req)))
    && (forall j :: 0 <= j < |req| ==> ClaimFeasible(parts, req[j], Ids(prev)))
  }

  // ---------------------------------------------------------------------------
  // Effect of each loop on the stock

  lemma {:induction false} SettleOldEffect(parts: Stock, prev: seq<PartLine>, wanted: map<PartId, PartLine>)
    ensures SettleOld(parts, prev, wanted).Ok? ==>
      && SameRows(parts, SettleOld(parts, prev, wanted).value)
      && forall p :: p in parts ==>
           SettleOld(parts, prev, wanted).value[p].stock == parts[p].stock + SettledDelta(prev, wanted, p)
    decreases |prev|
  {
    if |prev| > 0 && SettleLine(parts, prev[0], wanted).Ok? {
      SettleOldEffect(SettleLine(parts, prev[0], wanted).value, prev[1..], wanted);
    }
  }

  lemma {:induction false} ClaimAddedEffect(parts: Stock, req: seq<PartLine>, oldIds: set<PartId>)
    ensures ClaimAdded(parts, req, oldIds).Ok? ==>
      && SameRows(parts, ClaimAdded(parts, req, oldIds).value)
      && forall p :: p in parts ==>
           ClaimAdded(parts, req, oldIds).value[p].stock == parts[p].stock - ClaimedDelta(req, oldIds, p)
    decreases |req|
  {
    if |req| > 0 && ClaimLine(parts, req[0], oldIds).Ok? {
      ClaimAddedEffect(ClaimLine(parts, req[0], oldIds).value, req[1..], oldIds);
    }
  }

  /** A part no previous line mentions is not moved by the first loop. */
  lemma {:induction false} SettledDeltaOutside(prev: seq<PartLine>, wanted: map<PartId, PartLine>, p: PartId)
    requires p !in Ids(prev)
    ensures SettledDelta(prev, wanted, p) == 0
    decreases |prev|
  {
    if |prev| > 0 {
      SettledDeltaOutside(prev[1..], wanted, p);
    }
  }

  /** With distinct previous lines, the first loop moves a mentioned part by its prev quantity minus the wanted one. */
  lemma {:induction false} SettledDeltaOfDistinct(prev: seq<PartLine>, wanted: map<PartId, PartLine>, p: PartId)
    requires Distinct(prev) && p in Ids(prev)
    ensures SettledDelta(prev, wanted, p) == Qty(prev, p) - WantedQty(wanted, p)
    decreases |prev|
  {
    DistinctTail(prev);
    if prev[0].part == p {
      SettledDeltaOutside(prev[1..], wanted, p);
      QtyOutside(prev[1..], p);
    } else {
      SettledDeltaOfDistinct(prev[1..], wanted, p);
    }
  }

  /**
   * The reconciliation, exactly as written, duplicates included: only stock changes, and a part
   * that previous lines mention moves by the first loop's delta, any other part loses every
   * requested unit for it.
   */
  lemma ReconcileEffect(parts: Stock, prev: seq<PartLine>, req: seq<PartLine>)
    requires Reconcile(parts, prev, req).Ok?
    ensures SameRows(parts, Reconcile(parts, prev, req).value)
    ensures forall p :: p in parts ==>
      Reconcile(parts, prev, req).value[p].stock
        == parts[p].stock + SettledDelta(prev, Keyed(req), p) - ClaimedDelta(req, Ids(prev), p)
  {
    SettleOldEffect(parts, prev, Keyed(req));
    var mid := SettleOld(parts, prev, Keyed(req)).value;
    ClaimAddedEffect(mid, req, Ids(prev));
  }

  /**
   * With distinct part ids on both sides, a successful reconciliation leaves every part at
   * its prev stock plus what the previous lines held minus what the request holds.
   */
  lemma ReconcileDelta(parts: Stock, prev: seq<PartLine>, req: seq<PartLine>)
    requires Distinct(prev) && Distinct(req)
    requires Reconcile(parts, prev, req).Ok?
    ensures SameRows(parts, Reconcile(parts, prev, req).value)
    ensures forall p :: p in parts ==>
      Reconcile(parts, prev, req).value[p].stock == parts[p].stock + Qty(prev, p) - Qty(req, p)
  {
    ReconcileEffect(parts, prev, req);
    forall p | p in parts
      ensures SettledDelta(prev, Keyed(req), p) - ClaimedDelta(req, Ids(prev), p) == Qty(prev, p) - Qty(req, p)
    {
      WantedQtyOfDistinct(req, p);
      if p in Ids(prev) {
        SettledDeltaOfDistinct(prev, Keyed(req), p);
      } else {
        SettledDeltaOutside(prev, Keyed(req), p);
        QtyOutside(prev, p);
      }
    }
  }

  // ---------------------------------------------------------------------------
  // Stock never goes negative

  lemma {:induction false} SettleOldNonNegative(parts: Stock, prev: seq<PartLine>, wanted: map<PartId, PartLine>)
    requires NonNegative(parts) && NonNegativeQty(prev)
    ensures SettleOld(parts, prev, wanted).Ok? ==> NonNegative(SettleOld(parts, prev, wanted).value)
    decreases |prev|
  {
    if |prev| > 0 && SettleLine(parts, prev[0], wanted).Ok? {
      assert NonNegativeQty(prev[1..]) by {
        forall i | 0 <= i < |prev[1..]| ensures prev[1..][i] == prev[i + 1] { }
      }
      SettleOldNonNegative(SettleLine(parts, prev[0], wanted).value, prev[1..], wanted);
    }
  }

  lemma {:induction false} ClaimAddedNonNegative(parts: Stock, req: seq<PartLine>, oldIds: set<PartId>)
    requires NonNegative(parts)
    ensures ClaimAdded(parts, req, oldIds).Ok? ==> NonNegative(ClaimAdded(parts, req, oldIds).value)
    decreases |req|
  {
    if |req| > 0 && ClaimLine(parts, req[0], oldIds).Ok? {
      ClaimAddedNonNegative(ClaimLine(parts, req[0], oldIds).value, req[1..], oldIds);
    }
  }

  /**
   * Every decrement is preceded by a check that the stock covers it, so a successful
   * reconciliation keeps every stock non-negative when the previous lines hold no negative
   * quantity. No assumption on the request is needed.
   */
  lemma ReconcileKeepsNonNegative(parts: Stock, prev: seq<PartLine>, req: seq<PartLine>)
    requires NonNegative(parts) && NonNegativeQty(prev)
    ensures Reconcile(parts, prev, req).Ok? ==> NonNegative(Reconcile(parts, prev, req).value)
  {
    SettleOldNonNegative(parts, prev, Keyed(req));
    if SettleOld(parts, prev, Keyed(req)).Ok? {
      ClaimAddedNonNegative(SettleOld(parts, prev, Keyed(req)).value, req, Ids(prev));
    }
  }

  // ---------------------------------------------------------------------------
  // Resubmitting the same lines

  lemma {:induction false} SettleOldUnchanged(parts: Stock, prev: seq<PartLine>, wanted: map<PartId, PartLine>)
    requires forall i :: 0 <= i < |prev| ==> prev[i].part in wanted && wanted[prev[i].part].qty == prev[i].qty
    ensures SettleOld(parts, prev, wanted) == Ok(parts)
    decreases |prev|
  {
    if |prev| > 0 {
      assert forall i :: 0 <= i < |prev[1..]| ==> prev[1..][i] == prev[i + 1];
      SettleOldUnchanged(parts, prev[1..], wanted);
    }
  }

  lemma {:induction false} ClaimAddedNone(parts: Stock, req: seq<PartLine>, oldIds: set<PartId>)
    requires forall j :: 0 <= j < |req| ==> req[j].part in oldIds
    ensures ClaimAdded(parts, req, oldIds) == Ok(parts)
    decreases |req|
  {
    if |req| > 0 {
      assert forall j :: 0 <= j < |req[1..]| ==> req[1..][j] == req[j + 1];
      ClaimAddedNone(parts, req[1..], oldIds);
    }
  }

  /**
   * Resubmitting the stored lines, when their part ids are distinct, succeeds and writes no
   * stock at all, even for parts that have since been deleted.
   */
  lemma ReconcileIdentical(parts: Stock, lines: seq<PartLine>)
    requires Distinct(lines)
    ensures Reconcile(parts, lines, lines) == Ok(parts)
  {
    forall i | 0 <= i < |lines|
      ensures lines[i].part in Keyed(lines) && Keyed(lines)[lines[i].part].qty == lines[i].qty
    {
      KeyedLastWins(lines, i);
    }
    SettleOldUnchanged(parts, lines, Keyed(lines));
    forall j | 0 <= j < |lines| ensures lines[j].part in Ids(lines) {
      IdsOfLine(lines, j);
    }
    ClaimAddedNone(parts, lines, Ids(lines));
  }

  /**
   * With stored lines that repeat a part, the order the first loop visits them in decides the
   * outcome: lines of 5 and then 1 unit, re-saved wanting 3 from a stock of 0, release 2 units
   * before taking them back, while the reverse order asks for 2 units first and is refused.
   */
  lemma StoredOrderMatters()
    ensures
      var parts := map[0 := Part("", "", 0, 0, "", 0, 0)];
      var req := [PartLine(0, 3, 0)];
      && Reconcile(parts, [PartLine(0, 5, 0), PartLine(0, 1, 0)], req) == Ok(parts)
      && Reconcile(parts, [PartLine(0, 1, 0), PartLine(0, 5, 0)], req) == Err(Conflict(ShortStock(0, 0, 2)))
  {
    var part := Part("", "", 0, 0, "", 0, 0);
    var parts := map[0 := part];
    var req := [PartLine(0, 3, 0)];
    var big, small := PartLine(0, 5, 0), PartLine(0, 1, 0);
    assert req[1..] == [];
    var wanted := Keyed(req);
    assert wanted == map[0 := req[0]];
    // Five then one: release 2 units, then take them back.
    var up := parts[0 := part.(stock := 2)];
    assert SettleLine(parts, big, wanted) == Ok(up);
    assert Take(up, 0, 2, Internal) == Ok(up[0 := up[0].(stock := 0)]);
    assert up[0 := up[0].(stock := 0)] == parts;
    assert SettleLine(up, small, wanted) == Ok(parts);
    var stored := [big, small];
    assert stored[1..] == [small] && [small][1..] == [];
    assert SettleOld(up, [small], wanted) == Ok(parts);
    assert SettleOld(parts, stored, wanted) == Ok(parts);
    assert Ids([small]) == {0};
    assert Ids(stored) == {0};
    assert ClaimAdded(parts, req, {0}) == Ok(parts);
    // One then five: the first step asks for 2 units and there are none.
    assert SettleLine(parts, small, wanted) == Err(Conflict(ShortStock(0, 0, 2)));
  }

  /**
   * With the same stored lines and an empty stock, resubmitting them fails: the first line's
   * increase of 1 is refused as a short-stock conflict.
   */
  lemma ResubmittedDuplicatesCanFail()
    ensures
      var part := Part("", "", 0, 0, "", 0, 0);
      var lines := [PartLine(0, 2, 0), PartLine(0, 3, 0)];
      Reconcile(map[0 := part], lines, lines) == Err(Conflict(ShortStock(0, 0, 1)))
  {
  }

  /**
   * As written, resubmitting lines that repeat a part is not a no-op: with two stored lines of
   * 2 and 3 units of one part, the keyed request wants 3, so the first line is treated as an
   * increase of 1 and the stock drops from 10 to 9.
   */
  lemma ResubmittedDuplicatesMoveStock()
    ensures
      var part := Part("", "", 0, 0, "", 10, 0);
      var lines := [PartLine(0, 2, 0), PartLine(0, 3, 0)];
      Reconcile(map[0 := part], lines, lines) == Ok(map[0 := part.(stock := 9)])
  {
    var part := Part("", "", 0, 0, "", 10, 0);
    var lines := [PartLine(0, 2, 0), PartLine(0, 3, 0)];
    assert Keyed(lines) == map[0 := lines[1]] by {
      assert lines[1..] == [lines[1]];
      assert lines[1..][1..] == [];
    }
    assert Ids(lines) == {0} by {
      assert lines[1..] == [lines[1]];
      assert lines[1..][1..] == [];
    }
    var after := map[0 := part.(stock := 9)];
    assert Keyed(lines)[0].qty == 3;
    assert Take(map[0 := part], 0, 1, Internal) == Ok(map[0 := part][0 := part.(stock := 10 - 1)]);
    assert map[0 := part][0 := part.(stock := 10 - 1)] == after;
    assert SettleLine(map[0 := part], lines[0], Keyed(lines)) == Ok(after);
    assert SettleOld(after, lines[1..], Keyed(lines)) == Ok(after) by {
      assert lines[1..] == [lines[1]];
      assert lines[1..][1..] == [];
    }
    assert ClaimAdded(after, lines, Ids(lines)) == Ok(after) by {
      assert lines[1..] == [lines[1]];
      assert lines[1..][1..] == [];
    }
  }

  // ---------------------------------------------------------------------------
  // When the reconciliation fails

  /** With distinct previous lines, the first loop succeeds exactly when each step passes its check against the stock the edit began with. */
  lemma {:induction false} SettleOldSucceedsIff(parts: Stock, prev: seq<PartLine>, wanted: map<PartId, PartLine>)
    requires Distinct(prev)
    ensures SettleOld(parts, prev, wanted).Ok? <==> forall i :: 0 <= i < |prev| ==> SettleFeasible(parts, prev[i], wanted)
    decreases |prev|
  {
    if |prev| > 0 {
      var step := SettleLine(parts, prev[0], wanted);
      assert step.Ok? <==> SettleFeasible(parts, prev[0], wanted);
      if step.Ok? {
        var next := step.value;
        DistinctTail(prev);
        SettleOldSucceedsIff(next, prev[1..], wanted);
        forall i | 1 <= i < |prev|
          ensures SettleFeasible(next, prev[i], wanted) == SettleFeasible(parts, prev[i], wanted)
        {
          assert prev[i].part != prev[0].part;
        }
        forall i | 1 <= i < |prev| ensures prev[i] == prev[1..][i - 1] { }
      }
    }
  }

  /** With distinct requested lines, the second loop succeeds exactly when each step passes its check against the stock it began with. */
  lemma {:induction false} ClaimAddedSucceedsIff(parts: Stock, req: seq<PartLine>, oldIds: set<PartId>)
    requires Distinct(req)
    ensures ClaimAdded(parts, req, oldIds).Ok? <==> forall j :: 0 <= j < |req| ==> ClaimFeasible(parts, req[j], oldIds)
    decreases |req|
  {
    if |req| > 0 {
      var step := ClaimLine(parts, req[0], oldIds);
      assert step.Ok? <==> ClaimFeasible(parts, req[0], oldIds);
      if step.Ok? {
        var next := step.value;
        DistinctTail(req);
        ClaimAddedSucceedsIff(next, req[1..], oldIds);
        forall j | 1 <= j < |req|
          ensures ClaimFeasible(next, req[j], oldIds) == ClaimFeasible(parts, req[j], oldIds)
        {
          assert req[j].part != req[0].part;
        }
        forall j | 1 <= j < |req| ensures req[j] == req[1..][j - 1] { }
      }
    }
  }

  /**
   * With distinct part ids on both sides, the reconciliation succeeds exactly when it is
   * feasible against the stock the edit began with: an increase beyond the current stock, or
   * an added part that is missing or short, makes it fail.
   */
  lemma ReconcileSucceedsIff(parts: Stock, prev: seq<PartLine>, req: seq<PartLine>)
    requires Distinct(prev) && Distinct(req)
    ensures Reconcile(parts, prev, req).Ok? <==> Feasible(parts, prev, req)
  {
    SettleOldSucceedsIff(parts, prev, Keyed(req));
    if SettleOld(parts, prev, Keyed(req)).Ok? {
      var mid := SettleOld(parts, prev, Keyed(req)).value;
      SettleOldEffect(parts, prev, Keyed(req));
      ClaimAddedSucceedsIff(mid, req, Ids(prev));
      forall j | 0 <= j < |req|
        ensures ClaimFeasible(mid, req[j], Ids(prev)) == ClaimFeasible(parts, req[j], Ids(prev))
      {
        if req[j].part !in Ids(prev) && req[j].part in parts {
          SettledDeltaOutside(prev, Keyed(req), req[j].part);
        }
      }
    }
  }

  lemma {:induction false} SettleOldFailsByConflict(parts: Stock, prev: seq<PartLine>, wanted: map<PartId, PartLine>)
    requires forall i :: 0 <= i < |prev| ==> prev[i].part in parts
    ensures SettleOld(parts, prev, wanted).Err? ==> SettleOld(parts, prev, wanted).error.Conflict?
    decreases |prev|
  {
    if |prev| > 0 && SettleLine(parts, prev[0], wanted).Ok? {
      var next := SettleLine(parts, prev[0], wanted).value;
      assert forall i :: 0 <= i < |prev[1..]| ==> prev[1..][i] == prev[i + 1];
      SettleOldFailsByConflict(next, prev[1..], wanted);
    }
  }

  lemma {:induction false} ClaimAddedFailsByConflict(parts: Stock, req: seq<PartLine>, oldIds: set<PartId>)
    ensures ClaimAdded(parts, req, oldIds).Err? ==> ClaimAdded(parts, req, oldIds).error.Conflict?
    decreases |req|
  {
    if |req| > 0 && ClaimLine(parts, req[0], oldIds).Ok? {
      ClaimAddedFailsByConflict(ClaimLine(parts, req[0], oldIds).value, req[1..], oldIds);
    }
  }

  /**
   * While every previously attached part still exists, the reconciliation can only fail with a
   * conflict (a missing or short part); a persistence error needs a part deleted under a line.
   */
  lemma ReconcileFailsByConflict(parts: Stock, prev: seq<PartLine>, req: seq<PartLine>)
    requires forall i :: 0 <= i < |prev| ==> prev[i].part in parts
    ensures Reconcile(parts, prev, req).Err? ==> Reconcile(parts, prev, req).error.Conflict?
  {
    SettleOldFailsByConflict(parts, prev, Keyed(req));
    if SettleOld(parts, prev, Keyed(req)).Ok? {
      ClaimAddedFailsByConflict(SettleOld(parts, prev, Keyed(req)).value, req, Ids(prev));
    }
  }
}
