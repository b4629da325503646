/** The stock counter of each part and the writes the services make to it. */
module Ledger {
  import opened Outcomes
  import opened Domain
  import opened Lines

  type Stock = map<PartId, Part>

  /** `stock: { increment: q }` on one part row; updating a row that does not exist is a persistence error. */
  function Increment(parts: Stock, p: PartId, q: int): Outcome<Stock> {
    if p in parts then Ok(parts[p := parts[p].(stock := parts[p].stock + q)]) else Err(Internal)
  }

  /** `stock: { decrement: q }`, which checks nothing of its own. */
  function Decrement(parts: Stock, p: PartId, q: int): Outcome<Stock> {
    if p in parts then Ok(parts[p := parts[p].(stock := parts[p].stock - q)]) else Err(Internal)
  }

  /**
   * The guarded reservation of the update paths: read the part, refuse when it holds fewer
   * than `q` units, otherwise decrement. `missing` is how a part that is not there fails.
   */
  function Take(parts: Stock, p: PartId, q: int, missing: Error): Outcome<Stock> {
    if p !in parts then Err(missing)
    else if parts[p].stock < q then Err(Conflict(ShortStock(p, parts[p].stock, q)))
    else Decrement(parts, p, q)
  }

  predicate NonNegative(parts: Stock) {
    forall p :: p in parts ==> parts[p].stock >= 0
  }

  /** The same part rows, except perhaps for their stock. */
  predicate SameRows(a: Stock, b: Stock) {
    && a.Keys == b.Keys
    && forall p :: p in a ==> b[p] == a[p].(stock := b[p].stock)
  }

  /** The units a line asks for are there: its part exists and holds at least that many. */
  predicate Covers(parts: Stock, line: PartLine) {
    line.part in parts && parts[line.part].stock >= line.qty
  }

  /**
   * The pre-check of the create paths: every line is covered by the stock as it was
   * before any of them is applied.
   */
  predicate Available(parts: Stock, lines: seq<PartLine>) {
    forall i :: 0 <= i < |lines| ==> Covers(parts, lines[i])
  }

  /** Line `i` is the first one the pre-check rejects. */
  predicate FirstUncovered(parts: Stock, lines: seq<PartLine>, i: int) {
    && 0 <= i < |lines|
    && !Covers(parts, lines[i])
    && forall j :: 0 <= j < i ==> Covers(parts, lines[j])
  }

  /** The conflict the pre-check raises for the first line it rejects, if any. */
  function Shortfall(parts: Stock, lines: seq<PartLine>): (r: Option<Error>)
    ensures r.None? <==> Available(parts, lines)
    ensures r.Some? ==> r.value.Conflict? && (r.value.kind.PartMissing? || r.value.kind.ShortStock?)
    ensures r.Some? ==> exists i :: FirstUncovered(parts, lines, i) && r.value.kind.part == lines[i].part
    decreases |lines|
  {
    if |lines| == 0 then None
    else if lines[0].part !in parts then Some(Conflict(PartMissing(lines[0].part)))
    else if parts[lines[0].part].stock < lines[0].qty then
      Some(Conflict(ShortStock(lines[0].part, parts[lines[0].part].stock, lines[0].qty)))
    else
      var rest := Shortfall(parts, lines[1..]);
      assert Available(parts, lines[1..]) ==> Available(parts, lines) by {
        if Available(parts, lines[1..]) {
          forall i | 0 <= i < |lines| ensures Covers(parts, lines[i]) {
            if i > 0 { assert lines[i] == lines[1..][i - 1]; }
          }
        }
      }
      assert rest.Some? ==> exists i :: FirstUncovered(parts, lines, i) && rest.value.kind.part == lines[i].part
      by {
        if rest.Some? {
          var k :| FirstUncovered(parts, lines[1..], k) && rest.value.kind.part == lines[1..][k].part;
          forall j | 0 <= j < k + 1 ensures Covers(parts, lines[j]) {
            if j > 0 { assert lines[j] == lines[1..][j - 1]; }
          }
          assert lines[k + 1] == lines[1..][k];
          assert FirstUncovered(parts, lines, k + 1);
        }
      }
      rest
  }

  /**
   * Increments every line's part by its quantity, in order, stopping at the first part that
   * does not exist: the stock after the writes done so far, and the failure if there was one.
   */
  function ReturnUpTo(parts: Stock, lines: seq<PartLine>): (Stock, Option<Error>)
    decreases |lines|
  {
    if |lines| == 0 then (parts, None)
    else match Increment(parts, lines[0].part, lines[0].qty)
      case Err(e) => (parts, Some(e))
      case Ok(next) => ReturnUpTo(next, lines[1..])
  }

  /**
   * Returning stock touches no other column; it fails, with a persistence error, exactly when a
   * line's part is missing; done to the end it adds each part's units; and it never lowers a stock
   * when no line has a negative quantity.
   */
  lemma {:induction false} ReturnUpToEffect(parts: Stock, lines: seq<PartLine>)
    ensures var (after, failure) := ReturnUpTo(parts, lines);
      && SameRows(parts, after)
      && (failure.Some? ==> failure.value == Internal)
      && (failure.None? <==> forall i :: 0 <= i < |lines| ==> lines[i].part in parts)
      && (failure.None? ==> forall p :: p in parts ==> after[p].stock == parts[p].stock + Qty(lines, p))
      && (NonNegativeQty(lines) ==> forall p :: p in parts ==> after[p].stock >= parts[p].stock)
    decreases |lines|
  {
    if |lines| > 0 && lines[0].part in parts {
      var next := Increment(parts, lines[0].part, lines[0].qty).value;
      ReturnUpToEffect(next, lines[1..]);
      forall i | 0 <= i < |lines| && i > 0 ensures lines[i] == lines[1..][i - 1] { }
      assert NonNegativeQty(lines) ==> NonNegativeQty(lines[1..]) by {
        forall i | 0 <= i < |lines[1..]| ensures lines[1..][i] == lines[i + 1] { }
      }
    }
  }

  /** Returns every line's units to stock inside a transaction: all of them, or none if a part is missing. */
  function ReturnAll(parts: Stock, lines: seq<PartLine>): Outcome<Stock> {
    var (after, failure) := ReturnUpTo(parts, lines);
    if failure.Some? then Err(failure.value) else Ok(after)
  }

  /**
   * The transactional return succeeds exactly when every line's part exists; then each stock
   * has grown by the units the lines give it, and any failure is a persistence error.
   */
  lemma ReturnAllEffect(parts: Stock, lines: seq<PartLine>)
    ensures ReturnAll(parts, lines).Ok? <==> forall i :: 0 <= i < |lines| ==> lines[i].part in parts
    ensures ReturnAll(parts, lines).Err? ==> ReturnAll(parts, lines).error == Internal
    ensures ReturnAll(parts, lines).Ok? ==> SameRows(parts, ReturnAll(parts, lines).value)
    ensures ReturnAll(parts, lines).Ok? ==>
      forall p :: p in parts ==> ReturnAll(parts, lines).value[p].stock == parts[p].stock + Qty(lines, p)
  {
    ReturnUpToEffect(parts, lines);
    var (after, failure) := ReturnUpTo(parts, lines);
    assert failure.None? <==> forall i :: 0 <= i < |lines| ==> lines[i].part in parts;
    assert ReturnAll(parts, lines).Ok? <==> failure.None?;
  }

  /** Decrements every line's part by its quantity, in order, with no stock check. */
  function ConsumeAll(parts: Stock, lines: seq<PartLine>): (r: Outcome<Stock>)
    ensures r.Ok? <==> forall i :: 0 <= i < |lines| ==> lines[i].part in parts
    ensures r.Ok? ==> SameRows(parts, r.value)
    ensures r.Ok? ==> forall p :: p in parts ==> r.value[p].stock == parts[p].stock - Qty(lines, p)
    decreases |lines|
  {
    if |lines| == 0 then Ok(parts)
    else match Decrement(parts, lines[0].part, lines[0].qty)
      case Err(e) => Err(e)
      case Ok(next) =>
        var r := ConsumeAll(next, lines[1..]);
        ConsumeStep(parts, lines, next, r);
        r
  }

  /** One decrement followed by the rest: the contract of `ConsumeAll` carries over from the tail. */
  lemma ConsumeStep(parts: Stock, lines: seq<PartLine>, next: Stock, r: Outcome<Stock>)
    requires |lines| > 0 && Decrement(parts, lines[0].part, lines[0].qty) == Ok(next)
    requires r.Ok? <==> forall i :: 0 <= i < |lines[1..]| ==> lines[1..][i].part in next
    requires r.Ok? ==> SameRows(next, r.value)
    requires r.Ok? ==> forall p :: p in next ==> r.value[p].stock == next[p].stock - Qty(lines[1..], p)
    ensures r.Ok? <==> forall i :: 0 <= i < |lines| ==> lines[i].part in parts
    ensures r.Ok? ==> SameRows(parts, r.value)
    ensures r.Ok? ==> forall p :: p in parts ==> r.value[p].stock == parts[p].stock - Qty(lines, p)
  {
    assert next.Keys == parts.Keys;
    forall i | 0 <= i < |lines| && i > 0 ensures lines[i] == lines[1..][i - 1] { }
  }

  /** Rows that agree on everything but stock, and on stock too, are the same rows. */
  lemma SameRowsSameStock(a: Stock, b: Stock)
    requires SameRows(a, b)
    requires forall p :: p in a ==> b[p].stock == a[p].stock
    ensures a == b
  {
  }

  /**
   * Decrementing lines that the pre-check found covered keeps every stock non-negative, provided
   * no two lines name the same part.
   */
  lemma ConsumeCoveredKeepsNonNegative(parts: Stock, lines: seq<PartLine>)
    requires NonNegative(parts) && Distinct(lines) && Available(parts, lines)
    ensures ConsumeAll(parts, lines).Ok?
    ensures NonNegative(ConsumeAll(parts, lines).value)
  {
  }
}
