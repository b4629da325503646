/** Queries over the part lines of an order, a sale or a request. */
module Lines {
  import opened Domain

  /** The units of part `p` that the lines add up to. */
  function Qty(lines: seq<PartLine>, p: PartId): int
    decreases |lines|
  {
    if |lines| == 0 then 0
    else (if lines[0].part == p then lines[0].qty else 0) + Qty(lines[1..], p)
  }

  /** The part ids the lines mention. */
  function Ids(lines: seq<PartLine>): set<PartId>
    decreases |lines|
  {
    if |lines| == 0 then {} else {lines[0].part} + Ids(lines[1..])
  }

  /** No part is mentioned by two lines. */
  predicate Distinct(lines: seq<PartLine>) {
    forall i, j :: 0 <= i < j < |lines| ==> lines[i].part != lines[j].part
  }

  predicate NonNegativeQty(lines: seq<PartLine>) {
    forall i :: 0 <= i < |lines| ==> lines[i].qty >= 0
  }

  /** Line `i` is the last one that mentions its part. */
  predicate LastFor(lines: seq<PartLine>, i: nat)
    requires i < |lines|
  {
    forall j :: i < j < |lines| ==> lines[j].part != lines[i].part
  }

  /**
   * The lines keyed by part id, as a JavaScript `Map` built from `[part, line]` pairs:
   * a later line for the same part replaces an earlier one.
   */
  function Keyed(lines: seq<PartLine>): map<PartId, PartLine>
    decreases |lines|
  {
    if |lines| == 0 then map[] else map[lines[0].part := lines[0]] + Keyed(lines[1..])
  }

  /** The quantity the keyed request asks for part `p`, 0 when it does not mention `p`. */
  function WantedQty(wanted: map<PartId, PartLine>, p: PartId): int {
    if p in wanted then wanted[p].qty else 0
  }

  lemma {:induction false} IdsHasWitness(lines: seq<PartLine>, p: PartId)
    ensures p in Ids(lines) <==> exists i :: 0 <= i < |lines| && lines[i].part == p
    decreases |lines|
  {
    if |lines| > 0 {
      IdsHasWitness(lines[1..], p);
      if p in Ids(lines[1..]) {
        var i :| 0 <= i < |lines[1..]| && lines[1..][i].part == p;
        assert lines[i + 1].part == p;
      }
      if exists i :: 0 <= i < |lines| && lines[i].part == p {
        var i :| 0 <= i < |lines| && lines[i].part == p;
        if i > 0 {
          assert lines[1..][i - 1].part == p;
        }
      }
    }
  }

  lemma IdsOfLine(lines: seq<PartLine>, i: nat)
    requires i < |lines|
    ensures lines[i].part in Ids(lines)
  {
    IdsHasWitness(lines, lines[i].part);
  }

  lemma DistinctTail(lines: seq<PartLine>)
    requires |lines| > 0 && Distinct(lines)
    ensures Distinct(lines[1..])
    ensures lines[0].part !in Ids(lines[1..])
  {
    IdsHasWitness(lines[1..], lines[0].part);
    forall i, j | 0 <= i < j < |lines[1..]|
      ensures lines[1..][i].part != lines[1..][j].part
    {
      assert lines[1..][i] == lines[i + 1] && lines[1..][j] == lines[j + 1];
    }
  }

  /** A part no line mentions gets no units. */
  lemma {:induction false} QtyOutside(lines: seq<PartLine>, p: PartId)
    requires p !in Ids(lines)
    ensures Qty(lines, p) == 0
    decreases |lines|
  {
    if |lines| > 0 {
      QtyOutside(lines[1..], p);
    }
  }

  /** With distinct part ids, the units of a line's part are that line's quantity. */
  lemma {:induction false} QtyOfDistinct(lines: seq<PartLine>, i: nat)
    requires Distinct(lines) && i < |lines|
    ensures Qty(lines, lines[i].part) == lines[i].qty
    decreases |lines|
  {
    DistinctTail(lines);
    if i == 0 {
      QtyOutside(lines[1..], lines[0].part);
    } else {
      QtyOfDistinct(lines[1..], i - 1);
      assert lines[1..][i - 1] == lines[i];
    }
  }

  /** The keyed request mentions exactly the parts of the lines, each mapped to a line for it. */
  lemma {:induction false} KeyedDomain(lines: seq<PartLine>)
    ensures Keyed(lines).Keys == Ids(lines)
    ensures forall p :: p in Keyed(lines) ==> Keyed(lines)[p].part == p
    decreases |lines|
  {
    if |lines| > 0 {
      KeyedDomain(lines[1..]);
    }
  }

  /** The last line for a part is the one the keyed request keeps. */
  lemma {:induction false} KeyedLastWins(lines: seq<PartLine>, i: nat)
    requires i < |lines| && LastFor(lines, i)
    ensures lines[i].part in Keyed(lines) && Keyed(lines)[lines[i].part] == lines[i]
    decreases |lines|
  {
    KeyedDomain(lines[1..]);
    if i == 0 {
      IdsHasWitness(lines[1..], lines[0].part);
    } else {
      assert lines[1..][i - 1] == lines[i];
      KeyedLastWins(lines[1..], i - 1);
    }
  }

  /** With distinct part ids, the keyed request asks for each part exactly the units the lines give it. */
  lemma WantedQtyOfDistinct(lines: seq<PartLine>, p: PartId)
    requires Distinct(lines)
    ensures WantedQty(Keyed(lines), p) == Qty(lines, p)
  {
    KeyedDomain(lines);
    IdsHasWitness(lines, p);
    if p in Ids(lines) {
      var i :| 0 <= i < |lines| && lines[i].part == p;
      KeyedLastWins(lines, i);
      QtyOfDistinct(lines, i);
    } else {
      QtyOutside(lines, p);
    }
  }
}
