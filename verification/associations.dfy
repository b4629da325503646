/**
 * Association rows between a part and the market motorcycles (`moto_repuesto`) or suppliers
 * (`proveedor_repuesto`) it goes with. A table is a sequence of rows; `Linked` reads back the
 * owners one part is associated with, in row order.
 */
module Associations {
  import opened Domain

  /** The owners (motorcycle or supplier ids) associated with part `p`, in row order. */
  function Linked(rows: seq<Link>, p: PartId): seq<nat>
    decreases |rows|
  {
    if |rows| == 0 then []
    else (if rows[0].part == p then [rows[0].owner] else []) + Linked(rows[1..], p)
  }

  /** The rows a `deleteMany` on part `p` leaves. */
  function Without(rows: seq<Link>, p: PartId): seq<Link>
    decreases |rows|
  {
    if |rows| == 0 then []
    else (if rows[0].part == p then [] else [rows[0]]) + Without(rows[1..], p)
  }

  /** The rows a `createMany` adds: one per given owner id, in order, for part `p`. */
  function Attach(p: PartId, owners: seq<nat>): (r: seq<Link>)
    ensures |r| == |owners|
    ensures forall i :: 0 <= i < |r| ==> r[i] == Link(owners[i], p)
  {
    seq(|owners|, i requires 0 <= i < |owners| => Link(owners[i], p))
  }

  /** Deletes every row of `p`, then adds one per given owner. */
  function Relink(rows: seq<Link>, p: PartId, owners: seq<nat>): seq<Link> {
    Without(rows, p) + Attach(p, owners)
  }

  /** No row of the table belongs to `p`. */
  predicate Unlinked(rows: seq<Link>, p: PartId) {
    forall i :: 0 <= i < |rows| ==> rows[i].part != p
  }

  lemma {:induction false} LinkedConcat(a: seq<Link>, b: seq<Link>, q: PartId)
    ensures Linked(a + b, q) == Linked(a, q) + Linked(b, q)
    decreases |a|
  {
    if |a| > 0 {
      assert (a + b)[1..] == a[1..] + b;
      LinkedConcat(a[1..], b, q);
    } else {
      assert a + b == b;
    }
  }

  lemma {:induction false} WithoutConcat(a: seq<Link>, b: seq<Link>, p: PartId)
    ensures Without(a + b, p) == Without(a, p) + Without(b, p)
    decreases |a|
  {
    if |a| > 0 {
      assert (a + b)[1..] == a[1..] + b;
      WithoutConcat(a[1..], b, p);
    } else {
      assert a + b == b;
    }
  }

  /** After deleting `p`'s rows, `p` has no owners and every other part keeps its owners in order. */
  lemma {:induction false} LinkedWithout(rows: seq<Link>, p: PartId, q: PartId)
    ensures Linked(Without(rows, p), q) == if q == p then [] else Linked(rows, q)
    ensures Unlinked(Without(rows, p), p)
    decreases |rows|
  {
    if |rows| > 0 {
      LinkedWithout(rows[1..], p, q);
      var head := if rows[0].part == p then [] else [rows[0]];
      LinkedConcat(head, Without(rows[1..], p), q);
      assert Linked(head, q) == (if head != [] && rows[0].part == q then [rows[0].owner] else []) by {
        if head != [] {
          assert head[1..] == [];
        }
      }
      var w := Without(rows, p);
      forall i | 0 <= i < |w| ensures w[i].part != p {
        if head != [] && i > 0 {
          assert w[i] == Without(rows[1..], p)[i - 1];
        }
      }
    }
  }

  /** The rows added for `p` give `p` exactly the given owners, and no other part any. */
  lemma {:induction false} LinkedAttach(p: PartId, owners: seq<nat>, q: PartId)
    ensures Linked(Attach(p, owners), q) == if q == p then owners else []
    decreases |owners|
  {
    if |owners| > 0 {
      assert Attach(p, owners)[1..] == Attach(p, owners[1..]);
      LinkedAttach(p, owners[1..], q);
      if q == p {
        assert owners == [owners[0]] + owners[1..];
      }
    }
  }

  /** Rows with no part `p` are their own `Without(_, p)`, and have no owner for `p`. */
  lemma {:induction false} UnlinkedUntouched(rows: seq<Link>, p: PartId)
    requires Unlinked(rows, p)
    ensures Without(rows, p) == rows
    ensures Linked(rows, p) == []
    decreases |rows|
  {
    if |rows| > 0 {
      assert Unlinked(rows[1..], p) by {
        forall i | 0 <= i < |rows[1..]| ensures rows[1..][i].part != p {
          assert rows[1..][i] == rows[i + 1];
        }
      }
      UnlinkedUntouched(rows[1..], p);
      assert rows == [rows[0]] + rows[1..];
    }
  }

  /**
   * Replacing `p`'s rows gives `p` exactly the given owners and leaves every other part's owners
   * as they were.
   */
  lemma RelinkLinked(rows: seq<Link>, p: PartId, owners: seq<nat>, q: PartId)
    ensures Linked(Relink(rows, p, owners), q) == if q == p then owners else Linked(rows, q)
  {
    LinkedConcat(Without(rows, p), Attach(p, owners), q);
    LinkedWithout(rows, p, q);
    LinkedAttach(p, owners, q);
  }

  /** Replacing `p`'s rows twice with the same owners is the same as doing it once. */
  lemma RelinkIdempotent(rows: seq<Link>, p: PartId, owners: seq<nat>)
    ensures Relink(Relink(rows, p, owners), p, owners) == Relink(rows, p, owners)
  {
    LinkedWithout(rows, p, p);
    UnlinkedUntouched(Without(rows, p), p);
    WithoutConcat(Without(rows, p), Attach(p, owners), p);
    WithoutOfAttach(p, owners);
  }

  /** Every added row belongs to `p`, so deleting `p`'s rows removes them all. */
  lemma {:induction false} WithoutOfAttach(p: PartId, owners: seq<nat>)
    ensures Without(Attach(p, owners), p) == []
    decreases |owners|
  {
    if |owners| > 0 {
      assert Attach(p, owners)[1..] == Attach(p, owners[1..]);
      WithoutOfAttach(p, owners[1..]);
    }
  }

  /** Deleting the rows just added for a part with no earlier rows leaves the table as it was. */
  lemma WithoutUndoesAttach(rows: seq<Link>, p: PartId, owners: seq<nat>)
    requires Unlinked(rows, p)
    ensures Without(rows + Attach(p, owners), p) == rows
  {
    WithoutConcat(rows, Attach(p, owners), p);
    UnlinkedUntouched(rows, p);
    WithoutOfAttach(p, owners);
  }

  /** Deleting rows never brings in a part id that was not there. */
  lemma {:induction false} WithoutBelow(rows: seq<Link>, p: PartId, bound: nat)
    requires forall i :: 0 <= i < |rows| ==> rows[i].part < bound
    ensures forall i :: 0 <= i < |Without(rows, p)| ==> Without(rows, p)[i].part < bound
    decreases |rows|
  {
    if |rows| > 0 {
      assert forall i :: 0 <= i < |rows[1..]| ==> rows[1..][i] == rows[i + 1];
      WithoutBelow(rows[1..], p, bound);
      var w := Without(rows, p);
      var head := if rows[0].part == p then [] else [rows[0]];
      forall i | 0 <= i < |w| ensures w[i].part < bound {
        if i >= |head| {
          assert w[i] == Without(rows[1..], p)[i - |head|];
        }
      }
    }
  }
}
