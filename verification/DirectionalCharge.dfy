/** The upgrade that splits an aggregate traffic charge into an upload and a
    download part (internal/database/traffic_direction_migration.go and
    internal/xray/client_traffic.go): the arithmetic of one row, the predicate
    that selects rows, and the cursor loop over a table. */
module DirectionalCharge {
  import opened Collections
  import opened Int64

  // -----------------------------------------------------------------------
  // One charge
  // -----------------------------------------------------------------------

  /** Splits a charge by the physical uplink share; arbitrary precision inside. */
  function AllocateLegacyCharge(charge: int, up: int, down: int): (r: (int, int))
    requires IsInt64(charge) && IsInt64(up) && IsInt64(down)
    ensures 0 <= r.0 && 0 <= r.1 && r.0 + r.1 == Max(charge, 0)
  {
    var c, u, d := Max(charge, 0), Max(up, 0), Max(down, 0);
    if c == 0 then (0, 0)
    else if u == 0 && d == 0 then (0, c)
    else
      ShareWithin(c, u, d);
      var upCharge := c * u / (u + d);
      (upCharge, c - upCharge)
  }

  lemma ShareWithin(c: int, u: int, d: int)
    requires 0 <= c && 0 <= u && 0 <= d && 0 < u + d
    ensures 0 <= c * u / (u + d) <= c
  {
    MulNonneg(c, u);
    MulNonneg(c, d);
    assert c * (u + d) == c * u + c * d;
    assert c * (u + d) < (u + d) * (c + 1);
    assert c * u < (u + d) * (c + 1);
    QuotientBound(c * u, u + d, c + 1);
  }

  function RemainingLegacyCharge(total: int, up: int, down: int): (r: int)
    requires IsInt64(total) && IsInt64(up) && IsInt64(down)
    ensures 0 <= r <= Max(0, total)
  {
    var t, u, d := Max(0, total), Max(0, up), Max(0, down);
    if t <= u then 0
    else if t - u <= d then 0
    else t - u - d
  }

  function AddLegacyCharge(current: int, allocation: int): (r: int)
    requires IsInt64(current) && IsInt64(allocation)
    ensures 0 <= r <= MAX_INT64
  {
    var c, a := Max(0, current), Max(0, allocation);
    if c > MAX_INT64 - a then MAX_INT64 else c + a
  }

  function ReconcileDirectionalCharge(total: int, directionalUp: int, directionalDown: int,
                                      physicalUp: int, physicalDown: int): (int, int)
    requires IsInt64(total) && IsInt64(directionalUp) && IsInt64(directionalDown)
    requires IsInt64(physicalUp) && IsInt64(physicalDown)
  {
    var t, u, d := Max(0, total), Max(0, directionalUp), Max(0, directionalDown);
    if u > t || d > t - u then
      AllocateLegacyCharge(t, u, d)
    else
      var (moreUp, moreDown) := AllocateLegacyCharge(RemainingLegacyCharge(t, u, d), physicalUp, physicalDown);
      (AddLegacyCharge(u, moreUp), AddLegacyCharge(d, moreDown))
  }

  // part is the uplink share of the whole, rounded down; nothing when there was
  // no traffic at all.
  ghost predicate IsUplinkShare(part: int, whole: int, up: int, down: int) {
    if up + down == 0 then part == 0 else part * (up + down) <= whole * up < (part + 1) * (up + down)
  }

  lemma AllocatedShare(charge: int, up: int, down: int)
    requires IsInt64(charge) && IsInt64(up) && IsInt64(down)
    ensures IsUplinkShare(AllocateLegacyCharge(charge, up, down).0, Max(charge, 0), Max(up, 0), Max(down, 0))
  {
    var c, u, d := Max(charge, 0), Max(up, 0), Max(down, 0);
    if u + d != 0 {
      if c == 0 {
        assert c * u == 0;
      } else {
        var part := c * u / (u + d);
        DivModBasics(c * u, u + d);
        assert (part + 1) * (u + d) == part * (u + d) + (u + d);
      }
    }
  }

  /** How the parts of a total come about: recorded parts that fit are kept, and
      what is missing is split by the physical uplink share; parts that do not
      fit are scaled down by their own share. */
  ghost predicate SharesOf(total: int, up: int, down: int, up': int, physicalUp: int, physicalDown: int) {
    if up + down <= total then IsUplinkShare(up' - up, total - up - down, physicalUp, physicalDown)
    else IsUplinkShare(up', total, up, down)
  }

  lemma ChargeShares(total: int, up: int, down: int, physicalUp: int, physicalDown: int)
    requires IsInt64(total) && IsInt64(up) && IsInt64(down) && IsInt64(physicalUp) && IsInt64(physicalDown)
    ensures var r := ReconcileDirectionalCharge(total, up, down, physicalUp, physicalDown);
      SharesOf(Max(0, total), Max(0, up), Max(0, down), r.0, Max(0, physicalUp), Max(0, physicalDown))
  {
    var t, u, d := Max(0, total), Max(0, up), Max(0, down);
    if u + d <= t {
      AllocatedShare(t - u - d, physicalUp, physicalDown);
    } else {
      AllocatedShare(t, u, d);
    }
  }

  /** Whatever the row held, the two parts are non-negative and add up to the
      clamped aggregate: neither the saturation nor an overflow ever changes
      what is deducted. Known parts that fit are never reduced, and a pair that
      already adds up is left alone. */
  lemma ChargeConserved(total: int, up: int, down: int, physicalUp: int, physicalDown: int)
    requires IsInt64(total) && IsInt64(up) && IsInt64(down) && IsInt64(physicalUp) && IsInt64(physicalDown)
    ensures var r := ReconcileDirectionalCharge(total, up, down, physicalUp, physicalDown);
      && 0 <= r.0 && 0 <= r.1 && r.0 + r.1 == Max(0, total)
      && (Max(0, up) + Max(0, down) <= Max(0, total) ==> r.0 >= up && r.1 >= down)
      && (0 <= up && 0 <= down && up + down == total ==> r == (up, down))
  {
  }

  // -----------------------------------------------------------------------
  // The selection predicate
  // -----------------------------------------------------------------------

  // The CASE expression. Its subtraction and its sum are only evaluated where
  // the asserted ranges hold, so a database with BIGINT arithmetic cannot fail.
  predicate Mismatch(total: int, up: int, down: int)
    requires 0 <= total <= MAX_INT64 && 0 <= up <= MAX_INT64 && 0 <= down <= MAX_INT64
  {
    assert IsInt64(total - up);
    if up > total || down > total - up then true
    else
      assert IsInt64(up + down);
      up + down != total
  }

  lemma MismatchIsExact(total: int, up: int, down: int)
    requires 0 <= total <= MAX_INT64 && 0 <= up <= MAX_INT64 && 0 <= down <= MAX_INT64
    ensures Mismatch(total, up, down) <==> up + down != total
  {
  }

  // -----------------------------------------------------------------------
  // Rows
  // -----------------------------------------------------------------------

  datatype Row = Row(id: int, up: int, down: int, extra: int, discount: int,
                     extraUp: int, extraDown: int, discountUp: int, discountDown: int)

  // The startup repair has clamped every charge column before this runs.
  predicate Clamped(r: Row) {
    && IsInt64(r.id) && IsInt64(r.up) && IsInt64(r.down)
    && 0 <= r.extra <= MAX_INT64 && 0 <= r.extraUp <= MAX_INT64 && 0 <= r.extraDown <= MAX_INT64
    && 0 <= r.discount <= MAX_INT64 && 0 <= r.discountUp <= MAX_INT64 && 0 <= r.discountDown <= MAX_INT64
  }

  predicate Selected(r: Row)
    requires Clamped(r)
  {
    Mismatch(r.extra, r.extraUp, r.extraDown) || Mismatch(r.discount, r.discountUp, r.discountDown)
  }

  function Fixed(r: Row): Row
    requires Clamped(r)
  {
    var e := ReconcileDirectionalCharge(r.extra, r.extraUp, r.extraDown, r.up, r.down);
    var d := ReconcileDirectionalCharge(r.discount, r.discountUp, r.discountDown, r.up, r.down);
    r.(extraUp := e.0, extraDown := e.1, discountUp := d.0, discountDown := d.1)
  }

  lemma FixedIsBalanced(r: Row)
    requires Clamped(r)
    ensures Clamped(Fixed(r)) && !Selected(Fixed(r))
    ensures Fixed(r).extraUp + Fixed(r).extraDown == r.extra
    ensures Fixed(r).discountUp + Fixed(r).discountDown == r.discount
    ensures !Selected(r) ==> Fixed(r) == r
  {
    ChargeConserved(r.extra, r.extraUp, r.extraDown, r.up, r.down);
    ChargeConserved(r.discount, r.discountUp, r.discountDown, r.up, r.down);
  }

  /** In a fixed row both charges are split by the uplink share of the row's own
      traffic. */
  lemma FixedByShare(r: Row)
    requires Clamped(r)
    ensures SharesOf(r.extra, r.extraUp, r.extraDown, Fixed(r).extraUp, Max(0, r.up), Max(0, r.down))
    ensures SharesOf(r.discount, r.discountUp, r.discountDown, Fixed(r).discountUp, Max(0, r.up), Max(0, r.down))
  {
    ChargeShares(r.extra, r.extraUp, r.extraDown, r.up, r.down);
    ChargeShares(r.discount, r.discountUp, r.discountDown, r.up, r.down);
  }

  // -----------------------------------------------------------------------
  // Tables
  // -----------------------------------------------------------------------

  ghost predicate AllClamped(rows: seq<Row>) {
    forall i :: 0 <= i < |rows| ==> Clamped(rows[i])
  }

  // Primary keys: positive, and the table is read in their order.
  ghost predicate Keyed(rows: seq<Row>) {
    && (forall i :: 0 <= i < |rows| ==> rows[i].id > 0)
    && (forall i, j :: 0 <= i < j < |rows| ==> rows[i].id < rows[j].id)
  }

  const BATCH := 400

  // The first 400 mismatched rows beyond the cursor, in order, none missing.
  ghost predicate IsPage(rows: seq<Row>, lastID: int, batch: seq<nat>)
    requires AllClamped(rows)
  {
    && |batch| <= BATCH && StrictlyIncreasing(batch)
    && (forall k :: k in batch ==> k < |rows| && rows[k].id > lastID && Selected(rows[k]))
    && (forall k :: 0 <= k < |rows| && rows[k].id > lastID && Selected(rows[k]) ==>
          k in batch || (|batch| == BATCH && batch[BATCH - 1] < k))
  }

  /** One page of the query. */
  method SelectBatch(rows: array<Row>, lastID: int) returns (batch: seq<nat>)
    requires AllClamped(rows[..])
    ensures IsPage(rows[..], lastID, batch)
  {
    batch := [];
    for k := 0 to rows.Length
      invariant |batch| <= BATCH && StrictlyIncreasing(batch)
      invariant forall m :: m in batch ==> m < k && rows[m].id > lastID && Selected(rows[m])
      invariant forall m :: 0 <= m < k && rows[m].id > lastID && Selected(rows[m]) ==>
        m in batch || (|batch| == BATCH && batch[BATCH - 1] < m)
    {
      assert rows[..][k] == rows[k];
      if rows[k].id > lastID && Selected(rows[k]) {
        if |batch| < BATCH {
          VisitMore(batch, [k], k);
          batch := batch + [k];
        } else {
          assert batch[BATCH - 1] in batch;
        }
      }
    }
  }

  // More rows, beyond all those visited so far.
  lemma VisitMore(visited: seq<nat>, batch: seq<nat>, seen: nat)
    requires StrictlyIncreasing(visited) && StrictlyIncreasing(batch)
    requires forall k :: k in visited ==> k < seen
    requires forall k :: k in batch ==> seen <= k
    ensures StrictlyIncreasing(visited + batch)
  {
    forall i, j | 0 <= i < |visited| && 0 <= j < |batch| ensures visited[i] < batch[j] {
      assert visited[i] in visited && batch[j] in batch;
    }
  }

  // Of the rows that were, the first `seen`, up to the cursor, are migrated;
  // the mismatched ones among them are the visited.
  ghost predicate Progress(was: seq<Row>, rows: seq<Row>, seen: nat, lastID: int, visited: seq<nat>)
    requires AllClamped(was)
  {
    && |rows| == |was| && seen <= |was|
    && (forall i :: 0 <= i < seen ==> rows[i] == Migrated(was[i]) && was[i].id <= lastID)
    && (forall i :: seen <= i < |was| ==> rows[i] == was[i] && was[i].id > lastID)
    && StrictlyIncreasing(visited)
    && (forall k :: k in visited <==> 0 <= k < seen && Selected(was[k]))
  }

  // Every row from `seen` up to the page's last is in it or needs nothing.
  lemma PageCovers(was: seq<Row>, rows: seq<Row>, seen: nat, lastID: int, visited: seq<nat>, batch: seq<nat>)
    requires AllClamped(was) && AllClamped(rows) && Progress(was, rows, seen, lastID, visited)
    requires IsPage(rows, lastID, batch) && batch != []
    ensures batch[|batch| - 1] < |was| && forall k :: k in batch ==> seen <= k <= batch[|batch| - 1]
    ensures forall k :: seen <= k <= batch[|batch| - 1] ==> (k in batch <==> Selected(was[k]))
  {
    assert batch[|batch| - 1] in batch;
    forall k | k in batch ensures seen <= k <= batch[|batch| - 1] {
      FixedIsBalanced(was[k]);
    }
  }

  lemma PageProgress(was: seq<Row>, rows: seq<Row>, after: seq<Row>, seen: nat, lastID: int,
                     visited: seq<nat>, batch: seq<nat>)
    requires AllClamped(was) && Keyed(was) && AllClamped(rows) && Progress(was, rows, seen, lastID, visited)
    requires IsPage(rows, lastID, batch) && batch != []
    requires |after| == |rows|
    requires forall k :: 0 <= k < |rows| ==> after[k] == if k in batch then Fixed(rows[k]) else rows[k]
    ensures var last := batch[|batch| - 1];
      seen <= last < |was| && Progress(was, after, last + 1, after[last].id, visited + batch)
  {
    PageCovers(was, rows, seen, lastID, visited, batch);
    VisitMore(visited, batch, seen);
    var last := batch[|batch| - 1];
    assert last in batch;
    forall k ensures k in visited + batch <==> 0 <= k < last + 1 && Selected(was[k]) {
      assert k in visited + batch <==> k in visited || k in batch;
    }
  }

  /** The backfill of one table: in pages of 400 by ascending id it rewrites
      every mismatched row exactly once and touches nothing else. `visited` are
      the rows rewritten, in the order they were. */
  method Backfill(rows: array<Row>) returns (ghost visited: seq<nat>)
    requires AllClamped(rows[..]) && Keyed(rows[..])
    modifies rows
    ensures rows[..] == Backfilled(old(rows[..]))
    ensures StrictlyIncreasing(visited)
    ensures forall k :: k in visited <==> 0 <= k < rows.Length && Selected(old(rows[..])[k])
  {
    ghost var was := rows[..];
    var lastID := 0;
    ghost var seen: nat := 0;
    visited := [];
    while true
      invariant Progress(was, rows[..], seen, lastID, visited)
      decreases rows.Length - seen
    {
      AllClampedNow(rows[..], was, seen, lastID, visited);
      ghost var before := rows[..];
      var batch := SelectBatch(rows, lastID);
      if |batch| == 0 {
        break;
      }
      assert batch[|batch| - 1] in batch;
      UpdateBatch(rows, batch);
      PageProgress(was, before, rows[..], seen, lastID, visited, batch);
      visited := visited + batch;
      var last := batch[|batch| - 1];
      lastID := rows[last].id;
      seen := last + 1;
    }
    forall i | seen <= i < rows.Length ensures rows[i] == Migrated(was[i]) && !Selected(was[i]) {
      assert rows[..][i] == was[i];
    }
  }

  // The transaction: every row of the page is rewritten from its own columns.
  method UpdateBatch(rows: array<Row>, batch: seq<nat>)
    requires AllClamped(rows[..])
    requires forall k :: k in batch ==> k < rows.Length
    requires StrictlyIncreasing(batch)
    modifies rows
    ensures forall k :: 0 <= k < rows.Length ==>
      rows[k] == if k in batch then Fixed(old(rows[..])[k]) else old(rows[k])
  {
    ghost var was := rows[..];
    for i := 0 to |batch|
      invariant forall k :: 0 <= k < rows.Length ==>
        rows[k] == if k in batch[..i] then Fixed(was[k]) else was[k]
    {
      var k := batch[i];
      assert k in batch && k !in batch[..i];
      rows[k] := Fixed(rows[k]);
      assert batch[..i + 1] == batch[..i] + [k];
    }
    assert batch[..|batch|] == batch;
  }

  function Migrated(r: Row): Row
    requires Clamped(r)
  {
    if Selected(r) then Fixed(r) else r
  }

  ghost function Backfilled(rows: seq<Row>): (out: seq<Row>)
    requires AllClamped(rows)
    ensures |out| == |rows|
  {
    seq(|rows|, i requires 0 <= i < |rows| && Clamped(rows[i]) => Migrated(rows[i]))
  }

  lemma AllClampedNow(rows: seq<Row>, was: seq<Row>, seen: nat, lastID: int, visited: seq<nat>)
    requires AllClamped(was) && Progress(was, rows, seen, lastID, visited)
    ensures AllClamped(rows)
  {
    forall i | 0 <= i < |rows| ensures Clamped(rows[i]) {
      FixedIsBalanced(was[i]);
    }
  }

  /** After a run every aggregate is kept exactly, up plus down makes the total,
      and a second run selects nothing. */
  lemma BackfillConserves(rows: seq<Row>, i: nat)
    requires AllClamped(rows) && i < |rows|
    ensures var r := Backfilled(rows)[i];
      && r.extra == rows[i].extra && r.discount == rows[i].discount
      && r.extraUp + r.extraDown == r.extra && r.discountUp + r.discountDown == r.discount
      && Clamped(r) && !Selected(r)
      && (!Selected(rows[i]) ==> r == rows[i])
  {
    FixedIsBalanced(rows[i]);
  }

  // An upgrade interrupted after some pages: the rows up to a cursor are done.
  ghost function Interrupted(rows: seq<Row>, cursor: int): (out: seq<Row>)
    requires AllClamped(rows)
    ensures |out| == |rows|
  {
    seq(|rows|, i requires 0 <= i < |rows| && Clamped(rows[i]) =>
      if rows[i].id <= cursor then Migrated(rows[i]) else rows[i])
  }

  /** Rerunning after an interruption at any page boundary gives the table an
      uninterrupted run would have given. */
  lemma RerunCompletes(rows: seq<Row>, cursor: int)
    requires AllClamped(rows)
    ensures AllClamped(Interrupted(rows, cursor))
    ensures Backfilled(Interrupted(rows, cursor)) == Backfilled(rows)
  {
    var part := Interrupted(rows, cursor);
    forall i | 0 <= i < |rows| ensures Clamped(part[i]) && Migrated(part[i]) == Migrated(rows[i]) {
      FixedIsBalanced(rows[i]);
    }
  }
}
