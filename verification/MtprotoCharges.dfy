/** From counters to charges: the rows the MTProto collector produces
    (internal/mtproto/manager.go), billed row by row by the traffic job
    (internal/web/job/mtproto_job.go). The theorem over every interleaving of the
    collector and the theorem over every sequence of samples meet here. */
module MtprotoCharges {
  import opened Int64
  import opened Text
  import opened MtprotoManager
  import opened MtprotoBilling

  /** Tag and e-mail can be told apart in a key, as long as tags hold no NUL. */
  lemma ClientKeyInjective(t1: string, e1: string, t2: string, e2: string)
    requires '\0' !in t1 && '\0' !in t2
    ensures ClientKey(t1, e1) == ClientKey(t2, e2) <==> t1 == t2 && e1 == e2
  {
    CutJoined(t1, '\0', e1);
    CutJoined(t2, '\0', e2);
  }

  // -----------------------------------------------------------------------
  // The job's loop over the rows
  // -----------------------------------------------------------------------

  function KeyOf(row: Traffic): string {
    ClientKey(row.tag, row.email)
  }

  // A row is two samples of its client: up, then down.
  function UpPoll(row: Traffic): Poll {
    Poll(KeyOf(row), row.up, row.multiplierBps)
  }

  function DownPoll(row: Traffic): Poll {
    Poll(KeyOf(row), row.down, row.multiplierBps)
  }

  ghost function PollsOf(rows: seq<Traffic>): (polls: seq<Poll>)
    ensures ValidPolls(polls)
  {
    if rows == [] then []
    else
      var n := |rows| - 1;
      PollsOf(rows[..n]) + [UpPoll(rows[n])] + [DownPoll(rows[n])]
  }

  // What a row is charged in each direction.
  datatype RowCharge = RowCharge(up: Charge, down: Charge)

  // The bytes of the rows with their surcharges and discounts, for one client.
  ghost function Charged(rows: seq<Traffic>, charges: seq<RowCharge>, key: string): int
    requires |charges| == |rows|
  {
    if rows == [] then 0
    else
      var n := |rows| - 1;
      var r, c := rows[n], charges[n];
      Charged(rows[..n], charges[..n], key) + (if KeyOf(r) == key then ChargedRow(r, c) else 0)
  }

  ghost function ChargedRow(row: Traffic, c: RowCharge): int {
    row.up + c.up.extra - c.up.discount + row.down + c.down.extra - c.down.discount
  }

  // Both directions through the same carry.
  ghost function BillBoth(fs: Fractions, row: Traffic): (r: (RowCharge, Fractions))
    requires ValidFractions(fs)
    ensures ValidFractions(r.1)
  {
    var (up, mid) := Bill(fs, KeyOf(row), row.up, row.multiplierBps);
    var (down, end) := Bill(mid, KeyOf(row), row.down, row.multiplierBps);
    (RowCharge(up, down), end)
  }

  lemma OneMorePoll(polls: seq<Poll>, p: Poll, key: string)
    requires ValidPolls(polls) && IsInt64(p.physical) && p.physical >= 0
    ensures FractionsAfter(polls + [p]) == Bill(FractionsAfter(polls), p.key, p.physical, p.multiplier).1
    ensures PhysicalTotal(polls + [p], key) == PhysicalTotal(polls, key) + (if p.key == key then p.physical else 0)
    ensures var c := Bill(FractionsAfter(polls), p.key, p.physical, p.multiplier).0;
      BilledTotal(polls + [p], key)
        == BilledTotal(polls, key) + (if p.key == key then p.physical + c.extra - c.discount else 0)
  {
    var all := polls + [p];
    assert all[..|all| - 1] == polls && all[|all| - 1] == p;
  }

  // Two billing calls move fractions and bills as the row's samples do.
  lemma OneMoreRow(polls: seq<Poll>, row: Traffic, key: string)
    requires ValidPolls(polls)
    ensures var (c, fs) := BillBoth(FractionsAfter(polls), row);
      var all := polls + [UpPoll(row)] + [DownPoll(row)];
      && FractionsAfter(all) == fs
      && BilledTotal(all, key) == BilledTotal(polls, key) + (if KeyOf(row) == key then ChargedRow(row, c) else 0)
  {
    OneMorePoll(polls, UpPoll(row), key);
    OneMorePoll(polls + [UpPoll(row)], DownPoll(row), key);
  }

  method BillRow(job: MtprotoJob, row: Traffic) returns (c: RowCharge)
    requires job.Valid() && IsInt64(row.multiplierBps)
    modifies job
    ensures job.Valid()
    ensures (c, job.fractions) == BillBoth(old(job.fractions), row)
  {
    var extraUp, discountUp := job.BillTraffic(row.tag, row.email, row.up, row.multiplierBps);
    var extraDown, discountDown := job.BillTraffic(row.tag, row.email, row.down, row.multiplierBps);
    c := RowCharge(Charge(extraUp, discountUp), Charge(extraDown, discountDown));
  }

  // The rows billed so far, after those of earlier polls.
  ghost predicate BilledSoFar(fs: Fractions, earlier: seq<Traffic>, rows: seq<Traffic>, charges: seq<RowCharge>) {
    && |charges| == |rows|
    && fs == FractionsAfter(PollsOf(earlier + rows))
    && forall key ::
         BilledTotal(PollsOf(earlier + rows), key) == BilledTotal(PollsOf(earlier), key) + Charged(rows, charges, key)
  }

  lemma ChargedNext(rows: seq<Traffic>, charges: seq<RowCharge>, row: Traffic, c: RowCharge, key: string)
    requires |charges| == |rows|
    ensures Charged(rows + [row], charges + [c], key)
         == Charged(rows, charges, key) + (if KeyOf(row) == key then ChargedRow(row, c) else 0)
  {
    assert (rows + [row])[..|rows|] == rows && (charges + [c])[..|rows|] == charges;
  }

  lemma PollsNext(rows: seq<Traffic>, row: Traffic)
    ensures PollsOf(rows + [row]) == PollsOf(rows) + [UpPoll(row)] + [DownPoll(row)]
  {
    assert (rows + [row])[..|rows|] == rows;
  }

  lemma RowBilled(fs: Fractions, earlier: seq<Traffic>, rows: seq<Traffic>, charges: seq<RowCharge>,
                  row: Traffic, c: RowCharge, fs': Fractions)
    requires ValidFractions(fs) && BilledSoFar(fs, earlier, rows, charges)
    requires (c, fs') == BillBoth(fs, row)
    ensures BilledSoFar(fs', earlier, rows + [row], charges + [c])
  {
    var polls := PollsOf(earlier + rows);
    PollsNext(earlier + rows, row);
    assert earlier + rows + [row] == earlier + (rows + [row]);
    forall key
      ensures BilledTotal(PollsOf(earlier + (rows + [row])), key)
           == BilledTotal(PollsOf(earlier), key) + Charged(rows + [row], charges + [c], key)
    {
      OneMoreRow(polls, row, key);
      ChargedNext(rows, charges, row, c, key);
    }
    OneMoreRow(polls, row, "");
  }

  /** The loop over one poll's rows: what it charges a client is what the
      samples seen so far add to its bill. */
  method BillRows(job: MtprotoJob, rows: seq<Traffic>, ghost earlier: seq<Traffic>) returns (charges: seq<RowCharge>)
    requires job.Valid() && job.fractions == FractionsAfter(PollsOf(earlier))
    requires forall i :: 0 <= i < |rows| ==> IsInt64(rows[i].multiplierBps)
    modifies job
    ensures job.Valid() && BilledSoFar(job.fractions, earlier, rows, charges)
  {
    charges := [];
    assert earlier + rows[..0] == earlier;
    for i := 0 to |rows|
      invariant job.Valid() && BilledSoFar(job.fractions, earlier, rows[..i], charges)
    {
      ghost var fs := job.fractions;
      var c := BillRow(job, rows[i]);
      RowBilled(fs, earlier, rows[..i], charges, rows[i], c, job.fractions);
      assert rows[..i + 1] == rows[..i] + [rows[i]];
      charges := charges + [c];
    }
    assert rows[..|rows|] == rows;
  }

  // -----------------------------------------------------------------------
  // The bytes of the rows
  // -----------------------------------------------------------------------

  ghost function RowBytes(rows: seq<Traffic>, key: string): int {
    if rows == [] then 0
    else
      var n := |rows| - 1;
      RowBytes(rows[..n], key) + (if KeyOf(rows[n]) == key then rows[n].up + rows[n].down else 0)
  }

  lemma {:induction false} PollsTotal(rows: seq<Traffic>, key: string)
    ensures PhysicalTotal(PollsOf(rows), key) == RowBytes(rows, key)
  {
    if rows != [] {
      var n := |rows| - 1;
      PollsTotal(rows[..n], key);
      OneMorePoll(PollsOf(rows[..n]), UpPoll(rows[n]), key);
      OneMorePoll(PollsOf(rows[..n]) + [UpPoll(rows[n])], DownPoll(rows[n]), key);
    }
  }

  lemma {:induction false} RowBytesAppend(a: seq<Traffic>, b: seq<Traffic>, key: string)
    ensures RowBytes(a + b, key) == RowBytes(a, key) + RowBytes(b, key)
    decreases |b|
  {
    if b == [] {
      assert a + b == a;
    } else {
      var n := |b| - 1;
      RowBytesAppend(a, b[..n], key);
      assert (a + b)[..|a + b| - 1] == a + b[..n];
    }
  }

  lemma {:induction false} NoRows(rows: seq<Traffic>, key: string)
    requires forall i :: 0 <= i < |rows| ==> KeyOf(rows[i]) != key
    ensures RowBytes(rows, key) == 0
  {
    if rows != [] {
      NoRows(rows[..|rows| - 1], key);
    }
  }

  lemma {:induction false} OneRow(rows: seq<Traffic>, i: nat)
    requires i < |rows|
    requires forall j :: 0 <= j < |rows| && j != i ==> KeyOf(rows[j]) != KeyOf(rows[i])
    ensures RowBytes(rows, KeyOf(rows[i])) == rows[i].up + rows[i].down
  {
    var n := |rows| - 1;
    if i == n {
      NoRows(rows[..n], KeyOf(rows[i]));
    } else {
      OneRow(rows[..n], i);
    }
  }

  ghost function BytesOf(bills: Reading, e: Email): int {
    if e in bills then bills[e].up + bills[e].down else 0
  }

  // One scrape's rows hold a client's bill once, and only under its own tag.
  lemma {:induction false} ScrapeBytes(snap: Snap, bills: Reading, out: seq<Traffic>, tag: string, e: Email)
    requires AreRows(snap, bills, out) && '\0' !in snap.tag && '\0' !in tag
    ensures RowBytes(out, ClientKey(tag, e)) == if snap.tag == tag then BytesOf(bills, e) else 0
  {
    var key := ClientKey(tag, e);
    forall i | 0 <= i < |out|
      ensures KeyOf(out[i]) == key <==> snap.tag == tag && out[i].email == e
    {
      assert out[i] in out && IsRow(snap, bills, out[i]);
      ClientKeyInjective(snap.tag, out[i].email, tag, e);
    }
    if snap.tag == tag && e in bills {
      assert IsRow(snap, bills, RowOf(snap, e, bills[e]));
      var i :| 0 <= i < |out| && out[i] == RowOf(snap, e, bills[e]);
      OneRow(out, i);
    } else {
      forall i | 0 <= i < |out| ensures KeyOf(out[i]) != key {
        assert out[i] in out && IsRow(snap, bills, out[i]);
      }
      NoRows(out, key);
    }
  }

  // -----------------------------------------------------------------------
  // The rows of a run
  // -----------------------------------------------------------------------

  // The rows of all scrapes, one scrape after the other.
  ghost predicate Emitted(bills: Bills, rows: seq<Traffic>) {
    match bills
    case NoBills => rows == []
    case Billing(before, snap, amounts) =>
      exists k :: 0 <= k <= |rows| && Emitted(before, rows[..k]) && AreRows(snap, amounts, rows[k..])
  }

  // What the run billed a client under a tag, whatever the incarnation.
  ghost function ClientBytes(bills: Bills, tag: string, e: Email): int {
    match bills
    case NoBills => 0
    case Billing(before, snap, amounts) =>
      ClientBytes(before, tag, e) + (if snap.tag == tag then BytesOf(amounts, e) else 0)
  }

  ghost predicate PlainTags(bills: Bills) {
    match bills
    case NoBills => true
    case Billing(before, snap, _) => PlainTags(before) && '\0' !in snap.tag
  }

  lemma {:induction false} EmittedBytes(bills: Bills, rows: seq<Traffic>, tag: string, e: Email)
    requires Emitted(bills, rows) && PlainTags(bills) && '\0' !in tag
    ensures RowBytes(rows, ClientKey(tag, e)) == ClientBytes(bills, tag, e)
  {
    match bills
    case NoBills =>
    case Billing(before, snap, amounts) =>
      var k :| 0 <= k <= |rows| && Emitted(before, rows[..k]) && AreRows(snap, amounts, rows[k..]);
      EmittedBytes(before, rows[..k], tag, e);
      ScrapeBytes(snap, amounts, rows[k..], tag, e);
      RowBytesAppend(rows[..k], rows[k..], ClientKey(tag, e));
      assert rows[..k] + rows[k..] == rows;
  }

  // The incarnations that were scraped under the tag, and under no other.
  ghost predicate ScrapedAs(bills: Bills, tag: string, incs: seq<Incarnation>) {
    match bills
    case NoBills => true
    case Billing(before, snap, _) => ScrapedAs(before, tag, incs) && (snap.tag == tag <==> snap.inc in incs)
  }

  ghost predicate Distinct(incs: seq<Incarnation>) {
    forall i, j :: 0 <= i < j < |incs| ==> incs[i] != incs[j]
  }

  ghost function Sum(incs: seq<Incarnation>, f: Incarnation -> int): int {
    if incs == [] then 0 else Sum(incs[..|incs| - 1], f) + f(incs[|incs| - 1])
  }

  lemma {:induction false} SumSame(incs: seq<Incarnation>, f: Incarnation -> int, g: Incarnation -> int)
    requires forall i :: 0 <= i < |incs| ==> f(incs[i]) == g(incs[i])
    ensures Sum(incs, f) == Sum(incs, g)
  {
    if incs != [] {
      SumSame(incs[..|incs| - 1], f, g);
    }
  }

  lemma {:induction false} SumAtMost(incs: seq<Incarnation>, f: Incarnation -> int, g: Incarnation -> int)
    requires forall i :: 0 <= i < |incs| ==> f(incs[i]) <= g(incs[i])
    ensures Sum(incs, f) <= Sum(incs, g)
  {
    if incs != [] {
      SumAtMost(incs[..|incs| - 1], f, g);
    }
  }

  // One of the summands grows.
  lemma {:induction false} SumGrows(incs: seq<Incarnation>, f: Incarnation -> int, g: Incarnation -> int,
                                    inc: Incarnation, more: int)
    requires Distinct(incs)
    requires forall i :: 0 <= i < |incs| ==> g(incs[i]) == f(incs[i]) + (if incs[i] == inc then more else 0)
    ensures Sum(incs, g) == Sum(incs, f) + (if inc in incs then more else 0)
  {
    if incs != [] {
      var n := |incs| - 1;
      SumGrows(incs[..n], f, g, inc, more);
      assert incs == incs[..n] + [incs[n]];
      if incs[n] == inc {
        assert inc !in incs[..n];
      }
    }
  }

  // Both directions of what an incarnation's client was billed.
  ghost function BilledBytes(bills: Bills, inc: Incarnation, e: Email): int {
    Billed(bills, inc, e, Up) + Billed(bills, inc, e, Down)
  }

  lemma {:induction false} ClientBytesOver(bills: Bills, tag: string, incs: seq<Incarnation>, e: Email)
    requires ScrapedAs(bills, tag, incs) && Distinct(incs)
    ensures ClientBytes(bills, tag, e) == Sum(incs, inc => BilledBytes(bills, inc, e))
  {
    match bills
    case NoBills =>
      SumGrows(incs, inc => 0, inc => BilledBytes(bills, inc, e), Incarnation(0, 0), 0);
      SumZero(incs);
    case Billing(before, snap, amounts) =>
      ClientBytesOver(before, tag, incs, e);
      SumGrows(incs, inc => BilledBytes(before, inc, e), inc => BilledBytes(bills, inc, e),
               snap.inc, BytesOf(amounts, e));
  }

  lemma {:induction false} SumZero(incs: seq<Incarnation>)
    ensures Sum(incs, inc => 0) == 0
  {
    if incs != [] {
      SumZero(incs[..|incs| - 1]);
    }
  }

  // -----------------------------------------------------------------------
  // Counters to charges
  // -----------------------------------------------------------------------

  // What the process counted for the client, reading after reading.
  ghost function Counted(s: State, inc: Incarnation, e: Email): int {
    Increments(ReadingsOf(s, inc), e, Up) + Increments(ReadingsOf(s, inc), e, Down)
  }

  // Every row of the client carries one price.
  ghost predicate PricedAt(rows: seq<Traffic>, key: string, factor: int) {
    forall i :: 0 <= i < |rows| && KeyOf(rows[i]) == key ==> EffectiveFactor(rows[i].multiplierBps) == factor
  }

  lemma {:induction false} PollsPriced(rows: seq<Traffic>, key: string, factor: int)
    requires PricedAt(rows, key, factor)
    ensures FactorOf(PollsOf(rows), key, factor)
  {
    if rows != [] {
      var n := |rows| - 1;
      PollsPriced(rows[..n], key, factor);
      assert KeyOf(rows[n]) == key ==> EffectiveFactor(rows[n].multiplierBps) == factor;
    }
  }

  /** The samples of a client over a whole run, restarts and every interleaving
      included, hold exactly what its processes counted between readings. */
  lemma {:induction false} SampledIsCounted(ops: seq<Op>, rows: seq<Traffic>, tag: string, e: Email,
                                            incs: seq<Incarnation>)
    requires Emitted(Run(ops).bills, rows) && PlainTags(Run(ops).bills) && '\0' !in tag
    requires ScrapedAs(Run(ops).bills, tag, incs) && Distinct(incs)
    ensures PhysicalTotal(PollsOf(rows), ClientKey(tag, e)) == Sum(incs, inc => Counted(Run(ops), inc, e))
  {
    var s := Run(ops);
    PollsTotal(rows, ClientKey(tag, e));
    EmittedBytes(s.bills, rows, tag, e);
    ClientBytesOver(s.bills, tag, incs, e);
    forall i | 0 <= i < |incs| ensures BilledBytes(s.bills, incs[i], e) == Counted(s, incs[i], e) {
      BilledIsIncrements(ops, incs[i], e, Up);
      BilledIsIncrements(ops, incs[i], e, Down);
    }
    SumSame(incs, inc => BilledBytes(s.bills, inc, e), inc => Counted(s, inc, e));
  }

  /** So at one price a client is charged the scaled sum of what its processes
      counted, however the collector was interleaved with restarts and edits. */
  lemma {:induction false} ChargedIsScaledCount(ops: seq<Op>, rows: seq<Traffic>, tag: string, e: Email,
                                                incs: seq<Incarnation>, factor: int)
    requires Emitted(Run(ops).bills, rows) && PlainTags(Run(ops).bills) && '\0' !in tag
    requires ScrapedAs(Run(ops).bills, tag, incs) && Distinct(incs)
    requires ValidFactor(factor) && PricedAt(rows, ClientKey(tag, e), factor)
    requires ScaledBill(Sum(incs, inc => Counted(Run(ops), inc, e)), factor) <= MAX_INT64
    ensures BilledTotal(PollsOf(rows), ClientKey(tag, e))
         == ScaledBill(Sum(incs, inc => Counted(Run(ops), inc, e)), factor)
  {
    SampledIsCounted(ops, rows, tag, e, incs);
    PollsPriced(rows, ClientKey(tag, e), factor);
    BilledTotalExact(PollsOf(rows), ClientKey(tag, e), factor);
  }

  // The growth of a client's counters between its first and last sight.
  ghost function Growth(rs: Readings, e: Email): int {
    if FirstSeen(rs, e).At? && LastSeen(rs, e).At? then
      var first, last := FirstSeen(rs, e).c, LastSeen(rs, e).c;
      last.up - first.up + last.down - first.down
    else 0
  }

  ghost function GrowthOf(s: State, inc: Incarnation, e: Email): int {
    Growth(ReadingsOf(s, inc), e)
  }

  ghost predicate Forward(s: State, incs: seq<Incarnation>, e: Email) {
    forall i :: 0 <= i < |incs| ==>
      Monotone(ReadingsOf(s, incs[i]), e, Up) && Monotone(ReadingsOf(s, incs[i]), e, Down)
  }

  lemma CountedWithinGrowth(ops: seq<Op>, incs: seq<Incarnation>, e: Email, i: nat)
    requires i < |incs| && Forward(Run(ops), incs, e)
    ensures var s := Run(ops);
      && Counted(s, incs[i], e) <= GrowthOf(s, incs[i], e)
      && (AlwaysShown(ReadingsOf(s, incs[i]), e) ==> Counted(s, incs[i], e) == GrowthOf(s, incs[i], e))
  {
    IncrementsBounded(ReadingsOf(Run(ops), incs[i]), e, Up);
    IncrementsBounded(ReadingsOf(Run(ops), incs[i]), e, Down);
  }

  /** With counters that do not run backwards, the charge at one price is at most
      the scaled growth of the client's counters, summed over its processes,
      and exactly that when every scrape showed the client. */
  lemma {:induction false} ChargedWithinGrowth(ops: seq<Op>, rows: seq<Traffic>, tag: string, e: Email,
                                               incs: seq<Incarnation>, factor: int)
    requires Emitted(Run(ops).bills, rows) && PlainTags(Run(ops).bills) && '\0' !in tag
    requires ScrapedAs(Run(ops).bills, tag, incs) && Distinct(incs) && Forward(Run(ops), incs, e)
    requires ValidFactor(factor) && PricedAt(rows, ClientKey(tag, e), factor)
    requires ScaledBill(Sum(incs, inc => GrowthOf(Run(ops), inc, e)), factor) <= MAX_INT64
    ensures var charged := BilledTotal(PollsOf(rows), ClientKey(tag, e));
      var scaled := ScaledBill(Sum(incs, inc => GrowthOf(Run(ops), inc, e)), factor);
      && charged <= scaled
      && ((forall i :: 0 <= i < |incs| ==> AlwaysShown(ReadingsOf(Run(ops), incs[i]), e)) ==> charged == scaled)
  {
    var s := Run(ops);
    var counted, grown := inc => Counted(s, inc, e), inc => GrowthOf(s, inc, e);
    forall i | 0 <= i < |incs|
      ensures counted(incs[i]) <= grown(incs[i])
      ensures AlwaysShown(ReadingsOf(s, incs[i]), e) ==> counted(incs[i]) == grown(incs[i])
    {
      CountedWithinGrowth(ops, incs, e, i);
    }
    SumAtMost(incs, counted, grown);
    MulMonotone(Sum(incs, counted), Sum(incs, grown), factor);
    ChargedIsScaledCount(ops, rows, tag, e, incs, factor);
    if forall i :: 0 <= i < |incs| ==> AlwaysShown(ReadingsOf(s, incs[i]), e) {
      SumSame(incs, counted, grown);
    }
  }
}
