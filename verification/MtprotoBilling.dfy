/** Quota arithmetic of the MTProto sidecars: the physical byte limit handed to
    mtg (internal/mtproto/manager.go) and the bill the traffic job computes
    from the scraped bytes with a fractional carry across polls
    (internal/web/job/mtproto_job.go). At one price the two are shown to agree:
    mtg's guard trips at exactly the byte at which the client's accumulated bill
    reaches the quota. At more than one price they need not. */
module MtprotoBilling {
  import opened Int64

  const DEFAULT_BPS: int := 10_000
  const MAX_BPS: int := 9_007_199_254_740_991

  predicate ValidFactor(f: int) {
    100 <= f <= MAX_BPS
  }

  function EffectiveFactor(multiplier: int): (f: int)
    ensures ValidFactor(f)
  {
    if multiplier < 100 || multiplier > MAX_BPS then DEFAULT_BPS else multiplier
  }

  // A multiplier the panel accepts is the price itself.
  lemma FactorIsMultiplier(multiplier: int)
    ensures ValidFactor(multiplier) ==> EffectiveFactor(multiplier) == multiplier
    ensures !ValidFactor(multiplier) ==> EffectiveFactor(multiplier) == 10_000
  {
  }

  // The bill for a number of physical bytes, rounded down to whole bytes.
  function ScaledBill(physical: int, factor: int): int {
    physical * factor / 10_000
  }

  function PhysicalQuota(billable: int, multiplier: int): (q: int)
    requires IsInt64(billable) && IsInt64(multiplier)
    ensures 0 <= q <= MAX_INT64
  {
    if billable <= 0 then 0
    else
      var factor := EffectiveFactor(multiplier);
      var (hi, lo) := Mul64(billable, 10_000);
      if hi >= factor then MAX_INT64
      else
        var (physical, remainder) := Div64(hi, lo, factor);
        if physical >= MAX_INT64 then MAX_INT64
        else if remainder > 0 then physical + 1
        else physical
  }

  // -----------------------------------------------------------------------
  // The quota is a saturated ceiling
  // -----------------------------------------------------------------------

  lemma BillReaches(billable: int, physical: int, factor: int)
    ensures ScaledBill(physical, factor) >= billable <==> physical * factor >= billable * 10_000
  {
  }

  lemma QuotientFromProduct(q: int, r: int, f: int, n: int, p: int)
    requires f > 0 && q * f + r == n && 0 <= r < f
    ensures p * f >= n <==> p >= q + (if r > 0 then 1 else 0)
  {
    if p >= q + 1 {
      MulMonotone(q + 1, p, f);
      assert (q + 1) * f == q * f + f;
    } else if p < q {
      MulMonotone(p, q - 1, f);
      assert (q - 1) * f == q * f - f;
    } else {
      assert p * f == q * f;
    }
  }

  /** For every byte count below the int64 maximum, the guard has been reached
      exactly when the bill has: the quota is the least sufficient count, or
      the int64 maximum when no representable count suffices. */
  lemma QuotaIsLeast(billable: int, multiplier: int, physical: int)
    requires IsInt64(billable) && IsInt64(multiplier)
    requires 0 <= physical < MAX_INT64
    ensures physical >= PhysicalQuota(billable, multiplier)
       <==> ScaledBill(physical, EffectiveFactor(multiplier)) >= billable
  {
    var f := EffectiveFactor(multiplier);
    BillReaches(billable, physical, f);
    if billable <= 0 {
      MulNonneg(physical, f);
    } else {
      var (hi, lo) := Mul64(billable, 10_000);
      if hi >= f {
        MulMonotone(f, hi, TWO_64);
        MulMonotone(physical, MAX_INT64, f);
        assert physical * f < billable * 10_000;
      } else {
        var (q, r) := Div64(hi, lo, f);
        QuotientFromProduct(q, r, f, billable * 10_000, physical);
      }
    }
  }

  /** A larger billable quota never lowers the physical limit, and a dearer
      byte never raises it. */
  lemma QuotaMonotone(b1: int, b2: int, m1: int, m2: int)
    requires IsInt64(b1) && IsInt64(b2) && b1 <= b2
    requires ValidFactor(m1) && ValidFactor(m2) && m1 >= m2
    ensures PhysicalQuota(b1, m1) <= PhysicalQuota(b2, m2)
  {
    var q2 := PhysicalQuota(b2, m2);
    if q2 < MAX_INT64 {
      QuotaIsLeast(b2, m2, q2);
      MulMonotone(m2, m1, q2);
      assert q2 * m2 <= q2 * m1;
      assert ScaledBill(q2, m2) <= ScaledBill(q2, m1);
      QuotaIsLeast(b1, m1, q2);
    }
  }

  // -----------------------------------------------------------------------
  // The traffic job's bill
  // -----------------------------------------------------------------------

  // What a client's fraction is remembered under.
  function ClientKey(tag: string, email: string): string {
    tag + ['\0'] + email
  }

  datatype Fraction = Fraction(factor: int, remainder: int)
  type Fractions = map<string, Fraction>

  // A remainder is what a division by 10000 leaves.
  ghost predicate ValidFractions(fs: Fractions) {
    forall k :: k in fs ==> 0 <= fs[k].remainder < 10_000
  }

  datatype Charge = Charge(extra: int, discount: int)

  function CarriedRemainder(fs: Fractions, key: string, factor: int): (r: int)
    requires ValidFractions(fs)
    ensures 0 <= r < 10_000
  {
    if key in fs && fs[key].factor == factor then fs[key].remainder else 0
  }

  // One billing call: the charge and the remembered fractions.
  function Bill(fs: Fractions, key: string, physical: int, multiplier: int): (r: (Charge, Fractions))
    requires ValidFractions(fs) && IsInt64(physical)
    ensures ValidFractions(r.1)
  {
    if physical <= 0 then (Charge(0, 0), fs)
    else
      var factor := EffectiveFactor(multiplier);
      var n := physical * factor + CarriedRemainder(fs, key, factor);
      var billed := n / 10_000;
      if billed > MAX_INT64 then (Charge(MAX_INT64 - physical, 0), fs)
      else
        var fs' := fs[key := Fraction(factor, n % 10_000)];
        (if billed >= physical then Charge(billed - physical, 0) else Charge(0, physical - billed), fs')
  }

  // bits.Mul64 followed by bits.Add64 of the carried remainder.
  function MulCarry(physical: int, factor: int, remainder: int): (r: (int, int))
    requires 0 <= physical <= MAX_INT64 && ValidFactor(factor) && 0 <= remainder < 10_000
    ensures IsUint64(r.0) && IsUint64(r.1)
    ensures r.0 * TWO_64 + r.1 == physical * factor + remainder
  {
    var (hi, lo) := Mul64(physical, factor);
    HighWordBound(hi, lo, physical, factor);
    var carry := if lo + remainder >= TWO_64 then 1 else 0;
    (hi + carry, lo + remainder - carry * TWO_64)
  }

  lemma HighWordBound(hi: int, lo: int, physical: int, factor: int)
    requires 0 <= physical <= MAX_INT64 && ValidFactor(factor) && 0 <= lo
    requires hi * TWO_64 + lo == physical * factor
    ensures hi < MAX_BPS
  {
    MulMonotone(physical, MAX_INT64, factor);
  }

  lemma QuotientOf(n: int, q: int, r: int)
    requires q * 10_000 + r == n && 0 <= r < 10_000
    ensures n / 10_000 == q && n % 10_000 == r
  {
  }

  // The 128-bit arithmetic: it never faults, and it knows when a bill does not
  // fit an int64.
  method DivideBill(physical: int, factor: int, remainder: int) returns (fits: bool, billed: int, rest: int)
    requires 0 <= physical <= MAX_INT64 && ValidFactor(factor) && 0 <= remainder < 10_000
    ensures var n := physical * factor + remainder;
      if n / 10_000 > MAX_INT64 then !fits else fits && billed == n / 10_000 && rest == n % 10_000
  {
    ghost var n := physical * factor + remainder;
    var (hi, lo) := MulCarry(physical, factor, remainder);
    if hi >= 10_000 {
      QuotientOf(n, n / 10_000, n % 10_000);
      return false, 0, 0;
    }
    billed, rest := Div64(hi, lo, 10_000).0, Div64(hi, lo, 10_000).1;
    QuotientOf(n, billed, rest);
    fits := billed <= MAX_INT64;
  }

  /** The job's mutable state: one remembered fraction per tag and email. */
  class MtprotoJob {
    var fractions: Fractions

    ghost predicate Valid()
      reads this
    {
      ValidFractions(fractions)
    }

    constructor ()
      ensures Valid() && fractions == map[]
    {
      fractions := map[];
    }

    method BillTraffic(tag: string, email: string, physical: int, multiplier: int)
      returns (extra: int, discount: int)
      requires Valid() && IsInt64(physical) && IsInt64(multiplier)
      modifies this
      ensures Valid()
      ensures (Charge(extra, discount), fractions) == Bill(old(fractions), ClientKey(tag, email), physical, multiplier)
      ensures 0 <= extra <= MAX_INT64 && 0 <= discount <= MAX_INT64
    {
      if physical <= 0 {
        return 0, 0;
      }
      var factor := multiplier;
      if factor < 100 || factor > MAX_BPS {
        factor := DEFAULT_BPS;
      }
      var key := ClientKey(tag, email);
      var remainder := 0;
      if key in fractions && fractions[key].factor == factor {
        remainder := fractions[key].remainder;
      }
      MulNonneg(physical, factor);
      var fits, billed, rest := DivideBill(physical, factor, remainder);
      if !fits {
        return MAX_INT64 - physical, 0;
      }
      fractions := fractions[key := Fraction(factor, rest)];
      if billed >= physical {
        return billed - physical, 0;
      }
      return 0, physical - billed;
    }
  }

  // -----------------------------------------------------------------------
  // Runs of polls
  // -----------------------------------------------------------------------

  datatype Poll = Poll(key: string, physical: int, multiplier: int)

  ghost predicate ValidPolls(polls: seq<Poll>) {
    forall i :: 0 <= i < |polls| ==> IsInt64(polls[i].physical)
  }

  ghost function FractionsAfter(polls: seq<Poll>): (fs: Fractions)
    requires ValidPolls(polls)
    ensures ValidFractions(fs)
  {
    if polls == [] then map[]
    else
      var last := polls[|polls| - 1];
      Bill(FractionsAfter(polls[..|polls| - 1]), last.key, last.physical, last.multiplier).1
  }

  // The bytes of one client that were positive samples.
  ghost function PhysicalTotal(polls: seq<Poll>, key: string): (n: int)
    ensures n >= 0
  {
    if polls == [] then 0
    else
      var last := polls[|polls| - 1];
      PhysicalTotal(polls[..|polls| - 1], key) + (if last.key == key && last.physical > 0 then last.physical else 0)
  }

  // What the client was billed: physical bytes plus extras minus discounts.
  ghost function BilledTotal(polls: seq<Poll>, key: string): int
    requires ValidPolls(polls)
  {
    if polls == [] then 0
    else
      var last := polls[|polls| - 1];
      var before := BilledTotal(polls[..|polls| - 1], key);
      if last.key == key && last.physical > 0 then
        var c := Bill(FractionsAfter(polls[..|polls| - 1]), last.key, last.physical, last.multiplier).0;
        before + last.physical + c.extra - c.discount
      else before
  }

  lemma CarryLosesNothing(a: int, b: int)
    ensures (a + b) / 10_000 == a / 10_000 + (a % 10_000 + b) / 10_000
    ensures (a + b) % 10_000 == (a % 10_000 + b) % 10_000
  {
  }

  // The meter a client should see: bytes at one price are billed together, and
  // a change of price rounds off what came before. A sample whose bill would
  // not fit is charged the int64 maximum and leaves the meter where it was.
  datatype Meter = Meter(settled: int, factor: int, bytes: nat)

  ghost function Metered(m: Meter, physical: int, factor: int): Meter
    requires physical > 0 && ValidFactor(factor)
  {
    var carried := if factor == m.factor then m.bytes * m.factor % 10_000 else 0;
    if (physical * factor + carried) / 10_000 > MAX_INT64 then m.(settled := m.settled + MAX_INT64)
    else if factor == m.factor then m.(bytes := m.bytes + physical)
    else Meter(m.settled + ScaledBill(m.bytes, m.factor), factor, physical)
  }

  ghost function MeterAfter(polls: seq<Poll>, key: string): (m: Meter)
    ensures m.factor == 0 || ValidFactor(m.factor)
  {
    if polls == [] then Meter(0, 0, 0)
    else
      var m, last := MeterAfter(polls[..|polls| - 1], key), polls[|polls| - 1];
      if last.key == key && last.physical > 0 then Metered(m, last.physical, EffectiveFactor(last.multiplier)) else m
  }

  ghost function Reading(m: Meter): int {
    m.settled + ScaledBill(m.bytes, m.factor)
  }

  // The remembered fraction is what the meter's open bytes leave over.
  ghost predicate FractionOf(fs: Fractions, key: string, m: Meter) {
    if m.factor == 0 then key !in fs && m.bytes == 0
    else key in fs && fs[key] == Fraction(m.factor, m.bytes * m.factor % 10_000)
  }

  // One sample moves the bill and the fraction as it moves the meter.
  lemma BillFollowsMeter(fs: Fractions, key: string, m: Meter, physical: int, multiplier: int)
    requires ValidFractions(fs) && 0 < physical && IsInt64(physical)
    requires (m.factor == 0 || ValidFactor(m.factor)) && FractionOf(fs, key, m)
    ensures var (c, fs') := Bill(fs, key, physical, multiplier);
      var m' := Metered(m, physical, EffectiveFactor(multiplier));
      FractionOf(fs', key, m') && Reading(m') == Reading(m) + physical + c.extra - c.discount
  {
    var f := EffectiveFactor(multiplier);
    MulNonneg(physical, f);
    if f == m.factor {
      assert (m.bytes + physical) * f == m.bytes * f + physical * f;
      CarryLosesNothing(m.bytes * f, physical * f);
    }
  }

  /** Whatever other clients are polled in between, however often the price
      changes and whatever a sample's size: what one client has been billed is
      what the meter shows. No fraction is lost or billed twice. */
  lemma {:induction false} BilledIsMetered(polls: seq<Poll>, key: string)
    requires ValidPolls(polls)
    ensures BilledTotal(polls, key) == Reading(MeterAfter(polls, key))
    ensures FractionOf(FractionsAfter(polls), key, MeterAfter(polls, key))
  {
    if polls != [] {
      var before, last := polls[..|polls| - 1], polls[|polls| - 1];
      BilledIsMetered(before, key);
      if last.key == key && last.physical > 0 {
        BillFollowsMeter(FractionsAfter(before), key, MeterAfter(before, key), last.physical, last.multiplier);
      }
    }
  }

  ghost predicate FactorOf(polls: seq<Poll>, key: string, factor: int) {
    forall i :: 0 <= i < |polls| && polls[i].key == key ==> EffectiveFactor(polls[i].multiplier) == factor
  }

  // At one price the meter has one run, as long as the total bill is an int64.
  lemma {:induction false} MeterAtOnePrice(polls: seq<Poll>, key: string, factor: int)
    requires ValidFactor(factor) && FactorOf(polls, key, factor)
    requires ScaledBill(PhysicalTotal(polls, key), factor) <= MAX_INT64
    ensures var m := MeterAfter(polls, key);
      m.settled == 0 && m.bytes == PhysicalTotal(polls, key) && (m.factor == factor || m == Meter(0, 0, 0))
  {
    if polls != [] {
      var before, last := polls[..|polls| - 1], polls[|polls| - 1];
      var total := PhysicalTotal(before, key);
      if last.key == key && last.physical > 0 {
        assert (total + last.physical) * factor == total * factor + last.physical * factor;
        MulNonneg(last.physical, factor);
        MulNonneg(total, factor);
        MeterAtOnePrice(before, key, factor);
        CarryLosesNothing(total * factor, last.physical * factor);
        assert ScaledBill(total, factor) >= 0;
      } else {
        MeterAtOnePrice(before, key, factor);
      }
    }
  }

  /** At one price the bills of a client add up to the scaled bill of its total. */
  lemma BilledTotalExact(polls: seq<Poll>, key: string, factor: int)
    requires ValidPolls(polls) && ValidFactor(factor) && FactorOf(polls, key, factor)
    requires ScaledBill(PhysicalTotal(polls, key), factor) <= MAX_INT64
    ensures BilledTotal(polls, key) == ScaledBill(PhysicalTotal(polls, key), factor)
    ensures CarriedRemainder(FractionsAfter(polls), key, factor) == PhysicalTotal(polls, key) * factor % 10_000
  {
    BilledIsMetered(polls, key);
    MeterAtOnePrice(polls, key, factor);
    OneRun(FractionsAfter(polls), key, MeterAfter(polls, key), PhysicalTotal(polls, key), factor);
  }

  lemma OneRun(fs: Fractions, key: string, m: Meter, total: nat, factor: int)
    requires ValidFractions(fs) && ValidFactor(factor) && FractionOf(fs, key, m)
    requires m.settled == 0 && m.bytes == total && (m.factor == factor || m == Meter(0, 0, 0))
    ensures Reading(m) == ScaledBill(total, factor)
    ensures CarriedRemainder(fs, key, factor) == total * factor % 10_000
  {
    if m.factor != factor {
      assert total == 0 && total * factor == 0;
    }
  }

  // mtg's guard has tripped.
  ghost predicate GuardTrips(polls: seq<Poll>, key: string, billable: int, multiplier: int)
    requires IsInt64(billable) && IsInt64(multiplier)
  {
    PhysicalTotal(polls, key) >= PhysicalQuota(billable, multiplier)
  }

  /** At one price they agree: after any run of polls the bytes of a client have
      reached the physical limit exactly when its accumulated bill has reached
      the billable quota. */
  lemma GuardMeetsBill(polls: seq<Poll>, key: string, billable: int, multiplier: int)
    requires ValidPolls(polls) && IsInt64(billable) && IsInt64(multiplier)
    requires FactorOf(polls, key, EffectiveFactor(multiplier))
    requires PhysicalTotal(polls, key) < MAX_INT64
    requires ScaledBill(PhysicalTotal(polls, key), EffectiveFactor(multiplier)) <= MAX_INT64
    ensures GuardTrips(polls, key, billable, multiplier) <==> BilledTotal(polls, key) >= billable
  {
    BilledTotalExact(polls, key, EffectiveFactor(multiplier));
    QuotaIsLeast(billable, multiplier, PhysicalTotal(polls, key));
  }

  // -----------------------------------------------------------------------
  // Guard and bill under a schedule of prices
  // -----------------------------------------------------------------------

  // Whose sample comes next, and at what price; its size is still open.
  datatype Slot = Slot(key: string, multiplier: int)

  ghost function Sampled(slots: seq<Slot>, sizes: seq<int>): (polls: seq<Poll>)
    requires |sizes| == |slots|
    ensures |polls| == |slots|
  {
    seq(|slots|, i requires 0 <= i < |slots| => Poll(slots[i].key, sizes[i], slots[i].multiplier))
  }

  // The samples, their total and its bill at the guard's price are int64s.
  ghost predicate Fits(slots: seq<Slot>, sizes: seq<int>, key: string, multiplier: int) {
    && |sizes| == |slots|
    && ValidPolls(Sampled(slots, sizes))
    && PhysicalTotal(Sampled(slots, sizes), key) < MAX_INT64
    && ScaledBill(PhysicalTotal(Sampled(slots, sizes), key), EffectiveFactor(multiplier)) <= MAX_INT64
  }

  // Guard and bill agree on every quota.
  ghost predicate Agree(polls: seq<Poll>, key: string, multiplier: int)
    requires ValidPolls(polls) && IsInt64(multiplier)
  {
    forall billable :: IsInt64(billable) ==>
      (GuardTrips(polls, key, billable, multiplier) <==> BilledTotal(polls, key) >= billable)
  }

  ghost predicate AlwaysAgree(slots: seq<Slot>, key: string, multiplier: int)
    requires IsInt64(multiplier)
  {
    forall sizes :: Fits(slots, sizes, key, multiplier) ==> Agree(Sampled(slots, sizes), key, multiplier)
  }

  ghost predicate OnePrice(slots: seq<Slot>, key: string, factor: int) {
    forall i :: 0 <= i < |slots| && slots[i].key == key ==> EffectiveFactor(slots[i].multiplier) == factor
  }

  // All samples empty but the one at k.
  ghost function OnlyAt(n: nat, k: nat, size: int): seq<int> {
    seq(n, i => if i == k then size else 0)
  }

  lemma {:induction false} NothingSampled(polls: seq<Poll>, key: string)
    requires forall i :: 0 <= i < |polls| ==> polls[i].physical <= 0
    ensures PhysicalTotal(polls, key) == 0 && MeterAfter(polls, key) == Meter(0, 0, 0)
  {
    if polls != [] {
      NothingSampled(polls[..|polls| - 1], key);
    }
  }

  // One sample among empty ones is the only thing the meter sees.
  lemma {:induction false} OneSample(polls: seq<Poll>, k: nat)
    requires k < |polls| && polls[k].physical > 0
    requires forall i :: 0 <= i < |polls| && i != k ==> polls[i].physical <= 0
    ensures PhysicalTotal(polls, polls[k].key) == polls[k].physical
    ensures MeterAfter(polls, polls[k].key)
         == Metered(Meter(0, 0, 0), polls[k].physical, EffectiveFactor(polls[k].multiplier))
  {
    var n := |polls| - 1;
    if k == n {
      NothingSampled(polls[..n], polls[k].key);
    } else {
      OneSample(polls[..n], k);
    }
  }

  lemma FirstSample(factor: int)
    requires ValidFactor(factor)
    ensures Reading(Metered(Meter(0, 0, 0), 10_000, factor)) == factor
  {
    QuotientOf(10_000 * factor, factor, 0);
  }

  // 10000 bytes are billed as many bytes as the factor says.
  lemma TenThousandBytes(polls: seq<Poll>, k: nat)
    requires ValidPolls(polls) && k < |polls| && polls[k].physical == 10_000
    requires forall i :: 0 <= i < |polls| && i != k ==> polls[i].physical <= 0
    ensures PhysicalTotal(polls, polls[k].key) == 10_000
    ensures BilledTotal(polls, polls[k].key) == EffectiveFactor(polls[k].multiplier)
  {
    OneSample(polls, k);
    BilledIsMetered(polls, polls[k].key);
    FirstSample(EffectiveFactor(polls[k].multiplier));
  }

  // A slot at another price than the guard's tells the two apart.
  lemma {:induction false} OtherPriceTells(slots: seq<Slot>, k: nat, multiplier: int)
    requires IsInt64(multiplier) && k < |slots|
    requires EffectiveFactor(slots[k].multiplier) != EffectiveFactor(multiplier)
    ensures var sizes := OnlyAt(|slots|, k, 10_000);
      && Fits(slots, sizes, slots[k].key, multiplier)
      && !Agree(Sampled(slots, sizes), slots[k].key, multiplier)
  {
    var key, polls := slots[k].key, Sampled(slots, OnlyAt(|slots|, k, 10_000));
    var guard, bill := EffectiveFactor(multiplier), EffectiveFactor(slots[k].multiplier);
    TenThousandBytes(polls, k);
    assert ScaledBill(10_000, guard) == guard;
    var quota := if guard > bill then guard else bill;
    QuotaIsLeast(quota, multiplier, 10_000);
    assert GuardTrips(polls, key, quota, multiplier) != (BilledTotal(polls, key) >= quota);
  }

  /** Exactly when mtg's guard can be trusted: for every size the samples may
      have, guard and bill agree on every quota, if and only if every sample of
      the client is billed at the guard's price. */
  lemma {:induction false} GuardMeetsBillIff(slots: seq<Slot>, key: string, multiplier: int)
    requires IsInt64(multiplier)
    ensures AlwaysAgree(slots, key, multiplier) <==> OnePrice(slots, key, EffectiveFactor(multiplier))
  {
    if OnePrice(slots, key, EffectiveFactor(multiplier)) {
      forall sizes | Fits(slots, sizes, key, multiplier)
        ensures Agree(Sampled(slots, sizes), key, multiplier)
      {
        var polls := Sampled(slots, sizes);
        forall billable | IsInt64(billable)
          ensures GuardTrips(polls, key, billable, multiplier) <==> BilledTotal(polls, key) >= billable
        {
          GuardMeetsBill(polls, key, billable, multiplier);
        }
      }
    } else {
      var k :| 0 <= k < |slots| && slots[k].key == key
            && EffectiveFactor(slots[k].multiplier) != EffectiveFactor(multiplier);
      OtherPriceTells(slots, k, multiplier);
    }
  }

  /** After a change of price they need not: 10 bytes at double price fill a quota
      of 20, while the guard set at the single price waits for 20 bytes. */
  lemma PriceChangeSplitsGuard()
    ensures var polls := [Poll("k", 10, 20_000)];
      BilledTotal(polls, "k") >= 20 && !GuardTrips(polls, "k", 20, 10_000)
  {
    var p := Poll("k", 10, 20_000);
    BilledIsMetered([p], "k");
    OneSample([p], 0);
    QuotaIsLeast(20, 10_000, 10);
  }
}
