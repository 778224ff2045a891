/**
 * The achieved amount of a target: the total of the user's paid invoices
 * dated inside the target's period, and the percentage a chart row shows.
 */
module Achievement {
  import opened Outcomes
  import opened Calendar
  import opened Periods

  type UserId = string

  /** An invoice as the aggregate query sees it: its date, status, total and the sales user of its order. */
  datatype Invoice = Invoice(invoiceDate: Date, status: string, totalAmount: int, salesId: UserId)

  const Paid: string := "PAID"

  /** The three conditions of the query's `where`: paid, the user's order, dated inside the range. */
  predicate Counts(inv: Invoice, userId: UserId, r: DateRange)
  {
    inv.status == Paid && inv.salesId == userId && InRange(r, inv.invoiceDate)
  }

  /** `_sum.totalAmount` over the invoices that count, 0 when none does. */
  function PaidTotal(invoices: seq<Invoice>, userId: UserId, r: DateRange): int
  {
    if invoices == [] then 0
    else (if Counts(invoices[0], userId, r) then invoices[0].totalAmount else 0) + PaidTotal(invoices[1..], userId, r)
  }

  /** `calculateAchievedAmount(userId, targetPeriod, targetType)` over the invoice table. */
  function AchievedAmount(invoices: seq<Invoice>, userId: UserId, period: string, t: TargetType): (a: int)
    ensures t.Unrecognised? ==> a == 0
    ensures ParseRange(t, period).None? ==> a == 0
    ensures ParseRange(t, period).Some? ==> a == PaidTotal(invoices, userId, ParseRange(t, period).value)
  {
    match ParseRange(t, period)
    case None => 0
    case Some(r) => PaidTotal(invoices, userId, r)
  }

  lemma {:induction false} PaidTotalAppend(a: seq<Invoice>, b: seq<Invoice>, userId: UserId, r: DateRange)
    ensures PaidTotal(a + b, userId, r) == PaidTotal(a, userId, r) + PaidTotal(b, userId, r)
  {
    if a == [] {
      assert a + b == b;
    } else {
      assert (a + b)[1..] == a[1..] + b;
      PaidTotalAppend(a[1..], b, userId, r);
    }
  }

  /** The total does not depend on the order the invoices come in. */
  lemma PaidTotalSwap(a: seq<Invoice>, b: seq<Invoice>, userId: UserId, r: DateRange)
    ensures PaidTotal(a + b, userId, r) == PaidTotal(b + a, userId, r)
  {
    PaidTotalAppend(a, b, userId, r);
    PaidTotalAppend(b, a, userId, r);
  }

  /** An invoice that does not count can be added anywhere without changing the total. */
  lemma PaidTotalSkips(a: seq<Invoice>, x: Invoice, b: seq<Invoice>, userId: UserId, r: DateRange)
    requires !Counts(x, userId, r)
    ensures PaidTotal(a + [x] + b, userId, r) == PaidTotal(a + b, userId, r)
  {
    PaidTotalAppend(a + [x], b, userId, r);
    PaidTotalAppend(a, [x], userId, r);
    PaidTotalAppend(a, b, userId, r);
  }

  /** A pending (or otherwise unpaid) invoice never contributes. */
  lemma UnpaidNeverCounts(a: seq<Invoice>, x: Invoice, b: seq<Invoice>, userId: UserId, r: DateRange)
    requires x.status != Paid
    ensures PaidTotal(a + [x] + b, userId, r) == PaidTotal(a + b, userId, r)
  {
    PaidTotalSkips(a, x, b, userId, r);
  }

  /** Another user's invoice never contributes, even when paid and inside the period. */
  lemma OtherUserNeverCounts(a: seq<Invoice>, x: Invoice, b: seq<Invoice>, userId: UserId, r: DateRange)
    requires x.salesId != userId
    ensures PaidTotal(a + [x] + b, userId, r) == PaidTotal(a + b, userId, r)
  {
    PaidTotalSkips(a, x, b, userId, r);
  }

  lemma {:induction false} PaidTotalNoMatch(invoices: seq<Invoice>, userId: UserId, r: DateRange)
    requires forall i | 0 <= i < |invoices| :: !Counts(invoices[i], userId, r)
    ensures PaidTotal(invoices, userId, r) == 0
  {
    if invoices != [] {
      PaidTotalNoMatch(invoices[1..], userId, r);
    }
  }

  lemma {:induction false} PaidTotalNonNegative(invoices: seq<Invoice>, userId: UserId, r: DateRange)
    requires forall i | 0 <= i < |invoices| :: invoices[i].totalAmount >= 0
    ensures PaidTotal(invoices, userId, r) >= 0
  {
    if invoices != [] {
      PaidTotalNonNegative(invoices[1..], userId, r);
    }
  }

  /** Invoices stored with real calendar dates of years 0 and later. */
  predicate DatedInvoices(invoices: seq<Invoice>)
  {
    forall i | 0 <= i < |invoices| :: ValidDate(invoices[i].invoiceDate) && invoices[i].invoiceDate.year >= 0
  }

  /** A reference total: paid invoices of the user whose own date has the key `period`. */
  function KeyTotal(invoices: seq<Invoice>, userId: UserId, t: TargetType, period: string): int
    requires DatedInvoices(invoices)
  {
    if invoices == [] then 0
    else
      var inv := invoices[0];
      (if inv.status == Paid && inv.salesId == userId && FormatPeriod(t, inv.invoiceDate) == period
       then inv.totalAmount else 0)
      + KeyTotal(invoices[1..], userId, t, period)
  }

  /** One invoice counts against the range of a date's key exactly when it is paid, the user's, and has that key. */
  lemma CountsByKey(inv: Invoice, userId: UserId, t: TargetType, d: Date, r: DateRange)
    requires ValidDate(inv.invoiceDate) && inv.invoiceDate.year >= 0 && ValidDate(d) && d.year >= 100 && !t.Unrecognised?
    requires ParseRange(t, FormatPeriod(t, d)) == Some(r)
    ensures Counts(inv, userId, r)
            <==> inv.status == Paid && inv.salesId == userId && FormatPeriod(t, inv.invoiceDate) == FormatPeriod(t, d)
  {
    PeriodRangeExact(t, d, inv.invoiceDate);
  }

  /** Over a range that holds exactly the dates of a key, filtering by the range is filtering by each invoice's own key. */
  lemma {:induction false} PaidTotalIsKeyTotal(invoices: seq<Invoice>, userId: UserId, t: TargetType, period: string, r: DateRange)
    requires DatedInvoices(invoices) && RangeOfKey(r, t, period)
    ensures PaidTotal(invoices, userId, r) == KeyTotal(invoices, userId, t, period)
  {
    if invoices != [] {
      var e := invoices[0].invoiceDate;
      assert InRange(r, e) <==> FormatPeriod(t, e) == period;
      PaidTotalIsKeyTotal(invoices[1..], userId, t, period, r);
    }
  }

  /**
   * For a key that `generateTargetPeriod` produced, the achieved amount is the
   * total of the user's paid invoices whose own date has that same key.
   */
  lemma AchievedAmountByKey(invoices: seq<Invoice>, userId: UserId, t: TargetType, d: Date)
    requires DatedInvoices(invoices) && ValidDate(d) && d.year >= 100 && !t.Unrecognised?
    ensures AchievedAmount(invoices, userId, FormatPeriod(t, d), t) == KeyTotal(invoices, userId, t, FormatPeriod(t, d))
  {
    ParsedRangeOfKey(t, d);
    PaidTotalIsKeyTotal(invoices, userId, t, FormatPeriod(t, d), ParseRange(t, FormatPeriod(t, d)).value);
  }

  /** The chart's `targetAmount > 0 ? (achieved / targetAmount) * 100 : 0`. */
  function Percentage(achieved: int, target: int): real
  {
    if target > 0 then (achieved as real) / (target as real) * 100.0 else 0.0
  }

  /** The percentage is guarded to 0 for a target of 0 or less, and otherwise is `achieved` per hundred of `target`. */
  lemma PercentageMeaning(achieved: int, target: int)
    ensures target <= 0 ==> Percentage(achieved, target) == 0.0
    ensures target > 0 ==> Percentage(achieved, target) * (target as real) == (achieved as real) * 100.0
    ensures target > 0 ==> (Percentage(achieved, target) >= 100.0 <==> achieved >= target)
  {
  }
}
