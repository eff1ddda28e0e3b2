/**
 * The per-rental payment status of the payment report
 * (reportRouter.paymentStatus): what a rental has paid, what it owes after the
 * months it has been rented, its balance and status, the months with no
 * payment record, and its latest paid-for month. Money is integral; "now" is an
 * explicit instant in milliseconds.
 */
module Report {
  import opened Wrappers
  import opened Calendar
  import opened Domain

  /** The report's notion of a month: 30 days (30 * MsPerDay), in milliseconds. */
  const MsPerBillingMonth: int := 2_592_000_000

  /** The fields of a payment row that the report reads. */
  datatype Payment = Payment(rentalId: RentalId, amount: int, forMonth: string)

  datatype PaymentState = Behind | Current | Overpaid

  /** The lastPayment field: null, the instant of the latest paid-for month, or NaN. */
  datatype LastPayment = NoPayment | PaidThrough(instant: int) | NotANumber

  datatype PaymentStatus = PaymentStatus(
    totalPaid: int,
    expectedTotal: int,
    balance: int,
    monthlyPrice: int,
    totalMonthsRented: int,
    paidMonths: nat,
    missingMonths: seq<string>,
    status: PaymentState,
    lastPayment: LastPayment)

  // ---- the rental's payments and their total ----

  /** The payments of one rental, in their original order. */
  function PaymentsOf(payments: seq<Payment>, id: RentalId): (own: seq<Payment>)
    ensures forall p :: p in own <==> p in payments && p.rentalId == id
    ensures |own| <= |payments|
  {
    if payments == [] then []
    else (if payments[0].rentalId == id then [payments[0]] else []) + PaymentsOf(payments[1..], id)
  }

  lemma {:induction false} PaymentsOfConcat(a: seq<Payment>, b: seq<Payment>, id: RentalId)
    ensures PaymentsOf(a + b, id) == PaymentsOf(a, id) + PaymentsOf(b, id)
  {
    if a == [] {
      assert a + b == b;
    } else {
      assert (a + b)[0] == a[0] && (a + b)[1..] == a[1..] + b;
      PaymentsOfConcat(a[1..], b, id);
    }
  }

  /** The sum of the amounts; not negative when no amount is. */
  function TotalPaid(ps: seq<Payment>): (total: int)
    ensures (forall i :: 0 <= i < |ps| ==> ps[i].amount >= 0) ==> total >= 0
  {
    if ps == [] then 0 else ps[0].amount + TotalPaid(ps[1..])
  }

  lemma {:induction false} TotalPaidConcat(a: seq<Payment>, b: seq<Payment>)
    ensures TotalPaid(a + b) == TotalPaid(a) + TotalPaid(b)
  {
    if a == [] {
      assert a + b == b;
    } else {
      assert (a + b)[0] == a[0] && (a + b)[1..] == a[1..] + b;
      TotalPaidConcat(a[1..], b);
    }
  }

  /** The for_month values of the payments, in order. */
  function ForMonths(ps: seq<Payment>): (months: seq<string>)
    ensures |months| == |ps|
    ensures forall i :: 0 <= i < |ps| ==> months[i] == ps[i].forMonth
  {
    seq(|ps|, i requires 0 <= i < |ps| => ps[i].forMonth)
  }

  // ---- months rented, expected total, balance, status ----

  /**
   * The elapsed time from move-in to now in 30-day months, rounded up. It is
   * zero or negative when move-in is not before now.
   */
  function MonthsRented(moveIn: CalendarDate, now: int): (months: int)
    ensures (months - 1) * MsPerBillingMonth < now - MidnightOf(moveIn) <= months * MsPerBillingMonth
    ensures months <= 0 <==> now <= MidnightOf(moveIn)
  {
    -((MidnightOf(moveIn) - now) / MsPerBillingMonth)
  }

  /** The monthly price times the months rented, at least one month. */
  function ExpectedTotal(monthlyPrice: int, monthsRented: int): (total: int)
    ensures monthsRented <= 1 ==> total == monthlyPrice
    ensures monthsRented >= 1 ==> total == monthlyPrice * monthsRented
    ensures monthlyPrice >= 0 ==> total >= monthlyPrice
  {
    monthlyPrice * (if monthsRented > 1 then monthsRented else 1)
  }

  /** The status of a balance against the monthly price. */
  function Classify(balance: int, monthlyPrice: int): (s: PaymentState)
    ensures s == Behind <==> balance < 0
    ensures s == Overpaid <==> balance >= 0 && balance > monthlyPrice
    ensures s == Current <==> 0 <= balance <= monthlyPrice
  {
    if balance >= 0 then (if balance > monthlyPrice then Overpaid else Current) else Behind
  }

  // ---- the latest paid-for month ----

  /**
   * `new Date(forMonth).getTime()`: UTC midnight of the first day of the month
   * the text names, or NaN (None) when it names none.
   */
  function MonthInstant(forMonth: string): (t: Option<int>)
    ensures t.Some? <==> ParseMonthText(forMonth).Some?
    ensures t.Some? ==>
              var m := ParseMonthText(forMonth).value;
              t.value == MidnightOf(CalendarDate(m.year, m.month, 1))
  {
    match ParseMonthText(forMonth)
    case Some(m) => Some(DayAt(m, 1) * MsPerDay)
    case None => None
  }

  /**
   * The largest month instant of the payments, as `Math.max` computes it: any
   * NaN makes the maximum NaN, and there is none for no payments.
   */
  function LastPaymentOf(ps: seq<Payment>): (r: LastPayment)
    ensures r == NoPayment <==> ps == []
    ensures r == NotANumber <==> exists i :: 0 <= i < |ps| && MonthInstant(ps[i].forMonth) == None
    ensures r.PaidThrough? ==>
              && (exists i :: 0 <= i < |ps| && MonthInstant(ps[i].forMonth) == Some(r.instant))
              && (forall i :: 0 <= i < |ps| ==> MonthInstant(ps[i].forMonth).Some? && MonthInstant(ps[i].forMonth).value <= r.instant)
  {
    if ps == [] then NoPayment
    else
      var rest := LastPaymentOf(ps[1..]);
      assert forall i :: 1 <= i < |ps| ==> ps[i] == ps[1..][i - 1];
      match MonthInstant(ps[0].forMonth)
      case None => NotANumber
      case Some(t) =>
        match rest
        case NoPayment => PaidThrough(t)
        case NotANumber => NotANumber
        case PaidThrough(u) => PaidThrough(if t >= u then t else u)
  }

  // ---- the missing-months walk ----

  /** The walk's cursor in month m: the move-in day of that month at UTC midnight. */
  function CursorAt(moveIn: CalendarDate, m: YearMonth): int {
    DayAt(m, moveIn.day) * MsPerDay
  }

  /** Month m is visited by the walk: from the move-in month on, its cursor not after now. */
  predicate IsCandidate(moveIn: CalendarDate, now: int, m: YearMonth) {
    Index(MonthOfDate(moveIn)) <= Index(m) && CursorAt(moveIn, m) <= now
  }

  lemma CursorStartsAtMoveIn(moveIn: CalendarDate)
    ensures CursorAt(moveIn, MonthOfDate(moveIn)) == MidnightOf(moveIn)
  {
  }

  /** Advancing the cursor by one month adds that month's length in days. */
  lemma NextCursor(moveIn: CalendarDate, m: YearMonth)
    ensures CursorAt(moveIn, Next(m)) == CursorAt(moveIn, m) + DaysInMonth(m.year, m.month) * MsPerDay
    ensures CursorAt(moveIn, m) < CursorAt(moveIn, Next(m))
  {
    NextMonth(m, moveIn.day);
    DaysInMonthBounds(m.year, m.month);
  }

  lemma CursorIncreasing(moveIn: CalendarDate, a: YearMonth, b: YearMonth)
    requires Index(a) < Index(b)
    ensures CursorAt(moveIn, a) < CursorAt(moveIn, b)
  {
    DayAtMonotone(a, b, moveIn.day);
  }

  /**
   * A walk that visited the months from the move-in month up to the one before
   * m and stops at m, whose cursor is after now, has visited exactly the candidates.
   */
  lemma WalkStopsAt(moveIn: CalendarDate, now: int, m: YearMonth)
    requires Index(MonthOfDate(moveIn)) <= Index(m)
    requires Index(MonthOfDate(moveIn)) < Index(m) ==> CursorAt(moveIn, Prev(m)) <= now
    requires now < CursorAt(moveIn, m)
    ensures forall k :: IsCandidate(moveIn, now, k) <==> Index(MonthOfDate(moveIn)) <= Index(k) < Index(m)
    ensures now < MidnightOf(moveIn) ==> m == MonthOfDate(moveIn)
  {
    forall k | Index(MonthOfDate(moveIn)) <= Index(k)
      ensures IsCandidate(moveIn, now, k) <==> Index(k) < Index(m)
    {
      if Index(m) < Index(k) {
        CursorIncreasing(moveIn, m, k);
      } else if Index(k) < Index(Prev(m)) {
        CursorIncreasing(moveIn, k, Prev(m));
      } else if Index(k) == Index(m) {
        IndexInjective(k, m);
      } else {
        IndexInjective(k, Prev(m));
      }
    }
    CursorStartsAtMoveIn(moveIn);
    if now < MidnightOf(moveIn) {
      assert !IsCandidate(moveIn, now, MonthOfDate(moveIn));
      IndexInjective(m, MonthOfDate(moveIn));
    }
  }

  /** The months are in strictly increasing order. */
  predicate Increasing(ms: seq<YearMonth>) {
    forall i, j :: 0 <= i < j < |ms| ==> Index(ms[i]) < Index(ms[j])
  }

  lemma AppendIncreasing(ms: seq<YearMonth>, m: YearMonth)
    requires Increasing(ms)
    requires forall i :: 0 <= i < |ms| ==> Index(ms[i]) < Index(m)
    ensures Increasing(ms + [m])
  {
  }

  /** Each text is that of the month at the same position. */
  predicate TextsOf(texts: seq<string>, months: seq<YearMonth>) {
    |texts| == |months| && forall i :: 0 <= i < |months| ==> texts[i] == MonthText(months[i])
  }

  lemma AppendTextsOf(texts: seq<string>, months: seq<YearMonth>, m: YearMonth)
    requires TextsOf(texts, months)
    ensures TextsOf(texts + [MonthText(m)], months + [m])
  {
  }

  /** The months from start up to Next(m) are those up to m, and m. */
  lemma UpToNext(start: YearMonth, m: YearMonth)
    requires Index(start) <= Index(m)
    ensures forall k :: Index(start) <= Index(k) < Index(Next(m)) <==> Index(start) <= Index(k) < Index(m) || k == m
  {
    forall k
      ensures Index(start) <= Index(k) < Index(Next(m)) <==> Index(start) <= Index(k) < Index(m) || k == m
    {
      if Index(k) == Index(m) {
        IndexInjective(k, m);
      }
    }
  }

  /**
   * The months from the move-in month on, one step of the cursor at a time
   * while the cursor is not after now, whose text is not among the paid months.
   * The cursor starts at move-in and each step adds the length of the month it
   * leaves, as `setMonth(getMonth() + 1)` does for a day that exists in every month.
   */
  method MissingMonths(moveIn: CalendarDate, now: int, paidMonths: seq<string>)
    returns (missing: seq<string>, ghost months: seq<YearMonth>)
    ensures TextsOf(missing, months)
    ensures Increasing(months)
    ensures forall m :: m in months <==> IsCandidate(moveIn, now, m) && MonthText(m) !in paidMonths
    ensures now < MidnightOf(moveIn) ==> missing == []
  {
    var start := MonthOfDate(moveIn);
    var m := start;
    var cursor := MidnightOf(moveIn);
    ghost var previous := cursor;
    CursorStartsAtMoveIn(moveIn);
    missing, months := [], [];
    while cursor <= now
      invariant cursor == CursorAt(moveIn, m)
      invariant Index(start) <= Index(m)
      invariant Index(start) < Index(m) ==> previous == CursorAt(moveIn, Prev(m)) && previous <= now
      invariant TextsOf(missing, months)
      invariant Increasing(months)
      invariant forall k :: k in months <==> Index(start) <= Index(k) < Index(m) && MonthText(k) !in paidMonths
      decreases now - cursor
    {
      UpToNext(start, m);
      assert forall i :: 0 <= i < |months| ==> months[i] in months;
      var text := MonthText(m);
      if text !in paidMonths {
        AppendIncreasing(months, m);
        AppendTextsOf(missing, months, m);
        missing, months := missing + [text], months + [m];
      }
      NextCursor(moveIn, m);
      previous := cursor;
      cursor := cursor + DaysInMonth(m.year, m.month) * MsPerDay;
      m := Next(m);
    }
    WalkStopsAt(moveIn, now, m);
    assert months != [] ==> months[0] in months;
  }

  /**
   * The status of one rental given all payments and the current instant. The
   * ghost result lists the months whose texts make up missingMonths.
   */
  method ComputePaymentStatus(id: RentalId, rental: Rental, payments: seq<Payment>, now: int)
    returns (st: PaymentStatus, ghost months: seq<YearMonth>)
    ensures st.totalPaid == TotalPaid(PaymentsOf(payments, id))
    ensures st.monthlyPrice == rental.monthlyPrice
    ensures st.totalMonthsRented == MonthsRented(rental.moveIn, now)
    ensures st.expectedTotal == ExpectedTotal(rental.monthlyPrice, st.totalMonthsRented)
    ensures st.balance == st.totalPaid - st.expectedTotal
    ensures st.status == Classify(st.balance, st.monthlyPrice)
    ensures st.paidMonths == |PaymentsOf(payments, id)|
    ensures st.lastPayment == LastPaymentOf(PaymentsOf(payments, id))
    ensures TextsOf(st.missingMonths, months)
    ensures Increasing(months)
    ensures forall m :: m in months <==>
              && IsCandidate(rental.moveIn, now, m)
              && forall p :: p in PaymentsOf(payments, id) ==> p.forMonth != MonthText(m)
    ensures forall s, p :: s in st.missingMonths && p in PaymentsOf(payments, id) ==> s != p.forMonth
    ensures now < MidnightOf(rental.moveIn) ==> st.missingMonths == []
  {
    var own := PaymentsOf(payments, id);
    var monthsRented := MonthsRented(rental.moveIn, now);
    var totalPaid := TotalPaid(own);
    var monthlyPrice := rental.monthlyPrice;
    var expectedTotal := ExpectedTotal(monthlyPrice, monthsRented);
    var balance := totalPaid - expectedTotal;
    var paidMonths := ForMonths(own);
    var missing;
    missing, months := MissingMonths(rental.moveIn, now, paidMonths);
    forall m
      ensures MonthText(m) !in paidMonths <==> forall p :: p in own ==> p.forMonth != MonthText(m)
    {
      if MonthText(m) in paidMonths {
        var i :| 0 <= i < |paidMonths| && paidMonths[i] == MonthText(m);
        assert own[i] in own;
      }
    }
    assert forall i :: 0 <= i < |months| ==> months[i] in months;
    st := PaymentStatus(totalPaid, expectedTotal, balance, monthlyPrice, monthsRented,
                        |paidMonths|, missing, Classify(balance, monthlyPrice), LastPaymentOf(own));
  }

  // ---- properties of the report ----

  /** Where a payment sits among all payments, the rental's payments keep it in that place. */
  lemma PaymentsOfInsert(a: seq<Payment>, p: Payment, b: seq<Payment>, id: RentalId)
    ensures PaymentsOf(a + [p] + b, id) ==
            PaymentsOf(a, id) + (if p.rentalId == id then [p] else []) + PaymentsOf(b, id)
  {
    var own := if p.rentalId == id then [p] else [];
    assert [p][1..] == [];
    assert PaymentsOf([p], id) == own + PaymentsOf([], id) == own;
    PaymentsOfConcat(a, [p], id);
    PaymentsOfConcat(a + [p], b, id);
  }

  /** A payment of another rental changes nothing in this rental's status. */
  lemma OtherRentalPaymentIgnored(a: seq<Payment>, p: Payment, b: seq<Payment>, id: RentalId)
    requires p.rentalId != id
    ensures PaymentsOf(a + [p] + b, id) == PaymentsOf(a + b, id)
  {
    PaymentsOfInsert(a, p, b, id);
    PaymentsOfConcat(a, b, id);
  }

  /**
   * A further payment of the rental adds its amount to the total paid and to
   * the balance, and one record to the count, even when its month is already paid.
   */
  lemma PaymentOfRentalCounted(a: seq<Payment>, p: Payment, b: seq<Payment>, id: RentalId,
                               monthlyPrice: int, monthsRented: int)
    requires p.rentalId == id
    ensures TotalPaid(PaymentsOf(a + [p] + b, id)) == TotalPaid(PaymentsOf(a + b, id)) + p.amount
    ensures TotalPaid(PaymentsOf(a + [p] + b, id)) - ExpectedTotal(monthlyPrice, monthsRented)
            == TotalPaid(PaymentsOf(a + b, id)) - ExpectedTotal(monthlyPrice, monthsRented) + p.amount
    ensures |PaymentsOf(a + [p] + b, id)| == |PaymentsOf(a + b, id)| + 1
  {
    var pa, pb := PaymentsOf(a, id), PaymentsOf(b, id);
    PaymentsOfInsert(a, p, b, id);
    PaymentsOfConcat(a, b, id);
    TotalPaidConcat(pa + [p], pb);
    TotalPaidConcat(pa, [p]);
    TotalPaidConcat(pa, pb);
    assert [p][1..] == [];
  }

  /** So a payment of a non-negative amount never lowers the total paid or the balance. */
  lemma PaymentNeverLowersTotals(a: seq<Payment>, p: Payment, b: seq<Payment>, id: RentalId,
                                 monthlyPrice: int, monthsRented: int)
    requires p.amount >= 0
    ensures TotalPaid(PaymentsOf(a + [p] + b, id)) >= TotalPaid(PaymentsOf(a + b, id))
    ensures TotalPaid(PaymentsOf(a + [p] + b, id)) - ExpectedTotal(monthlyPrice, monthsRented)
            >= TotalPaid(PaymentsOf(a + b, id)) - ExpectedTotal(monthlyPrice, monthsRented)
  {
    if p.rentalId == id {
      PaymentOfRentalCounted(a, p, b, id, monthlyPrice, monthsRented);
    } else {
      OtherRentalPaymentIgnored(a, p, b, id);
    }
  }

  /** Before or at move-in the months rented are not positive, yet one month is billed. */
  lemma NotYetMovedIn(moveIn: CalendarDate, now: int, monthlyPrice: int)
    requires now <= MidnightOf(moveIn)
    ensures MonthsRented(moveIn, now) <= 0
    ensures ExpectedTotal(monthlyPrice, MonthsRented(moveIn, now)) == monthlyPrice
  {
  }

  /** Later months begin at later instants. */
  lemma MonthInstantIncreasing(a: YearMonth, b: YearMonth)
    requires Index(a) < Index(b)
    ensures DayAt(a, 1) * MsPerDay < DayAt(b, 1) * MsPerDay
  {
    DayAtMonotone(a, b, 1);
  }

  /**
   * When lastPayment is a number, it is the first instant of the latest month
   * among the rental's for_month values, and every one of them names a month.
   */
  lemma LastPaymentIsLatestMonth(ps: seq<Payment>)
    requires LastPaymentOf(ps).PaidThrough?
    ensures exists i :: 0 <= i < |ps| && ParseMonthText(ps[i].forMonth).Some?
              && LastPaymentOf(ps).instant == DayAt(ParseMonthText(ps[i].forMonth).value, 1) * MsPerDay
              && forall j :: 0 <= j < |ps| ==>
                   (ParseMonthText(ps[j].forMonth).Some?
                    && Index(ParseMonthText(ps[j].forMonth).value) <= Index(ParseMonthText(ps[i].forMonth).value))
  {
    var t := LastPaymentOf(ps).instant;
    var i :| 0 <= i < |ps| && MonthInstant(ps[i].forMonth) == Some(t);
    var latest := ParseMonthText(ps[i].forMonth).value;
    forall j | 0 <= j < |ps|
      ensures ParseMonthText(ps[j].forMonth).Some? && Index(ParseMonthText(ps[j].forMonth).value) <= Index(latest)
    {
      assert MonthInstant(ps[j].forMonth).Some?;
      var other := ParseMonthText(ps[j].forMonth).value;
      if Index(latest) < Index(other) {
        MonthInstantIncreasing(latest, other);
      }
    }
  }

  /**
   * "2024-13" passes the form's format check, but no month prints as it, so a
   * payment for it leaves every month missing; it also turns lastPayment into NaN.
   */
  lemma ThirteenthMonthPayment(ps: seq<Payment>, i: int)
    requires 0 <= i < |ps| && ps[i].forMonth == "2024-13"
    ensures PaymentSchema.IsForMonthText(ps[i].forMonth)
    ensures forall m :: MonthText(m) != ps[i].forMonth
    ensures LastPaymentOf(ps) == NotANumber
  {
    var s := ps[i].forMonth;
    assert PaymentSchema.IsForMonthText(s);
    assert ParseMonthText(s) == None;
    forall m
      ensures MonthText(m) != s
    {
      MonthTextMatch(s, m);
    }
  }

  /**
   * Moving in on 2024-01-01 and reporting at midnight of 2024-04-01 (91 days
   * later) gives four months rented and, as walk candidates, the four months
   * January to April 2024.
   */
  lemma FourMonthsIntoTheYear(now: int)
    requires now == MidnightOf(CalendarDate(2024, 4, 1))
    ensures MonthsRented(CalendarDate(2024, 1, 1), now) == 4
    ensures forall m :: IsCandidate(CalendarDate(2024, 1, 1), now, m) <==>
              m in [YearMonth(2024, 1), YearMonth(2024, 2), YearMonth(2024, 3), YearMonth(2024, 4)]
  {
    var moveIn := CalendarDate(2024, 1, 1);
    assert DaysBeforeMonth(2024, 4) == 91 && DaysBeforeMonth(2024, 5) == 121;
    assert MidnightOf(moveIn) == now - 91 * MsPerDay;
    WalkStopsAt(moveIn, now, YearMonth(2024, 5));
    forall m | Index(YearMonth(2024, 1)) <= Index(m) < Index(YearMonth(2024, 5))
      ensures m in [YearMonth(2024, 1), YearMonth(2024, 2), YearMonth(2024, 3), YearMonth(2024, 4)]
    {
      assert m.year == 2024;
    }
  }

  /** The two payments of that setting: 1000000 for "2024-01" and 500000 for "2024-02". */
  function ScenarioPayments(id: RentalId): seq<Payment> {
    [Payment(id, 1000000, "2024-01"), Payment(id, 500000, "2024-02")]
  }

  /** With a price of 1000000, the rental has paid 1500000 against 4000000 and is behind. */
  lemma FourMonthsIntoTheYearTotals(now: int, id: RentalId)
    requires now == MidnightOf(CalendarDate(2024, 4, 1))
    ensures PaymentsOf(ScenarioPayments(id), id) == ScenarioPayments(id)
    ensures TotalPaid(ScenarioPayments(id)) == 1500000
    ensures ExpectedTotal(1000000, MonthsRented(CalendarDate(2024, 1, 1), now)) == 4000000
    ensures Classify(1500000 - 4000000, 1000000) == Behind
  {
    var ps := ScenarioPayments(id);
    assert ps[1..][1..] == [];
    assert PaymentsOf(ps[1..], id) == [ps[1]] + PaymentsOf(ps[1..][1..], id);
    assert TotalPaid(ps[1..]) == 500000 + TotalPaid(ps[1..][1..]);
    FourMonthsIntoTheYear(now);
  }

  /** The texts of the first four months of 2024. */
  lemma MonthTexts2024()
    ensures MonthText(YearMonth(2024, 1)) == "2024-01" && MonthText(YearMonth(2024, 2)) == "2024-02"
    ensures MonthText(YearMonth(2024, 3)) == "2024-03" && MonthText(YearMonth(2024, 4)) == "2024-04"
  {
    assert Digits4(2024) == "2024";
  }

  /** Exactly March and April 2024 have a candidate cursor and no payment. */
  lemma FourMonthsIntoTheYearMissing(now: int, id: RentalId)
    requires now == MidnightOf(CalendarDate(2024, 4, 1))
    ensures forall m :: (IsCandidate(CalendarDate(2024, 1, 1), now, m)
                         && forall p :: p in ScenarioPayments(id) ==> p.forMonth != MonthText(m))
                        <==> m in [YearMonth(2024, 3), YearMonth(2024, 4)]
  {
    var ps := ScenarioPayments(id);
    FourMonthsIntoTheYear(now);
    MonthTexts2024();
    assert forall p :: p in ps ==> p == ps[0] || p == ps[1];
    forall m | IsCandidate(CalendarDate(2024, 1, 1), now, m)
      ensures (forall p :: p in ps ==> p.forMonth != MonthText(m)) <==> m in [YearMonth(2024, 3), YearMonth(2024, 4)]
    {
      if m == YearMonth(2024, 1) {
        assert ps[0] in ps;
      } else if m == YearMonth(2024, 2) {
        assert ps[1] in ps;
      }
    }
  }
}
