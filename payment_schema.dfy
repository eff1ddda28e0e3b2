/**
 * The payment form schema (src/utils/schemas/payment.ts): the field constraints
 * a payment must meet before it is stored. Each failed check yields one issue,
 * in field order, as the schema library collects all of them rather than
 * stopping at the first.
 */
module PaymentSchema {
  import opened Wrappers

  /** A payment as submitted by the form. `id` is absent for a new payment. */
  datatype PaymentForm = PaymentForm(
    id: Option<int>,
    rentalId: int,
    amount: string,
    note: Option<string>,
    forMonth: string)

  /** The schema's messages, one per check. */
  datatype Issue =
    | IdRequired        // id present but below 1
    | RentalIdRequired  // rental_id below 1
    | AmountRequired    // amount is the empty string
    | MonthRequired     // for_month is the empty string
    | MonthFormat       // for_month does not match ^\d{4}-\d{2}$

  /** `\d` of a regular expression without the unicode flag: an ASCII digit. */
  predicate IsDigit(c: char) {
    '0' <= c <= '9'
  }

  /**
   * `^\d{4}-\d{2}$`: four digits, a dash, two digits and nothing more. The month
   * digits are not range-checked, so "2024-13" and "2024-00" are accepted.
   */
  predicate IsForMonthText(s: string) {
    && |s| == 7
    && IsDigit(s[0]) && IsDigit(s[1]) && IsDigit(s[2]) && IsDigit(s[3])
    && s[4] == '-'
    && IsDigit(s[5]) && IsDigit(s[6])
  }

  /** The issues the schema reports for a form, in field order. */
  function PaymentIssues(f: PaymentForm): (issues: seq<Issue>)
    ensures IdRequired in issues <==> f.id.Some? && f.id.value < 1
    ensures RentalIdRequired in issues <==> f.rentalId < 1
    ensures AmountRequired in issues <==> |f.amount| < 1
    ensures MonthRequired in issues <==> |f.forMonth| < 1
    ensures MonthFormat in issues <==> !IsForMonthText(f.forMonth)
  {
    (if f.id.Some? && f.id.value < 1 then [IdRequired] else [])
    + (if f.rentalId < 1 then [RentalIdRequired] else [])
    + (if |f.amount| < 1 then [AmountRequired] else [])
    + (if |f.forMonth| < 1 then [MonthRequired] else [])
    + (if !IsForMonthText(f.forMonth) then [MonthFormat] else [])
  }

  /** Parsing a form: the form itself when every check passes, else all its issues. */
  function ParsePaymentForm(f: PaymentForm): (r: Result<PaymentForm, seq<Issue>>)
    ensures r.Success? <==>
              && (f.id.None? || f.id.value >= 1)
              && f.rentalId >= 1
              && |f.amount| >= 1
              && IsForMonthText(f.forMonth)
    ensures r.Success? ==> r.value == f
    ensures r.Failure? ==> r.error != [] && r.error == PaymentIssues(f)
  {
    var issues := PaymentIssues(f);
    if issues == [] then Success(f) else Failure(issues)
  }

  /** The explicit length check on for_month is subsumed by its format check. */
  lemma EmptyMonthAlsoMisformatted(f: PaymentForm)
    ensures MonthRequired in PaymentIssues(f) ==> MonthFormat in PaymentIssues(f)
  {
  }

  /** The format check is a shape check only: month 13 passes, a one-digit month does not. */
  lemma ForMonthShapeOnly()
    ensures IsForMonthText("2024-13")
    ensures IsForMonthText("2024-00")
    ensures !IsForMonthText("2024-1")
    ensures !IsForMonthText("2024-01-15")
    ensures !IsForMonthText("202a-01")
  {
  }
}
