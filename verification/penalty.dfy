/** The late-filing penalty of `calculateLatePenalty` (script.js:146-172):
    the return is due three months after the gift and an extended deadline
    falls six months after it; filing by the first costs nothing, by the
    second 10% of the tax, later 20%. */
module Penalty {
  import opened Wrappers
  import opened Calendar

  /** Which branch of `calculateLatePenalty` produced the result. */
  datatype PenaltyReason = InvalidDates | OnTime | LateUpToSixMonths | LateBeyondSixMonths

  /** The `message` that goes with each branch. */
  function Message(reason: PenaltyReason): string {
    match reason
    case InvalidDates => "날짜가 잘못 입력되었습니다."
    case OnTime => "신고 기한 내 신고 완료"
    case LateUpToSixMonths => "신고 기한 초과 (3~6개월)"
    case LateBeyondSixMonths => "신고 기한 초과 (6개월 초과)"
  }

  /** The `{ penalty, message }` object, the message given by its reason. */
  datatype PenaltyResult = PenaltyResult(amount: real, reason: PenaltyReason)

  /** `dueDate`: gift date + 3 months. */
  function FilingDeadline(gift: Date): Date {
    AddMonths(gift, 3)
  }

  /** `extendedDueDate`: gift date + 6 months. */
  function ExtendedDeadline(gift: Date): Date {
    AddMonths(gift, 6)
  }

  /** The branch the dates select; it does not depend on the tax. */
  function PenaltyBand(submission: DateInput, gift: DateInput): (r: PenaltyReason)
    ensures r == InvalidDates <==> ParsedDate(submission).None? || ParsedDate(gift).None?
  {
    match (ParsedDate(submission), ParsedDate(gift))
    case (Some(s), Some(g)) =>
      if DayNumber(s) <= DayNumber(FilingDeadline(g)) then OnTime
      else if DayNumber(s) <= DayNumber(ExtendedDeadline(g)) then LateUpToSixMonths
      else LateBeyondSixMonths
    case _ => InvalidDates
  }

  /** `calculateLatePenalty(submissionDate, giftDate, giftTax)`. */
  function LatePenalty(submission: DateInput, gift: DateInput, giftTax: real): (r: PenaltyResult)
    ensures r.reason == InvalidDates || r.reason == OnTime ==> r.amount == 0.0
    ensures r.reason == LateUpToSixMonths ==> r.amount == giftTax / 10.0
    ensures r.reason == LateBeyondSixMonths ==> r.amount == giftTax / 5.0
    ensures r.reason == InvalidDates <==> ParsedDate(submission).None? || ParsedDate(gift).None?
    ensures giftTax >= 0.0 ==> 0.0 <= r.amount <= giftTax / 5.0
  {
    var reason := PenaltyBand(submission, gift);
    Charge(reason, giftTax)
  }

  /** The `{ penalty, message }` returned for a branch. */
  function Charge(reason: PenaltyReason, giftTax: real): (r: PenaltyResult)
    ensures r.reason == reason
    ensures reason == InvalidDates || reason == OnTime ==> r.amount == 0.0
    ensures reason == LateUpToSixMonths ==> r.amount == giftTax / 10.0
    ensures reason == LateBeyondSixMonths ==> r.amount == giftTax / 5.0
    ensures giftTax >= 0.0 ==> 0.0 <= r.amount <= giftTax / 5.0
  {
    match reason
    case InvalidDates => PenaltyResult(0.0, reason)
    case OnTime => PenaltyResult(0.0, reason)
    case LateUpToSixMonths => PenaltyResult(giftTax * 0.1, reason)
    case LateBeyondSixMonths => PenaltyResult(giftTax * 0.2, reason)
  }

  // ----- Properties -----

  /** Each branch reports its own message. */
  lemma MessagesDistinct(a: PenaltyReason, b: PenaltyReason)
    requires a != b
    ensures Message(a) != Message(b)
  {
  }

  /** The gift date comes before the filing deadline, which comes before the
      extended deadline, also when adding months rolls over a month's end. */
  lemma DeadlinesOrdered(gift: Date)
    requires ValidDate(gift)
    ensures Before(gift, FilingDeadline(gift))
    ensures Before(FilingDeadline(gift), ExtendedDeadline(gift))
  {
    AddMonthsIncreasing(gift, 0, 3);
    AddMonthsIncreasing(gift, 3, 6);
    var same := AddMonths(gift, 0);
    MonthIndexRoundTrip(gift.year, gift.month);
    assert same == gift;
  }

  /** The three bands, stated in calendar order: on or before the filing
      deadline nothing is due; after it and on or before the extended
      deadline 10% of the tax; after that 20%. */
  lemma PenaltyBands(submission: Date, gift: Date, giftTax: real)
    requires ValidDate(submission) && ValidDate(gift)
    ensures !Before(FilingDeadline(gift), submission) ==>
      LatePenalty(Given(submission), Given(gift), giftTax) == PenaltyResult(0.0, OnTime)
    ensures Before(FilingDeadline(gift), submission) && !Before(ExtendedDeadline(gift), submission) ==>
      LatePenalty(Given(submission), Given(gift), giftTax) == PenaltyResult(giftTax / 10.0, LateUpToSixMonths)
    ensures Before(ExtendedDeadline(gift), submission) ==>
      LatePenalty(Given(submission), Given(gift), giftTax) == PenaltyResult(giftTax / 5.0, LateBeyondSixMonths)
  {
    var due, extended := FilingDeadline(gift), ExtendedDeadline(gift);
    var s := DayNumber(submission);
    assert Before(due, submission) <==> DayNumber(due) < s by {
      DayNumberOrder(due, submission);
    }
    assert Before(extended, submission) <==> DayNumber(extended) < s by {
      DayNumberOrder(extended, submission);
    }
    BandOfDayNumber(submission, gift);
  }

  /** Missing or unreadable dates short-circuit to no penalty. */
  lemma MissingDatesNoPenalty(submission: DateInput, gift: DateInput, giftTax: real)
    requires submission.Empty? || gift.Empty? || submission.Malformed? || gift.Malformed?
    ensures LatePenalty(submission, gift, giftTax) == PenaltyResult(0.0, InvalidDates)
  {
  }

  /** Filing on a deadline itself still falls in the earlier band; the day
      after it falls in the next one (both tests are `<=`). */
  lemma PenaltyDeadlineDays(gift: Date, giftTax: real)
    requires ValidDate(gift)
    ensures LatePenalty(Given(FilingDeadline(gift)), Given(gift), giftTax).reason == OnTime
    ensures LatePenalty(Given(NextDay(FilingDeadline(gift))), Given(gift), giftTax).reason == LateUpToSixMonths
    ensures LatePenalty(Given(ExtendedDeadline(gift)), Given(gift), giftTax).reason == LateUpToSixMonths
    ensures LatePenalty(Given(NextDay(ExtendedDeadline(gift))), Given(gift), giftTax).reason == LateBeyondSixMonths
  {
    var due, extended := FilingDeadline(gift), ExtendedDeadline(gift);
    assert DayNumber(due) < DayNumber(extended) by {
      AddMonthsIncreasing(gift, 3, 6);
    }
    BandOfDayNumber(due, gift);
    BandOfDayNumber(NextDay(due), gift);
    BandOfDayNumber(extended, gift);
    BandOfDayNumber(NextDay(extended), gift);
  }

  /** The band of a valid submission date, read off its day number. */
  lemma BandOfDayNumber(submission: Date, gift: Date)
    requires ValidDate(submission) && ValidDate(gift)
    ensures var s, due, extended := DayNumber(submission), DayNumber(FilingDeadline(gift)), DayNumber(ExtendedDeadline(gift));
      PenaltyBand(Given(submission), Given(gift))
        == if s <= due then OnTime else if s <= extended then LateUpToSixMonths else LateBeyondSixMonths
  {
  }

  /** Filing later never costs less: for a fixed gift date and a
      non-negative tax the penalty grows with the submission date. */
  lemma PenaltyMonotone(gift: Date, earlier: Date, later: Date, giftTax: real)
    requires ValidDate(gift) && ValidDate(earlier) && ValidDate(later)
    requires !Before(later, earlier)
    requires giftTax >= 0.0
    ensures LatePenalty(Given(earlier), Given(gift), giftTax).amount
      <= LatePenalty(Given(later), Given(gift), giftTax).amount
  {
    assert DayNumber(earlier) <= DayNumber(later) by {
      DayNumberOrder(later, earlier);
    }
    assert DayNumber(FilingDeadline(gift)) < DayNumber(ExtendedDeadline(gift)) by {
      AddMonthsIncreasing(gift, 3, 6);
    }
    BandOfDayNumber(earlier, gift);
    BandOfDayNumber(later, gift);
  }

  /** A gift on 1 January 2024 and a return on 1 May 2024: past the
      1 April deadline, within the 1 July extension, so 10% of a tax of
      1,000,000 is due. */
  lemma PenaltyFourMonthsLate()
    ensures LatePenalty(Given(Date(2024, 5, 1)), Given(Date(2024, 1, 1)), 1_000_000.0)
      == PenaltyResult(100_000.0, LateUpToSixMonths)
  {
    var gift := Date(2024, 1, 1);
    assert MonthIndex(2024, 1) + 3 == 12 * 2024 + 3;
    assert YearOfIndex(12 * 2024 + 3) == 2024 && MonthOfIndex(12 * 2024 + 3) == 4;
    assert YearOfIndex(12 * 2024 + 6) == 2024 && MonthOfIndex(12 * 2024 + 6) == 7;
    assert FilingDeadline(gift) == Date(2024, 4, 1);
    assert ExtendedDeadline(gift) == Date(2024, 7, 1);
    PenaltyBands(Date(2024, 5, 1), gift, 1_000_000.0);
  }
}
