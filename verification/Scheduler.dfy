/** The SM-2 scheduler of glossary.rs. Ease is held in whole hundredths: every
    adjustment is a whole number of them and the drawer stores two decimals. */
module Scheduler {
  import opened Basics
  import opened Text
  import opened Calendar
  import opened IsoDate

  const DEFAULT_EASE := 250
  const MIN_EASE := 130

  datatype SrState = SrState(ease: int, interval: int, reps: int, due: Option<string>, last: Option<string>)

  const NEW_CARD := SrState(DEFAULT_EASE, 0, 0, None, None)

  // ---- The operations ----

  function Clamp(quality: int): int {
    if quality < 0 then 0 else if quality > 5 then 5 else quality
  }

  function Schedule(state: SrState, quality: int, today: string): SrState {
    var grade := Clamp(quality);
    var interval :=
      if grade < 3 then 1
      else if state.reps == 0 then 1
      else if state.reps == 1 then 6
      else TruncDiv(state.interval * state.ease + 50, 100);
    var miss := 5 - grade;
    var ease := state.ease + 10 - miss * (8 + miss * 2);
    SrState(
      if ease < MIN_EASE then MIN_EASE else ease,
      interval,
      if grade < 3 then 0 else state.reps + 1,
      Some(AddDays(today, interval)),
      Some(today))
  }

  predicate IsDue(state: SrState, today: string) {
    state.reps == 0 || state.due.None? || TextLe(state.due.value, today)
  }

  // ---- Runs of grades ----

  datatype Grade = Grade(quality: int, today: string)

  function Passes(grade: Grade): bool {
    Clamp(grade.quality) >= 3
  }

  function Graded(grades: seq<Grade>): SrState {
    if grades == [] then NEW_CARD
    else
      var last := grades[|grades| - 1];
      Schedule(Graded(grades[..|grades| - 1]), last.quality, last.today)
  }

  /** How many of the latest grades, up to the last lapse, were passes. */
  function TrailingPasses(grades: seq<Grade>): nat {
    if grades == [] || !Passes(grades[|grades| - 1]) then 0
    else 1 + TrailingPasses(grades[..|grades| - 1])
  }

  /** A repetition count is the length of the trailing run of passes, and the
      interval depends on it: one day, one day, six days, and then longer at
      every further pass. Ease never falls below its floor. */
  lemma {:induction false} GradedShape(grades: seq<Grade>)
    ensures var s := Graded(grades);
            && s.ease >= MIN_EASE
            && s.reps == TrailingPasses(grades)
            && (grades != [] && s.reps <= 1 ==> s.interval == 1)
            && (s.reps == 2 ==> s.interval == 6)
            && (s.reps >= 2 ==> s.interval >= 6)
            && (s.reps >= 2 ==> s.interval > Graded(grades[..|grades| - 1]).interval)
  {
    if grades != [] {
      var front := grades[..|grades| - 1];
      GradedShape(front);
      var s := Graded(front);
      if s.reps >= 2 {
        RoundedProductGrows(s.interval, s.ease);
      }
    }
  }

  lemma RoundedProductGrows(interval: int, ease: int)
    requires interval >= 6 && ease >= MIN_EASE
    ensures TruncDiv(interval * ease + 50, 100) > interval
  {
    assert interval * ease >= interval * MIN_EASE;
  }

  /** Nothing but the grades since the last lapse decides the repetition count,
      and one lapse undoes any history: the schedule restarts at one day. */
  lemma LapseRestarts(grades: seq<Grade>, lapse: Grade)
    requires !Passes(lapse)
    ensures Graded(grades + [lapse]).reps == 0 && Graded(grades + [lapse]).interval == 1
    ensures forall pass: Grade, pass': Grade :: Passes(pass) && Passes(pass') ==>
              && Graded(grades + [lapse] + [pass]).interval == 1
              && Graded(grades + [lapse] + [pass] + [pass']).interval == 6
  {
    forall pass: Grade, pass': Grade | Passes(pass) && Passes(pass')
      ensures Graded(grades + [lapse] + [pass]).interval == 1
      ensures Graded(grades + [lapse] + [pass] + [pass']).interval == 6
    {
      var g := grades + [lapse];
      assert g[..|g| - 1] == grades;
      assert (g + [pass])[..|g|] == g;
      assert (g + [pass] + [pass'])[..|g| + 1] == g + [pass];
    }
    var g := grades + [lapse];
    assert g[..|g| - 1] == grades;
  }

  /** Any quality, those outside the scale too. Below three resets repetitions and
      interval; three and above count one repetition more and give 1 day, 6 days, and
      then the interval times the ease it had before, to the nearest day, halves up (of a
      negative product, which only a drawer edited by hand leads to, up to the next day).
      Ease moves by a step of its own for each quality, down to the floor. */
  lemma GradeMoves(state: SrState, quality: int, today: string)
    ensures
      var next := Schedule(state, quality, today);
      var moved := state.ease
                   + if quality <= 0 then -80 else if quality == 1 then -54 else if quality == 2 then -32
                     else if quality == 3 then -14 else if quality == 4 then 0 else 10;
      && (quality < 3 ==> next.reps == 0 && next.interval == 1)
      && (quality >= 3 ==> next.reps == state.reps + 1)
      && (quality >= 3 && state.reps == 0 ==> next.interval == 1)
      && (quality >= 3 && state.reps == 1 ==> next.interval == 6)
      && (quality >= 3 && state.reps != 0 && state.reps != 1 ==>
            var product := state.interval * state.ease;
            if product > -50 then -50 < 100 * next.interval - product <= 50
            else 50 <= 100 * next.interval - product < 150)
      && next.ease == (if moved < 130 then 130 else moved)
      && next.last == Some(today) && next.due == Some(AddDays(today, next.interval))
  {
    hide AddDays;
    var product := state.interval * state.ease;
  }

  /** Three and above is a pass, whatever the number. */
  lemma PassesFromThree(grade: Grade)
    ensures Passes(grade) <==> grade.quality >= 3
  {
  }

  /** A history is graded one grade after the other, from a new card on. */
  lemma GradedInOrder(grades: seq<Grade>, grade: Grade)
    ensures Graded([]) == SrState(250, 0, 0, None, None)
    ensures Graded(grades + [grade]) == Schedule(Graded(grades), grade.quality, grade.today)
    ensures Graded(grades + [grade]).last == Some(grade.today)
  {
    assert (grades + [grade])[..|grades|] == grades;
  }

  // ---- Growth ----

  function Pow(base: nat, k: nat): nat {
    if k == 0 then 1 else base * Pow(base, k - 1)
  }

  lemma ProductLe(a: int, b: int, c: int, d: int)
    requires 0 <= a <= b && 0 <= c <= d
    ensures 0 <= a * c <= b * d
  {
    assert a * c <= b * c <= b * d;
  }

  lemma {:induction false} PowMonotone(a: nat, b: nat, k: nat)
    requires a <= b
    ensures Pow(a, k) <= Pow(b, k)
  {
    if k > 0 {
      PowMonotone(a, b, k - 1);
      ProductLe(a, b, Pow(a, k - 1), Pow(b, k - 1));
    }
  }

  lemma {:induction false} EaseBound(grades: seq<Grade>)
    ensures Graded(grades).ease <= DEFAULT_EASE + 10 * |grades|
  {
    if grades != [] {
      EaseBound(grades[..|grades| - 1]);
    }
  }

  /** After n grades the interval is at most 6 * (3 + n/10)^n days. */
  lemma {:induction false} IntervalBound(grades: seq<Grade>)
    ensures var n := |grades|;
            0 <= Graded(grades).interval && Graded(grades).interval * Pow(10, n) <= 6 * Pow(30 + n, n)
  {
    var n := |grades|;
    if n > 0 {
      var front := grades[..n - 1];
      IntervalBound(front);
      EaseBound(front);
      GradedShape(front);
      PowMonotone(29 + n, 30 + n, n - 1);
      PowMonotone(10, 30 + n, n - 1);
      var s, next := Graded(front), Graded(grades).interval;
      assert next == 1 || next == 6 || (s.reps >= 2 && next == TruncDiv(s.interval * s.ease + 50, 100));
      var tens, slow, fast := Pow(10, n - 1), Pow(29 + n, n - 1), Pow(30 + n, n - 1);
      assert Pow(10, n) == 10 * tens && Pow(30 + n, n) == (30 + n) * fast;
      hide *;
      if next == 1 || next == 6 {
        RestartStep(next, tens, fast, n);
      } else {
        IntervalStep(s.interval, s.ease, next, n - 1);
        GrowthStep(next, s.interval, tens, slow, fast, n);
      }
    }
  }

  lemma RestartStep(next: int, tens: int, fast: int, n: nat)
    requires n > 0 && 0 <= next <= 6 && 0 <= tens <= fast
    ensures next * (10 * tens) <= 6 * ((30 + n) * fast)
  {
    ProductLe(10, 30 + n, tens, fast);
    ProductLe(next, 6, 10 * tens, (30 + n) * fast);
  }

  lemma IntervalStep(interval: int, ease: int, next: int, n: nat)
    requires interval >= 1 && 0 <= ease <= DEFAULT_EASE + 10 * n
    requires next == TruncDiv(interval * ease + 50, 100)
    ensures 0 <= 10 * next <= interval * (30 + n)
  {
    assert 0 <= interval * ease <= interval * (DEFAULT_EASE + 10 * n);
  }

  lemma GrowthStep(next: int, interval: int, tens: int, slow: int, fast: int, n: nat)
    requires tens >= 0 && n > 0 && 0 <= 10 * next <= interval * (29 + n)
    requires 0 <= interval && interval * tens <= 6 * slow && 0 <= slow <= fast
    ensures next * (10 * tens) <= 6 * ((30 + n) * fast)
  {
    ProductLe(10 * next, interval * (29 + n), tens, tens);
    ProductLe(29 + n, 30 + n, interval * tens, 6 * fast) by {
      ProductLe(interval, interval, 0, tens);
    }
    Regroup(interval, 29 + n, tens, 1);
    Regroup(30 + n, 6, 1, fast);
  }

  const I64_MAX := 0x7fff_ffff_ffff_ffff

  /** So for twenty grades from a new card, graded on days whose text parses, the
      product the next interval is rounded from and the day count it is added to
      stay far inside 64 bits. */
  lemma TwentyGradesFit(grades: seq<Grade>, today: Date)
    requires |grades| <= 20
    requires HasTwoDigitFields(today) && ParseableYear(today.year)
    ensures var s := Graded(grades);
            && 0 <= s.interval * s.ease + 50 <= I64_MAX
            && -I64_MAX <= DaysFromCivil(today) + s.interval + 719468 <= I64_MAX
  {
    var n := |grades|;
    var s := Graded(grades);
    IntervalBound(grades);
    EaseBound(grades);
    GradedShape(grades);
    hide Pow, Graded, DaysFromCivil;
    SmallGrowth(n);
    FiveToTheTwentieth();
    PowPositive(10, n);
    Cancel(s.interval, 6 * Pow(5, 20), Pow(10, n));
    ProductLe(s.interval, 6 * 95367431640625, s.ease, 450);
    ParseableDaysAreSmall(today);
  }

  lemma Cancel(a: int, b: int, k: int)
    requires k > 0 && a * k <= b * k
    ensures a <= b
  {
  }

  lemma FiveToTheTwentieth()
    ensures Pow(5, 20) == 95367431640625
  {
    assert Pow(5, 4) == 625 by {
      assert Pow(5, 2) == 25;
    }
    PowAdds(5, 4, 4);
    PowAdds(5, 8, 8);
    PowAdds(5, 16, 4);
  }

  lemma {:induction false} PowAdds(b: nat, j: nat, k: nat)
    ensures Pow(b, j + k) == Pow(b, j) * Pow(b, k)
  {
    if j > 0 {
      PowAdds(b, j - 1, k);
      var p, q := Pow(b, j - 1), Pow(b, k);
      assert b * (p * q) == b * p * q;
    }
  }

  lemma {:induction false} PowTimes(a: nat, b: nat, k: nat)
    ensures Pow(a * b, k) == Pow(a, k) * Pow(b, k)
  {
    if k > 0 {
      PowTimes(a, b, k - 1);
      Regroup(a, b, Pow(a, k - 1), Pow(b, k - 1));
    }
  }

  lemma Regroup(a: int, b: int, c: int, d: int)
    ensures a * b * (c * d) == a * c * (b * d)
  {
    calc {
      a * b * (c * d);
      == a * (b * (c * d));
      == a * (c * (b * d));
    }
  }

  lemma SmallGrowth(n: nat)
    requires n <= 20
    ensures Pow(30 + n, n) <= Pow(5, 20) * Pow(10, n)
  {
    hide Pow;
    PowMonotone(30 + n, 5 * 10, n);
    PowTimes(5, 10, n);
    PowAdds(5, n, 20 - n);
    PowPositive(5, 20 - n);
    PowPositive(5, n);
    PowPositive(10, n);
    ProductLe(1, Pow(5, 20 - n), Pow(5, n), Pow(5, n));
    ProductLe(Pow(5, n), Pow(5, 20), Pow(10, n), Pow(10, n));
  }

  lemma {:induction false} PowPositive(b: nat, k: nat)
    requires b > 0
    ensures Pow(b, k) >= 1
  {
    if k > 0 {
      PowPositive(b, k - 1);
    }
  }

  lemma ParseableDaysAreSmall(date: Date)
    requires HasTwoDigitFields(date) && ParseableYear(date.year)
    ensures -2_000_000 <= DaysFromCivil(date) <= 4_000_000
  {
  }

  // ---- When a graded card comes back ----

  /** A card is held back only by a due date whose text sorts after the day's, and only
      once it has been passed. */
  lemma HeldBackByDueDate(state: SrState, day: string)
    ensures !IsDue(state, day) <==> state.reps != 0 && exists due :: state.due == Some(due) && TextLt(day, due)
  {
    if state.due.Some? {
      TextLtIsNotLe(state.due.value, day);
    }
  }

  /** The date a card is due on after a grade: a day whose text does not parse is left
      as it is. */
  function DueDate(state: SrState, today: Date): Date {
    if ParseableYear(today.year) then CivilFromDays(DaysFromCivil(today) + state.interval) else today
  }

  /** Any grade, a lapse too, sets a due date as many days after its day as the
      interval, and so later than it, exactly when the day's text parses. The text says
      so where the years' digits sort as the years do: not between two different
      negative years, and past year 9999 only when the first four digits are not below
      the day's year. */
  lemma DueIsLater(grades: seq<Grade>, grade: Grade, today: Date)
    requires grade.today == IsoText(today) && IsReal(today)
    ensures
      var s := Graded(grades + [grade]);
      var due := DueDate(s, today);
      && s.due == Some(IsoText(due)) && IsReal(due) && s.interval > 0
      && DaysFromCivil(due) == DaysFromCivil(today) + (if ParseableYear(today.year) then s.interval else 0)
      && (TextLt(IsoText(today), s.due.value) <==>
          ParseableYear(today.year) &&
          if due.year >= 10000 then today.year <= Lead(due.year, 10000)
          else !(due.year < 0 && due.year != today.year))
  {
    hide CivilFromDays, DaysFromCivil, IsoText, TextLe, ParseField, Lead, YearTextLe;
    var g := grades + [grade];
    assert g[..|g| - 1] == grades;
    GradedShape(g);
    GradedShape(grades);
    ParseOfIsoText(today);
    var s := Graded(g);
    var due := DueDate(s, today);
    if ParseableYear(today.year) {
      CivilFromDaysIsReal(DaysFromCivil(today) + s.interval);
      DaysFollowCalendarOrder(today, due);
      TextOrderIsDayOrder(due, today);
      if due.year >= 10000 {
        LongYearsSortEarly(due, today);
      }
      TextLtIsNotLe(IsoText(due), IsoText(today));
    }
  }

  lemma TextLtIsNotLe(a: string, b: string)
    ensures TextLt(b, a) <==> !TextLe(a, b)
  {
    TextLeTotal(a, b);
    if TextLe(a, b) && TextLe(b, a) {
      TextLeAntisymmetric(a, b);
    }
  }

  /** A card that lapsed is due at once. One that passed is due, where the texts of the
      two dates sort as dates, on exactly the days from its due date on, and elsewhere
      on exactly the days before: between two negative years whose text parses, and
      with a due date past year 9999, too early, on the days of exactly the years above
      that date's first four digits. */
  lemma CardReturns(grades: seq<Grade>, grade: Grade, today: Date, day: Date)
    requires grade.today == IsoText(today) && IsReal(today) && IsReal(day)
    ensures
      var s := Graded(grades + [grade]);
      var due := DueDate(s, today);
      var came := DaysFromCivil(due) <= DaysFromCivil(day);
      && (!Passes(grade) ==> IsDue(s, IsoText(day)))
      && (Passes(grade) ==>
            && (IsDue(s, IsoText(day)) <==> if SortAsDates(due, day) then came else !came)
            && (due.year >= 10000 && ParseableYear(day.year) ==>
                  (IsDue(s, IsoText(day)) <==> Lead(due.year, 10000) < day.year))
            && (ParseableYear(due.year) && ParseableYear(day.year) ==>
                  (SortAsDates(due, day) <==> !(due.year < 0 && day.year < 0 && due.year != day.year))))
  {
    hide CivilFromDays, DaysFromCivil, IsoText, TextLe, Lead, SortAsDates;
    var g := grades + [grade];
    assert g[..|g| - 1] == grades;
    GradedShape(grades);
    DueIsLater(grades, grade, today);
    var due := DueDate(Graded(g), today);
    TextOrderIsDayOrder(due, day);
    if due.year >= 10000 && ParseableYear(day.year) {
      LongYearsSortEarly(due, day);
    }
  }

  /** A card passed on the last day of year 9999 is due again that same day, though
      its due date is the next. */
  lemma LastDayComesBack()
    ensures
      var s := Graded([Grade(5, IsoText(Date(9999, 12, 31)))]);
      && s.due == Some(IsoText(Date(10000, 1, 1)))
      && IsDue(s, IsoText(Date(9999, 12, 31)))
  {
    hide CivilFromDays, DaysFromCivil, IsoText, TextLe;
    var today := Date(9999, 12, 31);
    var grade := Grade(5, IsoText(today));
    assert [] + [grade] == [grade];
    assert [grade][..0] == [];
    assert Graded([grade]) == Schedule(NEW_CARD, 5, grade.today);
    CivilFromDaysSteps(DaysFromCivil(today));
    CivilFromDaysFromCivil(today);
    assert NextDay(today) == Date(10000, 1, 1);
    DueIsLater([], grade, today);
    CardReturns([], grade, today, today);
    assert Lead(10000, 10000) == Lead(1000, 10000) == 1000;
  }
}
