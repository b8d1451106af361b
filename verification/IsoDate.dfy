/** The `YYYY-MM-DD` text layer of glossary.rs over the calendar. */
module IsoDate {
  import opened Basics
  import opened Text
  import opened Calendar

  // ---- The operations ----

  /** A field read as a signed integer: one optional sign, then digits. */
  function ParseField(s: string): Option<int> {
    var body := if s != [] && (s[0] == '+' || s[0] == '-') then s[1..] else s;
    if body == [] || !AllDigits(body) then None
    else
      var value: int := DecimalValue(body);
      Some(if s[0] == '-' then -value else value)
  }

  function ParseIso(text: string): Option<Date> {
    if |text| != 10 || text[4] != '-' || text[7] != '-' then None
    else
      var year, month, day := ParseField(text[0..4]), ParseField(text[5..7]), ParseField(text[8..10]);
      if year.None? || month.None? || day.None? then None
      else if !(1 <= month.value <= 12) || !(1 <= day.value <= 31) then None
      else Some(Date(year.value, month.value, day.value))
  }

  /** A number padded with zeros to a width that counts its sign. */
  function Padded(value: int, width: nat): string {
    if value < 0 then "-" + PadDigits(-value, if width > 0 then width - 1 else 0)
    else PadDigits(value, width)
  }

  function PadDigits(value: nat, width: nat): (s: string)
    ensures AllDigits(s) && |s| >= width && s != []
  {
    var digits := Decimal(value);
    Zeros(if |digits| < width then width - |digits| else 0) + digits
  }

  function IsoText(date: Date): string {
    Padded(date.year, 4) + "-" + Padded(date.month, 2) + "-" + Padded(date.day, 2)
  }

  function AddDays(text: string, days: int): string {
    match ParseIso(text)
    case Some(date) => IsoText(CivilFromDays(DaysFromCivil(date) + days))
    case None => text
  }

  // ---- Which texts parse ----

  /** A run of digits, or one after a sign, spells a number. */
  predicate Spells(s: string, n: int) {
    if s != [] && s[0] == '-' then s != "-" && AllDigits(s[1..]) && -n == DecimalValue(s[1..])
    else if s != [] && s[0] == '+' then s != "+" && AllDigits(s[1..]) && n == DecimalValue(s[1..])
    else s != [] && AllDigits(s) && n == DecimalValue(s)
  }

  lemma FieldsSpell(s: string, n: int)
    ensures ParseField(s) == Some(n) <==> Spells(s, n)
  {
    hide DecimalValue;
    if s != [] {
      assert s[1..] == [] <==> s == [s[0]];
    }
  }

  ghost predicate IsDateText(text: string, date: Date) {
    exists year: string, month: string, day: string ::
      && |year| == 4 && |month| == 2 && |day| == 2 && text == year + "-" + month + "-" + day
      && Spells(year, date.year) && Spells(month, date.month) && Spells(day, date.day)
      && 1 <= date.month <= 12 && 1 <= date.day <= 31
  }

  lemma PiecesParse(year: string, month: string, day: string, date: Date)
    requires |year| == 4 && |month| == 2 && |day| == 2
    ensures ParseIso(year + "-" + month + "-" + day) == Some(date) <==>
            && Spells(year, date.year) && Spells(month, date.month) && Spells(day, date.day)
            && 1 <= date.month <= 12 && 1 <= date.day <= 31
  {
    hide ParseField, Spells;
    var text := year + "-" + month + "-" + day;
    assert text[0..4] == year && text[5..7] == month && text[8..10] == day;
    FieldsSpell(year, date.year);
    FieldsSpell(month, date.month);
    FieldsSpell(day, date.day);
  }

  /** A text parses exactly when it is a year of four characters, a month of two and a
      day of two, with dashes between, each a number and the last two in range. */
  lemma ParsesExactly(text: string, date: Date)
    ensures ParseIso(text) == Some(date) <==> IsDateText(text, date)
  {
    hide ParseField, Spells;
    if ParseIso(text) == Some(date) {
      var year, month, day := text[0..4], text[5..7], text[8..10];
      assert text == year + "-" + month + "-" + day;
      PiecesParse(year, month, day, date);
    }
    hide ParseIso;
    if IsDateText(text, date) {
      var year: string, month: string, day: string :|
        && |year| == 4 && |month| == 2 && |day| == 2 && text == year + "-" + month + "-" + day
        && Spells(year, date.year) && Spells(month, date.month) && Spells(day, date.day);
      PiecesParse(year, month, day, date);
    }
  }

  // ---- Printing and parsing a field ----

  lemma PadDigitsSpells(value: nat, width: nat)
    requires width > 0
    ensures DecimalValue(PadDigits(value, width)) == value
    ensures |PadDigits(value, width)| == width <==> value < Pow10(width)
  {
    DecimalValueOfDecimal(value);
    DecimalLength(value, width);
    LeadingZeros(if |Decimal(value)| < width then width - |Decimal(value)| else 0, Decimal(value));
  }

  lemma ParseFieldOfPadded(value: int, width: nat)
    requires width > 1
    ensures ParseField(Padded(value, width)) == Some(value)
    ensures |Padded(value, width)| >= width
    ensures |Padded(value, width)| == width <==> -Pow10(width - 1) < value < Pow10(width)
  {
    hide PadDigits, DecimalValue, Pow10;
    if value < 0 {
      PadDigitsSpells(-value, width - 1);
      assert Padded(value, width)[1..] == PadDigits(-value, width - 1);
    } else {
      PadDigitsSpells(value, width);
      assert IsDigit(PadDigits(value, width)[0]);
    }
  }

  lemma SmallPowers()
    ensures Pow10(1) == 10 && Pow10(2) == 100 && Pow10(3) == 1000 && Pow10(4) == 10000
  {
    assert Pow10(2) == 10 * Pow10(1);
    assert Pow10(3) == 10 * Pow10(2);
  }

  predicate ParseableYear(year: int) {
    -1000 < year < 10000
  }

  ghost predicate HasTwoDigitFields(date: Date) {
    1 <= date.month <= 12 && 1 <= date.day <= 31
  }

  lemma IsoTextShape(date: Date)
    requires HasTwoDigitFields(date)
    ensures IsoText(date) == Padded(date.year, 4) + ("-" + Padded(date.month, 2) + "-" + Padded(date.day, 2))
    ensures |Padded(date.month, 2)| == 2 && |Padded(date.day, 2)| == 2
    ensures ParseField(Padded(date.month, 2)) == Some(date.month)
    ensures ParseField(Padded(date.day, 2)) == Some(date.day)
    ensures ParseField(Padded(date.year, 4)) == Some(date.year)
    ensures |Padded(date.year, 4)| >= 4
    ensures |Padded(date.year, 4)| == 4 <==> ParseableYear(date.year)
  {
    hide Padded, ParseField;
    SmallPowers();
    ParseFieldOfPadded(date.year, 4);
    ParseFieldOfPadded(date.month, 2);
    ParseFieldOfPadded(date.day, 2);
  }

  // ---- The text layer ----

  /** Printing then parsing returns the date exactly for the years whose text is
      four characters wide. Any other year prints text the parser refuses. */
  lemma ParseOfIsoText(date: Date)
    requires HasTwoDigitFields(date)
    ensures ParseIso(IsoText(date)) == if ParseableYear(date.year) then Some(date) else None
  {
    hide Padded, ParseField;
    IsoTextShape(date);
    var text := IsoText(date);
    if ParseableYear(date.year) {
      assert text[0..4] == Padded(date.year, 4);
      assert text[5..7] == Padded(date.month, 2);
      assert text[8..10] == Padded(date.day, 2);
    }
  }

  lemma IsoTextInjective(a: Date, b: Date)
    requires HasTwoDigitFields(a) && HasTwoDigitFields(b)
    requires IsoText(a) == IsoText(b)
    ensures a == b
  {
    hide Padded, ParseField;
    IsoTextShape(a);
    IsoTextShape(b);
    var text := IsoText(a);
    var k := |text| - 6;
    assert Padded(a.year, 4) == text[..k] == Padded(b.year, 4);
    assert Padded(a.month, 2) == text[k + 1..k + 3] == Padded(b.month, 2);
    assert Padded(a.day, 2) == text[k + 4..] == Padded(b.day, 2);
  }

  /** Adding days in two steps agrees with adding them at once exactly when the
      intermediate year still prints as text the parser accepts (or the text was
      no date, or the second step adds nothing). */
  lemma AddDaysComposes(text: string, a: int, b: int)
    ensures AddDays(AddDays(text, a), b) == AddDays(text, a + b) <==>
            (match ParseIso(text)
             case None => true
             case Some(date) => b == 0 || ParseableYear(CivilFromDays(DaysFromCivil(date) + a).year))
    ensures ParseIso(text).None? ==> AddDays(text, a) == text
  {
    hide CivilFromDays, DaysFromCivil, IsoText;
    match ParseIso(text)
    case None =>
    case Some(date) =>
      var n := DaysFromCivil(date);
      var mid, end := CivilFromDays(n + a), CivilFromDays(n + a + b);
      CivilFromDaysIsReal(n + a);
      CivilFromDaysIsReal(n + a + b);
      ParseOfIsoText(mid);
      if !ParseableYear(mid.year) && IsoText(mid) == IsoText(end) {
        IsoTextInjective(mid, end);
      }
  }

  /** Text that parses, plus `days`, is the text of the real date that many days
      later, and a date the calendar lacks counts on from its month's start. */
  lemma AddDaysCounts(text: string, days: int)
    requires ParseIso(text).Some?
    ensures exists later ::
      && IsReal(later) && AddDays(text, days) == IsoText(later)
      && DaysFromCivil(later) == DaysFromCivil(ParseIso(text).value.(day := 1)) + ParseIso(text).value.day - 1 + days
  {
    hide CivilFromDays, DaysFromCivil, IsReal, IsoText, ParseIso;
    var date := ParseIso(text).value;
    var later := CivilFromDays(DaysFromCivil(date) + days);
    CivilFromDaysIsReal(DaysFromCivil(date) + days);
    DaysAreLinearInDay(date.year, date.month, 1, date.day - 1);
    assert IsReal(later) && AddDays(text, days) == IsoText(later);
  }

  // ---- Text order ----

  /** The first digits of a number: as many as the numbers below `bound`, a power of
      ten, may have. */
  function Lead(n: nat, bound: nat): nat
    requires bound > 0
  {
    if n < bound then n else Lead(n / 10, bound)
  }

  /** Whether one number's digits sort at or before another's. Numbers below `bound`
      are padded to one width. Of two with as many digits the smaller comes first, and a
      shorter one comes first exactly when it is at most the first digits of the longer. */
  predicate DigitsLe(m: nat, n: nat, bound: nat)
    requires bound > 0
    decreases m - bound
  {
    if m < bound then m <= Lead(n, bound)
    else if n < bound then Lead(m, bound) < n
    else DigitsLe(m, n, 10 * bound)
  }

  /** Whether the text of one year sorts at or before another's. */
  predicate YearTextLe(a: int, b: int) {
    if a < 0 && b < 0 then DigitsLe(-a, -b, 1000)
    else if a < 0 || b < 0 then a < 0
    else DigitsLe(a, b, 10000)
  }

  /** Whether comparing the texts of two dates agrees with comparing the dates. */
  predicate SortAsDates(a: Date, b: Date) {
    a.year == b.year || (YearTextLe(a.year, b.year) <==> a.year < b.year)
  }

  lemma LongerDigits(n: nat, width: nat)
    requires width > 0 && n >= Pow10(width)
    ensures PadDigits(n, width) == PadDigits(n, width + 1) == PadDigits(n / 10, width) + [DigitChar(n % 10)]
  {
    PowGrows(width);
    DecimalLength(n, width);
    if width > 1 {
      DecimalLength(n / 10, width - 1);
    }
    assert Zeros(0) == [];
  }

  lemma {:induction false} LeadLeads(n: nat, width: nat) returns (rest: string)
    requires width > 0
    ensures n < Pow10(width) ==> Lead(n, Pow10(width)) == n && rest == []
    ensures n >= Pow10(width) ==> rest != [] && IsDigit(rest[0])
    ensures Lead(n, Pow10(width)) < Pow10(width)
    ensures PadDigits(n, width) == PadDigits(Lead(n, Pow10(width)), width) + rest
  {
    hide PadDigits, Pow10;
    rest := [];
    if n >= Pow10(width) {
      LongerDigits(n, width);
      var front := LeadLeads(n / 10, width);
      rest := front + [DigitChar(n % 10)];
    }
  }

  /** Digits that come with a front of one width sort by their fronts, and an end comes
      before more digits. */
  lemma {:induction false} DigitsSort(m: nat, n: nat, width: nat)
    requires width > 0
    ensures TextLe(PadDigits(m, width), PadDigits(n, width)) <==> DigitsLe(m, n, Pow10(width))
    ensures PadDigits(m, width) == PadDigits(n, width) <==> m == n
    decreases m - Pow10(width)
  {
    hide PadDigits, Lead;
    var bound := Pow10(width);
    PadDigitsSpells(m, width);
    PadDigitsSpells(n, width);
    if m >= bound && n >= bound {
      LongerDigits(m, width);
      LongerDigits(n, width);
      assert Pow10(width + 1) == 10 * bound;
      DigitsSort(m, n, width + 1);
    } else {
      hide Pow10, TextLe;
      var restM := LeadLeads(m, width);
      var restN := LeadLeads(n, width);
      var leadM, leadN := Lead(m, bound), Lead(n, bound);
      PadDigitsSpells(leadM, width);
      PadDigitsSpells(leadN, width);
      var frontM, frontN := PadDigits(leadM, width), PadDigits(leadN, width);
      DigitsOrderAsNumbers(frontM, frontN);
      TextLeOfParts(frontM, restM, frontN, restN);
      EndsFirst(restM, restN);
    }
  }

  lemma EndsFirst(s: string, t: string)
    ensures s == [] ==> TextLe(s, t)
    ensures s != [] && t == [] ==> !TextLe(s, t)
  {
  }

  lemma SignsDecide(a: int, restA: string, b: int, restB: string)
    requires a < 0 <= b || b < 0 <= a
    ensures TextLe(Padded(a, 4) + restA, Padded(b, 4) + restB) <==> a < 0
  {
    hide PadDigits;
    assert a >= 0 ==> IsDigit((Padded(a, 4) + restA)[0]);
    assert b >= 0 ==> IsDigit((Padded(b, 4) + restB)[0]);
  }

  lemma YearsSort(a: int, b: int)
    ensures TextLe(Padded(a, 4), Padded(b, 4)) <==> YearTextLe(a, b)
    ensures Padded(a, 4) == Padded(b, 4) <==> a == b
  {
    hide PadDigits, DigitsLe, Pow10;
    SmallPowers();
    if a < 0 && b < 0 {
      DigitsSort(-a, -b, 3);
      TextLeOfParts("-", PadDigits(-a, 3), "-", PadDigits(-b, 3));
    } else if a >= 0 && b >= 0 {
      DigitsSort(a, b, 4);
    } else {
      SignsDecide(a, "", b, "");
      assert Padded(a, 4) + "" == Padded(a, 4) && Padded(b, 4) + "" == Padded(b, 4);
    }
  }

  lemma TwoDigitsSort(a: nat, b: nat)
    requires a < 100 && b < 100
    ensures |Padded(a, 2)| == |Padded(b, 2)| == 2
    ensures Padded(a, 2) == Padded(b, 2) <==> a == b
    ensures TextLe(Padded(a, 2), Padded(b, 2)) <==> a <= b
  {
    hide PadDigits;
    SmallPowers();
    PadDigitsSpells(a, 2);
    PadDigitsSpells(b, 2);
    DigitsSort(a, b, 2);
  }

  /** A dash comes before every digit, so that it ends a shorter run of digits. */
  lemma {:induction false} DashEnds(a: string, restA: string, b: string, restB: string)
    requires AllDigits(a) && AllDigits(b) && a != b
    ensures TextLe(a + ("-" + restA), b + ("-" + restB)) <==> TextLe(a, b)
  {
    var longA, longB := a + ("-" + restA), b + ("-" + restB);
    if a != [] && b != [] {
      assert longA[0] == a[0] && longB[0] == b[0];
      if a[0] == b[0] {
        assert a == [a[0]] + a[1..] && b == [b[0]] + b[1..];
        DashEnds(a[1..], restA, b[1..], restB);
        assert longA[1..] == a[1..] + ("-" + restA) && longB[1..] == b[1..] + ("-" + restB);
      }
    } else {
      assert longA[0] == if a == [] then '-' else a[0];
      assert longB[0] == if b == [] then '-' else b[0];
    }
  }

  lemma NegativeYearsDecide(a: int, restA: string, b: int, restB: string)
    requires a < 0 && b < 0 && a != b
    ensures TextLe(Padded(a, 4) + ("-" + restA), Padded(b, 4) + ("-" + restB)) <==>
            TextLe(Padded(a, 4), Padded(b, 4))
  {
    hide PadDigits, TextLe;
    YearsSort(a, b);
    var m, n := PadDigits(-a, 3), PadDigits(-b, 3);
    DashEnds(m, restA, n, restB);
    TextLeOfParts("-", m, "-", n);
    TextLeOfParts("-", m + ("-" + restA), "-", n + ("-" + restB));
    assert Padded(a, 4) + ("-" + restA) == "-" + (m + ("-" + restA));
    assert Padded(b, 4) + ("-" + restB) == "-" + (n + ("-" + restB));
  }

  lemma YearsDecide(a: int, restA: string, b: int, restB: string)
    requires a != b
    ensures TextLe(Padded(a, 4) + ("-" + restA), Padded(b, 4) + ("-" + restB)) <==> YearTextLe(a, b)
  {
    hide PadDigits, DigitsLe, TextLe;
    YearsSort(a, b);
    if a < 0 && b < 0 {
      NegativeYearsDecide(a, restA, b, restB);
    } else if a >= 0 && b >= 0 {
      DashEnds(Padded(a, 4), restA, Padded(b, 4), restB);
    } else {
      SignsDecide(a, "-" + restA, b, "-" + restB);
    }
  }

  lemma MonthsAndDaysDecide(a: Date, b: Date)
    requires IsReal(a) && IsReal(b) && a.year == b.year
    ensures TextLe(IsoText(a), IsoText(b)) <==> DaysFromCivil(a) <= DaysFromCivil(b)
  {
    hide DaysFromCivil, Padded, TextLe;
    DaysFollowCalendarOrder(a, b);
    var year := Padded(a.year, 4) + "-";
    var ma, mb := Padded(a.month, 2), Padded(b.month, 2);
    var da, db := Padded(a.day, 2), Padded(b.day, 2);
    TwoDigitsSort(a.month, b.month);
    TwoDigitsSort(a.day, b.day);
    assert IsoText(a) == year + (ma + ("-" + da)) && IsoText(b) == year + (mb + ("-" + db));
    TextLeOfParts(year, ma + ("-" + da), year, mb + ("-" + db));
    TextLeOfParts(ma, "-" + da, mb, "-" + db);
    TextLeOfParts("-", da, "-", db);
  }

  /** Real dates of any years sort by the digits of their years, and within a year as
      dates: comparing texts agrees with comparing day counts exactly when the years'
      digits sort as the years do. Among years whose text parses, those are all but
      two different negative ones, which sort in reverse. */
  lemma TextOrderIsDayOrder(a: Date, b: Date)
    requires IsReal(a) && IsReal(b)
    ensures TextLe(IsoText(a), IsoText(b)) <==>
            if a.year == b.year then DaysFromCivil(a) <= DaysFromCivil(b) else YearTextLe(a.year, b.year)
    ensures (TextLe(IsoText(a), IsoText(b)) <==> DaysFromCivil(a) <= DaysFromCivil(b)) <==> SortAsDates(a, b)
    ensures ParseableYear(a.year) && ParseableYear(b.year) ==>
      (SortAsDates(a, b) <==> !(a.year < 0 && b.year < 0 && a.year != b.year))
  {
    hide DaysFromCivil, Padded, TextLe;
    DaysFollowCalendarOrder(a, b);
    if a.year == b.year {
      MonthsAndDaysDecide(a, b);
    } else {
      var restA, restB := Padded(a.month, 2) + "-" + Padded(a.day, 2), Padded(b.month, 2) + "-" + Padded(b.day, 2);
      assert IsoText(a) == Padded(a.year, 4) + ("-" + restA) && IsoText(b) == Padded(b.year, 4) + ("-" + restB);
      YearsDecide(a.year, restA, b.year, restB);
    }
  }

  /** Past year 9999 the text order fails: a year with more digits sorts by its first
      four, so its dates, later than any whose text parses, come before exactly those
      of the years above that. */
  lemma LongYearsSortEarly(a: Date, b: Date)
    requires IsReal(a) && a.year >= 10000
    requires IsReal(b) && ParseableYear(b.year)
    ensures DaysFromCivil(b) < DaysFromCivil(a)
    ensures TextLe(IsoText(a), IsoText(b)) <==> Lead(a.year, 10000) < b.year
  {
    hide DaysFromCivil, IsoText, TextLe;
    DaysFollowCalendarOrder(b, a);
    TextOrderIsDayOrder(a, b);
  }
}
