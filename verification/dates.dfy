/** Calendar dates and the two `strftime` formats the handlers key rows by:
    `%Y-%m-%d` for the date attribute and `%Y%m%d` for the per-source hash. */
module Dates {
  import Strings
  import Decimal

  datatype Date = Date(year: int, month: int, day: int) {

    /** A date Python's `datetime` can hold. */
    predicate Valid() {
      1 <= year <= 9999 && 1 <= month <= 12 && 1 <= day <= DaysInMonth(year, month)
    }
  }

  predicate IsLeapYear(year: int) {
    year % 4 == 0 && (year % 100 != 0 || year % 400 == 0)
  }

  function DaysInMonth(year: int, month: int): int {
    if month == 2 then (if IsLeapYear(year) then 29 else 28)
    else if month == 4 || month == 6 || month == 9 || month == 11 then 30
    else 31
  }

  /** Chronological order: `a` is the same day as `b` or earlier. */
  predicate NotAfter(a: Date, b: Date) {
    a.year < b.year || (a.year == b.year && (a.month < b.month || (a.month == b.month && a.day <= b.day)))
  }

  /** `strftime('%Y-%m-%d')`, the store's date label. */
  function Label(d: Date): (s: string)
    requires d.Valid()
    ensures |s| == 10
  {
    Decimal.Pad(d.year, 4) + ("-" + (Decimal.Pad(d.month, 2) + ("-" + Decimal.Pad(d.day, 2))))
  }

  /** `strftime('%Y%m%d')`, the prefix of per-source row ids. */
  function Hash(d: Date): (s: string)
    requires d.Valid()
    ensures |s| == 8 && Decimal.AllDigits(s)
  {
    Decimal.Pad(d.year, 4) + (Decimal.Pad(d.month, 2) + Decimal.Pad(d.day, 2))
  }

  lemma PowersUsed()
    ensures Decimal.Pow10(2) == 100 && Decimal.Pow10(4) == 10000
  {
    assert Decimal.Pow10(1) == 10;
    assert Decimal.Pow10(3) == 1000;
  }

  /** Date labels compare as strings in the same order as the dates they
      name, which is what lets the query filter and sort by plain string
      comparison. */
  lemma LabelOrder(a: Date, b: Date)
    requires a.Valid() && b.Valid()
    ensures Strings.Le(Label(a), Label(b)) <==> NotAfter(a, b)
  {
    PowersUsed();
    var ya, yb := Decimal.Pad(a.year, 4), Decimal.Pad(b.year, 4);
    var ma, mb := Decimal.Pad(a.month, 2), Decimal.Pad(b.month, 2);
    var da, db := Decimal.Pad(a.day, 2), Decimal.Pad(b.day, 2);
    Decimal.PadOrder(a.year, b.year, 4);
    Decimal.PadInjective(a.year, b.year, 4);
    Decimal.PadOrder(a.month, b.month, 2);
    Decimal.PadInjective(a.month, b.month, 2);
    Decimal.PadOrder(a.day, b.day, 2);
    Decimal.PadInjective(a.day, b.day, 2);
    Strings.LeReflexive("-");
    Strings.LeConcat("-", "-", da, db);
    Strings.LeConcat(ma, mb, "-" + da, "-" + db);
    Strings.LeConcat("-", "-", ma + ("-" + da), mb + ("-" + db));
    Strings.LeConcat(ya, yb, "-" + (ma + ("-" + da)), "-" + (mb + ("-" + db)));
  }

  /** Distinct dates have distinct labels. */
  lemma LabelInjective(a: Date, b: Date)
    requires a.Valid() && b.Valid()
    ensures Label(a) == Label(b) <==> a == b
  {
    if Label(a) == Label(b) {
      LabelOrder(a, b);
      LabelOrder(b, a);
      Strings.LeReflexive(Label(a));
    }
  }

  /** Distinct dates have distinct hashes. */
  lemma HashInjective(a: Date, b: Date)
    requires a.Valid() && b.Valid()
    ensures Hash(a) == Hash(b) <==> a == b
  {
    PowersUsed();
    var ya, yb := Decimal.Pad(a.year, 4), Decimal.Pad(b.year, 4);
    var ma, mb := Decimal.Pad(a.month, 2), Decimal.Pad(b.month, 2);
    var da, db := Decimal.Pad(a.day, 2), Decimal.Pad(b.day, 2);
    Strings.SplitEqual(ya, yb, ma + da, mb + db);
    Strings.SplitEqual(ma, mb, da, db);
    Decimal.PadInjective(a.year, b.year, 4);
    Decimal.PadInjective(a.month, b.month, 2);
    Decimal.PadInjective(a.day, b.day, 2);
  }
}
