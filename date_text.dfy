/**
 * The "yyyy-MM-dd" text form in which dates are stored in the `date`
 * column, bound as query parameters and sent to the billing API. The store
 * compares and sorts that column as text; `FormatOrder` shows that this is
 * the same as comparing the dates, which is what lets the rest of the model
 * compare day numbers.
 */
module DateText {
  import opened Calendar
  import opened Text
  import opened Wrappers

  /** The range of `DateOnly`: years 1 to 9999. */
  predicate InDateOnlyRange(d: Date) {
    1 <= Year(d) <= 9999
  }

  function CivilText(c: Civil): (s: string)
    requires 1 <= c.year <= 9999 && 1 <= c.month <= 12 && 1 <= c.day <= 31
    ensures |s| == 10 && s[4] == '-' && s[7] == '-'
  {
    PaddedDigits(c.year, 4) + ("-" + (PaddedDigits(c.month, 2) + ("-" + PaddedDigits(c.day, 2))))
  }

  /** `date.ToString("yyyy-MM-dd")`. */
  function Format(d: Date): (s: string)
    requires InDateOnlyRange(d)
    ensures |s| == 10
  {
    CivilText(ToCivil(d))
  }

  /** Reads a "yyyy-MM-dd" string back; anything else, or a day that does not exist, gives None. */
  function Parse(s: string): (r: Option<Date>)
    ensures r.Some? ==> InDateOnlyRange(r.value)
  {
    if |s| == 10 && s[4] == '-' && s[7] == '-'
       && IsDigits(s[..4]) && IsDigits(s[5..7]) && IsDigits(s[8..])
    then
      var c := Civil(DigitsValue(s[..4]), DigitsValue(s[5..7]), DigitsValue(s[8..]));
      if 1 <= c.year && ValidCivil(c) then
        DigitsValueBound(s[..4]);
        assert Pow10(4) == 10000 by {
          assert Pow10(1) == 10;
          assert Pow10(2) == 100;
          assert Pow10(3) == 1000;
        }
        ToCivilFromCivil(c);
        Some(FromCivil(c))
      else None
    else None
  }

  /** Formatting then parsing gives the date back. */
  lemma {:induction false} ParseFormat(d: Date)
    requires InDateOnlyRange(d)
    ensures Parse(Format(d)) == Some(d)
  {
    var c := ToCivil(d);
    var s := Format(d);
    assert s[..4] == PaddedDigits(c.year, 4);
    assert s[5..7] == PaddedDigits(c.month, 2);
    assert s[8..] == PaddedDigits(c.day, 2);
    PaddedDigitsValue(c.year, 4);
    PaddedDigitsValue(c.month, 2);
    PaddedDigitsValue(c.day, 2);
  }

  lemma {:induction false} CivilTextOrder(a: Civil, b: Civil)
    requires 1 <= a.year <= 9999 && 1 <= a.month <= 12 && 1 <= a.day <= 31
    requires 1 <= b.year <= 9999 && 1 <= b.month <= 12 && 1 <= b.day <= 31
    ensures StrLess(CivilText(a), CivilText(b)) <==> CivilBefore(a, b)
  {
    var ya, yb := PaddedDigits(a.year, 4), PaddedDigits(b.year, 4);
    var ma, mb := PaddedDigits(a.month, 2), PaddedDigits(b.month, 2);
    var da, db := PaddedDigits(a.day, 2), PaddedDigits(b.day, 2);
    PaddedDigitsOrder(a.year, b.year, 4);
    PaddedDigitsOrder(a.month, b.month, 2);
    PaddedDigitsOrder(a.day, b.day, 2);
    StrLessIrreflexive("-");
    StrLessConcat(ya, yb, "-" + (ma + ("-" + da)), "-" + (mb + ("-" + db)));
    StrLessConcat("-", "-", ma + ("-" + da), mb + ("-" + db));
    StrLessConcat(ma, mb, "-" + da, "-" + db);
    StrLessConcat("-", "-", da, db);
  }

  /**
   * On dates in DateOnly's range, comparing the stored text is comparing
   * the dates: the encoding is order-preserving and hence injective.
   */
  lemma {:induction false} FormatOrder(a: Date, b: Date)
    requires InDateOnlyRange(a) && InDateOnlyRange(b)
    ensures StrLess(Format(a), Format(b)) <==> a < b
    ensures Format(a) == Format(b) <==> a == b
  {
    var ca, cb := ToCivil(a), ToCivil(b);
    CivilTextOrder(ca, cb);
    CivilTextOrder(cb, ca);
    if CivilBefore(ca, cb) {
      FromCivilStrictlyMonotone(ca, cb);
    } else if CivilBefore(cb, ca) {
      FromCivilStrictlyMonotone(cb, ca);
    }
    StrLessIrreflexive(Format(a));
  }
}
