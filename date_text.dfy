/** The front end's date helpers (identical in `main.js` and
    `anime_info_window.js`): `null_check`, the sortable number
    `null_check_date`, the text `null_check_date_string`, and the parse of
    the date inputs in `update_user_entry`. A JavaScript `null` is `None`;
    `NaN` from `parseInt` is also `None`, because it reaches the backend as
    JSON `null`. */
module DateText {
  import opened Wrappers
  import opened Strings
  import opened Dates

  /** `null_check(v, notNullValue, nullValue)`. */
  function NullCheck<T, U>(v: Option<T>, notNullValue: U, nullValue: U): (r: U)
    ensures v.None? ==> r == nullValue
    ensures v.Some? ==> r == notNullValue
  {
    if v.None? then nullValue else notNullValue
  }

  /** `null_check_date`: year·10000 + month·100 + day, a missing part adding 0. */
  function DateNumber(d: Option<Date>): int
  {
    if d.None? then 0
    else
      NullCheck(d.value.year, d.value.year.GetOr(0) * 10000, 0)
      + NullCheck(d.value.month, d.value.month.GetOr(0) * 100, 0)
      + NullCheck(d.value.day, d.value.day.GetOr(0), 0)
  }

  predicate SortableDate(d: Date)
  {
    d.year.Some? && d.month.Some? && d.day.Some?
    && 0 <= d.month.value < 100 && 0 <= d.day.value < 100
  }

  /** The number is "sortable": on complete dates whose month and day have two
      digits it orders dates exactly as the backend comparator does. */
  lemma DateNumberSortable(a: Date, b: Date)
    requires SortableDate(a) && SortableDate(b)
    ensures DateNumber(Some(a)) < DateNumber(Some(b)) <==> Compare(a, b) == Less
    ensures DateNumber(Some(a)) == DateNumber(Some(b)) <==> a == b
  {
    CompareComplete(a, b);
    var ya, ma, da := a.year.value, a.month.value, a.day.value;
    var yb, mb, db := b.year.value, b.month.value, b.day.value;
    assert DateNumber(Some(a)) == ya * 10000 + (ma * 100 + da);
    assert DateNumber(Some(b)) == yb * 10000 + (mb * 100 + db);
    assert 0 <= ma * 100 + da < 10000;
    assert 0 <= mb * 100 + db < 10000;
    if ya < yb {
      assert ya * 10000 + 10000 <= yb * 10000;
    } else if ya > yb {
      assert yb * 10000 + 10000 <= ya * 10000;
    }
  }

  /** `String(n).padStart(2, '0')`. */
  function Pad2(s: string): (r: string)
    ensures |r| >= 2 && |r| >= |s|
  {
    if |s| == 0 then "00" else if |s| == 1 then "0" + s else s
  }

  /** `null_check_date_string(date, nullValue)`. */
  function DateString(d: Option<Date>, nullValue: string): string
  {
    if d.None? then nullValue
    else
      (if d.value.year.Some? then IntToString(d.value.year.value) else "")
      + (if d.value.month.Some? then "-" + Pad2(IntToString(d.value.month.value)) else "")
      + (if d.value.day.Some? then "-" + Pad2(IntToString(d.value.day.value)) else "")
  }

  /** The date inputs of the information window read back in
      `update_user_entry`: split at '-', and only three parts count. */
  function ParseDateInput(value: string): (d: Date)
    ensures |Split(value, '-')| != 3 ==> d == Empty
  {
    var parts := Split(value, '-');
    if |parts| == 3 then Date(ParseInt(parts[0]), ParseInt(parts[1]), ParseInt(parts[2]))
    else Empty
  }

  lemma {:induction false} DigitsValueLeadingZero(s: string)
    requires AllDigits(s)
    ensures AllDigits("0" + s) && DigitsValue("0" + s) == DigitsValue(s)
    decreases |s|
  {
    if s != [] {
      var t := "0" + s;
      assert t[..|t| - 1] == "0" + s[..|s| - 1];
      DigitsValueLeadingZero(s[..|s| - 1]);
    }
  }

  lemma ParsePadded(n: nat)
    ensures ParseInt(Pad2(NatToString(n))) == Some(n)
    ensures '-' !in Pad2(NatToString(n))
  {
    var s := NatToString(n);
    if |s| == 1 {
      var t := "0" + s;
      DigitsValueLeadingZero(s);
      DigitRunFrom(t, 0, 2);
      assert t[0..2] == t;
      NatToStringRoundTrip(n);
    } else {
      ParseIntOfNat(n, "");
      assert s + "" == s;
    }
  }

  lemma SplitThree(a: string, b: string, c: string)
    requires '-' !in a && '-' !in b && '-' !in c
    ensures Split(a + ("-" + b) + ("-" + c), '-') == [a, b, c]
  {
    SplitNoSep(c, '-');
    SplitAppend(b, '-', c);
    assert a + ("-" + b) + ("-" + c) == a + ['-'] + (b + ['-'] + c);
    SplitAppend(a, '-', b + ['-'] + c);
  }

  lemma FullDateString(y: nat, m: nat, dd: nat)
    ensures DateString(Some(Date(Some(y), Some(m), Some(dd))), "")
            == NatToString(y) + ("-" + Pad2(NatToString(m))) + ("-" + Pad2(NatToString(dd)))
  {
    assert IntToString(y) == NatToString(y);
    assert IntToString(m) == NatToString(m);
    assert IntToString(dd) == NatToString(dd);
  }

  /** Round trip: a complete date written by `null_check_date_string` and read
      back by the date parse of `update_user_entry` is the same date. */
  lemma DateStringRoundTrip(y: nat, m: nat, dd: nat)
    ensures ParseDateInput(DateString(Some(Date(Some(y), Some(m), Some(dd))), ""))
            == Date(Some(y), Some(m), Some(dd))
  {
    var ys, ms, ds := NatToString(y), Pad2(NatToString(m)), Pad2(NatToString(dd));
    var text := DateString(Some(Date(Some(y), Some(m), Some(dd))), "");
    FullDateString(y, m, dd);
    ParsePadded(m);
    ParsePadded(dd);
    assert '-' !in ys;
    SplitThree(ys, ms, ds);
    var parts := Split(text, '-');
    assert parts == [ys, ms, ds];
    ParseIntOfNat(y, "");
    assert ys + "" == ys;
    assert ParseInt(parts[0]) == Some(y);
    assert ParseInt(parts[1]) == Some(m);
    assert ParseInt(parts[2]) == Some(dd);
  }

  /** A null date gives the null value, which reads back as an empty date. */
  lemma NullDateRoundTrip()
    ensures DateString(None, "") == ""
    ensures ParseDateInput(DateString(None, "")) == Empty
  {
  }

  /** A date with a year but no month loses its other parts on the way back. */
  lemma PartialDateLost(y: nat, dd: nat)
    ensures ParseDateInput(DateString(Some(Date(Some(y), None, Some(dd))), "")) == Empty
  {
    var ys, ds := NatToString(y), Pad2(NatToString(dd));
    var text := DateString(Some(Date(Some(y), None, Some(dd))), "");
    assert text == ys + "-" + ds;
    ParsePadded(dd);
    assert '-' !in ys;
    SplitNoSep(ds, '-');
    assert ys + "-" + ds == ys + ['-'] + ds;
    SplitAppend(ys, '-', ds);
  }
}
