/**
 * The departure-time fields. Each is held as the text the operator typed:
 * empty ("not chosen yet") or one or two digits within the field's range.
 */
module TimeFields {
  import opened Strings

  const MaxHours: nat := 23
  const MaxMinutes: nat := 59

  /** What a time field may hold: nothing, or one or two digits whose value is at most `max`. */
  predicate ValidField(s: string, max: nat)
  {
    s == "" || (|s| <= 2 && AllDigits(s) && DecimalValue(s) <= max)
  }

  /**
   * The `onChangeText` handler of a time field: strip every non-digit; when
   * what is left is empty or its value is at most `max`, store its first two
   * digits; otherwise keep the current text.
   */
  function EditField(current: string, text: string, max: nat): (r: string)
    ensures r == current || (|r| <= 2 && |r| <= |KeepDigits(text)| && r == KeepDigits(text)[..|r|])
  {
    var num := KeepDigits(text);
    if num == "" || DecimalValue(num) <= max then num[..if |num| < 2 then |num| else 2]
    else current
  }

  /** An edit either stores the leading digits of the typed text or changes nothing. */
  lemma EditFieldOutcome(current: string, text: string, max: nat)
    ensures var num := KeepDigits(text);
      && (num != "" && DecimalValue(num) > max ==> EditField(current, text, max) == current)
      && (num == "" || DecimalValue(num) <= max ==>
            EditField(current, text, max) == num[..|EditField(current, text, max)|]
            && |EditField(current, text, max)| == (if |num| < 2 then |num| else 2))
  {
  }

  /** Whatever is typed, a valid field stays valid. */
  lemma EditFieldKeepsValid(current: string, text: string, max: nat)
    requires ValidField(current, max)
    ensures ValidField(EditField(current, text, max), max)
  {
    var num := KeepDigits(text);
    var r := EditField(current, text, max);
    if num != "" && DecimalValue(num) <= max {
      var k := if |num| < 2 then |num| else 2;
      assert r == num[..k];
      PrefixValueAtMost(num, k);
    } else if num != "" {
      assert r == current;
    }
  }

  /** A typed text of at most two characters that is accepted is stored as its digits, at the same value. */
  lemma EditFieldShortText(current: string, text: string, max: nat)
    requires |text| <= 2
    requires KeepDigits(text) == "" || DecimalValue(KeepDigits(text)) <= max
    ensures EditField(current, text, max) == KeepDigits(text)
  {
    var num := KeepDigits(text);
    assert |num| <= 2;
    ShortTextKept(num);
  }

  /** Keeping the first two characters of a text of at most two keeps all of it. */
  lemma ShortTextKept(num: string)
    requires |num| <= 2
    ensures num[..if |num| < 2 then |num| else 2] == num
  {
    assert num[..|num|] == num;
  }

  /** `${hours.padStart(2, "0")}:${minutes.padStart(2, "0")}`. */
  function TimeOfDay(hours: string, minutes: string): (r: string)
    ensures |hours| <= 2 && |minutes| <= 2 ==> |r| == 5 && r[2] == ':'
  {
    PadStart2(hours) + ":" + PadStart2(minutes)
  }

  /**
   * For chosen, valid fields the time reads "HH:MM": two digits with the
   * hour's value, a colon, two digits with the minute's value.
   */
  lemma TimeOfDayReadsBack(hours: string, minutes: string)
    requires ValidField(hours, MaxHours) && hours != ""
    requires ValidField(minutes, MaxMinutes) && minutes != ""
    ensures var t := TimeOfDay(hours, minutes);
      && |t| == 5 && t[2] == ':'
      && AllDigits(t[..2]) && DecimalValue(t[..2]) == DecimalValue(hours) <= MaxHours
      && AllDigits(t[3..]) && DecimalValue(t[3..]) == DecimalValue(minutes) <= MaxMinutes
  {
    PadStart2Value(hours);
    PadStart2Value(minutes);
    var t := TimeOfDay(hours, minutes);
    assert t[..2] == PadStart2(hours);
    assert t[3..] == PadStart2(minutes);
  }
}
