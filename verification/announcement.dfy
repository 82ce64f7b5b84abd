/**
 * The announcement text: a fixed Dutch sentence built from the train type,
 * the endpoints, the intermediate stops, the departure time and the notices.
 */
module Announcement {
  import opened Wrappers
  import opened Strings
  import opened TimeFields

  /** "T van F naar D". */
  function Head(trainType: string, fromStation: string, toStation: string): string
  {
    trainType + " van " + fromStation + " naar " + toStation
  }

  /** " via A, B, C" for a non-empty list of stops, nothing otherwise. */
  function ViaClause(stops: seq<string>): string
  {
    if |stops| > 0 then " via " + Join(stops, ", ") else ""
  }

  /** ", vertrekt om HH:MM". */
  function DepartureClause(hours: string, minutes: string): string
  {
    ", vertrekt om " + TimeOfDay(hours, minutes)
  }

  /** ". N1. N2." for a non-empty list of notices, nothing otherwise. */
  function NoticeClause(notices: seq<string>): string
  {
    if |notices| > 0 then ". " + Join(notices, ". ") + "." else ""
  }

  /**
   * The announcement for a selection, or nothing when the train type, an
   * endpoint, the hour or the minute has not been chosen.
   */
  function Compose(trainType: string, fromStation: string, toStation: string,
                   hours: string, minutes: string,
                   stops: seq<string>, notices: seq<string>): (r: Option<string>)
    ensures r.None? <==> trainType == "" || fromStation == "" || toStation == "" || hours == "" || minutes == ""
  {
    if trainType == "" || fromStation == "" || toStation == "" || hours == "" || minutes == "" then None
    else Some(Head(trainType, fromStation, toStation) + ViaClause(stops)
              + DepartureClause(hours, minutes) + NoticeClause(notices))
  }

  /** The announcement opens with "T van " and names both endpoints, every stop and every notice. */
  lemma ComposeMentionsEverything(trainType: string, fromStation: string, toStation: string,
                                  hours: string, minutes: string,
                                  stops: seq<string>, notices: seq<string>)
    requires Compose(trainType, fromStation, toStation, hours, minutes, stops, notices).Some?
    ensures var text := Compose(trainType, fromStation, toStation, hours, minutes, stops, notices).value;
      && text[..|trainType| + 5] == trainType + " van "
      && Contains(text, fromStation) && Contains(text, toStation)
      && (forall k :: 0 <= k < |stops| ==> Contains(text, stops[k]))
      && (forall k :: 0 <= k < |notices| ==> Contains(text, notices[k]))
  {
    var head := Head(trainType, fromStation, toStation);
    var via := ViaClause(stops);
    var dep := DepartureClause(hours, minutes);
    var tail := NoticeClause(notices);
    var text := head + via + dep + tail;
    ComposeIsSentence(trainType, fromStation, toStation, hours, minutes, stops, notices);
    var opening := trainType + " van ";
    PrefixKept(opening, fromStation, opening);
    PrefixKept(opening + fromStation, " naar ", opening);
    PrefixKept(opening + fromStation + " naar ", toStation, opening);
    PrefixKept(head, via, opening);
    PrefixKept(head + via, dep, opening);
    PrefixKept(head + via + dep, tail, opening);
    ContainsInfix(opening, fromStation, " naar ");
    ContainsLeft(opening + fromStation + " naar ", toStation, fromStation);
    ContainsRight(opening + fromStation + " naar ", toStation, toStation);
    ContainsInText(head, via, dep, tail, fromStation);
    ContainsInText(head, via, dep, tail, toStation);
    forall k | 0 <= k < |stops| ensures Contains(text, stops[k]) {
      JoinContainsParts(stops, ", ", k);
      ContainsRight(" via ", Join(stops, ", "), stops[k]);
      ContainsRight(head, via, stops[k]);
      ContainsLeft(head + via, dep, stops[k]);
      ContainsLeft(head + via + dep, tail, stops[k]);
    }
    forall k | 0 <= k < |notices| ensures Contains(text, notices[k]) {
      JoinContainsParts(notices, ". ", k);
      ContainsRight(". ", Join(notices, ". "), notices[k]);
      ContainsLeft(". " + Join(notices, ". "), ".", notices[k]);
      ContainsRight(head + via + dep, tail, notices[k]);
    }
  }

  /** A prefix of `a` stays a prefix when something is appended to `a`. */
  lemma PrefixKept(a: string, b: string, p: string)
    requires |p| <= |a| && a[..|p|] == p
    ensures |p| <= |a + b| && (a + b)[..|p|] == p
  {
    assert (a + b)[..|p|] == a[..|p|];
  }

  lemma ContainsInText(head: string, via: string, dep: string, tail: string, t: string)
    requires Contains(head, t)
    ensures Contains(head + via + dep + tail, t)
  {
    ContainsLeft(head, via, t);
    ContainsLeft(head + via, dep, t);
    ContainsLeft(head + via + dep, tail, t);
  }

  /**
   * With valid time fields the sentence ends in a full stop exactly when
   * notices follow; without notices it ends in the departure time "HH:MM".
   */
  lemma ComposeEnding(trainType: string, fromStation: string, toStation: string,
                      hours: string, minutes: string,
                      stops: seq<string>, notices: seq<string>)
    requires Compose(trainType, fromStation, toStation, hours, minutes, stops, notices).Some?
    requires ValidField(hours, MaxHours) && ValidField(minutes, MaxMinutes)
    ensures var text := Compose(trainType, fromStation, toStation, hours, minutes, stops, notices).value;
      && (text[|text| - 1] == '.' <==> |notices| > 0)
      && (|notices| == 0 ==> |text| >= 5 && text[|text| - 5..] == TimeOfDay(hours, minutes))
  {
    var front := Head(trainType, fromStation, toStation) + ViaClause(stops);
    var text := Compose(trainType, fromStation, toStation, hours, minutes, stops, notices).value;
    var t := TimeOfDay(hours, minutes);
    if |notices| == 0 {
      assert text[|text| - 1] != '.' && |text| >= 5 && text[|text| - 5..] == t by {
        TimeOfDayEndsInDigit(hours, minutes);
        ComposeIsSentence(trainType, fromStation, toStation, hours, minutes, stops, notices);
        assert NoticeClause(notices) == "";
        SentenceEndsInTime(text, front, t);
      }
    } else {
      assert text[|text| - 1] == '.' by {
        ComposeIsSentence(trainType, fromStation, toStation, hours, minutes, stops, notices);
        EndsWithPart(front + DepartureClause(hours, minutes), ". " + Join(notices, ". "), ".");
      }
    }
  }

  /** Without notices the sentence ends in the five characters of the time, the last a digit. */
  lemma SentenceEndsInTime(text: string, front: string, t: string)
    requires |t| == 5 && IsDigit(t[4])
    requires text == front + (", vertrekt om " + t) + ""
    ensures text[|text| - 1] != '.' && |text| >= 5 && text[|text| - 5..] == t
  {
    assert text == front + (", vertrekt om " + t);
    EndsWithPart(front, ", vertrekt om ", t);
  }

  /** For valid fields "HH:MM" has five characters and ends in a digit. */
  lemma TimeOfDayEndsInDigit(hours: string, minutes: string)
    requires ValidField(hours, MaxHours) && hours != "" && ValidField(minutes, MaxMinutes) && minutes != ""
    ensures |TimeOfDay(hours, minutes)| == 5 && IsDigit(TimeOfDay(hours, minutes)[4])
  {
    var t := TimeOfDay(hours, minutes);
    TimeOfDayReadsBack(hours, minutes);
    assert t[4] == t[3..][1];
  }

  /** A complete selection is announced as the four clauses in order. */
  lemma ComposeIsSentence(trainType: string, fromStation: string, toStation: string,
                          hours: string, minutes: string,
                          stops: seq<string>, notices: seq<string>)
    requires Compose(trainType, fromStation, toStation, hours, minutes, stops, notices).Some?
    ensures Compose(trainType, fromStation, toStation, hours, minutes, stops, notices).value
         == Head(trainType, fromStation, toStation) + ViaClause(stops)
            + DepartureClause(hours, minutes) + NoticeClause(notices)
  {
  }

  lemma EndsWithPart(front: string, middle: string, last: string)
    requires |last| > 0
    ensures var s := front + (middle + last);
      |s| >= |last| && s[|s| - |last|..] == last && s[|s| - 1] == last[|last| - 1]
  {
  }

  /** Pieces of the worked examples below. */
  lemma ExampleTime()
    ensures DepartureClause("9", "5") == ", vertrekt om 09:05"
  {
    assert PadStart2("9") == "09" && PadStart2("5") == "05";
    assert "09" + ":" + "05" == "09:05";
  }

  lemma ExampleHead()
    ensures Head("Intercity", "Schagen", "Den Helder") == "Intercity van Schagen naar Den Helder"
  {
    assert "Intercity" + " van " == "Intercity van ";
    assert "Intercity van " + "Schagen" == "Intercity van Schagen";
    assert "Intercity van Schagen" + " naar " == "Intercity van Schagen naar ";
    assert "Intercity van Schagen naar " + "Den Helder" == "Intercity van Schagen naar Den Helder";
  }

  lemma ExampleClauses()
    ensures ViaClause(["Anna Paulowna"]) == " via Anna Paulowna"
    ensures NoticeClause(["Rijdt niet"]) == ". Rijdt niet."
  {
    assert Join(["Anna Paulowna"], ", ") == "Anna Paulowna";
    assert Join(["Rijdt niet"], ". ") == "Rijdt niet";
    assert ". " + "Rijdt niet" + "." == ". Rijdt niet.";
  }

  /** Worked example: the Intercity from Schagen to Den Helder at 9:05, no stops, no notices. */
  lemma ComposeExampleDirect()
    ensures Compose("Intercity", "Schagen", "Den Helder", "9", "5", [], [])
         == Some("Intercity van Schagen naar Den Helder, vertrekt om 09:05")
  {
    ExampleHead();
    ExampleTime();
    ComposeIsSentence("Intercity", "Schagen", "Den Helder", "9", "5", [], []);
    assert ViaClause([]) == "" && NoticeClause([]) == "";
    assert "Intercity van Schagen naar Den Helder" + "" + ", vertrekt om 09:05" + ""
        == "Intercity van Schagen naar Den Helder, vertrekt om 09:05";
  }

  /**
   * Steps for the worked examples: each joins two string literals, so that
   * the solver checks one short concatenation at a time.
   */
  lemma ExampleViaSentence()
    ensures "Intercity van Schagen naar Den Helder" + " via Anna Paulowna"
         == "Intercity van Schagen naar Den Helder via Anna Paulowna"
  {
  }

  lemma ExampleViaDeparture()
    ensures "Intercity van Schagen naar Den Helder via Anna Paulowna" + ", vertrekt om 09:05"
         == "Intercity van Schagen naar Den Helder via Anna Paulowna, vertrekt om 09:05"
  {
  }

  lemma ExampleNoticeSentence()
    ensures "Intercity van Schagen naar Den Helder via Anna Paulowna, vertrekt om 09:05" + ". Rijdt niet."
         == "Intercity van Schagen naar Den Helder via Anna Paulowna, vertrekt om 09:05. Rijdt niet."
  {
  }

  /** Worked example: the same train via Anna Paulowna. */
  lemma ComposeExampleVia()
    ensures Compose("Intercity", "Schagen", "Den Helder", "9", "5", ["Anna Paulowna"], [])
         == Some("Intercity van Schagen naar Den Helder via Anna Paulowna, vertrekt om 09:05")
  {
    ExampleHead();
    ExampleTime();
    ExampleClauses();
    ExampleViaSentence();
    ExampleViaDeparture();
    ComposeIsSentence("Intercity", "Schagen", "Den Helder", "9", "5", ["Anna Paulowna"], []);
    var sentence := Head("Intercity", "Schagen", "Den Helder") + ViaClause(["Anna Paulowna"])
                    + DepartureClause("9", "5");
    assert NoticeClause([]) == "" && sentence + "" == sentence;
  }

  /** Worked example: the same train via Anna Paulowna, with the notice "Rijdt niet". */
  lemma ComposeExampleNotice()
    ensures Compose("Intercity", "Schagen", "Den Helder", "9", "5", ["Anna Paulowna"], ["Rijdt niet"])
         == Some("Intercity van Schagen naar Den Helder via Anna Paulowna, vertrekt om 09:05. Rijdt niet.")
  {
    ExampleHead();
    ExampleTime();
    ExampleClauses();
    ExampleViaSentence();
    ExampleViaDeparture();
    ExampleNoticeSentence();
    ComposeIsSentence("Intercity", "Schagen", "Den Helder", "9", "5", ["Anna Paulowna"], ["Rijdt niet"]);
  }
}
