/**
 * The result formatter: the display text of a WCA result value. Fewest-moves
 * results are move counts, multi-blind results are shown as the packed
 * integer they are, and every other event's result is a count of
 * hundredths of a second shown as `M:SS.CC` or `S.CC`.
 */
module Format {
  import opened Wrappers
  import opened Decimal

  const FewestMoves: string := "333fm"
  const MultiBlind: string := "333mbf"
  const Missing: string := "-"
  const MovesSuffix: string := " moves"

  /** Python's `str(best)` for an optional integer: a missing value prints as `None`. */
  function Show(best: Option<int>): string {
    match best
    case None => "None"
    case Some(i) => IntText(i)
  }

  /**
   * A count of hundredths split into minutes, seconds and hundredths, with
   * Python's floor division and modulo by positive divisors (which agree with
   * Dafny's `/` and `%` for positive divisors).
   */
  function Split(cs: int): (t: (int, nat, nat))
    ensures t.0 * 6000 + t.1 * 100 + t.2 == cs
    ensures t.1 < 60 && t.2 < 100
  {
    (cs / 6000, (cs % 6000) / 100, cs % 100)
  }

  /** `M:SS.CC` when there is at least one whole minute, else `S.CC` with unpadded seconds. */
  function ClockText(cs: int): string {
    var (minutes, seconds, centis) := Split(cs);
    if minutes > 0 then NatText(minutes) + ":" + Pad2(seconds) + "." + Pad2(centis)
    else NatText(seconds) + "." + Pad2(centis)
  }

  /**
   * `format_time(event_id, best)`. The two special events are tested before
   * the missing/zero test, so they never show `-`.
   */
  function FormatTime(eventId: string, best: Option<int>): (r: string)
    ensures eventId != FewestMoves && eventId != MultiBlind ==>
              (r == Missing <==> best == None || best == Some(0))
  {
    if eventId == FewestMoves then Show(best) + MovesSuffix
    else if eventId == MultiBlind then Show(best)
    else if best == None || best == Some(0) then Missing
    else
      ClockTextShape(best.value);
      ClockText(best.value)
  }

  /**
   * Reads `M:SS.CC` or `S.CC` back into hundredths: the partner of `ClockText`
   * that shows the clock text determines the value it was made from.
   */
  function ParseClock(t: string): Option<int> {
    if |t| < 4 || t[|t| - 3] != '.' || !AllDigits(t[|t| - 2..]) then None
    else
      var head := t[..|t| - 3];
      var centis := DigitsValue(t[|t| - 2..]);
      if |head| >= 4 && head[|head| - 3] == ':' && AllDigits(head[..|head| - 3]) && AllDigits(head[|head| - 2..]) then
        Some(DigitsValue(head[..|head| - 3]) * 6000 + DigitsValue(head[|head| - 2..]) * 100 + centis)
      else if AllDigits(head) then
        Some(DigitsValue(head) * 100 + centis)
      else None
  }

  /** The clock text always ends in a dot and two digits, so it is never the missing marker. */
  lemma ClockTextShape(cs: int)
    ensures |ClockText(cs)| >= 4 && ClockText(cs)[|ClockText(cs)| - 3] == '.'
  {
  }

  lemma MinutesFormValue(minutes: nat, seconds: nat, centis: nat)
    requires seconds < 100 && centis < 100
    ensures ParseClock(NatText(minutes) + ":" + Pad2(seconds) + "." + Pad2(centis))
            == Some(minutes * 6000 + seconds * 100 + centis)
  {
    var m := NatText(minutes);
    var head := m + ":" + Pad2(seconds);
    var t := head + "." + Pad2(centis);
    assert NatText(minutes) + ":" + Pad2(seconds) + "." + Pad2(centis) == t;
    assert t[..|t| - 3] == head;
    assert t[|t| - 2..] == Pad2(centis);
    assert head[..|head| - 3] == m;
    assert head[|head| - 2..] == Pad2(seconds);
    NatTextValue(minutes);
  }

  lemma SecondsFormValue(seconds: nat, centis: nat)
    requires centis < 100
    ensures ParseClock(NatText(seconds) + "." + Pad2(centis)) == Some(seconds * 100 + centis)
  {
    var head := NatText(seconds);
    var t := head + "." + Pad2(centis);
    assert t[..|t| - 3] == head;
    assert t[|t| - 2..] == Pad2(centis);
    NatTextValue(seconds);
  }

  /** For a positive count of hundredths the clock text reads back as that count. */
  lemma ClockRoundTrip(cs: int)
    requires cs > 0
    ensures ParseClock(ClockText(cs)) == Some(cs)
  {
    var (minutes, seconds, centis) := Split(cs);
    if minutes > 0 {
      MinutesFormValue(minutes, seconds, centis);
    } else {
      SecondsFormValue(seconds, centis);
    }
  }

  /** Two different positive times of an ordinary event never display alike. */
  lemma FormatTimeInjective(eventId: string, a: int, b: int)
    requires eventId != FewestMoves && eventId != MultiBlind
    requires a > 0 && b > 0
    requires FormatTime(eventId, Some(a)) == FormatTime(eventId, Some(b))
    ensures a == b
  {
    ClockRoundTrip(a);
    ClockRoundTrip(b);
  }

  /**
   * Fewest moves shows the text of the value followed by " moves", multi-blind
   * the bare text of the value; in both the value can be read back, and
   * neither ever shows the missing marker.
   */
  lemma SpecialEvents(best: Option<int>)
    ensures FormatTime(FewestMoves, best) == Show(best) + MovesSuffix
    ensures FormatTime(MultiBlind, best) == Show(best)
    ensures FormatTime(FewestMoves, best) != Missing && FormatTime(MultiBlind, best) != Missing
    ensures best.Some? ==> ParseInt(FormatTime(MultiBlind, best)) == best
    ensures best.Some? ==> ParseInt(FormatTime(FewestMoves, best)[..|FormatTime(FewestMoves, best)| - |MovesSuffix|]) == best
  {
    if best.Some? {
      IntTextRoundTrip(best.value);
      var r := FormatTime(FewestMoves, best);
      assert r[..|r| - |MovesSuffix|] == Show(best);
    }
  }

  /**
   * No bounds checking: a negative value is shown as the clock text of its
   * remainder modulo one minute, without a sign.
   */
  lemma NegativeValues(eventId: string, cs: int)
    requires eventId != FewestMoves && eventId != MultiBlind
    requires cs < 0
    ensures FormatTime(eventId, Some(cs)) ==
              if cs % 6000 == 0 then "0.00" else FormatTime(eventId, Some(cs % 6000))
  {
    var r := cs % 6000;
    assert Split(cs).0 < 0;
    assert Split(r) == (0, Split(cs).1, Split(cs).2);
    if r == 0 {
      assert Split(cs) == (cs / 6000, 0, 0);
      assert NatText(0) + "." + Pad2(0) == "0.00";
    }
  }

  /** The worked examples of the formatter for the two special events and a missing value. */
  lemma SpecialAndMissingExamples()
    ensures FormatTime("333fm", Some(26)) == "26 moves"
    ensures FormatTime("333mbf", Some(4)) == "4"
    ensures FormatTime("333", Some(0)) == "-"
    ensures FormatTime("333", None) == "-"
  {
    assert NatText(26) == "26";
  }

  /** 7265 hundredths are 1 minute 12.65 seconds; 950 hundredths are 9.50 seconds. */
  lemma ClockExamples()
    ensures FormatTime("333", Some(7265)) == "1:12.65"
    ensures FormatTime("333", Some(950)) == "9.50"
  {
    assert Split(7265) == (1, 12, 65);
    assert NatText(1) + ":" + Pad2(12) + "." + Pad2(65) == "1:12.65";
    assert Split(950) == (0, 9, 50);
    assert NatText(9) + "." + Pad2(50) == "9.50";
  }
}
