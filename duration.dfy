/** The countdown display: seconds split into hours, minutes and seconds,
    each padded to at least two digits, the hours dropped when they print
    as "00", and the parts joined with ':'. A decoder reads such a string
    back, which shows that the display loses nothing. */
module Duration {
  import opened BossModel

  predicate IsDigit(c: char)
  {
    '0' <= c <= '9'
  }

  /** A non-empty run of decimal digits. */
  predicate IsNumeral(s: string)
  {
    |s| >= 1 && forall i :: 0 <= i < |s| ==> IsDigit(s[i])
  }

  function DigitChar(d: nat): (c: char)
    requires d < 10
    ensures IsDigit(c)
  {
    ('0' as int + d) as char
  }

  /** The decimal form of a number, as a number prints when it is joined
      into a string. */
  function Digits(n: nat): (r: string)
    ensures IsNumeral(r)
    decreases n
  {
    if n < 10 then [DigitChar(n)] else Digits(n / 10) + [DigitChar(n % 10)]
  }

  /** The number a run of digits denotes. */
  function ValueOf(s: string): nat
    requires forall i :: 0 <= i < |s| ==> IsDigit(s[i])
  {
    if |s| == 0 then 0
    else
      assert IsDigit(s[|s| - 1]);
      ValueOf(s[..|s| - 1]) * 10 + (s[|s| - 1] as int - '0' as int)
  }

  lemma {:induction false} DigitsValue(n: nat)
    decreases n
    ensures ValueOf(Digits(n)) == n
  {
    if n >= 10 {
      DigitsValue(n / 10);
      var s := Digits(n);
      assert s[..|s| - 1] == Digits(n / 10);
    }
  }

  /** A component as the display prints it: below 10 a '0' is put in front. */
  function Pad(n: nat): string
  {
    if n < 10 then "0" + Digits(n) else Digits(n)
  }

  /** A padded component has at least two digits, denotes the component,
      and reads "00" exactly when the component is zero. */
  lemma PadShape(n: nat)
    ensures IsNumeral(Pad(n)) && |Pad(n)| >= 2
    ensures ValueOf(Pad(n)) == n
    ensures Pad(n) == "00" <==> n == 0
  {
    DigitsValue(n);
    if n < 10 {
      var p := Pad(n);
      assert p[..1] == "0";
      assert ValueOf(p[..1]) == 0;
    } else {
      assert |Digits(n / 10)| >= 1;
      assert ValueOf("00") == 0;
    }
  }

  datatype Clock = Clock(hours: nat, minutes: nat, seconds: nat)

  /** Hours, minutes and seconds of a duration given in seconds. */
  function Components(secs: nat): (c: Clock)
    ensures c.hours * 3600 + c.minutes * 60 + c.seconds == secs
    ensures c.minutes < 60 && c.seconds < 60
  {
    var minutesTotal := secs / 60;
    HoursOfMinutes(secs);
    Clock(secs / 3600, minutesTotal % 60, secs % 60)
  }

  /** Whole hours counted directly or through whole minutes agree. */
  lemma HoursOfMinutes(secs: nat)
    ensures secs / 3600 == (secs / 60) / 60
    ensures secs == ((secs / 60) / 60) * 3600 + ((secs / 60) % 60) * 60 + secs % 60
  {
    var q := secs / 60;
    assert secs == 60 * q + secs % 60;
    assert q == 60 * (q / 60) + q % 60;
    var rest := 60 * (q % 60) + secs % 60;
    assert secs == 3600 * (q / 60) + rest && 0 <= rest < 3600;
  }

  /** The parts joined with ':' between neighbours. */
  function Join(parts: seq<string>): string
  {
    if |parts| == 0 then ""
    else if |parts| == 1 then parts[0]
    else parts[0] + ":" + Join(parts[1..])
  }

  /** The filter of the display: only the first part may go, and only when
      it reads "00". */
  function DropZeroHours(parts: seq<string>): seq<string>
  {
    if |parts| > 0 && parts[0] == "00" then parts[1..] else parts
  }

  /** The countdown text for a duration of `secs` seconds: split at the
      ':'s it reads as the padded minutes and seconds, preceded by the padded
      hours unless the hours are zero. */
  function ToHHMMSS(secs: nat): (r: string)
    ensures
      var c := Components(secs);
      Fields(r) == if c.hours == 0 then [Pad(c.minutes), Pad(c.seconds)]
                   else [Pad(c.hours), Pad(c.minutes), Pad(c.seconds)]
  {
    var c := Components(secs);
    PadShape(c.hours);
    PadShape(c.minutes);
    PadShape(c.seconds);
    var kept := DropZeroHours([Pad(c.hours), Pad(c.minutes), Pad(c.seconds)]);
    NumeralsHaveNoColon(kept);
    FieldsOfJoin(kept);
    Join(kept)
  }

  /** Digit strings contain no ':'. */
  lemma NumeralsHaveNoColon(parts: seq<string>)
    requires forall k :: 0 <= k < |parts| ==> IsNumeral(parts[k])
    ensures forall k, i :: 0 <= k < |parts| && 0 <= i < |parts[k]| ==> parts[k][i] != ':'
  {
    forall k, i | 0 <= k < |parts| && 0 <= i < |parts[k]|
      ensures parts[k][i] != ':'
    {
      assert IsNumeral(parts[k]);
    }
  }

  /** The ':'-separated fields of a string. */
  function Fields(s: string): (r: seq<string>)
    ensures |r| >= 1
    decreases |s|
  {
    if |s| == 0 then [""]
    else
      var rest := Fields(s[1..]);
      if s[0] == ':' then [""] + rest else [[s[0]] + rest[0]] + rest[1..]
  }

  lemma {:induction false} FieldsOfPrefix(a: string, b: string)
    requires forall i :: 0 <= i < |a| ==> a[i] != ':'
    decreases |a|
    ensures Fields(a + b) == [a + Fields(b)[0]] + Fields(b)[1..]
  {
    if |a| > 0 {
      FieldsOfPrefix(a[1..], b);
      assert (a + b)[1..] == a[1..] + b;
      assert [a[0]] + (a[1..] + Fields(b)[0]) == a + Fields(b)[0];
    } else {
      var f := Fields(b);
      assert a + b == b && a + f[0] == f[0];
      assert f == [f[0]] + f[1..];
    }
  }

  /** Splitting a join of ':'-free parts gives the parts back. */
  lemma {:induction false} FieldsOfJoin(parts: seq<string>)
    requires |parts| >= 1
    requires forall k, i :: 0 <= k < |parts| && 0 <= i < |parts[k]| ==> parts[k][i] != ':'
    decreases |parts|
    ensures Fields(Join(parts)) == parts
  {
    if |parts| == 1 {
      FieldsOfPrefix(parts[0], "");
      assert parts[0] + "" == parts[0];
    } else {
      var tail := Join(parts[1..]);
      FieldsOfJoin(parts[1..]);
      assert Join(parts) == parts[0] + (":" + tail);
      FieldsOfPrefix(parts[0], ":" + tail);
      assert (":" + tail)[1..] == tail;
      assert Fields(":" + tail) == [""] + parts[1..];
      assert parts[0] + "" == parts[0];
    }
  }

  /** Reads a countdown text back: "MM:SS" or "HH:MM:SS" with numeric
      fields, minutes and seconds below 60 and, in the long form, non-zero
      hours. Anything else is rejected. */
  function ParseHHMMSS(t: string): (r: Option<nat>)
  {
    var f := Fields(t);
    if |f| == 2 && IsNumeral(f[0]) && IsNumeral(f[1]) then
      var m, s := ValueOf(f[0]), ValueOf(f[1]);
      if m < 60 && s < 60 then Some(m * 60 + s) else None
    else if |f| == 3 && IsNumeral(f[0]) && IsNumeral(f[1]) && IsNumeral(f[2]) then
      var h, m, s := ValueOf(f[0]), ValueOf(f[1]), ValueOf(f[2]);
      if h > 0 && m < 60 && s < 60 then Some(h * 3600 + m * 60 + s) else None
    else None
  }

  /** The fields of the countdown text: two when the hours are zero and three
      otherwise, each at least two digits long, the last two denoting the
      minutes and the seconds and a third one, when present, the hours. */
  lemma CountdownFields(secs: nat)
    ensures
      var c := Components(secs);
      var f := Fields(ToHHMMSS(secs));
      |f| == (if c.hours == 0 then 2 else 3) &&
      (forall i :: 0 <= i < |f| ==> IsNumeral(f[i]) && |f[i]| >= 2) &&
      ValueOf(f[|f| - 2]) == c.minutes && ValueOf(f[|f| - 1]) == c.seconds &&
      (c.hours != 0 ==> ValueOf(f[0]) == c.hours)
  {
    var c := Components(secs);
    PadShape(c.hours);
    PadShape(c.minutes);
    PadShape(c.seconds);
  }

  /** Decoding the countdown text gives the duration back. */
  lemma CountdownRoundTrip(secs: nat)
    ensures ParseHHMMSS(ToHHMMSS(secs)) == Some(secs)
  {
    CountdownFields(secs);
    var c := Components(secs);
    var f := Fields(ToHHMMSS(secs));
    if c.hours == 0 {
      assert IsNumeral(f[0]) && IsNumeral(f[1]);
      assert ValueOf(f[0]) * 60 + ValueOf(f[1]) == secs;
    } else {
      assert IsNumeral(f[0]) && IsNumeral(f[1]) && IsNumeral(f[2]);
      assert ValueOf(f[0]) * 3600 + ValueOf(f[1]) * 60 + ValueOf(f[2]) == secs;
    }
  }

  /** 1 h 2 min 5 s prints with hours; 2 min 5 s prints without them. */
  lemma CountdownExamples()
    ensures ToHHMMSS(3725) == "01:02:05"
    ensures ToHHMMSS(125) == "02:05"
  {
    assert Components(3725) == Clock(1, 2, 5);
    assert Components(125) == Clock(0, 2, 5);
    assert Pad(1) == "01" && Pad(2) == "02" && Pad(5) == "05" && Pad(0) == "00";
  }
}
