/** What a boss card shows about the countdown: a colour band and the status
    lines. A countdown that is absent or exactly zero counts as "not shown",
    so at zero neither "Might be online" nor "Respawns in" appears. */
module Display {
  import opened BossModel
  import opened Duration

  /** Below this many seconds a countdown is drawn in orange, unless it is
      already green. */
  const OrangeLimit: int := 3600

  datatype Band = Green | Orange | Plain

  datatype Status = NoRecentKills | MightBeOnline | RespawnsIn(countdown: string)

  /** The colour of the countdown: green below the alarm threshold, orange
      from there up to an hour, no colour otherwise or without a countdown. */
  function ColourBand(remaining: Option<int>): (r: Band)
    ensures r == Green <==> remaining.Some? && remaining.value < AlarmThreshold
    ensures r == Orange <==> remaining.Some? && AlarmThreshold <= remaining.value < OrangeLimit
  {
    match remaining
    case None => Plain
    case Some(v) =>
      if v < AlarmThreshold then Green
      else if v < OrangeLimit then Orange
      else Plain
  }

  /** The card is green exactly for the bosses that make the alarm scan fire. */
  lemma GreenIffSpawning(b: Boss)
    ensures ColourBand(b.remaining) == Green <==> Spawning(b)
  {
  }

  /** The status lines of a card, in order. */
  function StatusLines(b: Boss): (r: seq<Status>)
    ensures NoRecentKills in r <==> b.lastKill.None?
    ensures MightBeOnline in r <==> b.remaining.Some? && b.remaining.value < 0
    ensures (exists t :: RespawnsIn(t) in r) <==> b.remaining.Some? && b.remaining.value > 0
    ensures |r| <= 2
  {
    var head := if b.lastKill.None? then [NoRecentKills] else [];
    var tail :=
      match b.remaining
      case None => []
      case Some(v) =>
        if v == 0 then []
        else if v < 0 then [MightBeOnline]
        else [RespawnsIn(ToHHMMSS(v))];
    head + tail
  }

  /** A countdown of exactly zero shows no status about the respawn at all,
      although the boss is due: the "shown" test treats zero as absent. */
  lemma ZeroCountdownShowsNothing(b: Boss)
    requires b.lastKill.Some? && b.remaining == Some(0)
    ensures StatusLines(b) == []
  {
  }

  /** A positive countdown is shown as the text that decodes to it. */
  lemma RespawnsInShowsCountdown(b: Boss)
    requires b.lastKill.Some? && b.remaining.Some? && b.remaining.value > 0
    ensures |StatusLines(b)| == 1
    ensures StatusLines(b)[0].RespawnsIn?
    ensures ParseHHMMSS(StatusLines(b)[0].countdown) == Some(b.remaining.value)
  {
    CountdownRoundTrip(b.remaining.value);
  }
}
