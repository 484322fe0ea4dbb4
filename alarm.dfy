/** The alarm with its cooldown: a two-state machine on one flag. A play
    sets the flag; the timeout scheduled with it clears the flag sixty
    seconds later; while the flag is set no play happens, whatever the
    scans find. `plays` counts the plays so far and exists only for the
    proofs. */
module Alarm {
  import opened BossModel

  datatype AlarmState = AlarmState(playing: bool, plays: nat)

  /** One slow-tick scan: the list seen by the scan and whether the page has
      an audio element. */
  datatype ScanInput = ScanInput(bosses: seq<Boss>, hasAudio: bool)

  /** The play request: nothing while the flag is set; nothing without an
      audio element; otherwise set the flag and play once. */
  function PlayStep(s: AlarmState, hasAudio: bool): (r: AlarmState)
    ensures s.playing ==> r == s
    ensures !hasAudio ==> r == s
    ensures !s.playing && hasAudio ==> r.playing && r.plays == s.plays + 1
  {
    if s.playing then s
    else if hasAudio then AlarmState(true, s.plays + 1)
    else s
  }

  /** The slow-tick scan: request a play iff some boss is spawning. */
  function ScanStep(s: AlarmState, scan: ScanInput): (r: AlarmState)
    ensures (forall i :: 0 <= i < |scan.bosses| ==> !Spawning(scan.bosses[i])) ==> r == s
    ensures (exists i :: 0 <= i < |scan.bosses| && Spawning(scan.bosses[i])) ==> r == PlayStep(s, scan.hasAudio)
  {
    if FindSpawning(scan.bosses).Some? then PlayStep(s, scan.hasAudio) else s
  }

  /** The cooldown expiry: the timeout clears the flag and plays nothing. */
  function TimeoutStep(s: AlarmState): (r: AlarmState)
    ensures !r.playing && r.plays == s.plays
  {
    s.(playing := false)
  }

  /** Whether a scan would play, given an idle alarm. */
  predicate Fires(scan: ScanInput)
  {
    scan.hasAudio && FindSpawning(scan.bosses).Some?
  }

  /** A run of scans with no timeout in between. */
  function RunScans(s: AlarmState, scans: seq<ScanInput>): AlarmState
    decreases |scans|
  {
    if |scans| == 0 then s else RunScans(ScanStep(s, scans[0]), scans[1..])
  }

  /** Any number of scans between two timeouts play at most once: a busy
      alarm stays exactly as it is, and an idle one plays exactly once iff
      some scan of the run finds a spawning boss with audio present. */
  lemma {:induction false} AtMostOnePlayPerCooldown(s: AlarmState, scans: seq<ScanInput>)
    decreases |scans|
    ensures RunScans(s, scans).plays <= s.plays + 1
    ensures s.playing ==> RunScans(s, scans) == s
    ensures RunScans(s, scans).plays == s.plays + 1 <==>
      !s.playing && exists i :: 0 <= i < |scans| && Fires(scans[i])
    ensures RunScans(s, scans).plays == s.plays + 1 <==> !s.playing && RunScans(s, scans).playing
  {
    if |scans| > 0 {
      var next := ScanStep(s, scans[0]);
      AtMostOnePlayPerCooldown(next, scans[1..]);
      if Fires(scans[0]) && !s.playing {
        assert next.playing;
      } else {
        assert next == s;
        forall i | 0 < i < |scans| && Fires(scans[i])
          ensures exists j :: 0 <= j < |scans[1..]| && Fires(scans[1..][j])
        {
          assert scans[1..][i - 1] == scans[i];
        }
      }
    }
  }

  /** With one boss 50 s from respawn and one 5000 s away, the first scan
      plays once and a second scan before the timeout plays nothing more. */
  lemma TwoScansPlayOnce(hasAudio: bool)
    requires hasAudio
    ensures
      var soon := Boss("A", 8, "L", Some(0), Some(50));
      var late := Boss("B", 8, "L", Some(0), Some(5000));
      var scan := ScanInput([soon, late], hasAudio);
      var first := ScanStep(AlarmState(false, 0), scan);
      first.plays == 1 && ScanStep(first, scan).plays == 1
  {
  }
}
