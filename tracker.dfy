/** The tracker component: the shared list of bosses, which the fast tick
    recomputes in place and a recorded kill updates, and the flag of the
    alarm. Clock readings, the presence of an audio element and the parsed
    kill time are parameters; the two periodic ticks and the cooldown
    timeout are methods the environment calls. */
module Tracker {
  import opened BossModel
  import opened Timer
  import Alarm

  datatype Outcome = Saved(persisted: seq<Boss>) | Rejected(message: string)

  const MissingTimeMessage: string := "Introduce la hora a la que han matado al jefe"

  /** The persisting loop: a copy of the list with the countdown deleted
      from every entry, one entry at a time. */
  method StripCopy(bs: seq<Boss>) returns (copy: seq<Boss>)
    ensures copy == Strip(bs)
  {
    copy := bs;
    for i := 0 to |copy|
      invariant |copy| == |bs|
      invariant forall j :: 0 <= j < i ==> copy[j] == bs[j].(remaining := None)
      invariant forall j :: i <= j < |copy| ==> copy[j] == bs[j]
    {
      copy := copy[i := copy[i].(remaining := None)];
    }
  }

  class BossTracker {
    var bosses: seq<Boss>
    var playingSound: bool
    ghost var plays: nat

    ghost predicate Valid()
      reads this
    {
      AllPositive(bosses)
    }

    /** The alarm part of the state, as the alarm machine sees it. */
    ghost function AlarmOf(): Alarm.AlarmState
      reads this
    {
      Alarm.AlarmState(playingSound, plays)
    }

    /** Starts from the stored list, or from the seed list when storage
        holds none; the alarm starts idle. */
    constructor (stored: Option<seq<Boss>>)
      requires stored.Some? ==> AllPositive(stored.value)
      ensures Valid()
      ensures bosses == Load(stored)
      ensures !playingSound && plays == 0
    {
      bosses := Load(stored);
      playingSound := false;
      plays := 0;
    }

    /** The timer of one boss: nothing for a boss with no recorded kill;
        otherwise its countdown becomes the wrapped difference between its
        period and the seconds since the kill. Every other field and every
        other boss stay as they were. */
    method UpdateBossTimer(index: nat, now: int)
      requires Valid() && index < |bosses|
      modifies this`bosses
      ensures Valid()
      ensures bosses == old(bosses)[index := Recompute(old(bosses)[index], now)]
      ensures old(bosses)[index].lastKill.None? ==> bosses == old(bosses)
    {
      var boss := bosses[index];
      if boss.lastKill.None? {
        return;
      }
      var diff := now - boss.lastKill.value;
      var remaining := ComputeRemaining(boss.respawn, diff);
      bosses := bosses[index := boss.(remaining := Some(remaining))];
    }

    /** The fast tick: every boss's timer, in list order. */
    method FastTick(now: int)
      requires Valid()
      modifies this`bosses
      ensures Valid()
      ensures |bosses| == |old(bosses)|
      ensures forall i :: 0 <= i < |bosses| ==> bosses[i] == Recompute(old(bosses)[i], now)
    {
      for i := 0 to |bosses|
        invariant Valid()
        invariant |bosses| == |old(bosses)|
        invariant forall j :: 0 <= j < i ==> bosses[j] == Recompute(old(bosses)[j], now)
        invariant forall j :: i <= j < |bosses| ==> bosses[j] == old(bosses)[j]
      {
        UpdateBossTimer(i, now);
      }
    }

    /** The play request: ignored while the flag is set; without an audio
        element nothing happens; otherwise the flag is set and one play
        starts, whose timeout will clear the flag. */
    method PlayAlarm(hasAudio: bool)
      modifies this`playingSound, this`plays
      ensures AlarmOf() == Alarm.PlayStep(old(AlarmOf()), hasAudio)
    {
      if playingSound {
        return;
      }
      if hasAudio {
        playingSound := true;
        plays := plays + 1;
      }
    }

    /** The slow tick: request a play iff some boss has a defined countdown
        below the alarm threshold. */
    method AlarmTick(hasAudio: bool)
      modifies this`playingSound, this`plays
      ensures AlarmOf() == Alarm.ScanStep(old(AlarmOf()), Alarm.ScanInput(bosses, hasAudio))
    {
      var spawning := FindSpawning(bosses);
      if spawning.Some? {
        PlayAlarm(hasAudio);
      }
    }

    /** The cooldown timeout scheduled by a play: clears the flag. */
    method Timeout()
      modifies this`playingSound
      ensures AlarmOf() == Alarm.TimeoutStep(old(AlarmOf()))
    {
      playingSound := false;
    }

    /** Records a kill of boss `index` at `time`, or at `now` when no time
        is given, and returns the copy that is persisted: the whole list
        without countdowns. */
    method MarkBossSlain(index: nat, time: Option<int>, now: int) returns (persisted: seq<Boss>)
      requires Valid() && index < |bosses|
      modifies this`bosses
      ensures Valid()
      ensures bosses == old(bosses)[index := old(bosses)[index].(lastKill := Some(if time.None? then now else time.value))]
      ensures persisted == Strip(bosses)
    {
      var kill := if time.None? then now else time.value;
      bosses := bosses[index := bosses[index].(lastKill := Some(kill))];
      persisted := StripCopy(bosses);
    }

    /** The confirm action of a card: an empty input is refused with a
        message and changes nothing; otherwise the kill is recorded at the
        time `parsed` read from the input. */
    method UpdateBossTime(index: nat, input: string, parsed: int) returns (outcome: Outcome)
      requires Valid() && index < |bosses|
      modifies this`bosses
      ensures Valid()
      ensures input == [] ==> outcome == Rejected(MissingTimeMessage) && bosses == old(bosses)
      ensures input != [] ==> bosses == old(bosses)[index := old(bosses)[index].(lastKill := Some(parsed))]
      ensures input != [] ==> outcome == Saved(Strip(bosses))
    {
      if input == [] {
        return Rejected(MissingTimeMessage);
      }
      // The kill time is always given here, so the clock argument is unused.
      var persisted := MarkBossSlain(index, Some(parsed), parsed);
      outcome := Saved(persisted);
    }
  }

  /** The fast tick never changes what would be persisted: the recomputed
      countdown is the only field it writes, and the persisted copy drops it. */
  lemma TickKeepsPersisted(before: seq<Boss>, after: seq<Boss>, now: int)
    requires AllPositive(before) && |after| == |before|
    requires forall i :: 0 <= i < |after| ==> after[i] == Recompute(before[i], now)
    ensures Strip(after) == Strip(before)
  {
  }
}
