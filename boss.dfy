/** The boss record of the tracker, the seed list used when storage holds no
    list, the persistence step that strips the volatile countdown, and the
    alarm predicate that scans the list for a boss about to respawn. */
module BossModel {

  datatype Option<T> = None | Some(value: T)

  /** A countdown strictly below this many seconds makes a boss "spawning":
      it triggers the alarm and is drawn in green. */
  const AlarmThreshold: int := 120

  /** A tracked boss. `respawn` is the period in hours; `lastKill` is the
      recorded kill time in whole seconds (absent until the first kill is
      recorded); `remaining` is the derived countdown in seconds, absent
      until the timer has run for a boss with a recorded kill. */
  datatype Boss = Boss(
    name: string,
    respawn: int,
    location: string,
    lastKill: Option<int>,
    remaining: Option<int>)

  /** Every boss has a positive period: the condition under which the
      timer's wrap loop terminates. */
  predicate AllPositive(bs: seq<Boss>)
  {
    forall i :: 0 <= i < |bs| ==> bs[i].respawn > 0
  }

  /** Two records agree on every durable field. */
  predicate SameDurable(a: Boss, b: Boss)
  {
    a.name == b.name && a.respawn == b.respawn && a.location == b.location && a.lastKill == b.lastKill
  }

  function Seed(name: string, respawn: int, location: string): Boss
  {
    Boss(name, respawn, location, None, None)
  }

  /** The fixed list of bosses the tracker starts from when storage is empty. */
  function SeedBosses(): (r: seq<Boss>)
    ensures |r| == 20
    ensures AllPositive(r)
    ensures forall i :: 0 <= i < |r| ==> r[i].lastKill == None && r[i].remaining == None
    ensures forall i, j :: 0 <= i < j < |r| ==> r[i].name != r[j].name
  {
    [ Seed("Skeleton King", 8, "Ardeca Fortress"),
      Seed("Rasputin Lunatic Sorcerer", 8, "S. Denev"),
      Seed("Lizardman General", 9, "S. Denev"),
      Seed("Predacious Thunder Bull", 9, "N. Denev"),
      Seed("Giant Queen Spider", 11, "N. Denev"),
      Seed("Ungoliant", 7, "N. Denev"),
      Seed("Arctic Invader", 10, "Haihaff"),
      Seed("Lufain of Madness", 11, "Haihaff"),
      Seed("Lizardman Commander", 13, "Haihaff"),
      Seed("Frizkhan Lord", 11, "Haihaff"),
      Seed("Ashmahd", 13, "Haihaff"),
      Seed("Skeleton Commander", 6, "Frozen Hills"),
      Seed("Sasquatch King", 10, "Frozen Hills"),
      Seed("Raging Alderamin", 9, "Draco Desert"),
      Seed("Corrupted Knight Cpt.", 10, "Draco Desert"),
      Seed("Half Cthulu", 7, "Draco Desert"),
      Seed("Tyrant Eris", 12, "N. Requies"),
      Seed("Agathion", 14, "S. Requies"),
      Seed("Lizardman Adjudicator", 11, "Avalon"),
      Seed("Furious Queen Spider", 12, "Spider Cave") ]
  }

  /** The list the tracker starts with: the stored list when storage holds
      one (an empty stored list included), the seed list otherwise. */
  function Load(stored: Option<seq<Boss>>): (r: seq<Boss>)
    ensures stored.None? ==> r == SeedBosses()
    ensures stored.Some? ==> r == stored.value
    ensures (stored.Some? ==> AllPositive(stored.value)) ==> AllPositive(r)
  {
    match stored
    case None => SeedBosses()
    case Some(bs) => bs
  }

  /** The copy of the list that is persisted: every entry loses its
      countdown and keeps every durable field. */
  function Strip(bs: seq<Boss>): (r: seq<Boss>)
    ensures |r| == |bs|
    ensures forall i :: 0 <= i < |r| ==> r[i].remaining == None && SameDurable(r[i], bs[i])
  {
    seq(|bs|, i requires 0 <= i < |bs| => bs[i].(remaining := None))
  }

  /** Stripping an already stripped list changes nothing. */
  lemma StripIdempotent(bs: seq<Boss>)
    ensures Strip(Strip(bs)) == Strip(bs)
  {
  }

  /** The persisted copy depends only on the durable fields: two lists that
      agree entry by entry on them persist identically, whatever their
      countdowns are. */
  lemma StripDurableOnly(a: seq<Boss>, b: seq<Boss>)
    requires |a| == |b|
    requires forall i :: 0 <= i < |a| ==> SameDurable(a[i], b[i])
    ensures Strip(a) == Strip(b)
  {
  }

  /** A boss qualifies for the alarm when its countdown is defined and below
      the threshold; a boss without a countdown never does. */
  predicate Spawning(b: Boss)
    ensures Spawning(b) ==> b.remaining.Some?
  {
    b.remaining.Some? && b.remaining.value < AlarmThreshold
  }

  /** The index of the first spawning boss, if any: the alarm scan's search. */
  function FindSpawning(bs: seq<Boss>): (r: Option<nat>)
    ensures r.Some? ==> r.value < |bs| && Spawning(bs[r.value])
    ensures r.Some? ==> forall j :: 0 <= j < r.value ==> !Spawning(bs[j])
    ensures r.None? <==> forall j :: 0 <= j < |bs| ==> !Spawning(bs[j])
  {
    if |bs| == 0 then None
    else if Spawning(bs[0]) then Some(0)
    else
      match FindSpawning(bs[1..])
      case None => None
      case Some(k) => Some(k + 1)
  }
}
