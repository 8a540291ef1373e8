/** Which games background maintenance compresses: the baselines of `observe` and `acknowledge`. */
module Maintenance {
  import opened Common
  import opened Games

  datatype Location = Location(path: Path, automatic: bool)

  datatype Settings = Settings(locations: seq<Location>, excluded: seq<GameId>)

  /** The last recorded build and whether maintenance covered the game then. */
  datatype Record = Record(build: Option<string>, covered: bool)

  datatype Memory = Memory(baseline: map<GameId, Record>, initialized: set<string>)

  /** The hash a location is remembered by; nothing here depends on it being injective. */
  type Key = Path -> string

  predicate Under(location: Location, game: Game) {
    location.automatic && location.path <= game.dir
  }

  predicate Covered(settings: Settings, game: Game) {
    && (exists location | location in settings.locations :: Under(location, game))
    && (forall id | id in game.Ids() :: id !in settings.excluded)
  }

  predicate KnownLocation(key: Key, settings: Settings, initialized: set<string>, game: Game) {
    exists location | location in settings.locations :: Under(location, game) && key(location.path) in initialized
  }

  function AutomaticKeys(key: Key, settings: Settings): set<string> {
    set location | location in settings.locations && location.automatic :: key(location.path)
  }

  // ---------------------------------------------------------------- one scan, on values

  predicate Changed(m: Memory, game: Game) {
    game.id in m.baseline && m.baseline[game.id].covered && m.baseline[game.id].build != game.build
  }

  /** Updated or newly installed, whatever pauses or activity stand in the way. */
  predicate Pending(key: Key, settings: Settings, m: Memory, game: Game) {
    && Covered(settings, game)
    && (Changed(m, game) || (game.id !in m.baseline && KnownLocation(key, settings, m.initialized, game)))
  }

  predicate Due(key: Key, settings: Settings, paused: bool, m: Memory, game: Game) {
    Pending(key, settings, m, game) && game.state.Idle? && !paused
  }

  function Noted(key: Key, settings: Settings, m: Memory, game: Game): Memory {
    if Pending(key, settings, m, game) then m
    else m.(baseline := m.baseline[game.id := Record(game.build, Covered(settings, game))])
  }

  function Scanned(key: Key, settings: Settings, m: Memory, games: seq<Game>): Memory {
    if games == [] then m
    else Noted(key, settings, Scanned(key, settings, m, games[..|games| - 1]), games[|games| - 1])
  }

  function DueGames(key: Key, settings: Settings, paused: bool, m: Memory, games: seq<Game>): seq<Game> {
    if games == [] then []
    else
      var earlier := games[..|games| - 1];
      var game := games[|games| - 1];
      DueGames(key, settings, paused, m, earlier)
      + (if Due(key, settings, paused, Scanned(key, settings, m, earlier), game) then [game] else [])
  }

  // ---------------------------------------------------------------- the memory as an object

  class Baselines {
    const key: Key
    var baseline: map<GameId, Record>
    var initialized: set<string>

    function View(): Memory
      reads this
    {
      Memory(baseline, initialized)
    }

    constructor (key: Key)
      ensures View() == Memory(map[], {}) && this.key == key
    {
      this.key := key;
      baseline, initialized := map[], {};
    }

    method Acknowledge(game: Game)
      modifies this
      ensures View() == old(View()).(baseline := old(baseline)[game.id := Record(game.build, true)])
    {
      baseline := baseline[game.id := Record(game.build, true)];
    }

    method Observe(games: seq<Game>, settings: Settings, paused: bool, healthy: bool) returns (due: seq<Game>)
      modifies this
      ensures !healthy ==> due == [] && View() == old(View())
      ensures healthy ==>
                && due == DueGames(key, settings, paused, old(View()), games)
                && View() == Scanned(key, settings, old(View()), games).(initialized := AutomaticKeys(key, settings))
      ensures healthy && DistinctIds(games) ==> ListsDue(key, settings, paused, old(View()), games, due)
    {
      due := [];
      if !healthy {
        return;
      }
      for i := 0 to |games|
        invariant View() == Scanned(key, settings, old(View()), games[..i])
        invariant due == DueGames(key, settings, paused, old(View()), games[..i])
      {
        var game := games[i];
        assert games[..i + 1][..i] == games[..i];
        var enabled := Covered(settings, game);
        var changed := game.id in baseline && baseline[game.id].covered && baseline[game.id].build != game.build;
        var newlyInstalled := game.id !in baseline && KnownLocation(key, settings, initialized, game);
        if enabled && game.state.Idle? && !paused && (changed || newlyInstalled) {
          due := due + [game];
          continue;
        }
        if enabled && (changed || newlyInstalled) {
          continue;
        }
        baseline := baseline[game.id := Record(game.build, enabled)];
      }
      assert games[..|games|] == games;
      if DistinctIds(games) {
        ghost var at := DueInOrder(key, settings, paused, old(View()), games);
      }
      initialized := AutomaticKeys(key, settings);
    }
  }

  // ---------------------------------------------------------------- histories

  datatype Event =
    | Scan(games: seq<Game>, paused: bool, healthy: bool)
    | Ack(game: Game)

  predicate DistinctIds(games: seq<Game>) {
    forall i, j | 0 <= i < j < |games| :: games[i].id != games[j].id
  }

  ghost predicate WellFormed(h: seq<Event>) {
    forall e | e in h && e.Scan? :: DistinctIds(e.games)
  }

  /** What the memory holds after a history, from the empty memory and under fixed settings. */
  function After(key: Key, settings: Settings, h: seq<Event>): Memory {
    if h == [] then Memory(map[], {})
    else
      var m := After(key, settings, h[..|h| - 1]);
      match h[|h| - 1]
      case Ack(game) => m.(baseline := m.baseline[game.id := Record(game.build, true)])
      case Scan(games, _, healthy) =>
        if healthy then Scanned(key, settings, m, games).(initialized := AutomaticKeys(key, settings)) else m
  }

  // ---- an independent account of a history: which event fixed the build a game is compared with

  /** The sighting of `id` by the event, if it is a healthy scan that lists it. */
  ghost function Sighting(e: Event, id: GameId): (g: Option<Game>)
    ensures g.Some? ==> e.Scan? && e.healthy && g.value in e.games && g.value.id == id
    ensures g.None? && e.Scan? && e.healthy ==> forall game | game in e.games :: game.id != id
  {
    if e.Scan? && e.healthy && exists game | game in e.games :: game.id == id
    then var game :| game in e.games && game.id == id; Some(game)
    else None
  }

  predicate Acks(e: Event, id: GameId) {
    e.Ack? && e.game.id == id
  }

  ghost predicate SeenCovered(settings: Settings, e: Event, id: GameId) {
    Sighting(e, id).Some? && Covered(settings, Sighting(e, id).value)
  }

  ghost predicate SeenUncovered(settings: Settings, e: Event, id: GameId) {
    Sighting(e, id).Some? && !Covered(settings, Sighting(e, id).value)
  }

  ghost predicate Concerns(e: Event, id: GameId) {
    Acks(e, id) || Sighting(e, id).Some?
  }

  predicate AnyHealthy(h: seq<Event>) {
    exists e | e in h :: e.Scan? && e.healthy
  }

  /** The event just before `k` that concerns the game found it uncovered. */
  ghost predicate LastFoundUncovered(settings: Settings, h: seq<Event>, k: nat, id: GameId)
    requires k <= |h|
  {
    exists j | 0 <= j < k :: SeenUncovered(settings, h[j], id) && forall i | j < i < k :: !Concerns(h[i], id)
  }

  /**
   Event `k` fixes the build: an acknowledgement; or a covered sighting that is the first healthy
   scan and the first news of the game, or that follows a sighting while uncovered.
   */
  ghost predicate Anchor(settings: Settings, h: seq<Event>, k: nat, id: GameId)
    requires k < |h|
  {
    || Acks(h[k], id)
    || (SeenCovered(settings, h[k], id)
        && ((!AnyHealthy(h[..k]) && forall i | 0 <= i < k :: !Acks(h[i], id))
            || LastFoundUncovered(settings, h, k, id)))
  }

  ghost function BuildAt(h: seq<Event>, k: nat, id: GameId): Option<string>
    requires k < |h| && Concerns(h[k], id)
  {
    if Acks(h[k], id) then h[k].game.build else Sighting(h[k], id).value.build
  }

  /** `k` is the anchor still in force at the end of the history. */
  ghost predicate InForce(settings: Settings, h: seq<Event>, k: nat, id: GameId)
    requires k < |h|
  {
    Anchor(settings, h, k, id) && forall i | k < i < |h| :: !Acks(h[i], id) && !SeenUncovered(settings, h[i], id)
  }

  /** Never acknowledged, never seen uncovered, and absent from the first healthy scan. */
  ghost predicate NeverRecorded(settings: Settings, h: seq<Event>, id: GameId) {
    forall i | 0 <= i < |h| ::
      && !Acks(h[i], id) && !SeenUncovered(settings, h[i], id)
      && (SeenCovered(settings, h[i], id) ==> AnyHealthy(h[..i]))
  }

  // ---------------------------------------------------------------- one scan treats games separately

  ghost predicate SameFor(m: Memory, n: Memory, id: GameId) {
    (id in m.baseline <==> id in n.baseline) && (id in m.baseline ==> m.baseline[id] == n.baseline[id])
  }

  lemma NotedSeparates(key: Key, settings: Settings, m: Memory, n: Memory, game: Game, id: GameId)
    requires n.initialized == m.initialized
    ensures Noted(key, settings, n, game).initialized == m.initialized
    ensures game.id != id ==> SameFor(Noted(key, settings, n, game), n, id)
    ensures SameFor(n, m, game.id) ==> SameFor(Noted(key, settings, n, game), Noted(key, settings, m, game), game.id)
  {
  }

  lemma {:induction false} ScanSeparates(key: Key, settings: Settings, m: Memory, games: seq<Game>, id: GameId)
    requires DistinctIds(games)
    ensures Scanned(key, settings, m, games).initialized == m.initialized
    ensures (forall game | game in games :: game.id != id) ==> SameFor(Scanned(key, settings, m, games), m, id)
    ensures forall game | game in games && game.id == id ::
              SameFor(Scanned(key, settings, m, games), Noted(key, settings, m, game), id)
    decreases |games|
  {
    if games != [] {
      var earlier, last := games[..|games| - 1], games[|games| - 1];
      ScanSeparates(key, settings, m, earlier, id);
      assert forall game | game in games :: game in earlier || game == last;
      assert forall game | game in earlier :: game.id != last.id && game in games;
      assert last in games;
      NotedSeparates(key, settings, m, Scanned(key, settings, m, earlier), last, id);
    }
  }

  lemma {:induction false} DueSeparates(
      key: Key, settings: Settings, paused: bool, m: Memory, games: seq<Game>, game: Game)
    requires DistinctIds(games)
    ensures game in DueGames(key, settings, paused, m, games) <==> game in games && Due(key, settings, paused, m, game)
    decreases |games|
  {
    if games != [] {
      var earlier := games[..|games| - 1];
      DueSeparates(key, settings, paused, m, earlier, game);
      assert forall g | g in games :: g in earlier || g == games[|games| - 1];
      assert forall g | g in earlier :: g.id != games[|games| - 1].id;
      ScanSeparates(key, settings, m, earlier, games[|games| - 1].id);
    }
  }

  /** `due` lists the games of the scan that were due before it, once each and in the order of the scan. */
  ghost predicate ListsDue(
    key: Key, settings: Settings, paused: bool, m: Memory, games: seq<Game>, due: seq<Game>)
  {
    exists at: seq<nat> ::
      && Picks(games, at, due)
      && forall i: nat :: i in at <==> i < |games| && Due(key, settings, paused, m, games[i])
  }

  lemma {:induction false} DueInOrder(
      key: Key, settings: Settings, paused: bool, m: Memory, games: seq<Game>) returns (at: seq<nat>)
    requires DistinctIds(games)
    ensures Picks(games, at, DueGames(key, settings, paused, m, games))
    ensures forall i: nat :: i in at <==> i < |games| && Due(key, settings, paused, m, games[i])
    decreases |games|
  {
    if games == [] {
      at := [];
    } else {
      var n := |games| - 1;
      var earlier := games[..n];
      at := DueInOrder(key, settings, paused, m, earlier);
      PicksOneMore(earlier, at, DueGames(key, settings, paused, m, earlier), games[n]);
      LastIsDue(key, settings, paused, m, games);
      assert games == earlier + [games[n]];
      if Due(key, settings, paused, m, games[n]) { at := at + [n]; }
    }
  }

  lemma LastIsDue(key: Key, settings: Settings, paused: bool, m: Memory, games: seq<Game>)
    requires DistinctIds(games) && games != []
    ensures var n := |games| - 1;
            DueGames(key, settings, paused, m, games)
            == DueGames(key, settings, paused, m, games[..n])
               + if Due(key, settings, paused, m, games[n]) then [games[n]] else []
  {
    var earlier, last := games[..|games| - 1], games[|games| - 1];
    assert forall g | g in earlier :: g.id != last.id;
    ScanSeparates(key, settings, m, earlier, last.id);
  }

  // ---------------------------------------------------------------- the memory follows the history

  /** Where a game stands after a history: `Fixed(k)` names the anchor in force, `Lapsed(k)` the last sighting. */
  datatype Standing = Unknown | Lapsed(k: nat) | Fixed(k: nat)

  ghost function StandingOf(settings: Settings, h: seq<Event>, id: GameId): (r: Standing)
    ensures !r.Unknown? ==> r.k < |h| && Concerns(h[r.k], id)
  {
    if h == [] then Unknown
    else
      var before, e := h[..|h| - 1], h[|h| - 1];
      var standing := StandingOf(settings, before, id);
      if Acks(e, id) then Fixed(|h| - 1)
      else if SeenUncovered(settings, e, id) then Lapsed(|h| - 1)
      else if SeenCovered(settings, e, id) && (standing.Lapsed? || (standing.Unknown? && !AnyHealthy(before)))
      then Fixed(|h| - 1)
      else standing
  }

  ghost predicate MemoryShows(key: Key, settings: Settings, h: seq<Event>, m: Memory, id: GameId) {
    && m.initialized == (if AnyHealthy(h) then AutomaticKeys(key, settings) else {})
    && RecordShows(settings, h, m, id)
  }

  ghost predicate RecordShows(settings: Settings, h: seq<Event>, m: Memory, id: GameId) {
    var standing := StandingOf(settings, h, id);
    if standing.Unknown? then id !in m.baseline
    else id in m.baseline && m.baseline[id] == Record(BuildAt(h, standing.k, id), standing.Fixed?)
  }

  lemma MemoryStep(key: Key, settings: Settings, before: seq<Event>, e: Event, id: GameId)
    requires e.Scan? ==> DistinctIds(e.games)
    requires MemoryShows(key, settings, before, After(key, settings, before), id)
    ensures MemoryShows(key, settings, before + [e], After(key, settings, before + [e]), id)
  {
    var m, n := After(key, settings, before), After(key, settings, before + [e]);
    assert (before + [e])[..|before|] == before;
    HealthyStep(before, e);
    StandingStep(settings, before, e, id);
    if e.Ack? {
      AckShows(settings, before, e, m, n, id);
    } else if !e.healthy {
      RecordStays(settings, before, e, m, n, id);
    } else {
      ScanSeparates(key, settings, m, e.games, id);
      if Sighting(e, id).Some? {
        SightingShows(key, settings, before, e, m, n, id);
      } else {
        RecordStays(settings, before, e, m, n, id);
      }
    }
  }

  lemma HealthyStep(before: seq<Event>, e: Event)
    ensures AnyHealthy(before + [e]) <==> AnyHealthy(before) || (e.Scan? && e.healthy)
  {
    assert forall x | x in before :: x in before + [e];
    assert e in before + [e];
  }

  lemma StandingStep(settings: Settings, before: seq<Event>, e: Event, id: GameId)
    ensures var standing, now := StandingOf(settings, before, id), StandingOf(settings, before + [e], id);
            if Acks(e, id) then now == Fixed(|before|)
            else if SeenUncovered(settings, e, id) then now == Lapsed(|before|)
            else if SeenCovered(settings, e, id) && (standing.Lapsed? || (standing.Unknown? && !AnyHealthy(before)))
            then now == Fixed(|before|)
            else now == standing
  {
    assert (before + [e])[..|before|] == before;
  }

  /** No news of the game, and its record as it was. */
  lemma RecordStays(settings: Settings, before: seq<Event>, e: Event, m: Memory, n: Memory, id: GameId)
    requires RecordShows(settings, before, m, id) && SameFor(n, m, id)
    requires StandingOf(settings, before + [e], id) == StandingOf(settings, before, id)
    ensures RecordShows(settings, before + [e], n, id)
  {
    var standing := StandingOf(settings, before, id);
    if !standing.Unknown? {
      assert (before + [e])[standing.k] == before[standing.k];
    }
  }

  lemma AckShows(settings: Settings, before: seq<Event>, e: Event, m: Memory, n: Memory, id: GameId)
    requires e.Ack? && n == m.(baseline := m.baseline[e.game.id := Record(e.game.build, true)])
    requires RecordShows(settings, before, m, id)
    ensures RecordShows(settings, before + [e], n, id)
  {
    StandingStep(settings, before, e, id);
    if Acks(e, id) {
      assert (before + [e])[|before|] == e;
    } else {
      RecordStays(settings, before, e, m, n, id);
    }
  }

  lemma SightingShows(key: Key, settings: Settings, before: seq<Event>, e: Event, m: Memory, n: Memory, id: GameId)
    requires Sighting(e, id).Some? && SameFor(n, Noted(key, settings, m, Sighting(e, id).value), id)
    requires MemoryShows(key, settings, before, m, id)
    ensures RecordShows(settings, before + [e], n, id)
  {
    var game := Sighting(e, id).value;
    StandingStep(settings, before, e, id);
    assert (before + [e])[|before|] == e;
    if Covered(settings, game) && StandingOf(settings, before + [e], id) == StandingOf(settings, before, id) {
      RecordStays(settings, before, e, m, n, id);
    }
  }

  lemma {:induction false} MemoryFollows(key: Key, settings: Settings, h: seq<Event>, id: GameId)
    requires WellFormed(h)
    ensures MemoryShows(key, settings, h, After(key, settings, h), id)
    decreases |h|
  {
    if h != [] {
      var before, e := h[..|h| - 1], h[|h| - 1];
      assert h == before + [e] && e in h;
      assert WellFormed(before) by { assert forall x | x in before :: x in h; }
      MemoryFollows(key, settings, before, id);
      MemoryStep(key, settings, before, e, id);
    }
  }

  lemma LapseInPrefix(settings: Settings, h: seq<Event>, n: nat, k: nat, id: GameId)
    requires k <= n <= |h|
    ensures LastFoundUncovered(settings, h[..n], k, id) == LastFoundUncovered(settings, h, k, id)
  {
    assert forall i | 0 <= i < k :: h[..n][i] == h[i];
  }

  lemma AnchorInPrefix(settings: Settings, h: seq<Event>, n: nat, k: nat, id: GameId)
    requires k < n <= |h|
    ensures Anchor(settings, h[..n], k, id) == Anchor(settings, h, k, id)
  {
    assert h[..n][..k] == h[..k];
    LapseInPrefix(settings, h, n, k, id);
  }

  /** An anchor stays in force over one more event unless that is an acknowledgement or an uncovered sighting. */
  lemma InForceStep(settings: Settings, before: seq<Event>, e: Event, k: nat, id: GameId)
    requires k < |before|
    ensures InForce(settings, before + [e], k, id) <==>
              InForce(settings, before, k, id) && !Acks(e, id) && !SeenUncovered(settings, e, id)
  {
    var h := before + [e];
    assert h[..|before|] == before && h[|before|] == e;
    AnchorInPrefix(settings, h, |before|, k, id);
    assert forall i | 0 <= i < |before| :: h[i] == before[i];
  }

  lemma NeverStep(settings: Settings, before: seq<Event>, e: Event, id: GameId)
    ensures NeverRecorded(settings, before + [e], id) <==>
              && NeverRecorded(settings, before, id) && !Acks(e, id) && !SeenUncovered(settings, e, id)
              && (SeenCovered(settings, e, id) ==> AnyHealthy(before))
  {
    var h := before + [e];
    assert h[..|before|] == before && h[|before|] == e;
    assert forall i | 0 <= i < |before| :: h[i] == before[i] && h[..i] == before[..i];
  }

  lemma LapseStep(settings: Settings, before: seq<Event>, e: Event, id: GameId)
    ensures var h := before + [e];
            && LastFoundUncovered(settings, h, |before|, id) == LastFoundUncovered(settings, before, |before|, id)
            && (SeenUncovered(settings, e, id) ==> LastFoundUncovered(settings, h, |h|, id))
            && (LastFoundUncovered(settings, before, |before|, id) && !Concerns(e, id) ==>
                  LastFoundUncovered(settings, h, |h|, id))
  {
    var h := before + [e];
    assert h[..|before|] == before && h[|before|] == e;
    LapseInPrefix(settings, h, |before|, |before|, id);
    if SeenUncovered(settings, e, id) {
      assert SeenUncovered(settings, h[|before|], id);
    } else if LastFoundUncovered(settings, before, |before|, id) && !Concerns(e, id) {
      var j :| 0 <= j < |before| && SeenUncovered(settings, before[j], id)
               && forall i | j < i < |before| :: !Concerns(before[i], id);
      assert SeenUncovered(settings, h[j], id);
    }
  }

  /** What a standing says in terms of events. */
  ghost predicate Meant(settings: Settings, h: seq<Event>, id: GameId) {
    var standing := StandingOf(settings, h, id);
    if standing.Unknown? then NeverRecorded(settings, h, id)
    else if standing.Lapsed? then LastFoundUncovered(settings, h, |h|, id)
    else InForce(settings, h, standing.k, id)
  }

  /** What the recursion computes is what the account by events says, both ways. */
  lemma {:induction false} StandingMeans(settings: Settings, h: seq<Event>, id: GameId)
    ensures Meant(settings, h, id)
    ensures forall k | 0 <= k < |h| && InForce(settings, h, k, id) :: StandingOf(settings, h, id) == Fixed(k)
    ensures NeverRecorded(settings, h, id) ==> StandingOf(settings, h, id).Unknown?
    decreases |h|
  {
    if h != [] {
      var n := |h| - 1;
      var before, e := h[..n], h[n];
      assert h == before + [e];
      StandingMeans(settings, before, id);
      NeverStep(settings, before, e, id);
      LapseStep(settings, before, e, id);
      StandingForward(settings, before, e, id);
      forall k | 0 <= k < |h| && InForce(settings, h, k, id) ensures StandingOf(settings, h, id) == Fixed(k) {
        InForceIsStanding(settings, before, e, k, id);
      }
    }
  }

  lemma InForceIsStanding(settings: Settings, before: seq<Event>, e: Event, k: nat, id: GameId)
    requires k <= |before| && InForce(settings, before + [e], k, id)
    requires forall j | 0 <= j < |before| && InForce(settings, before, j, id) ::
               StandingOf(settings, before, id) == Fixed(j)
    ensures StandingOf(settings, before + [e], id) == Fixed(k)
  {
    StandingStep(settings, before, e, id);
    if k < |before| {
      InForceStep(settings, before, e, k, id);
    } else {
      LastNewsIsLapse(settings, before + [e], id);
    }
  }

  lemma StandingForward(settings: Settings, before: seq<Event>, e: Event, id: GameId)
    requires Meant(settings, before, id)
    ensures Meant(settings, before + [e], id)
  {
    var h := before + [e];
    assert h[..|h| - 1] == before && h[|h| - 1] == e;
    NeverStep(settings, before, e, id);
    LapseStep(settings, before, e, id);
    var standing := StandingOf(settings, before, id);
    if standing.Fixed? {
      InForceStep(settings, before, e, standing.k, id);
    }
  }

  /** If the last event is an anchor by following a lapse, the standing before it was lapsed. */
  lemma LastNewsIsLapse(settings: Settings, h: seq<Event>, id: GameId)
    requires h != [] && Anchor(settings, h, |h| - 1, id)
    ensures StandingOf(settings, h, id) == Fixed(|h| - 1)
  {
    var n := |h| - 1;
    if !Acks(h[n], id) && LastFoundUncovered(settings, h, n, id) {
      var j :| 0 <= j < n && SeenUncovered(settings, h[j], id) && forall i | j < i < n :: !Concerns(h[i], id);
      LapseLasts(settings, h[..n], j, id);
    } else if !Acks(h[n], id) {
      NoNewsIsUnknown(settings, h[..n], id);
    }
  }

  lemma {:induction false} LapseLasts(settings: Settings, h: seq<Event>, j: nat, id: GameId)
    requires j < |h| && SeenUncovered(settings, h[j], id) && forall i | j < i < |h| :: !Concerns(h[i], id)
    ensures StandingOf(settings, h, id).Lapsed?
    decreases |h|
  {
    if j < |h| - 1 {
      assert h[..|h| - 1][j] == h[j];
      LapseLasts(settings, h[..|h| - 1], j, id);
    }
  }

  lemma {:induction false} NoNewsIsUnknown(settings: Settings, h: seq<Event>, id: GameId)
    requires !AnyHealthy(h) && forall i | 0 <= i < |h| :: !Acks(h[i], id)
    ensures StandingOf(settings, h, id).Unknown?
    decreases |h|
  {
    if h != [] {
      var before := h[..|h| - 1];
      assert forall e | e in before :: e in h;
      NoNewsIsUnknown(settings, before, id);
      assert h[|h| - 1] in h;
    }
  }

  /**
   A scan returns exactly the covered, idle games outside a pause whose build differs from the one
   in force, or that were never recorded and first appeared after a healthy scan.
   */
  lemma ObserveIsExact(key: Key, settings: Settings, h: seq<Event>, games: seq<Game>, paused: bool, game: Game)
    requires WellFormed(h) && DistinctIds(games) && game in games
    ensures game in DueGames(key, settings, paused, After(key, settings, h), games) <==>
              DueByEvents(settings, h, paused, game)
  {
    DueSeparates(key, settings, paused, After(key, settings, h), games, game);
    PendingIsExact(key, settings, h, game);
  }

  /** What makes a scanned game due, by the events before the scan. */
  ghost predicate DueByEvents(settings: Settings, h: seq<Event>, paused: bool, game: Game) {
    && Covered(settings, game) && game.state.Idle? && !paused
    && ((exists k | 0 <= k < |h| :: InForce(settings, h, k, game.id) && BuildAt(h, k, game.id) != game.build)
        || (NeverRecorded(settings, h, game.id) && AnyHealthy(h)))
  }

  /** It returns them in the order of the scan, each once. */
  lemma ObserveListsInOrder(key: Key, settings: Settings, h: seq<Event>, games: seq<Game>, paused: bool)
    requires WellFormed(h) && DistinctIds(games)
    ensures exists at: seq<nat> ::
              && Picks(games, at, DueGames(key, settings, paused, After(key, settings, h), games))
              && forall i: nat :: i in at <==> i < |games| && DueByEvents(settings, h, paused, games[i])
  {
    var at := DueInOrder(key, settings, paused, After(key, settings, h), games);
    forall i: nat ensures i in at <==> i < |games| && DueByEvents(settings, h, paused, games[i]) {
      if i < |games| {
        PendingIsExact(key, settings, h, games[i]);
      }
    }
  }

  lemma PendingIsExact(key: Key, settings: Settings, h: seq<Event>, game: Game)
    requires WellFormed(h)
    ensures Pending(key, settings, After(key, settings, h), game) <==>
              && Covered(settings, game)
              && ((exists k | 0 <= k < |h| :: InForce(settings, h, k, game.id) && BuildAt(h, k, game.id) != game.build)
                  || (NeverRecorded(settings, h, game.id) && AnyHealthy(h)))
  {
    MemoryFollows(key, settings, h, game.id);
    StandingMeans(settings, h, game.id);
    var standing := StandingOf(settings, h, game.id);
    if standing.Fixed? {
      assert InForce(settings, h, standing.k, game.id);
    }
  }

  lemma PendingSurvives(key: Key, settings: Settings, h: seq<Event>, e: Event, game: Game)
    requires WellFormed(h) && (e.Scan? ==> DistinctIds(e.games))
    requires Pending(key, settings, After(key, settings, h), game)
    requires !Acks(e, game.id) && !SeenUncovered(settings, e, game.id)
    ensures Pending(key, settings, After(key, settings, h + [e]), game)
  {
    assert (h + [e])[..|h|] == h;
    var m, n := After(key, settings, h), After(key, settings, h + [e]);
    MemoryFollows(key, settings, h, game.id);
    if e.Scan? && e.healthy {
      ScanSeparates(key, settings, m, e.games, game.id);
      assert SameFor(n, m, game.id);
    }
  }

  /** Pauses, busy or covered sightings, failed scans and news of other games delay a pending game but never lose it. */
  lemma {:induction false} PendingIsNeverLost(
      key: Key, settings: Settings, h: seq<Event>, later: seq<Event>, game: Game)
    requires WellFormed(h) && WellFormed(later) && Pending(key, settings, After(key, settings, h), game)
    requires forall e | e in later :: !Acks(e, game.id) && !SeenUncovered(settings, e, game.id)
    ensures Pending(key, settings, After(key, settings, h + later), game)
    decreases |later|
  {
    if later == [] {
      assert h + later == h;
    } else {
      PendingSurvives(key, settings, h, later[0], game);
      assert forall e | e in h + [later[0]] :: e in h || e == later[0];
      assert h + later == (h + [later[0]]) + later[1..];
      PendingIsNeverLost(key, settings, h + [later[0]], later[1..], game);
    }
  }
}
