/** Merging what the launchers report, and remembering games whose drives come and go. */
module Libraries {
  import opened Common
  import opened Games
  import opened Storage

  predicate DistinctDirs(games: seq<Game>) {
    forall i, j | 0 <= i < j < |games| :: games[i].dir != games[j].dir
  }

  function FindDir(games: seq<Game>, dir: Path): (r: Option<nat>)
    ensures r.Some? ==> r.value < |games| && games[r.value].dir == dir
    ensures r.None? ==> forall i | 0 <= i < |games| :: games[i].dir != dir
  {
    if games == [] then None
    else if games[0].dir == dir then Some(0)
    else match FindDir(games[1..], dir) case Some(i) => Some(i + 1) case None => None
  }

  // ---------------------------------------------------------------- merging

  /** `canonicalize`: the canonical form of a path that exists. */
  type Canon = Path -> Option<Path>

  function Resolved(canon: Canon, g: Game): Game {
    match canon(g.dir) case Some(p) => g.(dir := p) case None => g
  }

  /** The ids of `more` that are not known yet, added one at a time. */
  function WithIds(game: Game, more: seq<GameId>): Game {
    if more == [] then game
    else
      var g := WithIds(game, more[..|more| - 1]);
      var id := more[|more| - 1];
      if id in g.Ids() then g else g.(also := g.also + [id])
  }

  function Absorbed(previous: Game, g: Game): Game {
    var p := WithIds(previous, g.Ids());
    if g.state.Idle? then p else p.(state := g.state)
  }

  function MergeOne(merged: seq<Game>, g: Game): seq<Game> {
    match FindDir(merged, g.dir)
    case Some(i) => merged[i := Absorbed(merged[i], g)]
    case None => merged + [g]
  }

  function Merged(canon: Canon, games: seq<Game>): seq<Game> {
    if games == [] then []
    else MergeOne(Merged(canon, games[..|games| - 1]), Resolved(canon, games[|games| - 1]))
  }

  /** `merge`. */
  method Merge(canon: Canon, games: seq<Game>) returns (merged: seq<Game>)
    ensures merged == Merged(canon, games)
  {
    merged := [];
    for i := 0 to |games|
      invariant merged == Merged(canon, games[..i])
    {
      assert games[..i + 1][..i] == games[..i];
      var game := Resolved(canon, games[i]);
      var at := FindDir(merged, game.dir);
      if at.Some? {
        var previous := Absorb(merged[at.value], game);
        merged := merged[at.value := previous];
      } else {
        merged := merged + [game];
      }
    }
    assert games[..|games|] == games;
  }

  /** The first report of a folder takes in a later one. */
  method Absorb(first: Game, game: Game) returns (previous: Game)
    ensures previous == Absorbed(first, game)
  {
    previous := first;
    var ids := game.Ids();
    for k := 0 to |ids|
      invariant previous == WithIds(first, ids[..k])
    {
      assert ids[..k + 1][..k] == ids[..k];
      if ids[k] !in previous.Ids() {
        previous := previous.(also := previous.also + [ids[k]]);
      }
    }
    assert ids[..|ids|] == ids;
    if !game.state.Idle? {
      previous := previous.(state := game.state);
    }
  }

  lemma {:induction false} WithIdsAdds(game: Game, more: seq<GameId>)
    ensures var g := WithIds(game, more);
            && g.dir == game.dir && g.id == game.id && g.state == game.state
            && g.build == game.build && g.manual == game.manual
            && forall id :: id in g.Ids() <==> id in game.Ids() || id in more
    decreases |more|
  {
    if more != [] {
      WithIdsAdds(game, more[..|more| - 1]);
      assert forall id :: id in more <==> id in more[..|more| - 1] || id == more[|more| - 1];
    }
  }

  // ---- an independent account of one folder: the reports about it

  predicate Reports(canon: Canon, g: Game, dir: Path) {
    Resolved(canon, g).dir == dir
  }

  predicate Reported(canon: Canon, games: seq<Game>, dir: Path) {
    exists g | g in games :: Reports(canon, g, dir)
  }

  predicate IdReported(canon: Canon, games: seq<Game>, dir: Path, id: GameId) {
    exists g | g in games :: Reports(canon, g, dir) && id in g.Ids()
  }

  predicate AllIdle(canon: Canon, games: seq<Game>, dir: Path) {
    forall g | g in games && Reports(canon, g, dir) :: g.state.Idle?
  }

  /**
   Each folder reported has one entry, with every id reported for it and no other, idle exactly if
   every report was.
   */
  ghost predicate Exact(canon: Canon, games: seq<Game>, merged: seq<Game>) {
    && DistinctDirs(merged)
    && (forall dir :: Reported(canon, games, dir) <==> FindDir(merged, dir).Some?)
    && (forall i, id | 0 <= i < |merged| :: id in merged[i].Ids() <==> IdReported(canon, games, merged[i].dir, id))
    && (forall i | 0 <= i < |merged| :: merged[i].state.Idle? <==> AllIdle(canon, games, merged[i].dir))
  }

  /** What one more report changes: only its own folder. */
  lemma OneMoreReport(canon: Canon, games: seq<Game>, g: Game, dir: Path)
    ensures Reported(canon, games + [g], dir) <==> Reported(canon, games, dir) || Reports(canon, g, dir)
    ensures forall id :: IdReported(canon, games + [g], dir, id) <==>
              IdReported(canon, games, dir, id) || (Reports(canon, g, dir) && id in g.Ids())
    ensures AllIdle(canon, games + [g], dir) <==>
        AllIdle(canon, games, dir) && (Reports(canon, g, dir) ==> g.state.Idle?)
  {
    assert forall x | x in games :: x in games + [g];
    assert g in games + [g];
  }

  lemma DirsAfterMerge(merged: seq<Game>, g: Game)
    requires DistinctDirs(merged)
    ensures DistinctDirs(MergeOne(merged, g))
    ensures forall dir :: FindDir(MergeOne(merged, g), dir).Some? <==> FindDir(merged, dir).Some? || dir == g.dir
  {
    var after := MergeOne(merged, g);
    var at := FindDir(merged, g.dir);
    if at.Some? {
      WithIdsAdds(merged[at.value], g.Ids());
      assert forall i | 0 <= i < |merged| :: after[i].dir == merged[i].dir;
    } else {
      assert after[|merged|] == g;
    }
    forall dir ensures FindDir(after, dir).Some? <==> FindDir(merged, dir).Some? || dir == g.dir {
      var known := FindDir(merged, dir);
      if known.Some? { assert after[known.value].dir == dir; }
    }
  }

  lemma MergeOneIsExact(canon: Canon, games: seq<Game>, merged: seq<Game>, g: Game)
    requires Exact(canon, games, merged)
    ensures Exact(canon, games + [g], MergeOne(merged, Resolved(canon, g)))
  {
    var r := Resolved(canon, g);
    var after := MergeOne(merged, r);
    DirsAfterMerge(merged, r);
    forall dir ensures Reported(canon, games + [g], dir) <==> FindDir(after, dir).Some? {
      OneMoreReport(canon, games, g, dir);
    }
    forall i | 0 <= i < |after|
      ensures forall id :: id in after[i].Ids() <==> IdReported(canon, games + [g], after[i].dir, id)
      ensures after[i].state.Idle? <==> AllIdle(canon, games + [g], after[i].dir)
    {
      EntryIsExact(canon, games, merged, g, i);
    }
  }

  lemma EntryIsExact(canon: Canon, games: seq<Game>, merged: seq<Game>, g: Game, i: nat)
    requires Exact(canon, games, merged) && i < |MergeOne(merged, Resolved(canon, g))|
    ensures var m := MergeOne(merged, Resolved(canon, g))[i];
            && (forall id :: id in m.Ids() <==> IdReported(canon, games + [g], m.dir, id))
            && (m.state.Idle? <==> AllIdle(canon, games + [g], m.dir))
  {
    var r := Resolved(canon, g);
    var m, at := MergeOne(merged, r)[i], FindDir(merged, r.dir);
    OneMoreReport(canon, games, g, m.dir);
    if at.Some? {
      WithIdsAdds(merged[at.value], r.Ids());
    } else if i == |merged| {
      assert !Reported(canon, games, r.dir);
    }
  }

  /** `merge`: one entry a folder, no id lost or invented, idle exactly when every report of the folder was. */
  lemma {:induction false} MergeIsExact(canon: Canon, games: seq<Game>)
    ensures Exact(canon, games, Merged(canon, games))
    decreases |games|
  {
    if games != [] {
      var earlier, g := games[..|games| - 1], games[|games| - 1];
      MergeIsExact(canon, earlier);
      MergeOneIsExact(canon, earlier, Merged(canon, earlier), g);
      assert games == earlier + [g];
    }
  }

  /** Canonical paths are their own canonical form. */
  ghost predicate Stable(canon: Canon) {
    forall p :: canon(p).Some? ==> canon(canon(p).value) == canon(p)
  }

  lemma {:induction false} DirsAreResolved(canon: Canon, games: seq<Game>)
    requires Stable(canon)
    ensures forall i | 0 <= i < |Merged(canon, games)| ::
        Resolved(canon, Merged(canon, games)[i]) == Merged(canon, games)[i]
    decreases |games|
  {
    if games != [] {
      var earlier, g := games[..|games| - 1], Resolved(canon, games[|games| - 1]);
      DirsAreResolved(canon, earlier);
      var merged := Merged(canon, earlier);
      var at := FindDir(merged, g.dir);
      if at.Some? {
        WithIdsAdds(merged[at.value], g.Ids());
        assert Resolved(canon, merged[at.value]) == merged[at.value];
      }
    }
  }

  lemma {:induction false} NothingToMerge(canon: Canon, games: seq<Game>)
    requires DistinctDirs(games) && forall i | 0 <= i < |games| :: Resolved(canon, games[i]) == games[i]
    ensures Merged(canon, games) == games
    decreases |games|
  {
    if games != [] {
      NothingToMerge(canon, games[..|games| - 1]);
      assert games == games[..|games| - 1] + [games[|games| - 1]];
    }
  }

  lemma MergeIdempotent(canon: Canon, games: seq<Game>)
    requires Stable(canon)
    ensures Merged(canon, Merged(canon, games)) == Merged(canon, games)
  {
    MergeIsExact(canon, games);
    DirsAreResolved(canon, games);
    NothingToMerge(canon, Merged(canon, games));
  }

  /** The entry keeps the identity and build of the first report of its folder. */
  predicate FirstReport(canon: Canon, games: seq<Game>, m: Game) {
    exists k | 0 <= k < |games| ::
      && Reports(canon, games[k], m.dir) && (forall j | 0 <= j < k :: !Reports(canon, games[j], m.dir))
      && m.id == games[k].id && m.build == games[k].build && m.manual == games[k].manual
  }

  lemma FirstReportStays(canon: Canon, games: seq<Game>, g: Game, m: Game, n: Game)
    requires FirstReport(canon, games, m) && n.dir == m.dir && n.id == m.id && n.build == m.build
        && n.manual == m.manual
    ensures FirstReport(canon, games + [g], n)
  {
    var k :| 0 <= k < |games| && Reports(canon, games[k], m.dir)
        && (forall j | 0 <= j < k :: !Reports(canon, games[j], m.dir))
      && m.id == games[k].id && m.build == games[k].build && m.manual == games[k].manual;
    assert (games + [g])[k] == games[k];
  }

  lemma {:induction false} MergeKeepsFirst(canon: Canon, games: seq<Game>)
    ensures forall i | 0 <= i < |Merged(canon, games)| :: FirstReport(canon, games, Merged(canon, games)[i])
    decreases |games|
  {
    if games != [] {
      var n := |games| - 1;
      var earlier, g := games[..n], games[n];
      var merged, r := Merged(canon, earlier), Resolved(canon, g);
      MergeKeepsFirst(canon, earlier);
      MergeIsExact(canon, earlier);
      assert games == earlier + [g];
      var at := FindDir(merged, r.dir);
      forall i | 0 <= i < |MergeOne(merged, r)| ensures FirstReport(canon, games, MergeOne(merged, r)[i]) {
        if i < |merged| {
          if at.Some? { WithIdsAdds(merged[at.value], r.Ids()); }
          FirstReportStays(canon, earlier, g, merged[i], MergeOne(merged, r)[i]);
        } else {
          assert !Reported(canon, earlier, r.dir);
          assert forall j | 0 <= j < n :: games[j] in earlier;
          assert Reports(canon, games[n], r.dir);
        }
      }
    }
  }

  // ---- states and ids in detail

  /** The ids of `more` that are new after `known`, each at its first mention. */
  function NewIds(known: seq<GameId>, more: seq<GameId>): seq<GameId>
    decreases |more|
  {
    if more == [] then []
    else if more[0] in known then NewIds(known, more[1..])
    else [more[0]] + NewIds(known + [more[0]], more[1..])
  }

  lemma {:induction false} OneMoreId(known: seq<GameId>, more: seq<GameId>, id: GameId)
    ensures NewIds(known, more + [id]) == NewIds(known, more) + if id in known || id in more then [] else [id]
    ensures forall x :: x in NewIds(known, more) <==> x in more && x !in known
    decreases |more|
  {
    if more == [] {
      assert [] + [id] == [id] && [id][1..] == [];
    } else {
      assert (more + [id])[1..] == more[1..] + [id];
      OneMoreId(if more[0] in known then known else known + [more[0]], more[1..], id);
      assert forall x :: x in more <==> x == more[0] || x in more[1..];
    }
  }

  lemma {:induction false} WithIdsInOrder(game: Game, known: seq<GameId>, mentions: seq<GameId>, more: seq<GameId>)
    requires game.Ids() == known + NewIds(known, mentions)
    ensures WithIds(game, more).Ids() == known + NewIds(known, mentions + more)
    decreases |more|
  {
    if more == [] {
      assert mentions + more == mentions;
    } else {
      var n := |more| - 1;
      var all, g := mentions + more[..n], WithIds(game, more[..n]);
      WithIdsInOrder(game, known, mentions, more[..n]);
      OneMoreId(known, all, more[n]);
      assert mentions + more == all + [more[n]];
      assert g.(also := g.also + [more[n]]).Ids() == g.Ids() + [more[n]];
      assert known + (NewIds(known, all) + [more[n]]) == g.Ids() + [more[n]];
    }
  }

  /** The ids of the reports of a folder after its report `k`, report after report. */
  function Mentions(canon: Canon, games: seq<Game>, dir: Path, k: nat): seq<GameId> {
    if |games| <= k + 1 then []
    else
      var g := games[|games| - 1];
      Mentions(canon, games[..|games| - 1], dir, k) + if Reports(canon, g, dir) then g.Ids() else []
  }

  /** Report `k` of the folder is the last that was not idle. */
  predicate LastBusy(canon: Canon, games: seq<Game>, dir: Path, k: nat) {
    && k < |games| && Reports(canon, games[k], dir) && !games[k].state.Idle?
    && forall j | k < j < |games| :: Reports(canon, games[j], dir) ==> games[j].state.Idle?
  }

  ghost predicate HasLastState(canon: Canon, games: seq<Game>, m: Game) {
    m.state.Idle? || exists k: nat :: LastBusy(canon, games, m.dir, k) && m.state == games[k].state
  }

  /** The ids of the first report, `k`, and then every new one in order of first mention. */
  predicate HasIdsFrom(canon: Canon, games: seq<Game>, m: Game, k: nat) {
    && k < |games| && Reports(canon, games[k], m.dir) && (forall j | 0 <= j < k :: !Reports(canon, games[j], m.dir))
    && m.Ids() == games[k].Ids() + NewIds(games[k].Ids(), Mentions(canon, games, m.dir, k))
  }

  lemma StateOnceMore(canon: Canon, games: seq<Game>, g: Game, m: Game)
    requires HasLastState(canon, games, m)
    ensures HasLastState(canon, games + [g], if Reports(canon, g, m.dir) then Absorbed(m, g) else m)
  {
    var all := games + [g];
    WithIdsAdds(m, g.Ids());
    if Reports(canon, g, m.dir) && !g.state.Idle? {
      assert LastBusy(canon, all, m.dir, |games|);
    } else if !m.state.Idle? {
      var k: nat :| LastBusy(canon, games, m.dir, k) && m.state == games[k].state;
      assert LastBusy(canon, all, m.dir, k) && all[k] == games[k];
    }
  }

  lemma IdsOnceMore(canon: Canon, games: seq<Game>, g: Game, m: Game, k: nat)
    requires HasIdsFrom(canon, games, m, k)
    ensures HasIdsFrom(canon, games + [g], if Reports(canon, g, m.dir) then Absorbed(m, g) else m, k)
  {
    var all := games + [g];
    assert all[..|games|] == games && all[k] == games[k];
    WithIdsAdds(m, g.Ids());
    if Reports(canon, g, m.dir) {
      WithIdsInOrder(m, games[k].Ids(), Mentions(canon, games, m.dir, k), g.Ids());
    } else {
      assert Mentions(canon, games, m.dir, k) + [] == Mentions(canon, games, m.dir, k);
    }
  }

  /**
   The entries come in the order of the first reports of their folders. Each has the ids of all
   reports of its folder in order of first mention, and the state of the last that was not idle.
   */
  lemma {:induction false} MergeInOrder(canon: Canon, games: seq<Game>) returns (at: seq<nat>)
    ensures Told(canon, games, Merged(canon, games), at)
    decreases |games|
  {
    at := [];
    if games != [] {
      var n := |games| - 1;
      var earlier, g := games[..n], games[n];
      var merged, r := Merged(canon, earlier), Resolved(canon, g);
      at := MergeInOrder(canon, earlier);
      MergeIsExact(canon, earlier);
      assert games == earlier + [g];
      EntriesOnceMore(canon, earlier, g, merged, at);
      if FindDir(merged, r.dir).None? {
        assert !Reported(canon, earlier, r.dir);
        at := at + [n];
        NewEntry(canon, games, r);
      }
    }
  }

  /** Entry `i` is about the folder first reported by `at[i]`. */
  ghost predicate Told(canon: Canon, games: seq<Game>, merged: seq<Game>, at: seq<nat>) {
    && |at| == |merged| && (forall i, j | 0 <= i < j < |at| :: at[i] < at[j])
    && forall i | 0 <= i < |merged| ::
         HasIdsFrom(canon, games, merged[i], at[i]) && HasLastState(canon, games, merged[i])
  }

  lemma EntriesOnceMore(canon: Canon, games: seq<Game>, g: Game, merged: seq<Game>, at: seq<nat>)
    requires DistinctDirs(merged) && Told(canon, games, merged, at)
    ensures Told(canon, games + [g], MergeOne(merged, Resolved(canon, g))[..|merged|], at)
  {
    forall i | 0 <= i < |merged|
      ensures var m := MergeOne(merged, Resolved(canon, g))[i];
              HasIdsFrom(canon, games + [g], m, at[i]) && HasLastState(canon, games + [g], m)
    {
      EntryOnceMore(canon, games, g, merged, i, at[i]);
    }
  }

  lemma EntryOnceMore(canon: Canon, games: seq<Game>, g: Game, merged: seq<Game>, i: nat, k: nat)
    requires i < |merged| && DistinctDirs(merged)
    requires HasIdsFrom(canon, games, merged[i], k) && HasLastState(canon, games, merged[i])
    ensures var m := MergeOne(merged, Resolved(canon, g))[i];
            HasIdsFrom(canon, games + [g], m, k) && HasLastState(canon, games + [g], m)
  {
    IdsOnceMore(canon, games, g, merged[i], k);
    StateOnceMore(canon, games, g, merged[i]);
    assert Absorbed(merged[i], Resolved(canon, g)) == Absorbed(merged[i], g);
    assert FindDir(merged, Resolved(canon, g).dir) == Some(i) <==> Reports(canon, g, merged[i].dir);
  }

  lemma NewEntry(canon: Canon, games: seq<Game>, r: Game)
    requires games != [] && r == Resolved(canon, games[|games| - 1])
    requires !Reported(canon, games[..|games| - 1], r.dir)
    ensures HasIdsFrom(canon, games, r, |games| - 1) && HasLastState(canon, games, r)
  {
    assert r.Ids() + [] == r.Ids();
    assert forall j | 0 <= j < |games| - 1 :: games[j] in games[..|games| - 1];
    assert !r.state.Idle? ==> LastBusy(canon, games, r.dir, |games| - 1);
  }

  // ---------------------------------------------------------------- remembering

  datatype Remembered = Remembered(game: Game, volume: Volume)

  /** What a scan finds on disk: the volume of a path, if it can be told, and the folders that exist. */
  datatype World = World(volume: Path -> Option<Volume>, isDir: Path -> bool)

  function FindRemembered(records: seq<Remembered>, dir: Path): (r: Option<nat>)
    ensures r.Some? ==> r.value < |records| && records[r.value].game.dir == dir
    ensures r.None? ==> forall i | 0 <= i < |records| :: records[i].game.dir != dir
  {
    if records == [] then None
    else if records[0].game.dir == dir then Some(0)
    else match FindRemembered(records[1..], dir) case Some(i) => Some(i + 1) case None => None
  }

  /** The volume the game was cached on is mounted where it was. */
  predicate Online(w: World, r: Remembered) {
    w.volume(r.volume.path).Some? && w.volume(r.volume.path).value.identity == r.volume.identity
  }

  /** The cached record for a folder, if there is one, is on a volume that is mounted. */
  predicate CacheAllows(w: World, cached: seq<Remembered>, dir: Path) {
    match FindRemembered(cached, dir) case Some(i) => Online(w, cached[i]) case None => true
  }

  predicate Sighted(w: World, cached: seq<Remembered>, game: Game) {
    CacheAllows(w, cached, game.dir) && w.volume(game.dir).Some? && w.isDir(game.dir)
  }

  function FromScan(w: World, cached: seq<Remembered>, games: seq<Game>): seq<Remembered> {
    if games == [] then []
    else
      var earlier, g := FromScan(w, cached, games[..|games| - 1]), games[|games| - 1];
      if Sighted(w, cached, g) then earlier + [Remembered(g, w.volume(g.dir).value)] else earlier
  }

  function MarkedBroken(w: World, r: Remembered): Remembered {
    r.(game := r.game.(state := Broken(Online(w, r))))
  }

  function CarriedOver(
      w: World, keep: Game -> bool, result: seq<Remembered>, cached: seq<Remembered>): seq<Remembered> {
    if cached == [] then result
    else
      var r := CarriedOver(w, keep, result, cached[..|cached| - 1]);
      var previous := cached[|cached| - 1];
      if !keep(previous.game) || FindRemembered(r, previous.game.dir).Some? then r
      else r + [MarkedBroken(w, previous)]
  }

  function Updated(w: World, keep: Game -> bool, cached: seq<Remembered>, games: seq<Game>): seq<Remembered> {
    CarriedOver(w, keep, FromScan(w, cached, games), cached)
  }

  /** `libraries.json`, rewritten by every scan. */
  class Cache {
    var records: seq<Remembered>

    constructor (records: seq<Remembered>)
      ensures this.records == records
    {
      this.records := records;
    }

    method Remember(w: World, games: seq<Game>, keep: Game -> bool) returns (result: seq<Remembered>)
      modifies this
      ensures result == records == Updated(w, keep, old(records), games)
    {
      result := [];
      for i := 0 to |games|
        invariant result == FromScan(w, records, games[..i]) && records == old(records)
      {
        assert games[..i + 1][..i] == games[..i];
        var cached := FindRemembered(records, games[i].dir);
        if cached.Some? && !Online(w, records[cached.value]) {
          continue;
        }
        var volume := w.volume(games[i].dir);
        if volume.None? || !w.isDir(games[i].dir) {
          continue;
        }
        result := result + [Remembered(games[i], volume.value)];
      }
      assert games[..|games|] == games;
      ghost var scanned := result;
      for i := 0 to |records|
        invariant result == CarriedOver(w, keep, scanned, records[..i]) && records == old(records)
      {
        assert records[..i + 1][..i] == records[..i];
        if keep(records[i].game) && FindRemembered(result, records[i].game.dir).None? {
          result := result + [MarkedBroken(w, records[i])];
        }
      }
      assert records[..|records|] == records;
      records := result;
    }
  }

  predicate OneEach(records: seq<Remembered>) {
    forall i, j | 0 <= i < j < |records| :: records[i].game.dir != records[j].game.dir
  }

  predicate HasDir(records: seq<Remembered>, dir: Path) {
    exists i | 0 <= i < |records| :: records[i].game.dir == dir
  }

  lemma {:induction false} FromScanIs(w: World, cached: seq<Remembered>, games: seq<Game>)
    requires DistinctDirs(games)
    ensures OneEach(FromScan(w, cached, games))
    ensures forall r | r in FromScan(w, cached, games) ::
              r.game in games && Sighted(w, cached, r.game) && r.volume == w.volume(r.game.dir).value
    ensures forall g | g in games && Sighted(w, cached, g) ::
              Remembered(g, w.volume(g.dir).value) in FromScan(w, cached, games)
    decreases |games|
  {
    if games != [] {
      var earlier, g := games[..|games| - 1], games[|games| - 1];
      FromScanIs(w, cached, earlier);
      var before := FromScan(w, cached, earlier);
      assert forall x | x in games :: x in earlier || x == g;
      assert forall x | x in earlier :: x.dir != g.dir && x in games;
      assert g in games;
      forall i | 0 <= i < |before| ensures before[i].game.dir != g.dir {
        assert before[i] in before;
      }
    }
  }

  /** One turn of the second loop. */
  lemma OneCarried(w: World, keep: Game -> bool, before: seq<Remembered>, p: Remembered, after: seq<Remembered>)
    requires OneEach(before)
    requires after ==
             if !keep(p.game) || FindRemembered(before, p.game.dir).Some? then before
             else before + [MarkedBroken(w, p)]
    ensures OneEach(after) && before <= after
    ensures forall dir :: HasDir(before, dir) ==> HasDir(after, dir)
    ensures keep(p.game) ==> HasDir(after, p.game.dir)
    ensures forall i | |before| <= i < |after| :: keep(p.game) && after[i] == MarkedBroken(w, p)
  {
    assert forall i | 0 <= i < |before| :: after[i] == before[i];
    if keep(p.game) && FindRemembered(before, p.game.dir).None? {
      assert after[|before|].game.dir == p.game.dir;
    }
  }

  lemma {:induction false} CarriedOverIs(w: World, keep: Game -> bool, result: seq<Remembered>, cached: seq<Remembered>)
    requires OneEach(result)
    ensures var r := CarriedOver(w, keep, result, cached);
            && OneEach(r) && result <= r
            && (forall p | p in cached && keep(p.game) :: HasDir(r, p.game.dir))
            && (forall i | |result| <= i < |r| :: exists p | p in cached :: keep(p.game) && r[i] == MarkedBroken(w, p))
    decreases |cached|
  {
    if cached != [] {
      var earlier, p := cached[..|cached| - 1], cached[|cached| - 1];
      CarriedOverIs(w, keep, result, earlier);
      var before, after := CarriedOver(w, keep, result, earlier), CarriedOver(w, keep, result, cached);
      assert p in cached && forall x | x in cached :: x in earlier || x == p;
      assert forall x | x in earlier :: x in cached;
      OneCarried(w, keep, before, p, after);
      forall q | q in cached && keep(q.game) ensures HasDir(after, q.game.dir) {
        assert q in earlier ==> HasDir(before, q.game.dir);
      }
      forall i | |result| <= i < |after|
        ensures exists p | p in cached :: keep(p.game) && after[i] == MarkedBroken(w, p)
      {
        if i < |before| {
          var q :| q in earlier && keep(q.game) && before[i] == MarkedBroken(w, q);
          assert q in cached && after[i] == before[i];
        }
      }
    }
  }

  /** This scan found a game in the folder, and the cache does not say its drive is missing. */
  predicate SightedAt(w: World, cached: seq<Remembered>, games: seq<Game>, dir: Path) {
    exists g | g in games :: g.dir == dir && Sighted(w, cached, g)
  }

  predicate FreshRecord(w: World, cached: seq<Remembered>, games: seq<Game>, r: Remembered) {
    r.game in games && Sighted(w, cached, r.game) && r.volume == w.volume(r.game.dir).value
  }

  /** `r` is `p` as it was cached, but for its state. */
  predicate CarriedRecord(
      w: World, keep: Game -> bool, cached: seq<Remembered>, games: seq<Game>, p: Remembered, r: Remembered) {
    p in cached && keep(p.game) && !SightedAt(w, cached, games, p.game.dir) && r == MarkedBroken(w, p)
  }

  ghost predicate Carried(w: World, keep: Game -> bool, cached: seq<Remembered>, games: seq<Game>, r: Remembered) {
    exists p :: CarriedRecord(w, keep, cached, games, p, r)
  }

  /**
   `remember` returns the folders this scan sighted and the kept ones it did not, and nothing else,
   each folder once.
   */
  lemma RememberIsExact(w: World, keep: Game -> bool, cached: seq<Remembered>, games: seq<Game>)
    requires DistinctDirs(games) && OneEach(cached)
    ensures OneEach(Updated(w, keep, cached, games))
    ensures forall r :: r in Updated(w, keep, cached, games) <==>
              FreshRecord(w, cached, games, r) || Carried(w, keep, cached, games, r)
  {
    var scanned, after := FromScan(w, cached, games), Updated(w, keep, cached, games);
    FromScanIs(w, cached, games);
    CarriedOverIs(w, keep, scanned, cached);
    forall r | r in after ensures FreshRecord(w, cached, games, r) || Carried(w, keep, cached, games, r) {
      AfterIsOneOf(w, keep, cached, games, r);
    }
    forall r | FreshRecord(w, cached, games, r) ensures r in after {
      assert r in scanned;
      assert after[..|scanned|] == scanned;
    }
    forall p, r | CarriedRecord(w, keep, cached, games, p, r) ensures r in after {
      CarriedIsThere(w, keep, cached, games, p);
    }
  }

  lemma AfterIsOneOf(w: World, keep: Game -> bool, cached: seq<Remembered>, games: seq<Game>, r: Remembered)
    requires DistinctDirs(games) && r in Updated(w, keep, cached, games)
    ensures FreshRecord(w, cached, games, r) || Carried(w, keep, cached, games, r)
  {
    var scanned, after := FromScan(w, cached, games), Updated(w, keep, cached, games);
    FromScanIs(w, cached, games);
    CarriedOverIs(w, keep, scanned, cached);
    var i :| 0 <= i < |after| && after[i] == r;
    if i < |scanned| {
      assert scanned[i] == r;
    } else {
      var p :| p in cached && keep(p.game) && r == MarkedBroken(w, p);
      assert forall k | 0 <= k < |scanned| :: after[k] == scanned[k];
      assert !SightedAt(w, cached, games, p.game.dir);
      assert CarriedRecord(w, keep, cached, games, p, r);
    }
  }

  lemma CarriedIsThere(w: World, keep: Game -> bool, cached: seq<Remembered>, games: seq<Game>, p: Remembered)
    requires DistinctDirs(games) && OneEach(cached)
    requires p in cached && keep(p.game) && !SightedAt(w, cached, games, p.game.dir)
    ensures MarkedBroken(w, p) in Updated(w, keep, cached, games)
  {
    var scanned, after := FromScan(w, cached, games), Updated(w, keep, cached, games);
    FromScanIs(w, cached, games);
    CarriedOverIs(w, keep, scanned, cached);
    var i :| 0 <= i < |after| && after[i].game.dir == p.game.dir;
    assert after[i] in after;
    AfterIsOneOf(w, keep, cached, games, after[i]);
    assert !FreshRecord(w, cached, games, after[i]);
    var q :| CarriedRecord(w, keep, cached, games, q, after[i]);
    assert q == p;
  }

  /** The drive of a cached record is mounted where it was. */
  predicate DriveIsBack(w: World, p: Remembered) {
    var volume := w.volume(p.volume.path);
    volume.Some? && volume.value.identity == p.volume.identity
  }

  /**
   A scanned game is sighted exactly if its folder exists on a known volume and no cached record of
   that folder is on a drive that is away; and a carried record says whether its own drive is.
   */
  lemma SightedExactly(w: World, cached: seq<Remembered>, game: Game)
    requires OneEach(cached)
    ensures Sighted(w, cached, game) <==>
              && w.isDir(game.dir) && w.volume(game.dir).Some?
              && forall p | p in cached && p.game.dir == game.dir :: DriveIsBack(w, p)
    ensures forall p :: MarkedBroken(w, p) == p.(game := p.game.(state := Broken(DriveIsBack(w, p))))
  {
    var at := FindRemembered(cached, game.dir);
    assert at.Some? ==> cached[at.value] in cached;
  }

  lemma {:induction false} ScanInOrder(w: World, cached: seq<Remembered>, games: seq<Game>) returns (at: seq<nat>)
    ensures var scanned := FromScan(w, cached, games);
            && |at| == |scanned| && (forall j, k | 0 <= j < k < |at| :: at[j] < at[k])
            && forall k | 0 <= k < |at| :: at[k] < |games| && scanned[k].game == games[at[k]]
    decreases |games|
  {
    at := [];
    if games != [] {
      var n := |games| - 1;
      at := ScanInOrder(w, cached, games[..n]);
      if Sighted(w, cached, games[n]) { at := at + [n]; }
    }
  }

  lemma {:induction false} CarriedInOrder(
      w: World, keep: Game -> bool, result: seq<Remembered>, cached: seq<Remembered>) returns (at: seq<nat>)
    ensures var after := CarriedOver(w, keep, result, cached);
            && result <= after && |at| == |after| - |result|
            && (forall j, k | 0 <= j < k < |at| :: at[j] < at[k])
            && forall k | 0 <= k < |at| ::
                 at[k] < |cached| && after[|result| + k] == MarkedBroken(w, cached[at[k]])
    decreases |cached|
  {
    at := [];
    if cached != [] {
      var n := |cached| - 1;
      at := CarriedInOrder(w, keep, result, cached[..n]);
      if CarriedOver(w, keep, result, cached) != CarriedOver(w, keep, result, cached[..n]) { at := at + [n]; }
    }
  }

  /** The sighted games come first, as they were scanned, and then the carried records, as they were cached. */
  lemma RememberInOrder(w: World, keep: Game -> bool, cached: seq<Remembered>, games: seq<Game>)
      returns (scanned: seq<nat>, carried: seq<nat>)
    ensures var after := Updated(w, keep, cached, games);
            && |after| == |scanned| + |carried|
            && (forall j, k | 0 <= j < k < |scanned| :: scanned[j] < scanned[k])
            && (forall j, k | 0 <= j < k < |carried| :: carried[j] < carried[k])
            && (forall k | 0 <= k < |scanned| :: scanned[k] < |games| && after[k].game == games[scanned[k]])
            && forall k | 0 <= k < |carried| ::
                 carried[k] < |cached| && after[|scanned| + k] == MarkedBroken(w, cached[carried[k]])
  {
    scanned := ScanInOrder(w, cached, games);
    carried := CarriedInOrder(w, keep, FromScan(w, cached, games), cached);
  }

  /** A game is only ever offered as working if this scan found it, on the drive it was last known on. */
  lemma WorkingIsReal(
      w: World, keep: Game -> bool, cached: seq<Remembered>, games: seq<Game>, r: Remembered, p: Remembered)
    requires DistinctDirs(games) && OneEach(cached)
    requires r in Updated(w, keep, cached, games) && !r.game.state.Broken?
    ensures r.game in games && w.isDir(r.game.dir) && w.volume(r.game.dir) == Some(r.volume)
    ensures p in cached && p.game.dir == r.game.dir ==> Online(w, p)
  {
    AfterIsOneOf(w, keep, cached, games, r);
  }

  // ---- over any number of scans

  datatype Scan = Scan(world: World, games: seq<Game>, keep: Game -> bool)

  function AfterScans(cached: seq<Remembered>, scans: seq<Scan>): seq<Remembered> {
    if scans == [] then cached
    else
      var last := scans[|scans| - 1];
      Updated(last.world, last.keep, AfterScans(cached, scans[..|scans| - 1]), last.games)
  }

  ghost predicate KeepsDir(keep: Game -> bool, dir: Path) {
    forall g: Game :: g.dir == dir ==> keep(g)
  }

  /** A folder whose every game is kept is never forgotten, and never doubled. */
  lemma {:induction false} NeverForgotten(cached: seq<Remembered>, scans: seq<Scan>, dir: Path)
    requires OneEach(cached) && HasDir(cached, dir)
    requires forall k | 0 <= k < |scans| :: DistinctDirs(scans[k].games)
    requires forall k | 0 <= k < |scans| :: KeepsDir(scans[k].keep, dir)
    ensures OneEach(AfterScans(cached, scans)) && HasDir(AfterScans(cached, scans), dir)
    decreases |scans|
  {
    if scans != [] {
      var earlier, last := scans[..|scans| - 1], scans[|scans| - 1];
      NeverForgotten(cached, earlier, dir);
      var before := AfterScans(cached, earlier);
      FromScanIs(last.world, before, last.games);
      CarriedOverIs(last.world, last.keep, FromScan(last.world, before, last.games), before);
      var i :| 0 <= i < |before| && before[i].game.dir == dir;
      assert before[i] in before && KeepsDir(last.keep, dir);
    }
  }

  /** While its drive is away a game keeps its record, whatever else is mounted or found in its place. */
  lemma {:induction false} AwayKeepsRecord(cached: seq<Remembered>, scans: seq<Scan>, p: Remembered)
    requires OneEach(cached) && p in cached
    requires forall k | 0 <= k < |scans| :: DistinctDirs(scans[k].games) && !Online(scans[k].world, p)
    requires forall k | 0 <= k < |scans| :: KeepsDir(scans[k].keep, p.game.dir)
    ensures OneEach(AfterScans(cached, scans))
    ensures (if scans == [] then p else p.(game := p.game.(state := Broken(false)))) in AfterScans(cached, scans)
    decreases |scans|
  {
    if scans != [] {
      var earlier, last := scans[..|scans| - 1], scans[|scans| - 1];
      AwayKeepsRecord(cached, earlier, p);
      var before := AfterScans(cached, earlier);
      var now := if earlier == [] then p else p.(game := p.game.(state := Broken(false)));
      RememberIsExact(last.world, last.keep, before, last.games);
      assert now.game == p.game.(state := now.game.state);
      assert !SightedAt(last.world, before, last.games, p.game.dir);
      CarriedIsThere(last.world, last.keep, before, last.games, now);
    }
  }

  // ---- what the settings keep

  datatype LocationKind = GameFolder | Collection

  datatype Location = Location(path: Path, kind: LocationKind)

  /** Paths as the file system sees them: which exist, and their canonical forms. */
  datatype Tree = Tree(present: Path -> bool, canon: Canon)

  /** The length of the longest prefix of `path` that exists. */
  function Deepest(t: Tree, path: Path, k: nat): (r: Option<nat>)
    requires k <= |path|
    ensures r.Some? ==> r.value <= k && t.present(path[..r.value])
    ensures forall j: nat | j <= k && (r.Some? ==> r.value < j) :: !t.present(path[..j])
  {
    if t.present(path[..k]) then Some(k)
    else if k == 0 then None
    else Deepest(t, path, k - 1)
  }

  /** `resolved_path`. */
  function ResolvedPath(t: Tree, path: Path): Path {
    match Deepest(t, path, |path|)
    case None => path
    case Some(k) => (match t.canon(path[..k]) case Some(c) => c + path[k..] case None => path)
  }

  /** Two spellings of a folder that differ in an existing ancestor stay one folder while the rest is offline. */
  lemma AliasesStayAliases(t: Tree, a: Path, b: Path, rest: Path)
    requires t.present(a) && t.present(b) && t.canon(a).Some? && t.canon(a) == t.canon(b)
    requires forall k: nat | 0 < k <= |rest| :: !t.present(a + rest[..k]) && !t.present(b + rest[..k])
    ensures ResolvedPath(t, a + rest) == ResolvedPath(t, b + rest) == t.canon(a).value + rest
  {
    ResolvesBelow(t, a, rest);
    ResolvesBelow(t, b, rest);
  }

  lemma ResolvesBelow(t: Tree, a: Path, rest: Path)
    requires t.present(a) && t.canon(a).Some?
    requires forall k: nat | 0 < k <= |rest| :: !t.present(a + rest[..k])
    ensures ResolvedPath(t, a + rest) == t.canon(a).value + rest
  {
    var path := a + rest;
    assert path[..|a|] == a && path[|a|..] == rest;
    forall j: nat | |a| < j <= |path| ensures !t.present(path[..j]) {
      assert path[..j] == a + rest[..j - |a|];
    }
    var deepest := Deepest(t, path, |path|);
    assert deepest == Some(|a|);
  }

  predicate Covers(t: Tree, location: Location, dir: Path) {
    var path, game := ResolvedPath(t, location.path), ResolvedPath(t, dir);
    match location.kind
    case GameFolder => game == path
    case Collection => |game| > 0 && game[..|game| - 1] == path
  }

  /** `Preferences::keeps`. */
  predicate Keeps(t: Tree, locations: seq<Location>, game: Game) {
    !game.manual || exists i | 0 <= i < |locations| :: Covers(t, locations[i], game.dir)
  }

  datatype Settings = Settings(tree: Tree, locations: seq<Location>)
  {
    predicate Cover(dir: Path) { exists i | 0 <= i < |locations| :: Covers(tree, locations[i], dir) }

    ghost predicate Decide(keep: Game -> bool) { forall g :: keep(g) <==> Keeps(tree, locations, g) }
  }

  /** A folder is never forgotten while the settings at each scan cover it, even when it was added by hand. */
  lemma CoveredIsNeverForgotten(cached: seq<Remembered>, scans: seq<Scan>, settings: seq<Settings>, dir: Path)
    requires OneEach(cached) && HasDir(cached, dir) && |settings| == |scans|
    requires forall k | 0 <= k < |scans| :: DistinctDirs(scans[k].games)
    requires forall k | 0 <= k < |scans| :: settings[k].Cover(dir) && settings[k].Decide(scans[k].keep)
    ensures OneEach(AfterScans(cached, scans)) && HasDir(AfterScans(cached, scans), dir)
  {
    forall k | 0 <= k < |scans| ensures KeepsDir(scans[k].keep, dir) {
      assert settings[k].Cover(dir) && settings[k].Decide(scans[k].keep);
    }
    NeverForgotten(cached, scans, dir);
  }

  /** A game added by hand that a scan does not find stays exactly if a location covers its folder. */
  lemma MissedStaysIfCovered(
      settings: Settings, w: World, keep: Game -> bool, cached: seq<Remembered>, games: seq<Game>, p: Remembered)
    requires settings.Decide(keep)
    requires DistinctDirs(games) && OneEach(cached) && p in cached && p.game.manual
    requires !SightedAt(w, cached, games, p.game.dir)
    ensures HasDir(Updated(w, keep, cached, games), p.game.dir) <==> settings.Cover(p.game.dir)
  {
    var after := Updated(w, keep, cached, games);
    if keep(p.game) {
      CarriedIsThere(w, keep, cached, games, p);
      var k :| 0 <= k < |after| && after[k] == MarkedBroken(w, p);
      assert after[k].game.dir == p.game.dir;
    }
    if HasDir(after, p.game.dir) {
      var i :| 0 <= i < |after| && after[i].game.dir == p.game.dir;
      assert after[i] in after;
      AfterIsOneOf(w, keep, cached, games, after[i]);
      assert !FreshRecord(w, cached, games, after[i]);
      var q :| CarriedRecord(w, keep, cached, games, q, after[i]);
      assert q == p;
    }
  }
}
