/** The state database: which files still need work, from the receipts of earlier passes. */
module Receipts {
  import opened Common
  import opened Games

  type Rel = string

  const NOT_ATTEMPTED := 0

  /** A walked file: its path, the four identity fields, and whether the plan compresses it. */
  datatype Entry = Entry(rel: Rel, size: u64, ino: u64, mtime: int, ctime: int, compress: bool)

  /** A row of `files`, in the signed columns SQLite has. */
  datatype Row = Row(size: int, ino: int, mtime: int, ctime: int, level: int)

  datatype GameRow = GameRow(path: Path, level: int)

  datatype Tables = Tables(games: map<GameId, GameRow>, files: map<GameId, map<Rel, Row>>)

  datatype Receipt = Receipt(entry: Entry, level: int)

  // ---------------------------------------------------------------- columns

  const I64_MAX: int := 0x7FFF_FFFF_FFFF_FFFF

  /** `value as i64` and back: the same 64 bits read as signed and as unsigned. */
  function AsI64(v: u64): int {
    if v > I64_MAX then v - (U64_MAX + 1) else v
  }

  function AsU64(v: int): int {
    if v < 0 then v + (U64_MAX + 1) else v
  }

  lemma ColumnsRoundTrip(v: u64, w: u64)
    ensures AsU64(AsI64(v)) == v && -I64_MAX - 1 <= AsI64(v) <= I64_MAX
    ensures AsI64(v) == AsI64(w) ==> v == w
  {
  }

  /** `ns_to_i64` accepts the timestamp. */
  predicate Fits(ns: int) {
    -I64_MAX - 1 <= ns <= I64_MAX
  }

  predicate AllFit(inv: seq<Entry>) {
    forall e | e in inv :: Fits(e.mtime) && Fits(e.ctime)
  }

  /** `FileFingerprint::matches` on a row read back. */
  predicate Matches(row: Row, e: Entry) {
    AsU64(row.size) == e.size && AsU64(row.ino) == e.ino && row.mtime == e.mtime && row.ctime == e.ctime
  }

  /** The same (size, inode, mtime, ctime) under the same path. */
  predicate SameFile(a: Entry, b: Entry) {
    a.rel == b.rel && a.size == b.size && a.ino == b.ino && a.mtime == b.mtime && a.ctime == b.ctime
  }

  // ---------------------------------------------------------------- the operations, on values

  function Stored(t: Tables, id: GameId): map<Rel, Row> {
    if id in t.files then t.files[id] else map[]
  }

  /** The levels of rows that still match the walk. */
  function CarriedLevels(stored: map<Rel, Row>, inv: seq<Entry>): map<Rel, int> {
    if inv == [] then map[]
    else
      var levels, e := CarriedLevels(stored, inv[..|inv| - 1]), inv[|inv| - 1];
      if e.rel in stored && Matches(stored[e.rel], e) then levels[e.rel := stored[e.rel].level] else levels
  }

  function WithReceipts(levels: map<Rel, int>, completed: seq<Receipt>): map<Rel, int> {
    if completed == [] then levels
    else
      var last := completed[|completed| - 1];
      WithReceipts(levels, completed[..|completed| - 1])[last.entry.rel := last.level]
  }

  function RowFor(e: Entry, levels: map<Rel, int>): Row {
    Row(AsI64(e.size), AsI64(e.ino), e.mtime, e.ctime, if e.rel in levels then levels[e.rel] else NOT_ATTEMPTED)
  }

  function RowsFor(inv: seq<Entry>, levels: map<Rel, int>): map<Rel, Row> {
    if inv == [] then map[]
    else var e := inv[|inv| - 1]; RowsFor(inv[..|inv| - 1], levels)[e.rel := RowFor(e, levels)]
  }

  /** `record_outcome`, one transaction: a timestamp that does not fit rolls all of it back. */
  function Recorded(t: Tables, id: GameId, game: GameRow, inv: seq<Entry>, completed: seq<Receipt>): Tables {
    if AllFit(inv) then
      var levels := WithReceipts(CarriedLevels(Stored(t, id), inv), completed);
      Tables(t.games[id := game], t.files[id := RowsFor(inv, levels)])
    else t
  }

  function Invalidated(t: Tables, path: Path): Tables {
    var hit := set id | id in t.games && t.games[id].path == path;
    Tables(map id | id in t.games :: if id in hit then t.games[id].(level := 0) else t.games[id], t.files - hit)
  }

  function Forgotten(t: Tables, id: GameId): Tables {
    Tables(t.games - {id}, t.files - {id})
  }

  /** A file a fresh pass has to touch. */
  predicate NeedsWork(t: Tables, id: GameId, e: Entry) {
    var stored := Stored(t, id);
    e.rel in stored ==> !Matches(stored[e.rel], e) || (e.compress && stored[e.rel].level == NOT_ATTEMPTED)
  }

  /** There is no row, its fingerprint differs, or the plan compresses a file that was not attempted. */
  predicate StillToDo(rows: map<Rel, Row>, e: Entry) {
    || e.rel !in rows
    || !(AsU64(rows[e.rel].size) == e.size && AsU64(rows[e.rel].ino) == e.ino)
    || rows[e.rel].mtime != e.mtime || rows[e.rel].ctime != e.ctime
    || (e.compress && rows[e.rel].level == NOT_ATTEMPTED)
  }

  function Pending(t: Tables, id: GameId, inv: seq<Entry>): seq<Entry> {
    if inv == [] then []
    else
      var e := inv[|inv| - 1];
      Pending(t, id, inv[..|inv| - 1]) + if NeedsWork(t, id, e) then [e] else []
  }

  // ---------------------------------------------------------------- the database object

  class Db {
    var games: map<GameId, GameRow>
    var files: map<GameId, map<Rel, Row>>

    function View(): Tables
      reads this
    {
      Tables(games, files)
    }

    constructor ()
      ensures View() == Tables(map[], map[])
    {
      games, files := map[], map[];
    }

    method RecordOutcome(id: GameId, game: GameRow, inv: seq<Entry>, completed: seq<Receipt>) returns (ok: bool)
      modifies this
      ensures ok == AllFit(inv)
      ensures View() == Recorded(old(View()), id, game, inv, completed)
    {
      var stored := Stored(View(), id);
      var levels: map<Rel, int> := map[];
      for i := 0 to |inv|
        invariant levels == CarriedLevels(stored, inv[..i])
      {
        assert inv[..i + 1][..i] == inv[..i];
        if inv[i].rel in stored && Matches(stored[inv[i].rel], inv[i]) {
          levels := levels[inv[i].rel := stored[inv[i].rel].level];
        }
      }
      assert inv[..|inv|] == inv;
      for i := 0 to |completed|
        invariant levels == WithReceipts(CarriedLevels(stored, inv), completed[..i])
      {
        assert completed[..i + 1][..i] == completed[..i];
        levels := levels[completed[i].entry.rel := completed[i].level];
      }
      assert completed[..|completed|] == completed;
      ok := RecordWithLevels(id, game, inv, levels);
    }

    method RecordWithLevels(id: GameId, game: GameRow, inv: seq<Entry>, levels: map<Rel, int>) returns (ok: bool)
      modifies this
      ensures ok == AllFit(inv)
      ensures games == if ok then old(games)[id := game] else old(games)
      ensures files == if ok then old(files)[id := RowsFor(inv, levels)] else old(files)
    {
      var rows: map<Rel, Row> := map[];
      for i := 0 to |inv|
        invariant rows == RowsFor(inv[..i], levels) && AllFit(inv[..i])
      {
        assert inv[..i + 1][..i] == inv[..i];
        if !Fits(inv[i].mtime) || !Fits(inv[i].ctime) {
          return false;
        }
        rows := rows[inv[i].rel := RowFor(inv[i], levels)];
      }
      assert inv[..|inv|] == inv;
      games := games[id := game];
      files := files[id := rows];
      return true;
    }

    method InvalidateCompression(path: Path)
      modifies this
      ensures View() == Invalidated(old(View()), path)
      ensures forall id :: id in files <==> id in old(files) && !(id in old(games) && old(games)[id].path == path)
      ensures forall id | id in files :: files[id] == old(files)[id]
      ensures games.Keys == old(games).Keys
      ensures forall id | id in games ::
                games[id] == if old(games)[id].path == path then old(games)[id].(level := 0) else old(games)[id]
    {
      var hit := set id | id in games && games[id].path == path;
      files := files - hit;
      games := map id | id in games :: if id in hit then games[id].(level := 0) else games[id];
    }

    method Forget(id: GameId)
      modifies this
      ensures View() == Forgotten(old(View()), id)
      ensures id !in games && id !in files
      ensures forall other | other != id ::
                && (other in games <==> other in old(games)) && (other in games ==> games[other] == old(games)[other])
                && (other in files <==> other in old(files)) && (other in files ==> files[other] == old(files)[other])
    {
      files := files - {id};
      games := games - {id};
    }

    method ChangedSince(id: GameId, inv: seq<Entry>) returns (changed: seq<Entry>)
      ensures changed == Pending(View(), id, inv)
      ensures exists at: seq<nat> ::
                && Picks(inv, at, changed)
                && forall i: nat ::
                     i in at <==> i < |inv| && StillToDo(if id in files then files[id] else map[], inv[i])
    {
      var stored := Stored(View(), id);
      changed := [];
      for i := 0 to |inv|
        invariant changed == Pending(View(), id, inv[..i])
      {
        assert inv[..i + 1][..i] == inv[..i];
        var e := inv[i];
        if e.rel !in stored || !Matches(stored[e.rel], e) || (e.compress && stored[e.rel].level == NOT_ATTEMPTED) {
          changed := changed + [e];
        }
      }
      assert inv[..|inv|] == inv;
      ghost var at := PendingInOrder(View(), id, inv);
    }
  }

  // ---------------------------------------------------------------- histories

  datatype Event =
    | Record(id: GameId, game: GameRow, inv: seq<Entry>, completed: seq<Receipt>)
    | Invalidate(path: Path)
    | Forget(id: GameId)

  function After(h: seq<Event>): Tables {
    if h == [] then Tables(map[], map[])
    else
      var t := After(h[..|h| - 1]);
      match h[|h| - 1]
      case Record(id, game, inv, completed) => Recorded(t, id, game, inv, completed)
      case Invalidate(path) => Invalidated(t, path)
      case Forget(id) => Forgotten(t, id)
  }

  predicate DistinctPaths(inv: seq<Entry>) {
    forall i, j | 0 <= i < j < |inv| :: inv[i].rel != inv[j].rel
  }

  /** A pass walks each path once, and its receipts are for files of its walk. */
  predicate WellFormed(h: seq<Event>) {
    forall e | e in h && e.Record? :: DistinctPaths(e.inv) && forall r | r in e.completed :: r.entry in e.inv
  }

  // ---- an independent account: which event of the history is evidence for a file

  /** The event is a pass over the game that was committed. */
  predicate Passes(e: Event, id: GameId) {
    e.Record? && e.id == id && AllFit(e.inv)
  }

  /** The level of the last receipt for a path. */
  function LastReceipt(completed: seq<Receipt>, rel: Rel): Option<int> {
    if completed == [] then None
    else if completed[|completed| - 1].entry.rel == rel then Some(completed[|completed| - 1].level)
    else LastReceipt(completed[..|completed| - 1], rel)
  }

  predicate Lists(inv: seq<Entry>, e: Entry) {
    exists x | x in inv :: SameFile(x, e)
  }

  /** The pass issued a receipt for exactly this file, at a real level. */
  predicate Issues(event: Event, id: GameId, e: Entry) {
    && Passes(event, id) && Lists(event.inv, e)
    && var r := LastReceipt(event.completed, e.rel); r.Some? && r.value != NOT_ATTEMPTED
  }

  /** The folder the game is recorded under at the end of a history. */
  function FolderOf(h: seq<Event>, id: GameId): Option<Path> {
    if h == [] then None
    else
      var e := h[|h| - 1];
      if Passes(e, id) then Some(e.game.path)
      else if e.Forget? && e.id == id then None
      else FolderOf(h[..|h| - 1], id)
  }

  /** Event `j` leaves evidence for the file standing. */
  predicate Keeps(h: seq<Event>, j: nat, id: GameId, e: Entry)
    requires j < |h|
  {
    && !(h[j].Forget? && h[j].id == id)
    && !(h[j].Invalidate? && FolderOf(h[..j], id) == Some(h[j].path))
    && (Passes(h[j], id) ==> Lists(h[j].inv, e) && LastReceipt(h[j].completed, e.rel) != Some(NOT_ATTEMPTED))
  }

  /** Some pass issued a receipt for exactly this file, and nothing since took it away. */
  ghost predicate Evidence(h: seq<Event>, id: GameId, e: Entry) {
    exists k: nat :: k < |h| && EvidenceAt(h, k, id, e)
  }

  predicate EvidenceAt(h: seq<Event>, k: nat, id: GameId, e: Entry)
    requires k < |h|
  {
    Issues(h[k], id, e) && forall j: nat | k < j < |h| :: Keeps(h, j, id, e)
  }

  // ---------------------------------------------------------------- what one pass writes

  lemma {:induction false} RowsOnly(inv: seq<Entry>, levels: map<Rel, int>, rel: Rel)
    requires rel in RowsFor(inv, levels)
    ensures exists x | x in inv :: x.rel == rel
    decreases |inv|
  {
    var earlier, e := inv[..|inv| - 1], inv[|inv| - 1];
    assert e in inv;
    if rel != e.rel {
      RowsOnly(earlier, levels, rel);
      var x :| x in earlier && x.rel == rel;
      assert x in inv;
    }
  }

  lemma {:induction false} RowsHave(inv: seq<Entry>, levels: map<Rel, int>, i: nat)
    requires DistinctPaths(inv) && i < |inv|
    ensures inv[i].rel in RowsFor(inv, levels) && RowsFor(inv, levels)[inv[i].rel] == RowFor(inv[i], levels)
    decreases |inv|
  {
    if i < |inv| - 1 {
      RowsHave(inv[..|inv| - 1], levels, i);
    }
  }

  lemma RowsAt(inv: seq<Entry>, levels: map<Rel, int>)
    requires DistinctPaths(inv)
    ensures forall x | x in inv :: x.rel in RowsFor(inv, levels) && RowsFor(inv, levels)[x.rel] == RowFor(x, levels)
    ensures forall rel | rel in RowsFor(inv, levels) :: exists x | x in inv :: x.rel == rel
  {
    forall i | 0 <= i < |inv| {
      RowsHave(inv, levels, i);
    }
    forall rel | rel in RowsFor(inv, levels) ensures exists x | x in inv :: x.rel == rel {
      RowsOnly(inv, levels, rel);
    }
  }

  lemma {:induction false} CarriedAt(stored: map<Rel, Row>, inv: seq<Entry>)
    requires DistinctPaths(inv)
    ensures var levels := CarriedLevels(stored, inv);
            && (forall x | x in inv && x.rel in stored && Matches(stored[x.rel], x) ::
                  x.rel in levels && levels[x.rel] == stored[x.rel].level)
            && (forall x | x in inv && !(x.rel in stored && Matches(stored[x.rel], x)) :: x.rel !in levels)
            && (forall rel | rel in levels :: exists x | x in inv :: x.rel == rel)
    decreases |inv|
  {
    if inv != [] {
      var earlier, e := inv[..|inv| - 1], inv[|inv| - 1];
      CarriedAt(stored, earlier);
      assert forall x | x in inv :: x in earlier || x == e;
      assert forall x | x in earlier :: x.rel != e.rel && x in inv;
      assert e in inv;
    }
  }

  lemma {:induction false} ReceiptsAt(levels: map<Rel, int>, completed: seq<Receipt>, rel: Rel)
    ensures var after := WithReceipts(levels, completed);
            match LastReceipt(completed, rel)
            case Some(level) => rel in after && after[rel] == level
            case None => (rel in after <==> rel in levels) && (rel in levels ==> after[rel] == levels[rel])
    decreases |completed|
  {
    if completed != [] {
      ReceiptsAt(levels, completed[..|completed| - 1], rel);
    }
  }

  /** The row of exactly this file, at a real level. */
  predicate GoodRow(t: Tables, id: GameId, e: Entry) {
    e.rel in Stored(t, id) && Matches(Stored(t, id)[e.rel], e) && Stored(t, id)[e.rel].level != NOT_ATTEMPTED
  }

  lemma PassWrites(t: Tables, id: GameId, game: GameRow, inv: seq<Entry>, completed: seq<Receipt>, e: Entry)
    requires DistinctPaths(inv) && AllFit(inv)
    ensures GoodRow(Recorded(t, id, game, inv, completed), id, e) <==>
              && Lists(inv, e)
              && match LastReceipt(completed, e.rel)
                 case Some(level) => level != NOT_ATTEMPTED
                 case None => GoodRow(t, id, e)
  {
    var carried := CarriedLevels(Stored(t, id), inv);
    var levels := WithReceipts(carried, completed);
    CarriedAt(Stored(t, id), inv);
    ReceiptsAt(carried, completed, e.rel);
    RowsAt(inv, levels);
    if e.rel in RowsFor(inv, levels) {
      var x :| x in inv && x.rel == e.rel;
      ColumnsRoundTrip(x.size, e.size);
      ColumnsRoundTrip(x.ino, e.ino);
      assert Matches(RowFor(x, levels), e) <==> SameFile(x, e);
    }
    if Lists(inv, e) {
      var y :| y in inv && SameFile(y, e);
      assert y.rel in RowsFor(inv, levels);
    }
  }

  /** The level a pass leaves for a file: its last receipt's, else the one of a row that still fits, else none. */
  function LevelAfter(rows: map<Rel, Row>, completed: seq<Receipt>, e: Entry): int {
    match LastReceipt(completed, e.rel)
    case Some(level) => level
    case None => if e.rel in rows && Matches(rows[e.rel], e) then rows[e.rel].level else NOT_ATTEMPTED
  }

  /**
   A committed pass leaves the game's row, one row for each file of the walk with its identity and
   level, and no other.
   */
  lemma PassRowsExactly(t: Tables, id: GameId, game: GameRow, inv: seq<Entry>, completed: seq<Receipt>)
    requires DistinctPaths(inv)
    ensures var after := Recorded(t, id, game, inv, completed);
            if !AllFit(inv) then after == t
            else
              && after.games == t.games[id := game]
              && id in after.files
              && (forall other | other != id ::
                    && (other in after.files <==> other in t.files)
                    && (other in t.files ==> after.files[other] == t.files[other]))
              && (forall rel | rel in after.files[id] :: exists x | x in inv :: x.rel == rel)
              && (forall x | x in inv ::
                    && x.rel in after.files[id]
                    && RowIs(after.files[id][x.rel], x, LevelAfter(Stored(t, id), completed, x)))
  {
    if AllFit(inv) {
      RowsAt(inv, WithReceipts(CarriedLevels(Stored(t, id), inv), completed));
      forall x | x in inv
        ensures var rows := Recorded(t, id, game, inv, completed).files[id];
                x.rel in rows && RowIs(rows[x.rel], x, LevelAfter(Stored(t, id), completed, x))
      {
        PassRow(Stored(t, id), inv, completed, x);
      }
    }
  }

  predicate RowIs(row: Row, e: Entry, level: int) {
    && AsU64(row.size) == e.size && AsU64(row.ino) == e.ino && row.mtime == e.mtime && row.ctime == e.ctime
    && row.level == level
  }

  lemma PassRow(stored: map<Rel, Row>, inv: seq<Entry>, completed: seq<Receipt>, x: Entry)
    requires DistinctPaths(inv) && x in inv
    ensures var rows := RowsFor(inv, WithReceipts(CarriedLevels(stored, inv), completed));
            x.rel in rows && RowIs(rows[x.rel], x, LevelAfter(stored, completed, x))
  {
    var carried := CarriedLevels(stored, inv);
    CarriedAt(stored, inv);
    ReceiptsAt(carried, completed, x.rel);
    RowsAt(inv, WithReceipts(carried, completed));
    ColumnsRoundTrip(x.size, x.size);
    ColumnsRoundTrip(x.ino, x.ino);
  }

  lemma PassesAreSeparate(t: Tables, event: Event, id: GameId, e: Entry)
    requires event.Record? && event.id != id
    ensures GoodRow(Recorded(t, event.id, event.game, event.inv, event.completed), id, e) == GoodRow(t, id, e)
  {
  }

  // ---------------------------------------------------------------- the tables follow the history

  lemma {:induction false} GamesFollow(h: seq<Event>, id: GameId)
    ensures match FolderOf(h, id)
            case Some(path) => id in After(h).games && After(h).games[id].path == path
            case None => id !in After(h).games
    decreases |h|
  {
    if h != [] {
      GamesFollow(h[..|h| - 1], id);
    }
  }

  /** A file has a good row exactly if the history holds evidence for it. */
  lemma {:induction false} RowsFollow(h: seq<Event>, id: GameId, e: Entry)
    requires WellFormed(h)
    ensures GoodRow(After(h), id, e) <==> Evidence(h, id, e)
    decreases |h|
  {
    if h != [] {
      var n := |h| - 1;
      var before, event := h[..n], h[n];
      assert forall x | x in h :: x in before || x == event;
      RowsFollow(before, id, e);
      EvidenceUnfolds(h, id, e);
      GamesFollow(before, id);
      assert event in h;
      if event.Record? {
        if event.id == id && AllFit(event.inv) {
          PassWrites(After(before), id, event.game, event.inv, event.completed, e);
        } else if event.id != id {
          PassesAreSeparate(After(before), event, id, e);
        }
      }
    }
  }

  lemma KeepsInPrefix(h: seq<Event>, n: nat, j: nat, id: GameId, e: Entry)
    requires j < n <= |h|
    ensures Keeps(h[..n], j, id, e) == Keeps(h, j, id, e)
  {
    assert h[..n][..j] == h[..j] && h[..n][j] == h[j];
  }

  lemma EvidenceUnfolds(h: seq<Event>, id: GameId, e: Entry)
    requires h != []
    ensures var n := |h| - 1;
            Evidence(h, id, e) <==> Issues(h[n], id, e) || (Evidence(h[..n], id, e) && Keeps(h, n, id, e))
  {
    var n := |h| - 1;
    var before := h[..n];
    forall k: nat | k < n ensures EvidenceAt(before, k, id, e) && Keeps(h, n, id, e) <==> EvidenceAt(h, k, id, e) {
      EvidenceInPrefix(h, k, id, e);
    }
    if Evidence(before, id, e) && Keeps(h, n, id, e) {
      var k: nat :| k < n && EvidenceAt(before, k, id, e);
      assert EvidenceAt(h, k, id, e);
    }
    if Evidence(h, id, e) && !Issues(h[n], id, e) {
      var k: nat :| k < |h| && EvidenceAt(h, k, id, e);
      assert EvidenceAt(before, k, id, e);
    }
    assert Issues(h[n], id, e) ==> EvidenceAt(h, n, id, e);
  }

  lemma EvidenceInPrefix(h: seq<Event>, k: nat, id: GameId, e: Entry)
    requires k < |h| - 1
    ensures EvidenceAt(h[..|h| - 1], k, id, e) && Keeps(h, |h| - 1, id, e) <==> EvidenceAt(h, k, id, e)
  {
    var n := |h| - 1;
    var before := h[..n];
    assert before[k] == h[k];
    forall j: nat | j < n ensures Keeps(before, j, id, e) == Keeps(h, j, id, e) {
      KeepsInPrefix(h, n, j, id, e);
    }
    assert EvidenceAt(h, k, id, e) ==> Keeps(h, n, id, e);
  }

  lemma {:induction false} PendingInOrder(t: Tables, id: GameId, inv: seq<Entry>) returns (at: seq<nat>)
    ensures Picks(inv, at, Pending(t, id, inv))
    ensures forall i: nat :: i in at <==> i < |inv| && StillToDo(Stored(t, id), inv[i])
    decreases |inv|
  {
    at := [];
    if inv != [] {
      var n := |inv| - 1;
      at := PendingInOrder(t, id, inv[..n]);
      PicksOneMore(inv[..n], at, Pending(t, id, inv[..n]), inv[n]);
      assert inv == inv[..n] + [inv[n]];
      if NeedsWork(t, id, inv[n]) { at := at + [n]; }
    }
  }

  lemma {:induction false} PendingIsFilter(t: Tables, id: GameId, inv: seq<Entry>, e: Entry)
    ensures e in Pending(t, id, inv) <==> e in inv && NeedsWork(t, id, e)
    decreases |inv|
  {
    if inv != [] {
      PendingIsFilter(t, id, inv[..|inv| - 1], e);
      assert e in inv <==> e in inv[..|inv| - 1] || e == inv[|inv| - 1];
    }
  }

  /**
   After any history of passes, edits, invalidations and forgetting: a compressible file of the walk
   is left out exactly when a receipt was issued for exactly its size, inode, mtime and ctime and
   nothing since took that evidence away.
   */
  lemma OmittedExactlyOnEvidence(h: seq<Event>, id: GameId, inv: seq<Entry>, e: Entry)
    requires WellFormed(h) && e in inv && e.compress
    ensures e !in Pending(After(h), id, inv) <==> Evidence(h, id, e)
  {
    PendingIsFilter(After(h), id, inv, e);
    RowsFollow(h, id, e);
  }

  /** The last committed pass since the game was forgotten or invalidated listed exactly this file. */
  ghost predicate Listed(h: seq<Event>, id: GameId, e: Entry) {
    exists k | 0 <= k < |h| ::
      && Passes(h[k], id) && Lists(h[k].inv, e)
      && forall j: nat | k < j < |h| ::
           !Passes(h[j], id) && !(h[j].Forget? && h[j].id == id)
           && !(h[j].Invalidate? && FolderOf(h[..j], id) == Some(h[j].path))
  }

  lemma {:induction false} ListedFollows(h: seq<Event>, id: GameId, e: Entry)
    requires WellFormed(h)
    ensures Listed(h, id, e) <==> e.rel in Stored(After(h), id) && Matches(Stored(After(h), id)[e.rel], e)
    decreases |h|
  {
    if h != [] {
      var n := |h| - 1;
      var before, event := h[..n], h[n];
      assert event in h && forall x | x in before :: x in h;
      ListedFollows(before, id, e);
      ListedUnfolds(h, id, e);
      GamesFollow(before, id);
      if Passes(event, id) {
        PassRowsExactly(After(before), id, event.game, event.inv, event.completed);
        FilesMatch(event.inv, Stored(After(h), id), e);
      }
    }
  }

  lemma ListedUnfolds(h: seq<Event>, id: GameId, e: Entry)
    requires h != []
    ensures var n := |h| - 1;
            Listed(h, id, e) <==>
              if Passes(h[n], id) then Lists(h[n].inv, e)
              else
                && Listed(h[..n], id, e) && !(h[n].Forget? && h[n].id == id)
                && !(h[n].Invalidate? && FolderOf(h[..n], id) == Some(h[n].path))
  {
    var n := |h| - 1;
    var before := h[..n];
    assert forall j: nat | j < n :: before[j] == h[j] && before[..j] == h[..j];
    if Listed(h, id, e) && !Passes(h[n], id) {
      var k :| 0 <= k < |h| && Passes(h[k], id) && Lists(h[k].inv, e)
        && forall j: nat | k < j < |h| ::
             !Passes(h[j], id) && !(h[j].Forget? && h[j].id == id)
             && !(h[j].Invalidate? && FolderOf(h[..j], id) == Some(h[j].path));
      assert Passes(before[k], id);
    }
  }

  lemma FilesMatch(inv: seq<Entry>, rows: map<Rel, Row>, e: Entry)
    requires DistinctPaths(inv)
    requires forall rel | rel in rows :: exists x | x in inv :: x.rel == rel
    requires forall x | x in inv :: x.rel in rows && Matches(rows[x.rel], x)
    ensures Lists(inv, e) <==> e.rel in rows && Matches(rows[e.rel], e)
  {
    if e.rel in rows && Matches(rows[e.rel], e) {
      var x :| x in inv && x.rel == e.rel;
      assert SameFile(x, e);
    }
  }

  /** A file the plan does not compress is left out exactly when the last pass listed exactly it. */
  lemma OthersOmittedExactly(h: seq<Event>, id: GameId, inv: seq<Entry>, e: Entry)
    requires WellFormed(h) && e in inv && !e.compress
    ensures e !in Pending(After(h), id, inv) <==> Listed(h, id, e)
  {
    PendingIsFilter(After(h), id, inv, e);
    ListedFollows(h, id, e);
  }

  /** Once a committed pass holds a receipt, or earlier evidence, for every compressible file, nothing is left to do. */
  lemma NothingLeft(h: seq<Event>, id: GameId, game: GameRow, inv: seq<Entry>, completed: seq<Receipt>)
    requires WellFormed(h + [Record(id, game, inv, completed)]) && AllFit(inv)
    requires forall r | r in completed :: r.level != NOT_ATTEMPTED
    requires forall e | e in inv && e.compress :: LastReceipt(completed, e.rel).Some? || Evidence(h, id, e)
    ensures Pending(After(h + [Record(id, game, inv, completed)]), id, inv) == []
  {
    var all := h + [Record(id, game, inv, completed)];
    var t := After(h);
    assert all[..|h|] == h && all[|h|] in all;
    assert WellFormed(h) by { assert forall x | x in h :: x in all; }
    var after := Recorded(t, id, game, inv, completed);
    assert After(all) == after;
    forall e | e in inv ensures !NeedsWork(after, id, e) {
      assert SameFile(e, e) && Lists(inv, e);
      var levels := WithReceipts(CarriedLevels(Stored(t, id), inv), completed);
      RowsAt(inv, levels);
      ColumnsRoundTrip(e.size, e.size);
      ColumnsRoundTrip(e.ino, e.ino);
      if e.compress {
        PassWrites(t, id, game, inv, completed, e);
        RowsFollow(h, id, e);
        LastIsReal(completed, e.rel);
      }
    }
    NoneLeft(after, id, inv);
  }

  lemma {:induction false} LastIsReal(completed: seq<Receipt>, rel: Rel)
    requires forall r | r in completed :: r.level != NOT_ATTEMPTED
    ensures LastReceipt(completed, rel) != Some(NOT_ATTEMPTED)
    decreases |completed|
  {
    if completed != [] {
      assert forall r | r in completed[..|completed| - 1] :: r in completed;
      LastIsReal(completed[..|completed| - 1], rel);
      assert completed[|completed| - 1] in completed;
    }
  }

  lemma {:induction false} NoneLeft(t: Tables, id: GameId, inv: seq<Entry>)
    requires forall e | e in inv :: !NeedsWork(t, id, e)
    ensures Pending(t, id, inv) == []
    decreases |inv|
  {
    if inv != [] {
      assert forall e | e in inv[..|inv| - 1] :: e in inv;
      NoneLeft(t, id, inv[..|inv| - 1]);
      assert inv[|inv| - 1] in inv;
    }
  }
}
