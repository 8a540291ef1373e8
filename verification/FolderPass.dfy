/** A whole game folder on macOS: one pass over its files, and the recovery of what a pass left behind. */
module FolderPass {
  import opened Common
  import opened Journal

  type Folder = seq<Disk>

  function Views(files: seq<GameFile>): (views: Folder)
    reads files
    ensures |views| == |files| && forall i | 0 <= i < |files| :: views[i] == files[i].View()
  {
    seq(|files|, i requires 0 <= i < |files| reads files => files[i].View())
  }

  predicate Apart(files: seq<GameFile>) {
    forall i, j | 0 <= i < j < |files| :: files[i] != files[j]
  }

  // ---------------------------------------------------------------- one pass

  /** What the pass meets at one file: the cancel flag, links and sizes, and how its replacement turns out. */
  datatype Meeting = Meeting(
    stopped: bool, links: nat, built: File, checks: Checks, size: nat, blocks: nat, blocksAfter: Option<nat>)

  /** The running totals handed to `report`. */
  datatype Totals = Totals(files: nat, changed: nat, skipped: nat, bytes: nat, before: nat, after: nat)

  function Sum(s: seq<nat>): nat {
    if s == [] then 0 else Sum(s[..|s| - 1]) + s[|s| - 1]
  }

  /** One number of every entry. */
  function Column<T>(entries: seq<T>, f: T -> nat): seq<nat> {
    seq(|entries|, i requires 0 <= i < |entries| => f(entries[i]))
  }

  function One(changed: bool): nat { if changed then 1 else 0 }

  function Size(m: Meeting): nat { m.size }

  function AllocatedBefore(m: Meeting): nat { 512 * m.blocks }

  function AllocatedAfter(m: Meeting): nat {
    if m.blocksAfter.Some? then 512 * m.blocksAfter.value else 0
  }

  /** The totals after the first `|replaced|` files, each sum capped at 64 bits. */
  ghost predicate TotalsAre(t: Totals, met: seq<Meeting>, replaced: seq<bool>)
    requires |replaced| <= |met|
  {
    var done := met[..|replaced|];
    && t.files == |replaced| == t.changed + t.skipped
    && t.changed == Sum(Column(replaced, One))
    && t.bytes == Min(Sum(Column(done, Size)), U64_MAX)
    && t.before == Min(Sum(Column(done, AllocatedBefore)), U64_MAX)
    && t.after == Min(Sum(Column(done, AllocatedAfter)), U64_MAX)
  }

  /** How a file stands that the pass got through. */
  predicate Settled(was: Disk, now: Disk, changed: bool) {
    if changed then now != was && Replaced(was, now) else LeftAlone(was, now)
  }

  /** What a pass that got through the first `|replaced|` files and no further leaves of a folder. */
  ghost predicate PassLeaves(was: Folder, now: Folder, replaced: seq<bool>) {
    && |now| == |was| && |replaced| <= |was|
    && (forall i | 0 <= i < |replaced| :: Settled(was[i], now[i], replaced[i]))
    && (|replaced| < |was| ==> Interrupted(was[|replaced|], now[|replaced|]))
    && (forall i | |replaced| < i < |was| :: now[i] == was[i])
  }

  predicate Journaled(folder: Folder) {
    exists i | 0 <= i < |folder| :: folder[i].journal.Some?
  }

  function Counted(t: Totals, m: Meeting, changed: bool): Totals {
    var after := if m.blocksAfter.Some? then m.blocksAfter.value else 0;
    Totals(
      t.files + 1, t.changed + if changed then 1 else 0, t.skipped + if changed then 0 else 1,
      SaturatingAdd(t.bytes, Min(m.size, U64_MAX)),
      SaturatingAdd(t.before, SaturatingMul(m.blocks, 512)),
      SaturatingAdd(t.after, SaturatingMul(after, 512)))
  }

  function TotalsAfter(met: seq<Meeting>, replaced: seq<bool>): Totals
    requires |replaced| <= |met|
  {
    if replaced == [] then Totals(0, 0, 0, 0, 0, 0)
    else
      var n := |replaced| - 1;
      Counted(TotalsAfter(met, replaced[..n]), met[n], replaced[n])
  }

  /** The replacement of one file by the pass, with what the walk reads of it before and after. */
  method VisitFile(files: seq<GameFile>, i: nat, m: Meeting) returns (r: Result<bool>)
    requires Apart(files) && i < |files|
    requires Clean(files[i].View())
    requires files[i].source.Some? ==> files[i].source.value.id != m.built.id
    modifies files[i]
    ensures Views(files) == old(Views(files))[i := files[i].View()]
    ensures r.Ok? <==> Passes(old(files[i].View()), m)
    ensures r.Ok? ==> (r.value <==> Replaces(old(files[i].View()), m))
    ensures m.stopped || m.links != 1 ==> files[i].View() == old(files[i].View())
    ensures r.Ok? ==> Settled(old(files[i].View()), files[i].View(), r.value)
    ensures r.Err? ==> Interrupted(old(files[i].View()), files[i].View())
    ensures HalfCleared(old(files[i].View()), files[i].View()) <==> HalfClears(old(files[i].View()), m)
  {
    if m.stopped {
      return Err;
    }
    var changed := false;
    if m.links == 1 {
      StageEndsExactly(files[i].View(), m.built, m.checks);
      var staged := files[i].Stage(m.built, m.checks);
      if staged.Err? {
        return Err;
      }
      changed := staged.value;
    }
    if m.blocksAfter.None? {
      return Err;
    }
    return Ok(changed);
  }

  /** The pass gets past the file: it is not stopped, and nothing about the file is an error. */
  predicate Passes(d: Disk, m: Meeting) {
    && !m.stopped && m.blocksAfter.Some?
    && (m.links != 1 || (d.source.Some? && !(m.checks.eligible && m.checks.worthwhile)) || Replaces(d, m))
  }

  /** The file is replaced, down to the removal of its journal. */
  predicate Replaces(d: Disk, m: Meeting) {
    m.links == 1 && Publishes(d, m.built, m.checks) && m.checks.clear.Done?
  }

  /** The pass got through so many files, and says of each whether it was replaced. */
  predicate Walked(was: Folder, met: seq<Meeting>, replaced: seq<bool>) {
    && |replaced| <= |was| == |met|
    && forall i | 0 <= i < |replaced| :: Passes(was[i], met[i]) && (replaced[i] <==> Replaces(was[i], met[i]))
  }

  /** The pass got through files as long as each let it, and ended at the first that did not. */
  ghost predicate WalkedExactly(was: Folder, met: seq<Meeting>, replaced: seq<bool>) {
    && Walked(was, met, replaced)
    && (|replaced| < |was| ==> !Passes(was[|replaced|], met[|replaced|]))
  }

  /** The replacement is verified, its original removed, and the removal of its journal fails. */
  predicate HalfClears(d: Disk, m: Meeting) {
    !m.stopped && m.links == 1 && Publishes(d, m.built, m.checks) && m.checks.clear.Partial?
  }

  /** The pass ended at a file whose original is gone and whose journal is not. */
  predicate EndedHalfCleared(start: Folder, between: Folder, replaced: seq<bool>)
    requires |replaced| <= |start| == |between|
  {
    |replaced| < |start| && HalfCleared(start[|replaced|], between[|replaced|])
  }

  /** It does so exactly if that is what the file it ended at met. */
  ghost predicate HalfClearedExactly(start: Folder, between: Folder, replaced: seq<bool>, met: seq<Meeting>) {
    && |replaced| <= |start| == |between| == |met|
    && (EndedHalfCleared(start, between, replaced) <==>
          |replaced| < |start| && HalfClears(start[|replaced|], met[|replaced|]))
  }

  predicate AllSound(folder: Folder) {
    forall i | 0 <= i < |folder| :: Sound(folder[i])
  }

  /** No replacement will have the identity of the file it replaces. */
  predicate Fresh(folder: Folder, met: seq<Meeting>) {
    && |met| == |folder| && AllSound(folder)
    && (forall i | 0 <= i < |folder| :: folder[i].source.Some? ==> folder[i].source.value.id != met[i].built.id)
  }

  /** `visit`. */
  method Visit(files: seq<GameFile>, met: seq<Meeting>, mayStart: bool)
    returns (result: Result<Totals>, reports: seq<Totals>, ghost replaced: seq<bool>)
    requires Apart(files) && Fresh(Views(files), met)
    modifies files
    ensures !mayStart || Journaled(old(Views(files))) ==>
        result.Err? && reports == [] && Views(files) == old(Views(files))
    ensures PassLeaves(old(Views(files)), Views(files), replaced)
    ensures mayStart && !Journaled(old(Views(files))) ==>
        HalfClearedExactly(old(Views(files)), Views(files), replaced, met)
        && WalkedExactly(old(Views(files)), met, replaced)
    ensures Reported(met, replaced, reports)
    ensures result.Ok? <==> mayStart && !Journaled(old(Views(files))) && |reports| == |files|
    ensures result.Ok? ==> result.value == TotalsAfter(met, replaced)
  {
    if !mayStart {
      return Err, [], [];
    }
    var refused := AnyJournal(files);
    if refused {
      return Err, [], [];
    }
    result, reports, replaced := VisitAll(files, met);
  }

  /** The walk of `visit`. */
  method VisitAll(files: seq<GameFile>, met: seq<Meeting>)
    returns (result: Result<Totals>, reports: seq<Totals>, ghost replaced: seq<bool>)
    requires Apart(files) && Fresh(Views(files), met) && !Journaled(Views(files))
    modifies files
    ensures PassLeaves(old(Views(files)), Views(files), replaced)
    ensures HalfClearedExactly(old(Views(files)), Views(files), replaced, met)
    ensures WalkedExactly(old(Views(files)), met, replaced)
    ensures Reported(met, replaced, reports)
    ensures result.Ok? <==> |reports| == |files|
    ensures result.Ok? ==> result.value == TotalsAfter(met, replaced)
  {
    var t := Totals(0, 0, 0, 0, 0, 0);
    reports, replaced := [], [];
    ghost var was := Views(files);
    for i := 0 to |files|
      invariant |replaced| == i && t == TotalsAfter(met, replaced)
      invariant Reported(met, replaced, reports)
      invariant PassLeaves(was, Views(files), replaced)
      invariant Walked(was, met, replaced)
      invariant forall k | i <= k < |files| :: Views(files)[k] == was[k]
    {
      assert Views(files)[i] == was[i] && was[i].journal.None? && Sound(was[i]);
      ghost var before := Views(files);
      var changed := VisitFile(files, i, met[i]);
      if changed.Err? {
        return Err, reports, replaced;
      }
      t := Counted(t, met[i], changed.value);
      PassGoesOn(was, before, replaced, Views(files)[i], changed.value);
      WalkGoesOn(was, met, replaced, changed.value);
      ReportGoesOn(met, replaced, reports, changed.value);
      reports, replaced := reports + [t], replaced + [changed.value];
    }
    result := Ok(t);
  }

  /** One report a file, with the totals after it. */
  predicate Reported(met: seq<Meeting>, replaced: seq<bool>, reports: seq<Totals>) {
    && |reports| == |replaced| <= |met|
    && forall k | 0 <= k < |reports| :: reports[k] == TotalsAfter(met, replaced[..k + 1])
  }

  lemma ReportGoesOn(met: seq<Meeting>, replaced: seq<bool>, reports: seq<Totals>, changed: bool)
    requires Reported(met, replaced, reports) && |replaced| < |met|
    ensures var t := Counted(TotalsAfter(met, replaced), met[|replaced|], changed);
            && t == TotalsAfter(met, replaced + [changed])
            && Reported(met, replaced + [changed], reports + [t])
  {
    var more := replaced + [changed];
    assert more[..|replaced|] == replaced && more[..|more|] == more;
    forall k | 0 <= k < |replaced| ensures reports[k] == TotalsAfter(met, more[..k + 1]) {
      assert more[..k + 1] == replaced[..k + 1];
    }
  }

  lemma WalkGoesOn(was: Folder, met: seq<Meeting>, replaced: seq<bool>, changed: bool)
    requires Walked(was, met, replaced) && |replaced| < |was| && Passes(was[|replaced|], met[|replaced|])
    requires changed <==> Replaces(was[|replaced|], met[|replaced|])
    ensures Walked(was, met, replaced + [changed])
  {
  }

  lemma PassGoesOn(was: Folder, now: Folder, replaced: seq<bool>, d: Disk, changed: bool)
    requires PassLeaves(was, now, replaced) && |replaced| < |was| && Settled(was[|replaced|], d, changed)
    ensures PassLeaves(was, now[|replaced| := d], replaced + [changed])
  {
  }

  /** `recovery` finds a journal for this folder. */
  method AnyJournal(files: seq<GameFile>) returns (found: bool)
    ensures found <==> Journaled(Views(files))
  {
    for i := 0 to |files|
      invariant forall k | 0 <= k < i :: files[k].journal.None?
    {
      if files[i].journal.Some? {
        assert Views(files)[i].journal.Some?;
        return true;
      }
    }
    return false;
  }

  lemma ColumnOne<T>(entries: seq<T>, n: nat, f: T -> nat)
    requires n < |entries|
    ensures Sum(Column(entries[..n + 1], f)) == Sum(Column(entries[..n], f)) + f(entries[n])
  {
    assert Column(entries[..n + 1], f)[..n] == Column(entries[..n], f);
  }

  /** The totals after each file are the sums over the files so far, capped at 64 bits. */
  lemma {:induction false} TotalsAreExact(met: seq<Meeting>, replaced: seq<bool>)
    requires |replaced| <= |met|
    ensures TotalsAre(TotalsAfter(met, replaced), met, replaced)
    decreases |replaced|
  {
    if replaced != [] {
      var n := |replaced| - 1;
      TotalsAreExact(met, replaced[..n]);
      ColumnOne(replaced, n, One);
      ColumnOne(met, n, Size);
      ColumnOne(met, n, AllocatedBefore);
      ColumnOne(met, n, AllocatedAfter);
      assert replaced[..n + 1] == replaced;
    }
  }

  // ---------------------------------------------------------------- recovering a folder

  /** `order` lists the files with a journal, each once, in whatever order the journals are read. */
  predicate Lists(order: seq<nat>, folder: Folder) {
    && (forall j | 0 <= j < |order| :: order[j] < |folder| && folder[order[j]].journal.Some?)
    && (forall j, k | 0 <= j < k < |order| :: order[j] != order[k])
    && (forall i: nat | i < |folder| && folder[i].journal.Some? :: i in order)
  }

  /** The outcome of replaying the journal of one file. */
  function Replayed(d: Disk, t: Turn): (Disk, bool)
    requires d.journal.Some?
  {
    Recovered(d, d.journal.value, t)
  }

  /** `order` lists the journals of the folder, and `turns` says what the recovery of each file meets. */
  ghost predicate Listed(order: seq<nat>, turns: seq<Turn>, folder: Folder) {
    |turns| == |folder| && Lists(order, folder)
  }

  /** The `j`-th journal listed is replayed. */
  predicate Replays(order: seq<nat>, turns: seq<Turn>, was: Folder, now: Folder, j: nat, ok: bool)
    requires Lists(order, was) && |turns| == |was| == |now| && j < |order|
  {
    var k := order[j];
    Replayed(was[k], turns[k]) == (now[k], ok)
  }

  /** Files whose journals come at `j` or later in the list, or that have none, are as they were. */
  predicate Untouched(order: seq<nat>, was: Folder, now: Folder, j: nat)
    requires Lists(order, was)
  {
    && |now| == |was|
    && (forall k | j <= k < |order| :: now[order[k]] == was[order[k]])
    && (forall i: nat | i < |was| && was[i].journal.None? :: now[i] == was[i])
  }

  predicate ReplayedFirst(order: seq<nat>, turns: seq<Turn>, was: Folder, now: Folder, n: nat)
    requires Lists(order, was) && |turns| == |was| == |now|
  {
    n <= |order| && forall j | 0 <= j < n :: Replays(order, turns, was, now, j, true)
  }

  /** The first `n` journals listed were replayed, and the one after them, if any, was not. */
  ghost predicate RecoveryLeaves(order: seq<nat>, turns: seq<Turn>, was: Folder, now: Folder, n: nat)
    requires Listed(order, turns, was)
  {
    && |now| == |was| && ReplayedFirst(order, turns, was, now, n)
    && (n < |order| ==> Replays(order, turns, was, now, n, false))
    && Untouched(order, was, now, n + 1)
  }

  lemma OneReplayed(order: seq<nat>, turns: seq<Turn>, was: Folder, now: Folder, j: nat)
    requires Listed(order, turns, was) && |now| == |was| && j < |order|
    requires ReplayedFirst(order, turns, was, now, j) && Untouched(order, was, now, j)
    ensures var r := Replayed(was[order[j]], turns[order[j]]);
            var next := now[order[j] := r.0];
            && now[order[j]] == was[order[j]] && Untouched(order, was, next, j + 1)
            && if r.1 then ReplayedFirst(order, turns, was, next, j + 1) else RecoveryLeaves(order, turns, was, next, j)
  {
    var next := now[order[j] := Replayed(was[order[j]], turns[order[j]]).0];
    forall k | 0 <= k < j ensures Replays(order, turns, was, next, k, true) {
      assert Replays(order, turns, was, now, k, true) && order[k] != order[j];
    }
  }

  method RecoverFile(files: seq<GameFile>, i: nat, r: Record, t: Turn) returns (ok: bool)
    requires Apart(files) && i < |files|
    modifies files[i]
    ensures Views(files) == old(Views(files))[i := files[i].View()]
    ensures (files[i].View(), ok) == Recovered(old(files[i].View()), r, t)
  {
    ok := files[i].RecoverOriginal(r, t);
  }

  /** `recover_folder`; without the lock, a valid folder and readable journals it does nothing. */
  method RecoverFolder(files: seq<GameFile>, order: seq<nat>, turns: seq<Turn>, mayStart: bool)
    returns (ok: bool, replayed: nat)
    requires Apart(files) && Listed(order, turns, Views(files))
    modifies files
    ensures !mayStart ==> !ok && Views(files) == old(Views(files))
    ensures mayStart ==> RecoveryLeaves(order, turns, old(Views(files)), Views(files), replayed)
    ensures mayStart ==> (ok <==> replayed == |order|)
  {
    if !mayStart {
      return false, 0;
    }
    ghost var was := Views(files);
    var records: seq<Record> := [];
    for j := 0 to |order|
      invariant |records| == j && forall k | 0 <= k < j :: was[order[k]].journal == Some(records[k])
      invariant Views(files) == was
    {
      assert was[order[j]].journal.Some?;
      records := records + [files[order[j]].journal.value];
    }
    for j := 0 to |order|
      invariant ReplayedFirst(order, turns, was, Views(files), j) && Untouched(order, was, Views(files), j)
    {
      ghost var before := Views(files);
      var done := RecoverFile(files, order[j], records[j], turns[order[j]]);
      OneReplayed(order, turns, was, before, j);
      if !done {
        return false, j;
      }
    }
    return true, |order|;
  }

  /** A folder is recovered whole exactly if no journal in it is refused, whatever the order they are read in. */
  lemma RecoveredExactly(order: seq<nat>, turns: seq<Turn>, was: Folder, now: Folder, n: nat)
    requires Listed(order, turns, was) && RecoveryLeaves(order, turns, was, now, n)
    ensures n == |order| <==> forall i: nat | i < |was| && was[i].journal.Some? :: Replayed(was[i], turns[i]).1
    ensures Journaled(now) <==> n < |order|
  {
    if n < |order| {
      assert Replays(order, turns, was, now, n, false);
      var k := order[n];
      assert was[k].journal.Some? && now[k].journal.Some?;
    } else {
      forall i: nat | i < |was| && was[i].journal.Some?
        ensures Replayed(was[i], turns[i]).1 && now[i].journal.None?
      {
        var j :| 0 <= j < |order| && order[j] == i;
        assert Replays(order, turns, was, now, j, true);
      }
      assert forall i: nat | i < |was| && was[i].journal.None? :: now[i].journal.None?;
    }
  }

  // ---------------------------------------------------------------- a pass and then a recovery

  lemma AtMostOne(order: seq<nat>, was: Folder, k: nat)
    requires Lists(order, was)
    ensures |order| > 1 ==> exists j | 0 <= j < |order| :: order[j] != k
  {
    assert |order| > 1 ==> order[0] != k || order[1] != k;
  }

  /** Nothing outside its two files stands in the way of any journal. */
  predicate AllAllowed(turns: seq<Turn>, folder: Folder)
    requires |turns| == |folder|
  {
    forall i | 0 <= i < |folder| && folder[i].journal.Some? :: Allows(turns[i], folder[i], folder[i].journal.value)
  }

  /** How the path and the orphans of a file stand after whatever was done to it. */
  predicate Preserved(was: Disk, now: Disk) {
    SameBytes(was, now) && was.orphans <= now.orphans
  }

  /**
   A pass over a folder without journals, ended in any way, and then one recovery: the folder is
   left without a journal exactly if the pass did not end half-cleared and the recovery was
   allowed, and then every file is as it was or replaced by the pass. In every case each file reads
   back its bytes and every copy the pass left without a journal is still there.
   */
  lemma PassThenRecovery(
      start: Folder, between: Folder, end: Folder, replaced: seq<bool>, order: seq<nat>, turns: seq<Turn>, n: nat)
    requires AllSound(start) && !Journaled(start) && PassLeaves(start, between, replaced)
    requires Listed(order, turns, between) && RecoveryLeaves(order, turns, between, end, n)
    ensures |order| <= 1
    ensures !Journaled(end) <==> !EndedHalfCleared(start, between, replaced) && AllAllowed(turns, between)
    ensures forall i | 0 <= i < |start| :: Preserved(start[i], end[i]) && end[i].orphans == between[i].orphans
    ensures !Journaled(end) ==> forall i | 0 <= i < |start| :: LeftAlone(start[i], end[i]) || Replaced(start[i], end[i])
  {
    assert forall i | 0 <= i < |start| :: start[i].journal.None? && Clean(start[i]);
    forall i: nat | i < |start| && between[i].journal.Some?
      ensures i == |replaced| && (Held(start[i], between[i]) || HalfCleared(start[i], between[i]))
    {
    }
    RecoveredExactly(order, turns, between, end, n);
    AtMostOne(order, between, |replaced|);
    forall i: nat | i < |start| {
      FileThenRecovery(start, between, end, replaced, order, turns, n, i);
    }
  }

  /** The same for one file. */
  lemma FileThenRecovery(
      start: Folder, between: Folder, end: Folder, replaced: seq<bool>, order: seq<nat>, turns: seq<Turn>,
      n: nat, i: nat)
    requires AllSound(start) && !Journaled(start) && PassLeaves(start, between, replaced) && i < |start|
    requires Listed(order, turns, between) && RecoveryLeaves(order, turns, between, end, n) && |order| <= 1
    ensures Preserved(start[i], end[i]) && end[i].orphans == between[i].orphans
    ensures between[i].journal.None? ==>
        end[i] == between[i] && (LeftAlone(start[i], end[i]) || Replaced(start[i], end[i]))
    ensures between[i].journal.Some? ==>
              && i == |replaced|
              && (Replayed(between[i], turns[i]).1 <==>
                    !HalfCleared(start[i], between[i]) && Allows(turns[i], between[i], between[i].journal.value))
              && (end[i].journal.None? ==> end[i] == start[i])
  {
    assert start[i].journal.None? && Clean(start[i]);
    if between[i].journal.Some? {
      var j :| 0 <= j < |order| && order[j] == i;
      assert j == 0 && Replays(order, turns, between, end, 0, n > 0);
      RecoverySucceedsExactly(between[i], between[i].journal.value, turns[i]);
    }
  }

  lemma FirstSucceed(order: seq<nat>, turns: seq<Turn>, was: Folder, now: Folder, n: nat, j: nat)
    requires Listed(order, turns, was) && RecoveryLeaves(order, turns, was, now, n) && j < |order|
    ensures j < n ==> Replayed(was[order[j]], turns[order[j]]).1
  {
    assert j < n ==> Replays(order, turns, was, now, j, true);
  }

  /** A journal caught inside `clear_record` blocks its folder: no recovery succeeds, and the folder keeps a journal. */
  lemma OneStuckBlocksTheFolder(order: seq<nat>, turns: seq<Turn>, was: Folder, now: Folder, n: nat, k: nat)
    requires Listed(order, turns, was) && RecoveryLeaves(order, turns, was, now, n)
    requires k < |was| && was[k].journal.Some? && !HoldsBoth(was[k], was[k].journal.value)
    ensures n < |order| && now[k] == was[k] && Journaled(now)
  {
    RecoveredExactly(order, turns, was, now, n);
    var j :| 0 <= j < |order| && order[j] == k;
    FirstSucceed(order, turns, was, now, n, j);
  }

  // ---------------------------------------------------------------- any number of passes and recoveries

  /** One pass or one recovery takes the folder from one state to the next. */
  ghost predicate Moves(was: Folder, now: Folder) {
    || (!Journaled(was) && exists replaced :: PassLeaves(was, now, replaced))
    || (exists order, turns, n :: Listed(order, turns, was) && RecoveryLeaves(order, turns, was, now, n))
  }

  lemma PassKeeps(was: Folder, now: Folder, replaced: seq<bool>)
    requires AllSound(was) && !Journaled(was) && PassLeaves(was, now, replaced)
    ensures AllSound(now) && forall i | 0 <= i < |was| :: Preserved(was[i], now[i])
  {
    forall i | 0 <= i < |was| ensures Sound(now[i]) && Preserved(was[i], now[i]) {
      assert was[i].journal.None? && Clean(was[i]);
      assert i < |replaced| ==> Settled(was[i], now[i], replaced[i]);
    }
  }

  lemma RecoveryKeeps(order: seq<nat>, turns: seq<Turn>, was: Folder, now: Folder, n: nat)
    requires AllSound(was) && Listed(order, turns, was) && RecoveryLeaves(order, turns, was, now, n)
    ensures AllSound(now) && forall i | 0 <= i < |was| :: Preserved(was[i], now[i])
  {
    forall i: nat | i < |was| ensures Sound(now[i]) && Preserved(was[i], now[i]) {
      if was[i].journal.Some? {
        var j :| 0 <= j < |order| && order[j] == i;
        assert j <= n ==> Replays(order, turns, was, now, j, j < n);
      }
    }
  }

  lemma MoveKeeps(was: Folder, now: Folder)
    requires AllSound(was) && Moves(was, now)
    ensures |now| == |was| && AllSound(now) && forall i | 0 <= i < |was| :: Preserved(was[i], now[i])
  {
    if !Journaled(was) && exists replaced :: PassLeaves(was, now, replaced) {
      var replaced :| PassLeaves(was, now, replaced);
      PassKeeps(was, now, replaced);
    } else {
      var order, turns, n :| Listed(order, turns, was) && RecoveryLeaves(order, turns, was, now, n);
      RecoveryKeeps(order, turns, was, now, n);
    }
  }

  /**
   Over any history of passes and recoveries of a folder, every file always reads back the bytes it
   started with, and no copy left without a journal is ever removed.
   */
  lemma {:induction false} EveryHistoryKeeps(history: seq<Folder>)
    requires history != [] && AllSound(history[0])
    requires forall k | 0 <= k < |history| - 1 :: Moves(history[k], history[k + 1])
    ensures var last := history[|history| - 1];
            && |last| == |history[0]| && AllSound(last)
            && forall i | 0 <= i < |last| :: Preserved(history[0][i], last[i])
    decreases |history|
  {
    var n := |history| - 1;
    if n > 0 {
      EveryHistoryKeeps(history[..n]);
      assert Moves(history[n - 1], history[n - 1 + 1]);
      MoveKeeps(history[n - 1], history[n]);
    }
  }
}
