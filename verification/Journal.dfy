/**
 Journaled replacement of one game file on macOS: one `stage`, any number of recoveries,
 and a game that may rewrite its own file. Every durable step is one transition, and a
 process may stop, by a crash or by an error, before any of its steps.
 */
module Journal {
  import opened Common

  /** Device, inode, length and modification time, as one token that is never reused. */
  type Identity = nat

  datatype File = File(id: Identity, bytes: Bytes)

  /** The journal. `hash` stands for the bytes it was computed from. */
  datatype Record = Record(original: Identity, candidate: Identity, hash: Bytes)

  /**
   What is durable: the game's path, the copy in the work directory in use, and the journal.
   `orphans` are copies in work directories that nothing refers to any more.
   */
  datatype Disk = Disk(source: Option<File>, staged: Option<File>, journal: Option<Record>, orphans: seq<File>)

  predicate Holds(path: Option<File>, id: Identity) {
    path.Some? && path.value.id == id
  }

  /** `swap`: both names exist throughout, so it fails when either is missing. */
  function Exchange(d: Disk): Disk
    requires d.source.Some? && d.staged.Some?
  {
    d.(source := d.staged, staged := d.source)
  }

  /** The two halves of `clear_record`, in the order the source makes them durable. */
  function RemoveWork(d: Disk): Disk {
    d.(staged := None)
  }

  function RemoveJournal(d: Disk): Disk {
    d.(journal := None)
  }

  /** The work directory stays and no journal names it. */
  function Abandon(d: Disk): Disk {
    if d.staged.Some? then d.(staged := None, orphans := d.orphans + [d.staged.value]) else d
  }

  // ---------------------------------------------------------------- recovery, step by step

  datatype RecoverPc =
    | Idle
    | Loaded(r: Record)
    | SourceIsOriginal(r: Record)
    | NotBeforeSwap(r: Record)
    | SourceIsCandidate(r: Record)
    | Exchanging(r: Record)
    | Exchanged(r: Record)
    | Clearing(r: Record)
    | WorkRemoved(r: Record)
    | Ended
  {
    predicate Active() { !Idle? && !Ended? }
  }

  /** One step of `recover_original`; each `identity` call reads one path. */
  function RecoverStep(d: Disk, pc: RecoverPc): (Disk, RecoverPc) {
    match pc
    case Idle =>
      (d, if d.journal.Some? then Loaded(d.journal.value) else Ended)
    case Loaded(r) =>
      (d, if d.source.None? then Ended
          else if Holds(d.source, r.original) then SourceIsOriginal(r) else NotBeforeSwap(r))
    case SourceIsOriginal(r) =>
      (d, if d.staged.None? then Ended
          else if Holds(d.staged, r.candidate) then Clearing(r) else NotBeforeSwap(r))
    case NotBeforeSwap(r) =>
      (d, if Holds(d.source, r.candidate) then SourceIsCandidate(r) else Ended)
    case SourceIsCandidate(r) =>
      (d, if Holds(d.staged, r.original) then Exchanging(r) else Ended)
    case Exchanging(r) =>
      if d.source.Some? && d.staged.Some? then (Exchange(d), Exchanged(r)) else (d, Ended)
    case Exchanged(r) =>
      (d, if d.source.Some? && d.source.value.bytes == r.hash then Clearing(r) else Ended)
    case Clearing(r) => if d.staged.Some? then (RemoveWork(d), WorkRemoved(r)) else (d, Ended)
    case WorkRemoved(r) => (RemoveJournal(d), Ended)
    case Ended => (d, Ended)
  }

  // ---------------------------------------------------------------- staging, step by step

  datatype StagePc =
    | Begin
    | Identified(original: Identity)
    | Hashed(original: Identity, hash: Bytes)
    | Built(original: Identity, hash: Bytes)
    | Verified(original: Identity, hash: Bytes)
    | Kept(r: Record)
    | Saved(r: Record)
    | Swapped(r: Record)
    | StagedIsOriginal(r: Record)
    | BothMatch(r: Record)
    | Clear(r: Record)
    | WorkGone(r: Record)
    | Finished
  {
    predicate Active() { !Begin? && !Finished? }

    /** From the last check before the swap on, the game is assumed not to write. */
    predicate Critical() { Active() && !Identified? && !Hashed? && !Built? && !Verified? }

    /** There may be a copy, and there is no journal yet. */
    predicate Unrecorded() { Built? || Verified? || Kept? }
  }

  /**
   One step of `stage`. `built` is whatever copy the external tool produced. Until the work
   directory is kept, an error drops it; afterwards an error leaves everything in place.
   */
  function StageStep(d: Disk, pc: StagePc, built: File): (Disk, StagePc) {
    match pc
    case Begin =>
      // `visit` refuses a folder that still has a journal.
      (d, if d.journal.Some? || d.source.None? then Finished else Identified(d.source.value.id))
    case Identified(o) =>
      (d, if d.source.Some? then Hashed(o, d.source.value.bytes) else Finished)
    case Hashed(o, h) => (d.(staged := Some(built)), Built(o, h))
    case Built(o, h) =>
      if d.staged.Some? && d.staged.value.bytes == h then (d, Verified(o, h))
      else (RemoveWork(d), Finished)
    case Verified(o, h) =>
      if Holds(d.source, o) && d.staged.Some? then (d, Kept(Record(o, d.staged.value.id, h)))
      else (RemoveWork(d), Finished)
    case Kept(r) => (d.(journal := Some(r)), Saved(r))
    case Saved(r) =>
      if d.source.Some? && d.staged.Some? then (Exchange(d), Swapped(r)) else (d, Finished)
    case Swapped(r) => (d, if Holds(d.staged, r.original) then StagedIsOriginal(r) else Finished)
    case StagedIsOriginal(r) => (d, if Holds(d.source, r.candidate) then BothMatch(r) else Finished)
    case BothMatch(r) =>
      (d, if d.source.Some? && d.source.value.bytes == r.hash then Clear(r) else Finished)
    case Clear(r) => if d.staged.Some? then (RemoveWork(d), WorkGone(r)) else (d, Finished)
    case WorkGone(r) => (RemoveJournal(d), Finished)
    case Finished => (d, Finished)
  }

  // ---------------------------------------------------------------- the whole machine

  /**
   `content` is what the game last wrote. `record` and `published` are history: the record
   this stage made, and whether the exchanged files passed every check after the swap.
   */
  datatype State = State(
    disk: Disk,
    stage: StagePc,
    recoveries: seq<RecoverPc>,
    nextId: Identity,
    content: Bytes,
    record: Option<Record>,
    published: bool)

  datatype Action =
    | StageDo(built: Bytes)
    | StageStop
    | RecoverDo(i: nat)
    | RecoverStop(i: nat)
    | GameWrites(bytes: Bytes)

  predicate NoRecoveryActive(s: State) {
    forall i | 0 <= i < |s.recoveries| :: !s.recoveries[i].Active()
  }

  predicate Quiet(s: State) {
    !s.stage.Active() && NoRecoveryActive(s)
  }

  function Initial(game: File, recoverers: nat): State {
    State(Disk(Some(game), None, None, []), Begin, seq(recoverers, i => Idle), game.id + 1, game.bytes, None, false)
  }

  function StageMoves(s: State, built: Bytes): State {
    var candidate := File(s.nextId, built);
    var (d, pc) := StageStep(s.disk, s.stage, candidate);
    s.(disk := d, stage := pc,
       nextId := s.nextId + 1,
       record := if pc.Kept? then Some(pc.r) else s.record,
       published := s.published || pc.Clear?)
  }

  function RecoveryMoves(s: State, i: nat): State
    requires i < |s.recoveries|
  {
    var (d, pc) := RecoverStep(s.disk, s.recoveries[i]);
    s.(disk := d, recoveries := s.recoveries[i := pc])
  }

  /**
   With `locked`, every process holds `native.lock` from its first step to its end, as
   `visit` and `recover_folder` do. Without it, recoveries start at any time, as the
   command-line `recover` does. With or without it, a recovery asks `idle` before it reads the
   files, and a pass holds the folder open, so a recovery that finds the stage at work refuses.
   A disabled action changes nothing.
   */
  function Step(locked: bool, s: State, a: Action): State {
    match a
    case StageDo(built) =>
      if s.stage.Begin? && locked && !Quiet(s) then s else StageMoves(s, built)
    case StageStop => s.(disk := if s.stage.Unrecorded() then Abandon(s.disk) else s.disk, stage := Finished)
    case RecoverDo(i) =>
      if i >= |s.recoveries| then s
      else if s.recoveries[i].Idle? && locked && !Quiet(s) then s
      else if s.recoveries[i].Loaded? && s.stage.Active() then s.(recoveries := s.recoveries[i := Ended])
      else RecoveryMoves(s, i)
    case RecoverStop(i) =>
      if i < |s.recoveries| then s.(recoveries := s.recoveries[i := Ended]) else s
    case GameWrites(bytes) =>
      if s.stage.Critical() || !NoRecoveryActive(s) then s
      else s.(disk := s.disk.(source := Some(File(s.nextId, bytes))), nextId := s.nextId + 1, content := bytes)
  }

  function Run(locked: bool, s: State, actions: seq<Action>): State
    decreases |actions|
  {
    if actions == [] then s else Run(locked, Step(locked, s, actions[0]), actions[1..])
  }

  // ---------------------------------------------------------------- the invariant

  predicate OneOf(id: Identity, r: Record) {
    id == r.original || id == r.candidate
  }

  /** The files the record names carry the recorded bytes, and there are no others in the work directory. */
  predicate FilesMatch(s: State, r: Record) {
    && r.original != r.candidate && r.original < s.nextId && r.candidate < s.nextId
    && s.disk.source.Some?
    && (OneOf(s.disk.source.value.id, r) ==> s.content == r.hash)
    && (s.disk.staged.Some? ==>
          OneOf(s.disk.staged.value.id, r) && s.disk.staged.value.bytes == r.hash
          && s.disk.staged.value.id != s.disk.source.value.id)
  }

  predicate StageInv(s: State)
    requires s.disk.source.Some?
  {
    match s.stage
    case Begin => s.record.None? && s.disk.staged.None?
    case Identified(o) => s.record.None? && s.disk.staged.None? && o < s.nextId
    case Hashed(o, h) => s.record.None? && s.disk.staged.None? && o < s.nextId
      && (Holds(s.disk.source, o) ==> h == s.content)
    case Built(o, h) => s.record.None? && o < s.nextId && (Holds(s.disk.source, o) ==> h == s.content)
      && (s.disk.staged.Some? ==> o < s.disk.staged.value.id < s.nextId)
    case Verified(o, h) => s.record.None? && o < s.nextId && (Holds(s.disk.source, o) ==> h == s.content)
      && (s.disk.staged.Some? ==> o < s.disk.staged.value.id < s.nextId && s.disk.staged.value.bytes == h)
    case Finished => true
    case _ => s.record == Some(s.stage.r) && OneOf(s.disk.source.value.id, s.stage.r)
  }

  predicate RecoveryInv(s: State, pc: RecoverPc)
    requires s.disk.source.Some?
  {
    pc.Active() ==>
      && s.record == Some(pc.r)
      && (!pc.Loaded? && !pc.NotBeforeSwap? ==> OneOf(s.disk.source.value.id, pc.r))
  }

  predicate FileInv(s: State) {
    && s.disk.source.Some?
    && s.disk.source.value.bytes == s.content
    && s.disk.source.value.id < s.nextId
    && (s.record.Some? ==> FilesMatch(s, s.record.value))
    && (s.disk.journal.Some? ==> s.disk.journal == s.record)
    && StageInv(s)
  }

  predicate RecoveriesInv(s: State)
    requires s.disk.source.Some?
  {
    forall i | 0 <= i < |s.recoveries| :: RecoveryInv(s, s.recoveries[i])
  }

  predicate Inv(s: State) {
    FileInv(s) && RecoveriesInv(s)
  }

  /** What a step must leave alone for the recoveries other than its own to stay valid. */
  predicate KeepsRecord(s: State, t: State)
    requires s.disk.source.Some? && t.disk.source.Some?
  {
    s.record.Some? ==>
      t.record == s.record
      && (OneOf(s.disk.source.value.id, s.record.value) ==> OneOf(t.disk.source.value.id, s.record.value))
  }

  lemma OthersStay(s: State, t: State, pc: RecoverPc)
    requires FileInv(s) && FileInv(t) && KeepsRecord(s, t) && RecoveryInv(s, pc)
    ensures RecoveryInv(t, pc)
  {
  }

  lemma DraftKeepsFiles(s: State, built: Bytes)
    requires FileInv(s) && !s.stage.Critical()
    ensures FileInv(StageMoves(s, built)) && KeepsRecord(s, StageMoves(s, built))
  {
  }

  lemma ReplacementKeepsFiles(s: State, built: Bytes)
    requires FileInv(s) && s.stage.Critical()
    ensures FileInv(StageMoves(s, built)) && KeepsRecord(s, StageMoves(s, built))
  {
  }

  lemma StageKeepsFiles(s: State, built: Bytes)
    requires FileInv(s)
    ensures FileInv(StageMoves(s, built)) && KeepsRecord(s, StageMoves(s, built))
  {
    if s.stage.Critical() {
      ReplacementKeepsFiles(s, built);
    } else {
      DraftKeepsFiles(s, built);
    }
  }

  lemma StageKeepsInv(locked: bool, s: State, built: Bytes)
    requires Inv(s)
    ensures Inv(Step(locked, s, StageDo(built)))
  {
    StageKeepsFiles(s, built);
    forall i | 0 <= i < |s.recoveries| {
      OthersStay(s, StageMoves(s, built), s.recoveries[i]);
    }
  }

  lemma RecoveryKeepsFiles(s: State, i: nat)
    requires FileInv(s) && i < |s.recoveries| && RecoveryInv(s, s.recoveries[i])
    ensures FileInv(RecoveryMoves(s, i)) && KeepsRecord(s, RecoveryMoves(s, i))
    ensures RecoveryInv(RecoveryMoves(s, i), RecoveryMoves(s, i).recoveries[i])
  {
  }

  lemma RecoveryEnds(s: State, i: nat)
    requires Inv(s) && i < |s.recoveries|
    ensures Inv(s.(recoveries := s.recoveries[i := Ended]))
  {
    var t := s.(recoveries := s.recoveries[i := Ended]);
    forall j | 0 <= j < |t.recoveries| ensures RecoveryInv(t, t.recoveries[j]) {
      assert RecoveryInv(s, s.recoveries[j]);
    }
  }

  lemma RecoveryKeepsInv(locked: bool, s: State, i: nat)
    requires Inv(s)
    ensures Inv(Step(locked, s, RecoverDo(i)))
  {
    if i < |s.recoveries| && s.recoveries[i].Loaded? && s.stage.Active() {
      RecoveryEnds(s, i);
    } else if i < |s.recoveries| {
      RecoveryKeepsFiles(s, i);
      forall j | 0 <= j < |s.recoveries| && j != i {
        OthersStay(s, RecoveryMoves(s, i), s.recoveries[j]);
      }
    }
  }

  lemma OutsideKeepsInv(locked: bool, s: State, a: Action)
    requires Inv(s) && !a.StageDo? && !a.RecoverDo?
    ensures Inv(Step(locked, s, a))
  {
    var t := Step(locked, s, a);
    forall j | 0 <= j < |t.recoveries| ensures RecoveryInv(t, t.recoveries[j]) {
      assert RecoveryInv(s, s.recoveries[j]);
    }
  }

  lemma StepKeepsInv(locked: bool, s: State, a: Action)
    requires Inv(s)
    ensures Inv(Step(locked, s, a))
  {
    match a
    case StageDo(built) => StageKeepsInv(locked, s, built);
    case RecoverDo(i) => RecoveryKeepsInv(locked, s, i);
    case _ => OutsideKeepsInv(locked, s, a);
  }

  lemma {:induction false} RunKeepsInv(locked: bool, s: State, actions: seq<Action>)
    requires Inv(s)
    ensures Inv(Run(locked, s, actions))
    decreases |actions|
  {
    if actions != [] {
      StepKeepsInv(locked, s, actions[0]);
      RunKeepsInv(locked, Step(locked, s, actions[0]), actions[1..]);
    }
  }

  lemma InitialInv(game: File, recoverers: nat)
    ensures Inv(Initial(game, recoverers))
  {
  }

  /** Whatever interleaves and whatever stops where, the game's path reads back what the game last wrote. */
  lemma SourceAlwaysReadsBack(locked: bool, game: File, recoverers: nat, actions: seq<Action>)
    ensures var s := Run(locked, Initial(game, recoverers), actions);
            s.disk.source.Some? && s.disk.source.value.bytes == s.content
  {
    InitialInv(game, recoverers);
    RunKeepsInv(locked, Initial(game, recoverers), actions);
  }

  // ---------------------------------------------------------------- what the lock is for

  /** The original is gone although the exchanged files were never found good. */
  predicate LostUnproved(s: State) {
    s.record.Some? && s.disk.staged.None? && Holds(s.disk.source, s.record.value.candidate) && !s.published
  }

  /** The recovery has been let past `idle`. */
  predicate Working(pc: RecoverPc) {
    pc.Active() && !pc.Loaded?
  }

  predicate WorksAlone(s: State, i: nat) {
    !s.stage.Active() && forall j | 0 <= j < |s.recoveries| && j != i :: !Working(s.recoveries[j])
  }

  /** With nobody else at work, what a recovery has read is still so. */
  predicate SeenStillTrue(s: State, pc: RecoverPc) {
    match pc
    case SourceIsOriginal(r) => Holds(s.disk.source, r.original)
    case SourceIsCandidate(r) => Holds(s.disk.source, r.candidate)
    case Exchanging(r) => Holds(s.disk.staged, r.original)
    case Exchanged(r) => Holds(s.disk.source, r.original)
    case Clearing(r) => Holds(s.disk.source, r.original)
    case WorkRemoved(r) => Holds(s.disk.source, r.original)
    case _ => true
  }

  /** One at a time changes the files, and the original outlives the checks of its replacement. */
  predicate Undisturbed(s: State) {
    && (s.stage.Clear? || s.stage.WorkGone? ==> s.published)
    && (s.stage.Kept? ==> Holds(s.disk.source, s.stage.r.original))
    && !LostUnproved(s)
    && forall i | 0 <= i < |s.recoveries| && Working(s.recoveries[i]) ::
         WorksAlone(s, i) && SeenStillTrue(s, s.recoveries[i])
  }

  /** At most one process is active. */
  predicate Exclusive(s: State) {
    && (s.stage.Active() ==> NoRecoveryActive(s))
    && forall i, j | 0 <= i < j < |s.recoveries| :: !s.recoveries[i].Active() || !s.recoveries[j].Active()
  }

  lemma ExclusiveStep(s: State, a: Action)
    requires Exclusive(s)
    ensures Exclusive(Step(true, s, a))
  {
  }

  lemma StageUndisturbed(s: State, built: Bytes)
    requires Inv(s) && Undisturbed(s)
    ensures Undisturbed(StageMoves(s, built))
  {
    var t := StageMoves(s, built);
    if s.stage.Finished? {
      assert t.disk == s.disk;
    }
  }

  lemma RecoveryUndisturbed(s: State, i: nat)
    requires Inv(s) && Undisturbed(s) && i < |s.recoveries|
    requires s.recoveries[i].Loaded? ==> WorksAlone(s, i)
    ensures Undisturbed(RecoveryMoves(s, i))
  {
    var t := RecoveryMoves(s, i);
    assert RecoveryInv(s, s.recoveries[i]);
    forall j | 0 <= j < |t.recoveries| && Working(t.recoveries[j])
      ensures WorksAlone(t, j) && SeenStillTrue(t, t.recoveries[j])
    {
      assert j != i ==> Working(s.recoveries[j]) && WorksAlone(s, j);
    }
  }

  lemma UndisturbedStep(locked: bool, s: State, a: Action)
    requires Inv(s) && Undisturbed(s) && (Exclusive(s) || |s.recoveries| <= 1)
    ensures Undisturbed(Step(locked, s, a))
  {
    var t := Step(locked, s, a);
    match a
    case StageDo(built) => StageUndisturbed(s, built);
    case RecoverDo(i) =>
      if i < |s.recoveries| && !(s.recoveries[i].Loaded? && s.stage.Active()) {
        RecoveryUndisturbed(s, i);
      }
    case _ =>
      forall j | 0 <= j < |t.recoveries| && Working(t.recoveries[j])
        ensures WorksAlone(t, j) && SeenStillTrue(t, t.recoveries[j])
      {
        assert Working(s.recoveries[j]) && WorksAlone(s, j);
      }
  }

  lemma {:induction false} LockedRun(s: State, actions: seq<Action>)
    requires Inv(s) && Undisturbed(s) && Exclusive(s)
    ensures Undisturbed(Run(true, s, actions)) && Exclusive(Run(true, s, actions))
    decreases |actions|
  {
    if actions != [] {
      StepKeepsInv(true, s, actions[0]);
      UndisturbedStep(true, s, actions[0]);
      ExclusiveStep(s, actions[0]);
      LockedRun(Step(true, s, actions[0]), actions[1..]);
    }
  }

  /** A single recovery does no harm without the lock either. */
  lemma {:induction false} SingleRun(locked: bool, s: State, actions: seq<Action>)
    requires Inv(s) && Undisturbed(s) && |s.recoveries| <= 1
    ensures Undisturbed(Run(locked, s, actions))
    decreases |actions|
  {
    if actions != [] {
      StepKeepsInv(locked, s, actions[0]);
      UndisturbedStep(locked, s, actions[0]);
      SingleRun(locked, Step(locked, s, actions[0]), actions[1..]);
    }
  }

  lemma {:induction false} RunConcat(locked: bool, s: State, first: seq<Action>, second: seq<Action>)
    ensures Run(locked, s, first + second) == Run(locked, Run(locked, s, first), second)
    decreases |first|
  {
    if first == [] {
      assert first + second == second;
    } else {
      assert (first + second)[1..] == first[1..] + second;
      RunConcat(locked, Step(locked, s, first[0]), first[1..], second);
    }
  }

  function Repeat(a: Action, n: nat): seq<Action> {
    seq(n, i => a)
  }

  /** The state after doing `a` `n` times. */
  function Times(locked: bool, s: State, a: Action, n: nat): State {
    if n == 0 then s else Step(locked, Times(locked, s, a, n - 1), a)
  }

  lemma {:induction false} RunRepeat(locked: bool, s: State, a: Action, n: nat)
    ensures Run(locked, s, Repeat(a, n)) == Times(locked, s, a, n)
  {
    if n > 0 {
      RunRepeat(locked, s, a, n - 1);
      RunConcat(locked, s, Repeat(a, n - 1), Repeat(a, 1));
      assert Repeat(a, n) == Repeat(a, n - 1) + Repeat(a, 1);
    }
  }

  /** Where a faithful copy stands with its journal saved. */
  function SavedState(game: File, recoverers: nat): State {
    var copy := File(game.id + 3, game.bytes);
    var r := Record(game.id, copy.id, game.bytes);
    State(
      Disk(Some(game), Some(copy), Some(r), []), Saved(r), seq(recoverers, i => Idle), game.id + 7,
      game.bytes, Some(r), false)
  }

  /** Undisturbed, six steps take a faithful copy to its saved journal. */
  lemma StageReachesSaved(game: File, recoverers: nat)
    ensures Times(false, Initial(game, recoverers), StageDo(game.bytes), 6) == SavedState(game, recoverers)
  {
    var s, a := Initial(game, recoverers), StageDo(game.bytes);
    var s1 := Step(false, s, a);
    assert Times(false, s, a, 1) == s1;
    var s2 := Step(false, s1, a);
    assert Times(false, s, a, 2) == s2;
    var s3 := Step(false, s2, a);
    assert Times(false, s, a, 3) == s3;
    var s4 := Step(false, s3, a);
    assert Times(false, s, a, 4) == s4;
    var s5 := Step(false, s4, a);
    assert Times(false, s, a, 5) == s5;
    var s6 := Step(false, s5, a);
    assert Times(false, s, a, 6) == s6;
  }

  lemma RunOne(locked: bool, s: State, a: Action)
    ensures Run(locked, s, [a]) == Step(locked, s, a)
  {
    assert [a][1..] == [];
  }

  /** One step more is the swap, and a stop there leaves the files exchanged and unchecked. */
  function StoppedAfterSwap(game: File, recoverers: nat): State {
    Step(false, Step(false, SavedState(game, recoverers), StageDo([])), StageStop)
  }

  /** The recoveries as they go on from there, two of them abreast. */
  function TwoAbreast(s: State, first: RecoverPc, second: RecoverPc): State
    requires |s.recoveries| >= 2
  {
    s.(recoveries := s.recoveries[0 := first][1 := second])
  }

  /** Alone or not, four steps take a recovery through its reads of files that are exchanged. */
  lemma FourReads(s: State, i: nat, r: Record)
    requires i < |s.recoveries| && s.recoveries[i] == Idle && !s.stage.Active()
    requires s.disk.journal == Some(r) && r.original != r.candidate
    requires Holds(s.disk.source, r.candidate) && Holds(s.disk.staged, r.original)
    ensures Times(false, s, RecoverDo(i), 4) == s.(recoveries := s.recoveries[i := Exchanging(r)])
  {
    var a := RecoverDo(i);
    var s1 := Step(false, s, a);
    assert Times(false, s, a, 1) == s1;
    var s2 := Step(false, s1, a);
    assert Times(false, s, a, 2) == s2;
    var s3 := Step(false, s2, a);
    assert Times(false, s, a, 3) == s3;
    var s4 := Step(false, s3, a);
    assert Times(false, s, a, 4) == s4;
    assert s4.recoveries == s.recoveries[i := Exchanging(r)];
  }

  /** Both swap, so the candidate is back; the first finds equal bytes and removes the original. */
  lemma BothSwap(s: State, r: Record)
    requires |s.recoveries| >= 2 && s.recoveries[0] == s.recoveries[1] == Exchanging(r)
    requires s.record == Some(r) && r.original != r.candidate && !s.published
    requires Holds(s.disk.source, r.candidate) && Holds(s.disk.staged, r.original)
    requires s.disk.source.value.bytes == r.hash
    ensures LostUnproved(Run(false, s, [RecoverDo(0), RecoverDo(1), RecoverDo(0), RecoverDo(0)]))
  {
    var s1 := Step(false, s, RecoverDo(0));
    var s2 := Step(false, s1, RecoverDo(1));
    assert s2.disk == s.disk && s2.recoveries[0] == Exchanged(r);
    var s3 := Step(false, s2, RecoverDo(0));
    var s4 := Step(false, s3, RecoverDo(0));
    assert LostUnproved(s4);
    var all := [RecoverDo(0), RecoverDo(1), RecoverDo(0), RecoverDo(0)];
    assert all[1..] == [RecoverDo(1), RecoverDo(0), RecoverDo(0)];
    assert all[1..][1..] == [RecoverDo(0), RecoverDo(0)];
    assert all[1..][1..][1..] == [RecoverDo(0)];
    assert all[1..][1..][1..][1..] == [];
  }

  /** After a stop just past the swap, two recoveries without the lock read the same files and both swap them. */
  lemma UnlockedRunLosesOriginal(game: File, recoverers: nat) returns (actions: seq<Action>)
    requires recoverers >= 2
    ensures LostUnproved(Run(false, Initial(game, recoverers), actions))
  {
    var s, toSaved := Initial(game, recoverers), Repeat(StageDo(game.bytes), 6);
    var r := SavedState(game, recoverers).stage.r;
    var stopped := StoppedAfterSwap(game, recoverers);
    StageReachesSaved(game, recoverers);
    RunRepeat(false, s, StageDo(game.bytes), 6);
    RunOne(false, SavedState(game, recoverers), StageDo([]));
    RunConcat(false, s, toSaved, [StageDo([])]);
    RunOne(false, Step(false, SavedState(game, recoverers), StageDo([])), StageStop);
    RunConcat(false, s, toSaved + [StageDo([])], [StageStop]);
    var toStopped := toSaved + [StageDo([])] + [StageStop];
    assert Run(false, s, toStopped) == stopped;
    var ready := TwoReady(stopped, r);
    RunConcat(false, s, toStopped, ready);
    var both := Run(false, stopped, ready);
    BothSwap(both, r);
    actions := toStopped + ready + [RecoverDo(0), RecoverDo(1), RecoverDo(0), RecoverDo(0)];
    RunConcat(false, s, toStopped + ready, [RecoverDo(0), RecoverDo(1), RecoverDo(0), RecoverDo(0)]);
  }

  lemma TwoReady(s: State, r: Record) returns (actions: seq<Action>)
    requires |s.recoveries| >= 2 && s.recoveries[0] == s.recoveries[1] == Idle && !s.stage.Active()
    requires s.disk.journal == Some(r) && r.original != r.candidate
    requires Holds(s.disk.source, r.candidate) && Holds(s.disk.staged, r.original)
    ensures Run(false, s, actions) == TwoAbreast(s, Exchanging(r), Exchanging(r))
  {
    FourReads(s, 0, r);
    RunRepeat(false, s, RecoverDo(0), 4);
    var t := Times(false, s, RecoverDo(0), 4);
    FourReads(t, 1, r);
    RunRepeat(false, t, RecoverDo(1), 4);
    RunConcat(false, s, Repeat(RecoverDo(0), 4), Repeat(RecoverDo(1), 4));
    actions := Repeat(RecoverDo(0), 4) + Repeat(RecoverDo(1), 4);
  }

  ghost predicate Loses(locked: bool, game: File, recoverers: nat, actions: seq<Action>) {
    LostUnproved(Run(locked, Initial(game, recoverers), actions))
  }

  /** That the original outlives the checks of its replacement is lost exactly to two recoveries without the lock. */
  lemma OriginalIsLostExactly(locked: bool, recoverers: nat)
    ensures (exists game, actions :: Loses(locked, game, recoverers, actions)) <==> !locked && recoverers >= 2
  {
    if locked || recoverers <= 1 {
      forall game, actions ensures !Loses(locked, game, recoverers, actions) {
        InitialInv(game, recoverers);
        if locked {
          LockedRun(Initial(game, recoverers), actions);
        } else {
          SingleRun(locked, Initial(game, recoverers), actions);
        }
      }
    } else {
      var game := File(0, []);
      var actions := UnlockedRunLosesOriginal(game, recoverers);
      assert Loses(locked, game, recoverers, actions);
    }
  }

  // ---------------------------------------------------------------- recovery as one call

  /**
   How a call with two durable halves ends: both done; an error before the first; or an error
   after the first. For `save` the halves are the journal and its directory entry made durable,
   for `swap` the exchange and everything up to the comparison of bytes, for `clear_record`
   the two removals.
   */
  datatype Effect = Done | Refused | Partial

  /** What a recovery meets: whether folder, drive and game allow it, and how its two calls end. */
  datatype Turn = Turn(ready: bool, swap: Effect, clear: Effect)

  const Smooth: Turn := Turn(true, Done, Done)

  /** `clear_record`: without its work directory the first removal fails. */
  function Cleared(d: Disk, e: Effect): Disk {
    if d.staged.None? then d
    else
      match e
      case Done => RemoveJournal(RemoveWork(d))
      case Refused => d
      case Partial => RemoveWork(d)
  }

  /** `recover_original` with nobody else running: the disk it leaves, and whether it succeeded. */
  function Recovered(d: Disk, r: Record, t: Turn): (Disk, bool) {
    if !t.ready then (d, false)
    else if Holds(d.source, r.original) && Holds(d.staged, r.candidate) then (Cleared(d, t.clear), t.clear.Done?)
    else if Holds(d.source, r.candidate) && Holds(d.staged, r.original) && !t.swap.Refused? then
      var back := Exchange(d);
      if t.swap.Partial? || back.source.value.bytes != r.hash then (back, false)
      else (Cleared(back, t.clear), t.clear.Done?)
    else (d, false)
  }

  /** Nothing outside the two files stands in the way of the recovery of this disk. */
  predicate Allows(t: Turn, d: Disk, r: Record) {
    t.ready && t.clear.Done? && (Holds(d.source, r.original) || t.swap.Done?)
  }

  /**
   A recovery succeeds exactly if it is allowed and finds both files, the original with its bytes.
   Then the original is back and nothing is beside it. A refusal before either call touches nothing;
   a failure past the swap leaves the files exchanged; a failure between the removals leaves the
   original and the journal.
   */
  lemma RecoverySucceedsExactly(d: Disk, r: Record, t: Turn)
    requires r.original != r.candidate
    ensures var (now, ok) := Recovered(d, r, t);
            var original := if Holds(d.source, r.original) then d.source else d.staged;
            && (ok <==> Allows(t, d, r) && HoldsBoth(d, r) && (d.source != original ==> original.value.bytes == r.hash))
            && (ok ==> now == Disk(original, None, None, d.orphans))
            && (!t.ready || !HoldsBoth(d, r) ==> now == d)
            && (!ok && t.ready && HoldsBoth(d, r) ==>
                  if Holds(d.source, r.original) then
                    now == if t.clear.Refused? then d else Disk(d.source, None, d.journal, d.orphans)
                  else if t.swap.Refused? then now == d
                  else if t.swap.Partial? || original.value.bytes != r.hash || t.clear.Refused? then
                    now == Disk(d.staged, d.source, d.journal, d.orphans)
                  else now == Disk(original, None, d.journal, d.orphans))
  {
  }

  /** The two names hold exactly the two files of the record, in either order. */
  predicate HoldsBoth(d: Disk, r: Record) {
    || (Holds(d.source, r.original) && Holds(d.staged, r.candidate))
    || (Holds(d.source, r.candidate) && Holds(d.staged, r.original))
  }

  /** One recovery by itself, for `n` steps from its start. */
  function Progress(d: Disk, n: nat): (p: (Disk, RecoverPc)) {
    if n == 0 then (d, Idle) else var p := Progress(d, n - 1); RecoverStep(p.0, p.1)
  }

  /** The machine moves a recovery that nobody disturbs exactly as it moves by itself. */
  lemma {:induction false} UndisturbedProgress(locked: bool, s: State, i: nat, n: nat)
    requires Quiet(s) && i < |s.recoveries| && s.recoveries[i].Idle?
    ensures var p := Progress(s.disk, n);
            Times(locked, s, RecoverDo(i), n) == s.(disk := p.0, recoveries := s.recoveries[i := p.1])
  {
    if n == 0 {
      assert s.recoveries == s.recoveries[i := Idle];
    } else {
      UndisturbedProgress(locked, s, i, n - 1);
    }
  }

  /** Eight steps are one whole recovery. */
  lemma EightStepsRecover(d: Disk)
    requires d.journal.Some? && d.source.Some?
    requires d.journal.value.original != d.journal.value.candidate
    ensures Progress(d, 8).0 == Recovered(d, d.journal.value, Smooth).0
  {
    var r := d.journal.value;
    assert Progress(d, 0) == (d, Idle);
    var p1 := RecoverStep(d, Idle);
    assert Progress(d, 1) == p1;
    var p2 := RecoverStep(p1.0, p1.1);
    assert Progress(d, 2) == p2;
    var p3 := RecoverStep(p2.0, p2.1);
    assert Progress(d, 3) == p3;
    var p4 := RecoverStep(p3.0, p3.1);
    assert Progress(d, 4) == p4;
    var p5 := RecoverStep(p4.0, p4.1);
    assert Progress(d, 5) == p5;
    var p6 := RecoverStep(p5.0, p5.1);
    assert Progress(d, 6) == p6;
    var p7 := RecoverStep(p6.0, p6.1);
    assert Progress(d, 7) == p7;
  }

  /**
   After any run whatever, once nothing is active: an undisturbed recovery puts the original
   back and clears up exactly when the work directory still holds its file and the game has
   not rewritten its own; otherwise it changes nothing.
   */
  lemma RecoveryRestores(locked: bool, game: File, recoverers: nat, actions: seq<Action>, i: nat)
    requires var s := Run(locked, Initial(game, recoverers), actions);
             Quiet(s) && s.disk.journal.Some? && i < |s.recoveries| && s.recoveries[i].Idle?
    ensures var s := Run(locked, Initial(game, recoverers), actions);
            var t := Run(locked, s, Repeat(RecoverDo(i), 8));
            var r := s.disk.journal.value;
            if s.disk.staged.Some? && s.disk.source.Some? && OneOf(s.disk.source.value.id, r)
            then t.disk == Disk(Some(File(r.original, s.content)), None, None, s.disk.orphans)
            else t.disk == s.disk
  {
    var s := Run(locked, Initial(game, recoverers), actions);
    InitialInv(game, recoverers);
    RunKeepsInv(locked, Initial(game, recoverers), actions);
    RunRepeat(locked, s, RecoverDo(i), 8);
    UndisturbedProgress(locked, s, i, 8);
    EightStepsRecover(s.disk);
  }

  /** The window inside `clear_record`: the work directory is gone and the journal is not. */
  predicate Stuck(s: State, r: Record) {
    && s.disk.journal == Some(r) && s.disk.staged.None?
    && !s.stage.Active()
    && forall i | 0 <= i < |s.recoveries| :: !s.recoveries[i].WorkRemoved?
  }

  lemma StuckStep(locked: bool, s: State, r: Record, a: Action)
    requires Stuck(s, r)
    ensures Stuck(Step(locked, s, a), r)
  {
  }

  /** A stop in that window is final: no recovery ever clears the journal, and no pass ever starts again. */
  lemma {:induction false} StuckForEver(locked: bool, s: State, r: Record, actions: seq<Action>)
    requires Stuck(s, r)
    ensures Stuck(Run(locked, s, actions), r)
    decreases |actions|
  {
    if actions != [] {
      StuckStep(locked, s, r, actions[0]);
      StuckForEver(locked, Step(locked, s, actions[0]), r, actions[1..]);
    }
  }

  /** Five steps past the saved journal only the journal itself is left to remove. */
  lemma SavedReachesWindow(game: File, recoverers: nat)
    ensures var s := Times(false, SavedState(game, recoverers), StageDo([]), 5);
            s.disk.journal.Some? && Stuck(Step(false, s, StageStop), s.disk.journal.value)
  {
    var s, a := SavedState(game, recoverers), StageDo([]);
    var s1 := Step(false, s, a);
    assert Times(false, s, a, 1) == s1;
    var s2 := Step(false, s1, a);
    assert Times(false, s, a, 2) == s2;
    var s3 := Step(false, s2, a);
    assert Times(false, s, a, 3) == s3;
    var s4 := Step(false, s3, a);
    assert Times(false, s, a, 4) == s4;
    var s5 := Step(false, s4, a);
    assert Times(false, s, a, 5) == s5;
  }

  /** The window is real: stopping a faithful pass one step before its end reaches it. */
  lemma WindowIsReachable(game: File, recoverers: nat) returns (actions: seq<Action>)
    ensures var s := Run(false, Initial(game, recoverers), actions);
            s.disk.journal.Some? && Stuck(s, s.disk.journal.value)
  {
    var s, saved := Initial(game, recoverers), SavedState(game, recoverers);
    var toSaved, toWindow := Repeat(StageDo(game.bytes), 6), Repeat(StageDo([]), 5);
    StageReachesSaved(game, recoverers);
    RunRepeat(false, s, StageDo(game.bytes), 6);
    RunRepeat(false, saved, StageDo([]), 5);
    SavedReachesWindow(game, recoverers);
    actions := toSaved + toWindow + [StageStop];
    RunConcat(false, s, toSaved, toWindow);
    RunConcat(false, s, toSaved + toWindow, [StageStop]);
    RunOne(false, Times(false, saved, StageDo([]), 5), StageStop);
  }

  // ---------------------------------------------------------------- copies nothing refers to

  /** A stop or a failed save before the journal leaves the copy, and no run ever removes it. */
  lemma {:induction false} OrphansStay(locked: bool, s: State, actions: seq<Action>)
    ensures s.disk.orphans <= Run(locked, s, actions).disk.orphans
    decreases |actions|
  {
    if actions != [] {
      OrphansStay(locked, Step(locked, s, actions[0]), actions[1..]);
    }
  }

  /** Five steps and a stop leave one, with no journal, for every game file and every copy of it. */
  lemma OrphanIsReachable(game: File, recoverers: nat) returns (actions: seq<Action>)
    ensures var d := Run(false, Initial(game, recoverers), actions).disk;
            d.journal.None? && d.source == Some(game) && |d.orphans| == 1 && d.orphans[0].bytes == game.bytes
  {
    var s, a := Initial(game, recoverers), StageDo(game.bytes);
    var s1 := Step(false, s, a);
    assert Times(false, s, a, 1) == s1;
    var s2 := Step(false, s1, a);
    assert Times(false, s, a, 2) == s2;
    var s3 := Step(false, s2, a);
    assert Times(false, s, a, 3) == s3;
    RunRepeat(false, s, a, 3);
    actions := Repeat(a, 3) + [StageStop];
    RunConcat(false, s, Repeat(a, 3), [StageStop]);
    RunOne(false, s3, StageStop);
  }

  // ---------------------------------------------------------------- staging as one call

  /**
   What `stage` learns from outside: flags and sizes, the metadata comparisons, whether the work
   directory can be dropped, and how its three durable calls end.
   */
  datatype Checks = Checks(
    eligible: bool, worthwhile: bool, metadataBefore: bool, metadataAfter: bool, dropped: bool,
    save: Effect, swap: Effect, clear: Effect)

  /** An unused work directory is dropped as it goes out of use, or left behind when that fails. */
  function Dropped(d: Disk, dropped: bool): Disk {
    if dropped then RemoveWork(d) else Abandon(d)
  }

  /** `stage` with nobody else running: the disk it leaves, and its result. */
  function Staged(d: Disk, built: File, c: Checks): (Disk, Result<bool>) {
    if d.source.None? then (d, Err)
    else if !c.eligible then (d, Ok(false))
    else
      var copied := d.(staged := Some(built));
      if !c.worthwhile then (Dropped(copied, c.dropped), Ok(false))
      else if built.bytes != d.source.value.bytes || !c.metadataBefore then (Dropped(copied, c.dropped), Err)
      else if c.save.Refused? then (Abandon(copied), Err)
      else
        var saved := copied.(journal := Some(Record(d.source.value.id, built.id, d.source.value.bytes)));
        if c.save.Partial? || c.swap.Refused? then (saved, Err)
        else if c.swap.Partial? || !c.metadataAfter then (Exchange(saved), Err)
        else (Cleared(Exchange(saved), c.clear), if c.clear.Done? then Ok(true) else Err)
  }

  /** Nothing is being replaced. */
  predicate Clean(d: Disk) {
    d.staged.None? && d.journal.None?
  }

  /** A copy without a journal is an orphan, and a journaled file has the journaled bytes under both names. */
  predicate Sound(d: Disk) {
    if d.journal.None? then d.staged.None?
    else
      var r := d.journal.value;
      && r.original != r.candidate && d.source.Some? && d.source.value.bytes == r.hash
      && (d.staged.Some? ==> d.staged.value.bytes == r.hash)
  }

  /** The path reads the same. */
  predicate SameBytes(was: Disk, now: Disk) {
    was.source.Some? == now.source.Some? && (was.source.Some? ==> was.source.value.bytes == now.source.value.bytes)
  }

  /** The file reads back the same, and nothing is left beside it. */
  predicate Replaced(was: Disk, now: Disk) {
    Clean(was) && was.source.Some? && SameBytes(was, now) && now == was.(source := now.source)
  }

  /** The file is as it was, and a copy of it is left that nothing refers to. */
  predicate Orphaned(was: Disk, now: Disk) {
    && Clean(was) && now == was.(orphans := now.orphans)
    && was.orphans <= now.orphans && |now.orphans| == |was.orphans| + 1
  }

  /** The journal of the file gives it back. */
  predicate Held(was: Disk, now: Disk) {
    Clean(was) && Sound(now) && now.journal.Some? && Recovered(now, now.journal.value, Smooth) == (was, true)
  }

  /** The file is replaced and the original is gone, and its journal is still there. */
  predicate HalfCleared(was: Disk, now: Disk) {
    && Clean(was) && Sound(now) && SameBytes(was, now)
    && now.journal.Some? && now == was.(source := now.source, journal := now.journal)
    && Holds(now.source, now.journal.value.candidate)
  }

  /** The file is as it was, but for a copy that nothing refers to. */
  predicate LeftAlone(was: Disk, now: Disk) {
    now == was || Orphaned(was, now)
  }

  /** How a file stands at which a pass ended early, by an error or a crash. */
  predicate Interrupted(was: Disk, now: Disk) {
    LeftAlone(was, now) || Replaced(was, now) || Held(was, now) || HalfCleared(was, now)
  }

  /** The copy is ready to be journaled. */
  predicate Reaches(d: Disk, built: File, c: Checks) {
    && d.source.Some? && c.eligible && c.worthwhile && c.metadataBefore
    && built.bytes == d.source.value.bytes
  }

  /** The replacement is verified. */
  predicate Publishes(d: Disk, built: File, c: Checks) {
    Reaches(d, built, c) && c.save.Done? && c.swap.Done? && c.metadataAfter
  }

  /** How `stage` can end, and exactly when it ends each way. */
  lemma StageEndsExactly(d: Disk, built: File, c: Checks)
    requires Clean(d) && (d.source.Some? ==> built.id != d.source.value.id)
    ensures var (now, result) := Staged(d, built, c);
            && (result == Ok(true) <==> Publishes(d, built, c) && c.clear.Done?)
            && (result == Ok(false) <==> d.source.Some? && !(c.eligible && c.worthwhile))
            && (result == Ok(true) ==> Replaced(d, now) && now.source == Some(built))
            && (result == Ok(false) ==>
                  now == if c.eligible && !c.dropped then d.(orphans := d.orphans + [built]) else d)
            && (result.Err? ==>
                  if !Reaches(d, built, c) then
                    now == if d.source.Some? && c.eligible && !c.dropped then d.(orphans := d.orphans + [built]) else d
                  else if c.save.Refused? then now == d.(orphans := d.orphans + [built])
                  else if Publishes(d, built, c) && c.clear.Partial? then HalfCleared(d, now)
                  else Held(d, now))
            && (Reaches(d, built, c) && !c.save.Refused? && result.Err? ==>
                  StoppedPart(d, built, c, now))
  {
  }

  /**
   Which file an error leaves where, once the journal was written: the game's own under its name
   exactly if the journal was not made durable or the swap was refused, the other in the work
   directory until that is cleared.
   */
  predicate StoppedPart(d: Disk, built: File, c: Checks, now: Disk)
    requires d.source.Some?
  {
    && now.journal == Some(Record(d.source.value.id, built.id, d.source.value.bytes)) && now.orphans == d.orphans
    && (if !c.save.Done? || c.swap.Refused? then now.source == d.source && now.staged == Some(built)
        else
          && now.source == Some(built)
          && now.staged == if c.swap.Done? && c.metadataAfter && c.clear.Partial? then None else d.source)
  }

  /** One stage by itself, for `n` steps from its start. */
  function Drafted(d: Disk, built: File, n: nat): (p: (Disk, StagePc)) {
    if n == 0 then (d, Begin) else var p := Drafted(d, built, n - 1); StageStep(p.0, p.1, built)
  }

  /** The disk after `n` steps of a stage and then a stop. */
  function StoppedAfter(d: Disk, built: File, n: nat): Disk {
    var p := Drafted(d, built, n);
    if p.1.Unrecorded() then Abandon(p.0) else p.0
  }

  /** However the call ends, it leaves what some number of steps of the machine and a stop leave. */
  lemma StageIsStoppedSteps(d: Disk, built: File, c: Checks) returns (n: nat)
    requires Clean(d) && (d.source.Some? ==> built.id != d.source.value.id)
    ensures n <= 12 && Staged(d, built, c).0 == StoppedAfter(d, built, n)
  {
    DraftedSteps(d, built);
    if !Reaches(d, built, c) {
      n := if d.source.None? || !c.eligible || c.dropped then 0 else 3;
    } else if c.save.Refused? {
      n := 5;
    } else if c.save.Partial? || c.swap.Refused? {
      n := 6;
    } else if c.swap.Partial? || !c.metadataAfter || c.clear.Refused? {
      n := 7;
    } else {
      n := if c.clear.Partial? then 11 else 12;
    }
  }

  /** What a stage has done by each position, to the disk it started from. */
  predicate DraftAt(d: Disk, built: File, now: Disk, pc: StagePc) {
    if d.source.None? then now == d && (pc.Begin? || pc.Finished?)
    else
      var o, h := d.source.value.id, d.source.value.bytes;
      var r := Record(o, built.id, h);
      var copied := d.(staged := Some(built));
      var saved := copied.(journal := Some(r));
      var exchanged, same := Exchange(saved), built.bytes == h;
      match pc
      case Begin => now == d
      case Identified(original) => now == d && original == o
      case Hashed(original, hash) => now == d && original == o && hash == h
      case Built(original, hash) => now == copied && original == o && hash == h
      case Verified(original, hash) => same && now == copied && original == o && hash == h
      case Kept(record) => same && now == copied && record == r
      case Saved(record) => same && now == saved && record == r
      case Swapped(record) => same && now == exchanged && record == r
      case StagedIsOriginal(record) => same && now == exchanged && record == r
      case BothMatch(record) => same && now == exchanged && record == r
      case Clear(record) => same && now == exchanged && record == r
      case WorkGone(record) => same && now == RemoveWork(exchanged) && record == r
      case Finished => now == d || (same && now == RemoveJournal(RemoveWork(exchanged)))
  }

  lemma {:induction false} DraftedAt(d: Disk, built: File, n: nat)
    requires Clean(d) && (d.source.Some? ==> built.id != d.source.value.id)
    ensures DraftAt(d, built, Drafted(d, built, n).0, Drafted(d, built, n).1)
  {
    if n > 0 {
      DraftedAt(d, built, n - 1);
    }
  }

  /** A stop at any step of a stage, by a crash or an error, leaves the file as an interrupted pass does. */
  lemma StopInterrupts(d: Disk, built: File, n: nat)
    requires Clean(d) && (d.source.Some? ==> built.id != d.source.value.id)
    ensures Interrupted(d, StoppedAfter(d, built, n))
  {
    DraftedAt(d, built, n);
  }

  /** What a recovery has done by each position, to the disk it started from. */
  predicate ProgressAt(d: Disk, r: Record, now: Disk, pc: RecoverPc)
    requires d.source.Some?
  {
    var before := Holds(d.source, r.original) && Holds(d.staged, r.candidate);
    var swapped := Holds(d.source, r.candidate) && Holds(d.staged, r.original);
    var back := if swapped then Exchange(d) else d;
    var kept := swapped && d.staged.value.bytes == r.hash;
    match pc
    case Idle => now == d
    case Loaded(record) => now == d && record == r
    case SourceIsOriginal(record) => Holds(d.source, r.original) && now == d && record == r
    case NotBeforeSwap(record) => now == d && record == r
    case SourceIsCandidate(record) => Holds(d.source, r.candidate) && now == d && record == r
    case Exchanging(record) => swapped && now == d && record == r
    case Exchanged(record) => swapped && now == back && record == r
    case Clearing(record) => ((before && now == d) || (kept && now == back)) && record == r
    case WorkRemoved(record) =>
      ((before && now == RemoveWork(d)) || (kept && now == RemoveWork(back))) && record == r
    case Ended =>
      || now == d || (swapped && now == back)
      || (before && now == RemoveJournal(RemoveWork(d)))
      || (kept && now == RemoveJournal(RemoveWork(back)))
  }

  lemma {:induction false} ProgressedAt(d: Disk, n: nat)
    requires d.journal.Some? && d.source.Some? && d.journal.value.original != d.journal.value.candidate
    ensures ProgressAt(d, d.journal.value, Progress(d, n).0, Progress(d, n).1)
  {
    if n > 0 {
      ProgressedAt(d, n - 1);
    }
  }

  /** A stop at any step of a recovery, by a crash or an error, leaves what some end of the call leaves. */
  lemma StopIsATurn(d: Disk, n: nat) returns (t: Turn)
    requires d.journal.Some? && d.source.Some? && d.journal.value.original != d.journal.value.candidate
    ensures Progress(d, n).0 == Recovered(d, d.journal.value, t).0
  {
    var r, now := d.journal.value, Progress(d, n).0;
    ProgressedAt(d, n);
    t := if now == d then Smooth.(ready := false)
         else if now.staged.Some? then Smooth.(swap := Partial)
         else if now.journal.Some? then Smooth.(clear := Partial)
         else Smooth;
  }

  lemma DraftedSteps(d: Disk, built: File)
    requires Clean(d) && (d.source.Some? ==> built.id != d.source.value.id)
    ensures Drafted(d, built, 0) == (d, Begin)
    ensures d.source.Some? ==>
              Drafted(d, built, 3) == (d.(staged := Some(built)), Built(d.source.value.id, d.source.value.bytes))
    ensures d.source.Some? && built.bytes == d.source.value.bytes ==>
              var r := Record(d.source.value.id, built.id, d.source.value.bytes);
              var saved := d.(staged := Some(built), journal := Some(r));
              && Drafted(d, built, 5) == (d.(staged := Some(built)), Kept(r))
              && Drafted(d, built, 6) == (saved, Saved(r)) && Drafted(d, built, 7) == (Exchange(saved), Swapped(r))
              && Drafted(d, built, 11) == (RemoveWork(Exchange(saved)), WorkGone(r))
              && Drafted(d, built, 12) == (RemoveJournal(RemoveWork(Exchange(saved))), Finished)
  {
    var p1 := StageStep(d, Begin, built);
    assert Drafted(d, built, 1) == p1;
    var p2 := StageStep(p1.0, p1.1, built);
    assert Drafted(d, built, 2) == p2;
    var p3 := StageStep(p2.0, p2.1, built);
    assert Drafted(d, built, 3) == p3;
    var p4 := StageStep(p3.0, p3.1, built);
    assert Drafted(d, built, 4) == p4;
    var p5 := StageStep(p4.0, p4.1, built);
    assert Drafted(d, built, 5) == p5;
    var p6 := StageStep(p5.0, p5.1, built);
    assert Drafted(d, built, 6) == p6;
    var p7 := StageStep(p6.0, p6.1, built);
    assert Drafted(d, built, 7) == p7;
    var p8 := StageStep(p7.0, p7.1, built);
    assert Drafted(d, built, 8) == p8;
    var p9 := StageStep(p8.0, p8.1, built);
    assert Drafted(d, built, 9) == p9;
    var p10 := StageStep(p9.0, p9.1, built);
    assert Drafted(d, built, 10) == p10;
    var p11 := StageStep(p10.0, p10.1, built);
    assert Drafted(d, built, 11) == p11;
    var p12 := StageStep(p11.0, p11.1, built);
    assert Drafted(d, built, 12) == p12;
  }

  /** However a recovery ends, it leaves what some number of its steps leave. */
  lemma RecoveryIsStoppedSteps(d: Disk, t: Turn) returns (n: nat)
    requires d.journal.Some? && d.source.Some?
    requires d.journal.value.original != d.journal.value.candidate
    ensures n <= 8 && Progress(d, n).0 == Recovered(d, d.journal.value, t).0
  {
    var r := d.journal.value;
    var p1 := RecoverStep(d, Idle);
    assert Progress(d, 1) == p1;
    var p2 := RecoverStep(p1.0, p1.1);
    assert Progress(d, 2) == p2;
    var p3 := RecoverStep(p2.0, p2.1);
    assert Progress(d, 3) == p3;
    var p4 := RecoverStep(p3.0, p3.1);
    assert Progress(d, 4) == p4;
    var p5 := RecoverStep(p4.0, p4.1);
    assert Progress(d, 5) == p5;
    var p6 := RecoverStep(p5.0, p5.1);
    assert Progress(d, 6) == p6;
    var p7 := RecoverStep(p6.0, p6.1);
    assert Progress(d, 7) == p7;
    var p8 := RecoverStep(p7.0, p7.1);
    assert Progress(d, 8) == p8;
    if !t.ready || !HoldsBoth(d, r) {
      n := 0;
    } else if Holds(d.source, r.original) {
      n := match t.clear case Refused => 0 case Partial => 4 case Done => 5;
    } else if t.swap.Refused? {
      n := 0;
    } else if t.swap.Partial? || d.staged.value.bytes != r.hash || t.clear.Refused? {
      n := 5;
    } else {
      n := if t.clear.Partial? then 7 else 8;
    }
  }

  // ---------------------------------------------------------------- the calls themselves

  /** The paths of one game file, changed in place by the calls of the source. */
  class GameFile {
    var source: Option<File>
    var staged: Option<File>
    var journal: Option<Record>
    var orphans: seq<File>

    function View(): Disk
      reads this
    {
      Disk(source, staged, journal, orphans)
    }

    constructor (d: Disk)
      ensures View() == d
    {
      source, staged, journal, orphans := d.source, d.staged, d.journal, d.orphans;
    }

    /** `save`: the journal is renamed into place and its directory synced. */
    method Save(r: Record, e: Effect) returns (ok: bool)
      modifies this
      ensures ok == e.Done?
      ensures View() == if e.Refused? then old(View()) else old(View()).(journal := Some(r))
    {
      if !e.Refused? {
        journal := Some(r);
      }
      ok := e.Done?;
    }

    /** `swap`: refused if a name is missing; a failed sync is an error after the exchange. */
    method Swap(e: Effect) returns (ok: bool)
      modifies this
      ensures ok == (e.Done? && old(source).Some? && old(staged).Some?)
      ensures View() ==
              if !e.Refused? && old(source).Some? && old(staged).Some? then Exchange(old(View())) else old(View())
    {
      if e.Refused? || source.None? || staged.None? {
        return false;
      }
      source, staged := staged, source;
      ok := e.Done?;
    }

    /** `clear_record`: each removal can fail. */
    method ClearRecord(e: Effect) returns (ok: bool)
      modifies this
      ensures ok == (e.Done? && old(staged).Some?) && View() == Cleared(old(View()), e)
      ensures source == old(source) && orphans == old(orphans)
      ensures staged == if e.Refused? then old(staged) else None
      ensures journal == if e.Done? && old(staged).Some? then None else old(journal)
    {
      if e.Refused? || staged.None? {
        return false;
      }
      staged := None;
      if e.Partial? {
        return false;
      }
      journal := None;
      ok := true;
    }

    method RecoverOriginal(r: Record, t: Turn) returns (ok: bool)
      modifies this
      ensures (View(), ok) == Recovered(old(View()), r, t)
    {
      if !t.ready {
        return false;
      }
      if Holds(source, r.original) && Holds(staged, r.candidate) {
        ok := ClearRecord(t.clear);
        return;
      }
      if !(Holds(source, r.candidate) && Holds(staged, r.original)) {
        return false;
      }
      ok := Swap(t.swap);
      if !ok || source.value.bytes != r.hash {
        return false;
      }
      ok := ClearRecord(t.clear);
    }

    /** The work directory goes out of use before any journal names it. */
    method DropWork(dropped: bool)
      modifies this
      ensures View() == Dropped(old(View()), dropped)
    {
      if !dropped && staged.Some? {
        orphans := orphans + [staged.value];
      }
      staged := None;
    }

    /** Replaces the file by `built`, or says why not; `StageEndsExactly` tells what each end leaves. */
    method Stage(built: File, c: Checks) returns (result: Result<bool>)
      requires Clean(View())
      requires source.Some? ==> built.id != source.value.id
      modifies this
      ensures (View(), result) == Staged(old(View()), built, c)
    {
      if source.None? {
        return Err;
      }
      var original := source.value.id;
      if !c.eligible {
        return Ok(false);
      }
      var beforeHash := source.value.bytes;
      staged := Some(built);
      if !c.worthwhile {
        DropWork(c.dropped);
        return Ok(false);
      }
      if staged.value.bytes != beforeHash || !c.metadataBefore || !Holds(source, original) {
        DropWork(c.dropped);
        return Err;
      }
      var r := Record(original, staged.value.id, beforeHash);
      var saved := Save(r, c.save);
      if !saved {
        if journal.None? {
          // Kept for a journal that is not there.
          DropWork(false);
        }
        return Err;
      }
      var swapped := Swap(c.swap);
      if !swapped || !Holds(staged, r.original) || !Holds(source, r.candidate) {
        return Err;
      }
      if source.value.bytes != r.hash || !c.metadataAfter {
        return Err;
      }
      var cleared := ClearRecord(c.clear);
      result := if cleared then Ok(true) else Err;
    }
  }
}
