/**
 One parallel pass over a game's files. Every file is a task; any number of tasks interleave
 over the shared counters, the guarded lists and the report lock, one shared access at a time.
 */
module CompressionPass {
  import opened Common
  import FileRanges

  /** How one file's turn goes: opening it, comparing it before, rewriting it, comparing it after. */
  datatype Attempt = Attempt(opens: bool, sameBefore: bool, op: Result<int>, sameAfter: bool) {
    /** The level of the receipt this attempt earns, if it earns one. */
    function Receipt(): Option<int> {
      if opens && sameBefore && op.Ok? && sameAfter then Some(op.value) else None
    }
  }

  datatype Target = Target(size: nat, attempt: Attempt)

  /** The job: sizes fit `u64` and levels fit `i32`. */
  predicate ValidJob(job: seq<Target>) {
    forall i | 0 <= i < |job| ::
      job[i].size <= U64_MAX && (job[i].attempt.op.Ok? ==> job[i].attempt.op.value <= I32_MAX)
  }

  datatype Pc =
    | Ready
    | Earned(level: int)     // rewritten and unchanged: about to lower the shared level
    | Lowered(level: int)    // about to push the receipt
    | Pushed                 // about to take the report lock
    | Locked                 // about to count the file
    | Counted(done: nat)     // about to count the bytes
    | Summed(done: nat, bytes: nat)
    | Reported               // about to release the lock
    | Succeeded
    | Failing
    | Failed
    | Skipped
  {
    predicate Holding() { Locked? || Counted? || Summed? || Reported? }

    predicate HasLowered() { Lowered? || HasReceipt() }

    predicate HasReceipt() { Pushed? || Locked? || HasCounted() }

    predicate HasCounted() { Counted? || Summed? || Reported? || Succeeded? }

    predicate Terminal() { Succeeded? || Failed? || Skipped? }
  }

  datatype Progress = Progress(files: nat, bytes: nat)

  /** `counted` is history: the tasks in the order they raised `files_done`. */
  datatype State = State(
    pcs: seq<Pc>,
    cancelled: bool,
    lock: Option<nat>,
    filesDone: nat,
    bytesDone: nat,
    level: int,
    completed: seq<(nat, int)>,
    errors: seq<nat>,
    progress: seq<Progress>,
    counted: seq<nat>)

  datatype Action = Cancel | Go(i: nat)

  const WRAP: nat := U64_MAX + 1

  /** What a 64-bit counter shows of a total. */
  function Wrapped(n: nat): nat {
    if n < WRAP then n else Wrapped(n - WRAP)
  }

  function Initial(job: seq<Target>): State {
    State(seq(|job|, i => Ready), false, None, 0, 0, I32_MAX, [], [], [], [])
  }

  /** Where task `i` stands after its next shared access; a task that waits for the lock stays where it is. */
  function NextPc(job: seq<Target>, s: State, i: nat): Pc
    requires i < |job| == |s.pcs|
  {
    match s.pcs[i]
    case Ready =>
      if s.cancelled then Skipped
      else (match job[i].attempt.Receipt() case Some(level) => Earned(level) case None => Failing)
    case Earned(level) => Lowered(level)
    case Lowered(_) => Pushed
    case Pushed => if s.lock.Some? then Pushed else Locked
    case Locked => Counted(s.filesDone + 1)
    case Counted(done) => Summed(done, Wrapped(s.bytesDone + job[i].size))
    case Summed(_, _) => Reported
    case Reported => Succeeded
    case Failing => Failed
    case pc => pc
  }

  /** The shared access itself: each touches one of the shared variables. */
  function Advanced(job: seq<Target>, s: State, i: nat): State
    requires i < |job| == |s.pcs|
  {
    var pc := s.pcs[i];
    State(
      s.pcs[i := NextPc(job, s, i)],
      s.cancelled,
      if pc.Pushed? && s.lock.None? then Some(i) else if pc.Reported? then None else s.lock,
      if pc.Locked? then s.filesDone + 1 else s.filesDone,
      if pc.Counted? then Wrapped(s.bytesDone + job[i].size) else s.bytesDone,
      if pc.Earned? then Min(s.level, pc.level) else s.level,
      if pc.Lowered? then s.completed + [(i, pc.level)] else s.completed,
      if pc.Failing? then s.errors + [i] else s.errors,
      if pc.Summed? then s.progress + [Progress(pc.done, pc.bytes)] else s.progress,
      if pc.Locked? then s.counted + [i] else s.counted)
  }

  function Step(job: seq<Target>, s: State, a: Action): State
    requires |job| == |s.pcs|
    ensures |Step(job, s, a).pcs| == |job|
  {
    match a
    case Cancel => s.(cancelled := true)
    case Go(i) => if i < |job| then Advanced(job, s, i) else s
  }

  function Run(job: seq<Target>, s: State, actions: seq<Action>): State
    requires |job| == |s.pcs|
    ensures |Run(job, s, actions).pcs| == |job|
    decreases |actions|
  {
    if actions == [] then s else Run(job, Step(job, s, actions[0]), actions[1..])
  }

  // ---------------------------------------------------------------- counting under the lock

  /** Total size of the tasks listed. */
  function SizeSum(job: seq<Target>, order: seq<nat>): nat {
    if order == [] then 0
    else SizeSum(job, order[..|order| - 1]) + (var i := order[|order| - 1]; if i < |job| then job[i].size else 0)
  }

  predicate LockInv(s: State) {
    && (s.lock.Some? ==> s.lock.value < |s.pcs| && s.pcs[s.lock.value].Holding())
    && forall i | 0 <= i < |s.pcs| && s.pcs[i].Holding() :: s.lock == Some(i)
  }

  predicate ProgressInv(job: seq<Target>, s: State) {
    && |s.progress| <= |s.counted|
    && forall k | 0 <= k < |s.progress| ::
         s.progress[k] == Progress(k + 1, Wrapped(SizeSum(job, s.counted[..k + 1])))
  }

  function Holder(s: State): Pc {
    if s.lock.Some? && s.lock.value < |s.pcs| then s.pcs[s.lock.value] else Ready
  }

  /** At most the lock holder's own file is counted and not yet reported. */
  predicate CountInv(job: seq<Target>, s: State) {
    && s.filesDone == |s.counted|
    && match Holder(s)
       case Counted(done) =>
         && |s.progress| == |s.counted| - 1 && s.counted[|s.counted| - 1] == s.lock.value && done == |s.counted|
         && s.bytesDone == Wrapped(SizeSum(job, s.counted[..|s.counted| - 1]))
       case Summed(done, bytes) =>
         && |s.progress| == |s.counted| - 1 && done == |s.counted| && bytes == s.bytesDone
         && s.bytesDone == Wrapped(SizeSum(job, s.counted))
       case _ =>
         && |s.progress| == |s.counted| && s.bytesDone == Wrapped(SizeSum(job, s.counted))
  }

  lemma LockStep(job: seq<Target>, s: State, a: Action)
    requires |job| == |s.pcs| && LockInv(s)
    ensures LockInv(Step(job, s, a))
  {
  }

  lemma {:induction false} WrapAdd(a: nat, b: nat)
    ensures Wrapped(Wrapped(a) + b) == Wrapped(a + b)
    decreases a
  {
    if a >= WRAP {
      WrapAdd(a - WRAP, b);
    }
  }

  lemma CountByHolder(job: seq<Target>, s: State, i: nat)
    requires |job| == |s.pcs| && i < |job| && LockInv(s) && CountInv(job, s)
    requires s.pcs[i].Holding() || (s.pcs[i].Pushed? && s.lock.None?)
    ensures CountInv(job, Advanced(job, s, i))
  {
    if s.pcs[i].Counted? {
      BytesCounted(job, s, i);
    } else {
      var t := Advanced(job, s, i);
      assert s.pcs[i].Locked? ==> t.counted[..|t.counted| - 1] == s.counted;
    }
  }

  lemma BytesCounted(job: seq<Target>, s: State, i: nat)
    requires |job| == |s.pcs| && i < |job| && LockInv(s) && CountInv(job, s) && s.pcs[i].Counted?
    ensures CountInv(job, Advanced(job, s, i))
  {
    WrapAdd(SizeSum(job, s.counted[..|s.counted| - 1]), job[i].size);
  }

  lemma CountStep(job: seq<Target>, s: State, i: nat)
    requires |job| == |s.pcs| && i < |job| && LockInv(s) && CountInv(job, s)
    ensures CountInv(job, Advanced(job, s, i))
  {
    if s.pcs[i].Holding() || (s.pcs[i].Pushed? && s.lock.None?) {
      CountByHolder(job, s, i);
    }
  }

  lemma ProgressStep(job: seq<Target>, s: State, i: nat)
    requires |job| == |s.pcs| && i < |job| && LockInv(s) && CountInv(job, s) && ProgressInv(job, s)
    ensures ProgressInv(job, Advanced(job, s, i))
  {
    var t := Advanced(job, s, i);
    assert s.counted[..|s.counted|] == s.counted;
    assert forall k | 0 <= k <= |s.counted| :: t.counted[..k] == s.counted[..k];
  }

  // ---------------------------------------------------------------- receipts, errors and the shared level

  predicate PcInv(t: Target, pc: Pc) {
    match pc
    case Earned(level) => t.attempt.Receipt() == Some(level)
    case Lowered(level) => t.attempt.Receipt() == Some(level)
    case Failing => t.attempt.Receipt().None?
    case Failed => t.attempt.Receipt().None?
    case Ready => true
    case Skipped => true
    case _ => t.attempt.Receipt().Some?
  }

  /** The three lists a task can be on. */
  datatype Mark = HasReceipt | HasCount | HasError

  predicate Marked(m: Mark, pc: Pc) {
    match m
    case HasReceipt => pc.HasReceipt()
    case HasCount => pc.HasCounted()
    case HasError => pc.Failed?
  }

  /** `list` names exactly the tasks with mark `m`, once each. */
  ghost predicate Enumerates(list: seq<nat>, pcs: seq<Pc>, m: Mark) {
    && (forall k | 0 <= k < |list| :: list[k] < |pcs| && Marked(m, pcs[list[k]]))
    && (forall i | 0 <= i < |pcs| && Marked(m, pcs[i]) :: i in list)
    && (forall j, k | 0 <= j < k < |list| :: list[j] != list[k])
  }

  lemma EnumerationStays(list: seq<nat>, pcs: seq<Pc>, m: Mark, i: nat, pc: Pc)
    requires Enumerates(list, pcs, m) && i < |pcs| && Marked(m, pc) == Marked(m, pcs[i])
    ensures Enumerates(list, pcs[i := pc], m)
  {
  }

  lemma EnumerationGrows(list: seq<nat>, pcs: seq<Pc>, m: Mark, i: nat, pc: Pc)
    requires Enumerates(list, pcs, m) && i < |pcs| && Marked(m, pc) && !Marked(m, pcs[i])
    ensures Enumerates(list + [i], pcs[i := pc], m)
  {
  }

  function Tasks(completed: seq<(nat, int)>): seq<nat> {
    seq(|completed|, k requires 0 <= k < |completed| => completed[k].0)
  }

  /** Every task stands where its attempt allows, and receipts carry their own level. */
  predicate EarnedInv(job: seq<Target>, s: State) {
    && |job| == |s.pcs|
    && (forall i | 0 <= i < |job| :: PcInv(job[i], s.pcs[i]))
    && (forall k | 0 <= k < |s.completed| ::
          s.completed[k].0 < |job| && job[s.completed[k].0].attempt.Receipt() == Some(s.completed[k].1))
  }

  /** Receipts, errors and counts are each the tasks that got that far. */
  ghost predicate ListsInv(job: seq<Target>, s: State) {
    && EarnedInv(job, s)
    && Enumerates(Tasks(s.completed), s.pcs, HasReceipt)
    && Enumerates(s.errors, s.pcs, HasError)
    && Enumerates(s.counted, s.pcs, HasCount)
  }

  lemma ReceiptList(job: seq<Target>, s: State, i: nat)
    requires |job| == |s.pcs| && i < |job| && Enumerates(Tasks(s.completed), s.pcs, HasReceipt)
    ensures Enumerates(Tasks(Advanced(job, s, i).completed), Advanced(job, s, i).pcs, HasReceipt)
  {
    if s.pcs[i].Lowered? {
      assert Tasks(Advanced(job, s, i).completed) == Tasks(s.completed) + [i];
      EnumerationGrows(Tasks(s.completed), s.pcs, HasReceipt, i, NextPc(job, s, i));
    } else {
      EnumerationStays(Tasks(s.completed), s.pcs, HasReceipt, i, NextPc(job, s, i));
    }
  }

  lemma ErrorList(job: seq<Target>, s: State, i: nat)
    requires |job| == |s.pcs| && i < |job| && Enumerates(s.errors, s.pcs, HasError)
    ensures Enumerates(Advanced(job, s, i).errors, Advanced(job, s, i).pcs, HasError)
  {
    if s.pcs[i].Failing? {
      EnumerationGrows(s.errors, s.pcs, HasError, i, NextPc(job, s, i));
    } else {
      EnumerationStays(s.errors, s.pcs, HasError, i, NextPc(job, s, i));
    }
  }

  lemma CountList(job: seq<Target>, s: State, i: nat)
    requires |job| == |s.pcs| && i < |job| && Enumerates(s.counted, s.pcs, HasCount)
    ensures Enumerates(Advanced(job, s, i).counted, Advanced(job, s, i).pcs, HasCount)
  {
    if s.pcs[i].Locked? {
      EnumerationGrows(s.counted, s.pcs, HasCount, i, NextPc(job, s, i));
    } else {
      EnumerationStays(s.counted, s.pcs, HasCount, i, NextPc(job, s, i));
    }
  }

  lemma EarnedStep(job: seq<Target>, s: State, i: nat)
    requires EarnedInv(job, s) && i < |job|
    ensures EarnedInv(job, Advanced(job, s, i))
  {
    assert PcInv(job[i], s.pcs[i]);
    assert PcInv(job[i], NextPc(job, s, i));
  }

  lemma ListsStep(job: seq<Target>, s: State, i: nat)
    requires ListsInv(job, s) && i < |job|
    ensures ListsInv(job, Advanced(job, s, i))
  {
    EarnedStep(job, s, i);
    ReceiptList(job, s, i);
    ErrorList(job, s, i);
    CountList(job, s, i);
  }

  /** The level task `i` has offered to the shared minimum. */
  predicate Offered(job: seq<Target>, s: State, i: nat, level: int) {
    i < |job| == |s.pcs| && s.pcs[i].HasLowered() && job[i].attempt.Receipt() == Some(level)
  }

  /** The shared level is the least level offered, from a start above them all. */
  ghost predicate LevelInv(job: seq<Target>, s: State) {
    && s.level <= I32_MAX
    && (forall i: nat, level | Offered(job, s, i, level) :: s.level <= level)
    && (s.level == I32_MAX || exists i: nat :: Offered(job, s, i, s.level))
  }

  lemma OffersStay(job: seq<Target>, s: State, i: nat, k: nat, level: int)
    requires EarnedInv(job, s) && i < |job|
    ensures Offered(job, s, k, level) ==> Offered(job, Advanced(job, s, i), k, level)
    ensures Offered(job, Advanced(job, s, i), k, level) ==>
              Offered(job, s, k, level) || (k == i && s.pcs[i] == Earned(level))
  {
    assert PcInv(job[i], s.pcs[i]);
  }

  lemma LevelStep(job: seq<Target>, s: State, i: nat)
    requires EarnedInv(job, s) && LevelInv(job, s) && ValidJob(job) && i < |job|
    ensures LevelInv(job, Advanced(job, s, i))
  {
    var t := Advanced(job, s, i);
    forall k: nat, level | Offered(job, t, k, level) ensures t.level <= level {
      OffersStay(job, s, i, k, level);
    }
    if t.level == s.level < I32_MAX {
      var k: nat :| Offered(job, s, k, s.level);
      OffersStay(job, s, i, k, s.level);
    } else if t.level < s.level {
      assert PcInv(job[i], s.pcs[i]) && Offered(job, t, i, t.level);
    }
  }

  lemma CancelKeepsLevels(job: seq<Target>, s: State)
    requires LevelInv(job, s)
    ensures LevelInv(job, s.(cancelled := true))
  {
    var t := s.(cancelled := true);
    assert forall i: nat, level :: Offered(job, s, i, level) <==> Offered(job, t, i, level);
  }

  // ---------------------------------------------------------------- every state of every run

  ghost predicate Inv(job: seq<Target>, s: State) {
    ListsInv(job, s) && LevelInv(job, s) && LockInv(s) && CountInv(job, s) && ProgressInv(job, s)
  }

  lemma InvStep(job: seq<Target>, s: State, a: Action)
    requires ValidJob(job) && Inv(job, s)
    ensures Inv(job, Step(job, s, a))
  {
    LockStep(job, s, a);
    if a.Go? && a.i < |job| {
      CountStep(job, s, a.i);
      ProgressStep(job, s, a.i);
      ListsStep(job, s, a.i);
      LevelStep(job, s, a.i);
    } else {
      CancelKeepsLevels(job, s);
    }
  }

  lemma {:induction false} InvRun(job: seq<Target>, s: State, actions: seq<Action>)
    requires ValidJob(job) && Inv(job, s)
    ensures Inv(job, Run(job, s, actions))
    decreases |actions|
  {
    if actions != [] {
      InvStep(job, s, actions[0]);
      InvRun(job, Step(job, s, actions[0]), actions[1..]);
    }
  }

  /** Progress events count 1, 2, 3, …; no task has two receipts, or a receipt and an error. */
  predicate CountsInOrder(s: State) {
    && (forall k | 0 <= k < |s.progress| :: s.progress[k].files == k + 1)
    && (forall k | 0 <= k < |s.completed| :: s.completed[k].0 !in s.errors)
    && (forall j, k | 0 <= j < k < |s.completed| :: s.completed[j].0 != s.completed[k].0)
  }

  lemma ProgressCounts(job: seq<Target>, actions: seq<Action>)
    requires ValidJob(job)
    ensures CountsInOrder(Run(job, Initial(job), actions))
  {
    InvRun(job, Initial(job), actions);
    ListsGiveCounts(job, Run(job, Initial(job), actions));
  }

  lemma ListsGiveCounts(job: seq<Target>, s: State)
    requires ListsInv(job, s) && ProgressInv(job, s)
    ensures CountsInOrder(s)
  {
    assert forall k | 0 <= k < |s.completed| :: Tasks(s.completed)[k] == s.completed[k].0;
    forall k | 0 <= k < |s.completed| ensures s.completed[k].0 !in s.errors {
      assert Marked(HasReceipt, s.pcs[Tasks(s.completed)[k]]);
    }
  }

  // ---------------------------------------------------------------- byte totals

  lemma {:induction false} SizesGrow(job: seq<Target>, order: seq<nat>, j: nat, k: nat)
    requires j <= k <= |order|
    ensures SizeSum(job, order[..j]) <= SizeSum(job, order[..k])
    decreases k
  {
    if j < k {
      assert order[..k][..k - 1] == order[..k - 1];
      SizesGrow(job, order, j, k - 1);
    }
  }

  /** The first prefix whose total no longer fits 64 bits; the one before it still does. */
  lemma {:induction false} FirstWrap(job: seq<Target>, order: seq<nat>, n: nat) returns (k: nat)
    requires ValidJob(job) && n <= |order| && SizeSum(job, order[..n]) >= WRAP
    ensures 2 <= k <= n
    ensures SizeSum(job, order[..k - 1]) < WRAP <= SizeSum(job, order[..k]) <= SizeSum(job, order[..k - 1]) + U64_MAX
    decreases n
  {
    assert n > 0 && order[..n][..n - 1] == order[..n - 1];
    if SizeSum(job, order[..n - 1]) >= WRAP {
      k := FirstWrap(job, order, n - 1);
    } else {
      k := n;
      assert order[..0] == [];
    }
  }

  predicate BytesNeverFall(progress: seq<Progress>) {
    forall j, k | 0 <= j < k < |progress| :: progress[j].bytes <= progress[k].bytes
  }

  lemma FittingBytesRise(job: seq<Target>, s: State)
    requires ProgressInv(job, s) && SizeSum(job, s.counted[..|s.progress|]) <= U64_MAX
    ensures BytesNeverFall(s.progress)
  {
    forall j, k | 0 <= j < k < |s.progress| ensures s.progress[j].bytes <= s.progress[k].bytes {
      SizesGrow(job, s.counted, j + 1, k + 1);
      SizesGrow(job, s.counted, k + 1, |s.progress|);
    }
  }

  lemma WrappedBytesFall(job: seq<Target>, s: State)
    requires ValidJob(job) && ProgressInv(job, s) && SizeSum(job, s.counted[..|s.progress|]) > U64_MAX
    ensures !BytesNeverFall(s.progress)
  {
    var k := FirstWrap(job, s.counted, |s.progress|);
    var before, after := SizeSum(job, s.counted[..k - 1]), SizeSum(job, s.counted[..k]);
    assert s.progress[k - 2] == Progress(k - 1, Wrapped(before));
    assert s.progress[k - 1] == Progress(k, Wrapped(after)) && Wrapped(after) == after - WRAP;
  }

  /** In one run the reported byte totals never fall exactly as long as the files reported fit 64 bits together. */
  lemma BytesNeverFallUnlessWrapped(job: seq<Target>, actions: seq<Action>)
    requires ValidJob(job)
    ensures var s := Run(job, Initial(job), actions);
            |s.progress| <= |s.counted|
            && (BytesNeverFall(s.progress) <==> SizeSum(job, s.counted[..|s.progress|]) <= U64_MAX)
  {
    InvRun(job, Initial(job), actions);
    var s := Run(job, Initial(job), actions);
    if SizeSum(job, s.counted[..|s.progress|]) <= U64_MAX {
      FittingBytesRise(job, s);
    } else {
      WrappedBytesFall(job, s);
    }
  }

  // ---------------------------------------------------------------- the outcome

  predicate Finished(s: State) {
    forall i | 0 <= i < |s.pcs| :: s.pcs[i].Terminal()
  }

  /** `effective_level`: the start value means that nothing lowered it. */
  function EffectiveLevel(s: State): Option<int> {
    if s.level == I32_MAX then None else Some(s.level)
  }

  function Elements(list: seq<nat>): set<nat> {
    set x | x in list
  }

  lemma {:induction false} DistinctLength(list: seq<nat>)
    requires forall j, k | 0 <= j < k < |list| :: list[j] != list[k]
    ensures |Elements(list)| == |list|
  {
    if list != [] {
      DistinctLength(list[1..]);
      assert list[0] !in Elements(list[1..]);
      assert Elements(list) == Elements(list[1..]) + {list[0]};
    }
  }

  lemma SameLength(a: seq<nat>, b: seq<nat>, pcs: seq<Pc>, m: Mark, n: Mark)
    requires Enumerates(a, pcs, m) && Enumerates(b, pcs, n)
    requires forall i | 0 <= i < |pcs| :: Marked(m, pcs[i]) == Marked(n, pcs[i])
    ensures |a| == |b|
  {
    DistinctLength(a);
    DistinctLength(b);
    assert Elements(a) == Elements(b);
  }

  /** How many of its own accesses a task has at most before it. */
  function Rank(pc: Pc): nat {
    match pc
    case Ready => 8
    case Earned(_) => 7
    case Lowered(_) => 6
    case Pushed => 5
    case Locked => 4
    case Counted(_) => 3
    case Summed(_, _) => 2
    case Reported => 1
    case Failing => 1
    case _ => 0
  }

  function RankSum(pcs: seq<Pc>): nat {
    if pcs == [] then 0 else RankSum(pcs[..|pcs| - 1]) + Rank(pcs[|pcs| - 1])
  }

  lemma {:induction false} RankSumAt(pcs: seq<Pc>, i: nat, pc: Pc)
    requires i < |pcs|
    ensures RankSum(pcs[i := pc]) + Rank(pcs[i]) == RankSum(pcs) + Rank(pc)
    decreases |pcs|
  {
    var n := |pcs| - 1;
    if i < n {
      assert pcs[i := pc][..n] == pcs[..n][i := pc];
      RankSumAt(pcs[..n], i, pc);
    } else {
      assert pcs[i := pc][..n] == pcs[..n];
    }
  }

  /** A task that is not at its end can move, unless it waits for a lock whose holder can. */
  lemma SomeTaskMoves(job: seq<Target>, s: State) returns (i: nat)
    requires |job| == |s.pcs| && LockInv(s) && !Finished(s)
    ensures i < |job| && Rank(NextPc(job, s, i)) < Rank(s.pcs[i])
  {
    if s.lock.Some? {
      i := s.lock.value;
    } else {
      i :| i < |s.pcs| && !s.pcs[i].Terminal();
    }
  }

  lemma MoveLowers(job: seq<Target>, s: State, i: nat)
    requires i < |job| == |s.pcs| && Rank(NextPc(job, s, i)) < Rank(s.pcs[i])
    ensures var t := Step(job, s, Go(i));
            && t.cancelled == s.cancelled && RankSum(t.pcs) < RankSum(s.pcs)
            && (!s.cancelled && NoneSkipped(s) ==> NoneSkipped(t))
  {
    RankSumAt(s.pcs, i, NextPc(job, s, i));
  }

  /** From every state of every run the tasks can all end: the report lock strands none of them. */
  lemma {:induction false} CanFinish(job: seq<Target>, s: State) returns (actions: seq<Action>)
    requires ValidJob(job) && Inv(job, s)
    ensures var t := Run(job, s, actions);
            && Inv(job, t) && Finished(t) && t.cancelled == s.cancelled
            && (!s.cancelled && NoneSkipped(s) ==> NoneSkipped(t))
    decreases RankSum(s.pcs)
  {
    if Finished(s) {
      actions := [];
    } else {
      var i := SomeTaskMoves(job, s);
      InvStep(job, s, Go(i));
      MoveLowers(job, s, i);
      var rest := CanFinish(job, Step(job, s, Go(i)));
      actions := [Go(i)] + rest;
      assert actions[1..] == rest;
    }
  }

  predicate NoneSkipped(s: State) {
    forall i | 0 <= i < |s.pcs| :: !s.pcs[i].Skipped?
  }

  /** A file is passed over only after a cancellation, and from then on no further file is begun. */
  lemma {:induction false} CancelStops(job: seq<Target>, s: State, actions: seq<Action>, i: nat)
    requires |job| == |s.pcs| && i < |job|
    ensures var t := Run(job, s, actions);
            && (s.cancelled ==> t.cancelled)
            && (s.cancelled && s.pcs[i].Ready? ==> t.pcs[i].Ready? || t.pcs[i].Skipped?)
            && (s.pcs[i].Skipped? ==> t.pcs[i].Skipped?)
            && (!s.pcs[i].Skipped? && t.pcs[i].Skipped? ==> t.cancelled && s.pcs[i].Ready?)
    decreases |actions|
  {
    if actions != [] {
      CancelStops(job, Step(job, s, actions[0]), actions[1..], i);
    }
  }

  lemma EveryRunCanFinish(job: seq<Target>, actions: seq<Action>) returns (more: seq<Action>)
    requires ValidJob(job)
    ensures Finished(Run(job, Run(job, Initial(job), actions), more))
  {
    InvRun(job, Initial(job), actions);
    more := CanFinish(job, Run(job, Initial(job), actions));
  }

  /**
   The file count is the number of receipts; a file has a receipt exactly if its attempt earned one
   before a cancellation skipped it, and an error exactly if it failed; and the effective level is
   the least receipt level, none being reported when no receipt is below the start value.
   */
  ghost predicate ExactOutcome(job: seq<Target>, s: State)
    requires |job| == |s.pcs|
  {
    && s.filesDone == |s.completed| == |s.progress|
    && s.bytesDone == Wrapped(SizeSum(job, Tasks(s.completed)))
    && (forall i: nat, level | i < |job| ::
          (i, level) in s.completed <==>
          !s.pcs[i].Skipped? && Succeeds(job[i].attempt) && job[i].attempt.op == Ok(level))
    && (forall i: nat | i < |job| :: i in s.errors <==> !s.pcs[i].Skipped? && !Succeeds(job[i].attempt))
    && (forall k | 0 <= k < |s.completed| :: s.level <= s.completed[k].1 <= I32_MAX)
    && match EffectiveLevel(s)
       case None => forall k | 0 <= k < |s.completed| :: s.completed[k].1 == I32_MAX
       case Some(level) => exists k | 0 <= k < |s.completed| :: s.completed[k].1 == level == s.level
  }

  /** The file opened, was the one analysed before and after, and was rewritten. */
  predicate Succeeds(a: Attempt) {
    a.opens && a.sameBefore && a.op.Ok? && a.sameAfter
  }

  /** However the workers interleave, a finished pass reports exactly what its attempts earned. */
  lemma OutcomeIsExact(job: seq<Target>, actions: seq<Action>)
    requires ValidJob(job) && Finished(Run(job, Initial(job), actions))
    ensures ExactOutcome(job, Run(job, Initial(job), actions))
  {
    InvRun(job, Initial(job), actions);
    CountsAgree(job, Run(job, Initial(job), actions));
    BytesAgree(job, Run(job, Initial(job), actions));
    FinishedIsExact(job, Run(job, Initial(job), actions));
  }

  lemma CountsAgree(job: seq<Target>, s: State)
    requires Inv(job, s) && Finished(s)
    ensures s.filesDone == |s.completed| == |s.progress|
  {
    SameLength(Tasks(s.completed), s.counted, s.pcs, HasReceipt, HasCount);
    assert s.lock.None?;
  }

  /** Counted and receipted files are the same when all is done, so their sizes add up alike. */
  lemma BytesAgree(job: seq<Target>, s: State)
    requires Inv(job, s) && Finished(s)
    ensures s.bytesDone == Wrapped(SizeSum(job, Tasks(s.completed)))
  {
    ListIsSet(job, s.counted);
    ListIsSet(job, Tasks(s.completed));
    forall i ensures i in Elements(s.counted) <==> i in Elements(Tasks(s.completed)) {
      if 0 <= i < |s.pcs| {
        assert Marked(HasCount, s.pcs[i]) == Marked(HasReceipt, s.pcs[i]);
      }
    }
    assert Elements(s.counted) == Elements(Tasks(s.completed));
    assert s.lock.None?;
  }

  lemma FinishedIsExact(job: seq<Target>, s: State)
    requires ValidJob(job) && ListsInv(job, s) && LevelInv(job, s) && Finished(s)
    requires s.filesDone == |s.completed| == |s.progress| && s.bytesDone == Wrapped(SizeSum(job, Tasks(s.completed)))
    ensures ExactOutcome(job, s)
  {
    ReceiptsAreEarned(job, s);
    ErrorsAreFailures(job, s);
    LevelIsLeast(job, s);
  }

  lemma ErrorsAreFailures(job: seq<Target>, s: State)
    requires ListsInv(job, s) && Finished(s)
    ensures forall i: nat | i < |job| :: i in s.errors <==> !s.pcs[i].Skipped? && !Succeeds(job[i].attempt)
  {
    forall i: nat | i < |job| ensures i in s.errors <==> !s.pcs[i].Skipped? && !Succeeds(job[i].attempt) {
      assert PcInv(job[i], s.pcs[i]) && s.pcs[i].Terminal();
      assert Marked(HasError, s.pcs[i]) == s.pcs[i].Failed?;
    }
  }

  lemma LevelIsLeast(job: seq<Target>, s: State)
    requires ValidJob(job) && ListsInv(job, s) && LevelInv(job, s) && Finished(s)
    ensures forall k | 0 <= k < |s.completed| :: s.level <= s.completed[k].1 <= I32_MAX
    ensures s.level < I32_MAX ==> exists k | 0 <= k < |s.completed| :: s.completed[k].1 == s.level
  {
    forall k | 0 <= k < |s.completed| ensures s.level <= s.completed[k].1 <= I32_MAX {
      assert Tasks(s.completed)[k] == s.completed[k].0;
      assert Marked(HasReceipt, s.pcs[s.completed[k].0]);
      assert Offered(job, s, s.completed[k].0, s.completed[k].1);
    }
    if s.level < I32_MAX {
      var i: nat :| Offered(job, s, i, s.level);
      ReceiptsAreEarned(job, s);
      assert s.pcs[i].Terminal() && (i, s.level) in s.completed;
    }
  }

  lemma ReceiptsAreEarned(job: seq<Target>, s: State)
    requires ListsInv(job, s) && Finished(s)
    ensures forall i: nat, level | i < |job| ::
              (i, level) in s.completed <==>
              !s.pcs[i].Skipped? && Succeeds(job[i].attempt) && job[i].attempt.op == Ok(level)
  {
    forall i: nat, level | i < |job|
      ensures (i, level) in s.completed <==>
              !s.pcs[i].Skipped? && Succeeds(job[i].attempt) && job[i].attempt.op == Ok(level)
    {
      assert PcInv(job[i], s.pcs[i]) && s.pcs[i].Terminal();
      if (i, level) in s.completed {
        var k :| 0 <= k < |s.completed| && s.completed[k] == (i, level);
        assert Tasks(s.completed)[k] == i;
      }
      if s.pcs[i].Succeeded? {
        assert Marked(HasReceipt, s.pcs[i]);
        var k :| 0 <= k < |Tasks(s.completed)| && Tasks(s.completed)[k] == i;
        assert s.completed[k] in s.completed;
      }
    }
  }

  // ---------------------------------------------------------------- byte totals, told from the job

  /** Total size of the first `n` targets whose attempt earns a receipt. */
  function ReceiptBytes(job: seq<Target>, n: nat): nat
    requires n <= |job|
  {
    if n == 0 then 0
    else ReceiptBytes(job, n - 1) + if job[n - 1].attempt.Receipt().Some? then job[n - 1].size else 0
  }

  /** Total size of the targets below `n` that are in the set. */
  function Chosen(job: seq<Target>, chosen: set<nat>, n: nat): nat
    requires n <= |job|
  {
    if n == 0 then 0 else Chosen(job, chosen, n - 1) + if n - 1 in chosen then job[n - 1].size else 0
  }

  lemma {:induction false} ChosenAdds(job: seq<Target>, before: set<nat>, x: nat, n: nat)
    requires n <= |job| && x !in before
    ensures Chosen(job, before + {x}, n) == Chosen(job, before, n) + if x < n then job[x].size else 0
  {
    if n > 0 {
      ChosenAdds(job, before, x, n - 1);
    }
  }

  /** A list without repeats adds up to what its set does. */
  lemma {:induction false} ListIsSet(job: seq<Target>, list: seq<nat>)
    requires forall k | 0 <= k < |list| :: list[k] < |job|
    requires forall j, k | 0 <= j < k < |list| :: list[j] != list[k]
    ensures SizeSum(job, list) == Chosen(job, Elements(list), |job|)
    decreases |list|
  {
    if list == [] {
      NothingChosen(job, |job|);
      assert Elements(list) == {};
    } else {
      var n := |list| - 1;
      ListIsSet(job, list[..n]);
      assert Elements(list) == Elements(list[..n]) + {list[n]};
      ChosenAdds(job, Elements(list[..n]), list[n], |job|);
    }
  }

  lemma {:induction false} NothingChosen(job: seq<Target>, n: nat)
    requires n <= |job|
    ensures Chosen(job, {}, n) == 0
  {
    if n > 0 {
      NothingChosen(job, n - 1);
    }
  }

  lemma {:induction false} ChosenBound(job: seq<Target>, chosen: set<nat>, n: nat)
    requires n <= |job|
    ensures (forall i | 0 <= i < n && i in chosen :: job[i].attempt.Receipt().Some?) ==>
              Chosen(job, chosen, n) <= ReceiptBytes(job, n)
    ensures (forall i | 0 <= i < n && job[i].attempt.Receipt().Some? :: i in chosen) ==>
              ReceiptBytes(job, n) <= Chosen(job, chosen, n)
  {
    if n > 0 {
      ChosenBound(job, chosen, n - 1);
    }
  }

  /** What any run counts is at most the receipts the job can earn, and all of it once nothing was skipped. */
  lemma CountedBytes(job: seq<Target>, s: State)
    requires ListsInv(job, s)
    ensures SizeSum(job, s.counted) <= ReceiptBytes(job, |job|)
    ensures Finished(s) && NoneSkipped(s) ==> SizeSum(job, s.counted) == ReceiptBytes(job, |job|)
  {
    ListIsSet(job, s.counted);
    forall i | 0 <= i < |job|
      ensures i in s.counted ==> job[i].attempt.Receipt().Some?
      ensures Finished(s) && NoneSkipped(s) && job[i].attempt.Receipt().Some? ==> i in s.counted
    {
    }
    ChosenBound(job, Elements(s.counted), |job|);
  }

  lemma FittingJobRises(job: seq<Target>, s: State)
    requires ListsInv(job, s) && ProgressInv(job, s) && ReceiptBytes(job, |job|) <= U64_MAX
    ensures BytesNeverFall(s.progress)
  {
    CountedBytes(job, s);
    SizesGrow(job, s.counted, |s.progress|, |s.counted|);
    assert s.counted[..|s.counted|] == s.counted;
    FittingBytesRise(job, s);
  }

  /** Some run counts every receipt the job can earn. */
  lemma OverflowingJobFalls(job: seq<Target>) returns (actions: seq<Action>)
    requires ValidJob(job) && ReceiptBytes(job, |job|) > U64_MAX
    ensures !BytesNeverFall(Run(job, Initial(job), actions).progress)
  {
    actions := CanFinish(job, Initial(job));
    var t := Run(job, Initial(job), actions);
    CountsAgree(job, t);
    CountedBytes(job, t);
    assert t.counted[..|t.counted|] == t.counted;
    BytesNeverFallUnlessWrapped(job, actions);
  }

  /**
   The byte totals never fall, however the workers interleave, exactly if all receipts the job can
   earn fit 64 bits.
   */
  lemma BytesNeverFallExactly(job: seq<Target>)
    requires ValidJob(job)
    ensures (forall actions :: BytesNeverFall(Run(job, Initial(job), actions).progress)) <==>
              ReceiptBytes(job, |job|) <= U64_MAX
  {
    if ReceiptBytes(job, |job|) <= U64_MAX {
      forall actions ensures BytesNeverFall(Run(job, Initial(job), actions).progress) {
        InvRun(job, Initial(job), actions);
        FittingJobRises(job, Run(job, Initial(job), actions));
      }
    } else {
      var actions := OverflowingJobFalls(job);
    }
  }

  // ---------------------------------------------------------------- receipts and ranges

  /** The rewrite behind one attempt: its length, the gates, the requests, and which of them were made. */
  datatype Work = Work(
    length: nat, admitted: nat -> bool, op: FileRanges.Call -> Result<i32>, calls: seq<FileRanges.Call>)

  /** A receipt means that every gate admitted, every range was rewritten, and the ranges tile the whole file. */
  lemma ReceiptMeansWholeFile(job: seq<Target>, works: seq<Work>, actions: seq<Action>, i: nat, level: int)
    requires ValidJob(job) && |works| == |job|
    requires forall k | 0 <= k < |job| ::
               FileRanges.Rewritten(works[k].length, works[k].admitted, works[k].op, job[k].attempt.op, works[k].calls)
    requires (i, level) in Run(job, Initial(job), actions).completed
    ensures i < |job| && FileRanges.Tiles(works[i].calls, works[i].length)
    ensures forall k | 0 <= k < FileRanges.RangeCount(works[i].length) ::
              FileRanges.RangeDone(works[i].length, works[i].admitted, works[i].op, k)
    ensures exists least ::
              && FileRanges.LeastLevel(works[i].calls, works[i].op, least)
              && level == if least == I32_MAX then 0 else least
  {
    var s := Run(job, Initial(job), actions);
    InvRun(job, Initial(job), actions);
    var k :| 0 <= k < |s.completed| && s.completed[k] == (i, level);
    assert job[i].attempt.Receipt() == Some(level);
  }
}
