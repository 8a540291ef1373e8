/** The durable job queue: deduplication, eviction, retry and restart. */
module JobQueue {
  import opened Common
  import opened Games

  const MAX_JOBS := 1000
  const MAX_ACTIVE := 200

  datatype Phase = Waiting | Running | Paused | Completed | Cancelled | Failed | Interrupted {
    predicate Active() { Waiting? || Running? || Paused? }

    predicate Evictable() { Completed? || Cancelled? }
  }

  datatype Job = Job(
    id: nat, game: Game, restore: bool, automatic: bool, volume: Option<string>, phase: Phase, userPaused: bool)
  {
    predicate Occupies(dir: Path) { phase.Active() && game.dir == dir }
  }

  datatype Jobs = Jobs(jobs: seq<Job>, nextId: nat)

  // ---------------------------------------------------------------- searching and counting

  function ActiveCount(jobs: seq<Job>): nat {
    if jobs == [] then 0
    else ActiveCount(jobs[..|jobs| - 1]) + if jobs[|jobs| - 1].phase.Active() then 1 else 0
  }

  function FindActive(jobs: seq<Job>, dir: Path): (r: Option<nat>)
    ensures r.Some? ==> r.value < |jobs| && jobs[r.value].Occupies(dir)
    ensures r.None? ==> forall i | 0 <= i < |jobs| :: !jobs[i].Occupies(dir)
  {
    if jobs == [] then None
    else if jobs[0].Occupies(dir) then Some(0)
    else match FindActive(jobs[1..], dir) case Some(i) => Some(i + 1) case None => None
  }

  function FindId(jobs: seq<Job>, id: nat): (r: Option<nat>)
    ensures r.Some? ==> r.value < |jobs| && jobs[r.value].id == id
    ensures r.None? ==> forall i | 0 <= i < |jobs| :: jobs[i].id != id
  {
    if jobs == [] then None
    else if jobs[0].id == id then Some(0)
    else match FindId(jobs[1..], id) case Some(i) => Some(i + 1) case None => None
  }

  function FindEvictable(jobs: seq<Job>): (r: Option<nat>)
    ensures r.Some? ==> r.value < |jobs| && jobs[r.value].phase.Evictable()
    ensures r.Some? ==> forall i | 0 <= i < r.value :: !jobs[i].phase.Evictable()
    ensures r.None? ==> forall i | 0 <= i < |jobs| :: !jobs[i].phase.Evictable()
  {
    if jobs == [] then None
    else if jobs[0].phase.Evictable() then Some(0)
    else match FindEvictable(jobs[1..]) case Some(i) => Some(i + 1) case None => None
  }

  function MaxId(jobs: seq<Job>): (m: nat)
    ensures forall i | 0 <= i < |jobs| :: jobs[i].id <= m
    ensures m == 0 || exists i | 0 <= i < |jobs| :: jobs[i].id == m
  {
    if jobs == [] then 0 else Max(jobs[0].id, MaxId(jobs[1..]))
  }

  function Without(jobs: seq<Job>, i: nat): seq<Job>
    requires i < |jobs|
  {
    jobs[..i] + jobs[i + 1..]
  }

  // ---------------------------------------------------------------- the operations, on values

  /** The eviction loop, and whether it found room. */
  function MakeRoom(jobs: seq<Job>): (seq<Job>, bool)
    decreases |jobs|
  {
    if |jobs| < MAX_JOBS then (jobs, true)
    else match FindEvictable(jobs)
      case None => (jobs, false)
      case Some(i) => MakeRoom(Without(jobs, i))
  }

  /**
   `volume` is what probing the game's folder answers. A failure after the eviction still
   leaves a job evicted, and a failed probe also leaves an id used up.
   */
  function Enqueued(q: Jobs, game: Game, restore: bool, volume: Option<string>): (Jobs, Result<nat>) {
    if !game.state.Idle? then (q, Err)
    else match FindActive(q.jobs, game.dir)
      case Some(i) => (q, if q.jobs[i].restore == restore then Ok(q.jobs[i].id) else Err)
      case None =>
        if ActiveCount(q.jobs) >= MAX_ACTIVE then (q, Err)
        else
          var (room, ok) := MakeRoom(q.jobs);
          if !ok || q.nextId >= U64_MAX then (q.(jobs := room), Err)
          else
            var id := q.nextId + 1;
            if volume.None? then (Jobs(room, id), Err)
            else (Jobs(room + [Job(id, game, restore, false, volume, Waiting, false)], id), Ok(id))
  }

  function EnqueuedAutomatic(q: Jobs, game: Game, volume: Option<string>): (Jobs, Result<nat>) {
    var existing := FindActive(q.jobs, game.dir).Some?;
    var (after, r) := Enqueued(q, game, false, volume);
    (if r.Err? || existing then after else MarkedAutomatic(after, r.value), r)
  }

  function MarkedAutomatic(q: Jobs, id: nat): Jobs {
    match FindId(q.jobs, id)
    case None => q
    case Some(i) => q.(jobs := q.jobs[i := q.jobs[i].(automatic := true)])
  }

  function Retried(q: Jobs, id: nat, volume: Option<string>): (Jobs, Result<()>) {
    match FindId(q.jobs, id)
    case None => (q, Err)
    case Some(i) =>
      var job := q.jobs[i];
      if job.phase.Active() || ActiveCount(q.jobs) >= MAX_ACTIVE || FindActive(q.jobs, job.game.dir).Some? then (q, Err)
      else if job.volume.None? && volume.None? then (q, Err)
      else
        var where := if job.volume.None? then volume else job.volume;
        (q.(jobs := q.jobs[i := job.(volume := where, phase := Waiting, userPaused := false)]), Ok(()))
  }

  function Reloaded(job: Job): Job {
    if job.phase.Running? || job.phase.Paused? || (job.phase.Waiting? && job.volume.None?)
    then job.(phase := Interrupted) else job
  }

  function ReloadedJobs(jobs: seq<Job>): seq<Job> {
    seq(|jobs|, i requires 0 <= i < |jobs| => Reloaded(jobs[i]))
  }

  /** The queue file: not there; over its size limit, malformed or failing to be read; or a queue. */
  datatype QueueFile = Missing | Unreadable | Holding(q: Jobs)

  /** `load`: a history over the limit is an error, too, and a missing file an empty queue. */
  function Loaded(file: QueueFile): Result<Jobs> {
    match file
    case Missing => Ok(Jobs([], 0))
    case Unreadable => Err
    case Holding(stored) =>
      if |stored.jobs| > MAX_JOBS then Err
      else Ok(Jobs(ReloadedJobs(stored.jobs), Max(stored.nextId, MaxId(stored.jobs))))
  }

  /** The worker, which moves any active job to any phase. */
  function Moved(q: Jobs, i: nat, phase: Phase): Jobs {
    if i < |q.jobs| && q.jobs[i].phase.Active() then q.(jobs := q.jobs[i := q.jobs[i].(phase := phase)]) else q
  }

  // ---------------------------------------------------------------- the queue object

  class Queue {
    var jobs: seq<Job>
    var nextId: nat

    function View(): Jobs
      reads this
    {
      Jobs(jobs, nextId)
    }

    constructor (q: Jobs)
      ensures View() == q
    {
      jobs, nextId := q.jobs, q.nextId;
    }

    method Enqueue(game: Game, restore: bool, volume: Option<string>) returns (r: Result<nat>)
      modifies this
      ensures (View(), r) == Enqueued(old(View()), game, restore, volume)
    {
      if !game.state.Idle? {
        return Err;
      }
      var existing := FindActive(jobs, game.dir);
      if existing.Some? {
        return if jobs[existing.value].restore == restore then Ok(jobs[existing.value].id) else Err;
      }
      if ActiveCount(jobs) >= MAX_ACTIVE {
        return Err;
      }
      while |jobs| >= MAX_JOBS
        invariant MakeRoom(jobs) == MakeRoom(old(jobs)) && nextId == old(nextId)
        decreases |jobs|
      {
        var index := FindEvictable(jobs);
        if index.None? {
          return Err;
        }
        jobs := Without(jobs, index.value);
      }
      if nextId >= U64_MAX {
        return Err;
      }
      nextId := nextId + 1;
      if volume.None? {
        return Err;
      }
      jobs := jobs + [Job(nextId, game, restore, false, volume, Waiting, false)];
      return Ok(nextId);
    }

    method EnqueueAutomatic(game: Game, volume: Option<string>) returns (r: Result<nat>)
      modifies this
      ensures (View(), r) == EnqueuedAutomatic(old(View()), game, volume)
    {
      var existing := FindActive(jobs, game.dir).Some?;
      r := Enqueue(game, false, volume);
      if r.Ok? && !existing {
        var i := FindId(jobs, r.value);
        if i.Some? {
          jobs := jobs[i.value := jobs[i.value].(automatic := true)];
        }
      }
    }

    method Retry(id: nat, volume: Option<string>) returns (r: Result<()>)
      modifies this
      ensures (View(), r) == Retried(old(View()), id, volume)
    {
      var i := FindId(jobs, id);
      if i.None? {
        return Err;
      }
      var job := jobs[i.value];
      if job.phase.Active() || ActiveCount(jobs) >= MAX_ACTIVE || FindActive(jobs, job.game.dir).Some? {
        return Err;
      }
      if job.volume.None? {
        if volume.None? {
          return Err;
        }
        job := job.(volume := volume);
      }
      jobs := jobs[i.value := job.(phase := Waiting, userPaused := false)];
      return Ok(());
    }

    method Load(file: QueueFile) returns (r: Result<()>)
      modifies this
      ensures r.Ok? <==> Loaded(file).Ok?
      ensures View() == if r.Ok? then Loaded(file).value else old(View())
    {
      if file.Unreadable? {
        return Err;
      }
      var stored := if file.Missing? then Jobs([], 0) else file.q;
      if |stored.jobs| > MAX_JOBS {
        return Err;
      }
      jobs := stored.jobs;
      var i := 0;
      while i < |jobs|
        invariant 0 <= i <= |jobs| == |stored.jobs| && nextId == old(nextId)
        invariant forall k | 0 <= k < |jobs| :: jobs[k] == if k < i then Reloaded(stored.jobs[k]) else stored.jobs[k]
      {
        jobs := jobs[i := Reloaded(jobs[i])];
        i := i + 1;
      }
      assert jobs == ReloadedJobs(stored.jobs);
      nextId := Max(stored.nextId, MaxId(stored.jobs));
      return Ok(());
    }
  }

  // ---------------------------------------------------------------- the invariant

  predicate DistinctIds(jobs: seq<Job>) {
    forall i, j | 0 <= i < j < |jobs| :: jobs[i].id != jobs[j].id
  }

  predicate OneActivePerDir(jobs: seq<Job>) {
    forall i, j | 0 <= i < j < |jobs| && jobs[i].phase.Active() && jobs[j].phase.Active() ::
      jobs[i].game.dir != jobs[j].game.dir
  }

  predicate IdsUpTo(jobs: seq<Job>, n: nat) {
    forall i | 0 <= i < |jobs| :: jobs[i].id <= n
  }

  ghost predicate Valid(q: Jobs) {
    && |q.jobs| <= MAX_JOBS && ActiveCount(q.jobs) <= MAX_ACTIVE
    && DistinctIds(q.jobs) && OneActivePerDir(q.jobs) && IdsUpTo(q.jobs, q.nextId)
    && q.nextId <= U64_MAX
  }

  function Weight(job: Job): nat {
    if job.phase.Active() then 1 else 0
  }

  lemma {:induction false} ActiveReplaced(jobs: seq<Job>, i: nat, job: Job)
    requires i < |jobs|
    ensures ActiveCount(jobs[i := job]) == ActiveCount(jobs) - Weight(jobs[i]) + Weight(job)
    decreases |jobs|
  {
    var last := |jobs| - 1;
    if i == last {
      assert jobs[i := job][..last] == jobs[..last];
    } else {
      assert jobs[i := job][..last] == jobs[..last][i := job];
      ActiveReplaced(jobs[..last], i, job);
    }
  }

  lemma {:induction false} ActiveWithout(jobs: seq<Job>, i: nat)
    requires i < |jobs|
    ensures ActiveCount(Without(jobs, i)) == ActiveCount(jobs) - Weight(jobs[i])
    decreases |jobs|
  {
    var last := |jobs| - 1;
    if i == last {
      assert Without(jobs, i) == jobs[..last];
    } else {
      var w := Without(jobs, i);
      assert w[..|w| - 1] == Without(jobs[..last], i) && w[|w| - 1] == jobs[last];
      ActiveWithout(jobs[..last], i);
    }
  }

  /** `after` is `before` less some completed or cancelled jobs. */
  ghost predicate DropsOnlyHistory(before: seq<Job>, after: seq<Job>) {
    && (forall job | job in after :: job in before)
    && (forall job | job in before && job !in after :: job.phase.Evictable())
  }

  lemma WithoutIndex(jobs: seq<Job>, i: nat)
    requires i < |jobs|
    ensures forall k | 0 <= k < |jobs| - 1 :: Without(jobs, i)[k] == jobs[if k < i then k else k + 1]
    ensures forall k | 0 <= k < |jobs| && k != i :: jobs[k] in Without(jobs, i)
  {
    forall k | 0 <= k < |jobs| && k != i ensures jobs[k] in Without(jobs, i) {
      assert Without(jobs, i)[if k < i then k else k - 1] == jobs[k];
    }
  }

  lemma WithoutDrops(jobs: seq<Job>, i: nat)
    requires i < |jobs| && jobs[i].phase.Evictable()
    ensures DropsOnlyHistory(jobs, Without(jobs, i))
  {
    WithoutIndex(jobs, i);
  }

  lemma WithoutKeeps(jobs: seq<Job>, i: nat, n: nat)
    requires i < |jobs| && jobs[i].phase.Evictable() && DistinctIds(jobs) && OneActivePerDir(jobs) && IdsUpTo(jobs, n)
    ensures var w := Without(jobs, i);
            DistinctIds(w) && OneActivePerDir(w) && IdsUpTo(w, n) && ActiveCount(w) == ActiveCount(jobs)
  {
    WithoutIndex(jobs, i);
    ActiveWithout(jobs, i);
  }

  lemma {:induction false} RoomKeeps(jobs: seq<Job>, n: nat)
    requires DistinctIds(jobs) && OneActivePerDir(jobs) && IdsUpTo(jobs, n)
    ensures var (w, ok) := MakeRoom(jobs);
            && DistinctIds(w) && OneActivePerDir(w) && IdsUpTo(w, n) && ActiveCount(w) == ActiveCount(jobs)
            && DropsOnlyHistory(jobs, w) && |w| <= |jobs|
            && (if ok then |w| < MAX_JOBS else |w| >= MAX_JOBS)
    decreases |jobs|
  {
    if |jobs| >= MAX_JOBS {
      var i := FindEvictable(jobs);
      if i.Some? {
        WithoutKeeps(jobs, i.value, n);
        WithoutDrops(jobs, i.value);
        RoomKeeps(Without(jobs, i.value), n);
      }
    }
  }

  // ---------------------------------------------------------------- whole runs

  datatype Op =
    | Enqueue(game: Game, restore: bool, volume: Option<string>)
    | Automatic(game: Game, volume: Option<string>)
    | Retry(id: nat, volume: Option<string>)
    | Move(index: nat, phase: Phase)

  /** `issued` is history: the id of every job ever created, in order. */
  datatype Life = Life(q: Jobs, issued: seq<nat>)

  function Did(l: Life, op: Op): Life {
    match op
    case Enqueue(game, restore, volume) =>
      var (q, r) := Enqueued(l.q, game, restore, volume);
      Life(q, if r.Ok? && FindActive(l.q.jobs, game.dir).None? then l.issued + [r.value] else l.issued)
    case Automatic(game, volume) =>
      var (q, r) := EnqueuedAutomatic(l.q, game, volume);
      Life(q, if r.Ok? && FindActive(l.q.jobs, game.dir).None? then l.issued + [r.value] else l.issued)
    case Retry(id, volume) => l.(q := Retried(l.q, id, volume).0)
    case Move(i, phase) => l.(q := Moved(l.q, i, phase))
  }

  function Lived(l: Life, ops: seq<Op>): Life
    decreases |ops|
  {
    if ops == [] then l else Lived(Did(l, ops[0]), ops[1..])
  }

  ghost predicate ValidLife(l: Life) {
    Valid(l.q) && AllIssued(l.q.jobs, l.issued)
  }

  /** No id was issued twice, and none will be before the next id runs past them. */
  predicate Rising(l: Life) {
    && (forall i, j | 0 <= i < j < |l.issued| :: l.issued[i] < l.issued[j])
    && (forall i | 0 <= i < |l.issued| :: l.issued[i] <= l.q.nextId)
  }

  ghost predicate KeepsLife(l: Life, t: Life) {
    ValidLife(t) && (Rising(l) ==> Rising(t))
  }

  predicate HasId(jobs: seq<Job>, id: nat) {
    exists i | 0 <= i < |jobs| :: jobs[i].id == id
  }

  /** Every job is still there under its id unless it was completed or cancelled. */
  ghost predicate NothingElseLost(before: seq<Job>, after: seq<Job>) {
    forall i | 0 <= i < |before| && !before[i].phase.Evictable() :: HasId(after, before[i].id)
  }

  lemma DropsKeepIds(before: seq<Job>, after: seq<Job>, more: seq<Job>)
    requires DropsOnlyHistory(before, after)
    ensures NothingElseLost(before, after + more)
  {
    forall i | 0 <= i < |before| && !before[i].phase.Evictable() ensures HasId(after + more, before[i].id) {
      assert before[i] in after;
      var k :| 0 <= k < |after| && after[k] == before[i];
      assert (after + more)[k].id == before[i].id;
    }
  }

  lemma AppendKeeps(room: seq<Job>, n: nat, job: Job)
    requires DistinctIds(room) && OneActivePerDir(room) && IdsUpTo(room, n) && job.id == n + 1
    requires Unoccupied(room, job.game.dir)
    ensures DistinctIds(room + [job]) && OneActivePerDir(room + [job]) && IdsUpTo(room + [job], n + 1)
    ensures ActiveCount(room + [job]) == ActiveCount(room) + Weight(job)
  {
    assert (room + [job])[..|room|] == room;
    forall i, j | 0 <= i < j < |room + [job]| && (room + [job])[i].phase.Active() && (room + [job])[j].phase.Active()
      ensures (room + [job])[i].game.dir != (room + [job])[j].game.dir
    {
      if j == |room| { assert !room[i].Occupies(job.game.dir); }
    }
  }

  ghost predicate AllIssued(jobs: seq<Job>, issued: seq<nat>) {
    forall i | 0 <= i < |jobs| :: jobs[i].id in issued
  }

  predicate Unoccupied(jobs: seq<Job>, dir: Path) {
    forall i | 0 <= i < |jobs| :: !jobs[i].Occupies(dir)
  }

  lemma RoomIsCovered(jobs: seq<Job>, room: seq<Job>, issued: seq<nat>, dir: Path)
    requires DropsOnlyHistory(jobs, room) && AllIssued(jobs, issued) && Unoccupied(jobs, dir)
    ensures AllIssued(room, issued) && Unoccupied(room, dir)
  {
    forall i | 0 <= i < |room| ensures room[i].id in issued && !room[i].Occupies(dir) {
      assert room[i] in jobs;
    }
  }

  predicate Admits(q: Jobs, game: Game) {
    game.state.Idle? && FindActive(q.jobs, game.dir).None? && ActiveCount(q.jobs) < MAX_ACTIVE
  }

  lemma EnqueuedKeeps(l: Life, game: Game, restore: bool, volume: Option<string>)
    requires ValidLife(l)
    ensures KeepsLife(l, Did(l, Enqueue(game, restore, volume)))
    ensures NothingElseLost(l.q.jobs, Enqueued(l.q, game, restore, volume).0.jobs)
  {
    if Admits(l.q, game) {
      RoomKeeps(l.q.jobs, l.q.nextId);
      AddedKeepsJobs(l.q, MakeRoom(l.q.jobs).0, game, restore, volume);
      AdmittedKeeps(l, game, restore, volume);
    } else {
      assert Did(l, Enqueue(game, restore, volume)) == l;
      SelfHasIds(l.q.jobs);
    }
  }

  lemma AdmittedKeeps(l: Life, game: Game, restore: bool, volume: Option<string>)
    requires ValidLife(l) && Admits(l.q, game)
    ensures KeepsLife(l, Did(l, Enqueue(game, restore, volume)))
  {
    var room := MakeRoom(l.q.jobs).0;
    var job := Job(l.q.nextId + 1, game, restore, false, volume, Waiting, false);
    var issues := Enqueued(l.q, game, restore, volume).1.Ok?;
    RoomKeepsLife(l, room, game.dir);
    var after := AdmittedIs(l, room, game, restore, volume);
    OutcomeKeeps(l, room, after, job, issues, Did(l, Enqueue(game, restore, volume)));
  }

  lemma OutcomeKeeps(l: Life, room: seq<Job>, after: Jobs, job: Job, issues: bool, t: Life)
    requires ValidLife(l.(q := l.q.(jobs := room))) && Unoccupied(room, job.game.dir)
    requires ActiveCount(room) < MAX_ACTIVE && job.id == l.q.nextId + 1
    requires Outcome(l.q.(jobs := room), job, after, issues)
    requires t == Life(after, if issues then l.issued + [job.id] else l.issued)
    ensures KeepsLife(l, t)
  {
    AddedKeepsLife(l.(q := l.q.(jobs := room)), after, job, issues);
  }

  /** An admitted enqueue, as a life: room is made, and then `Outcome` says the rest. */
  lemma AdmittedIs(l: Life, room: seq<Job>, game: Game, restore: bool, volume: Option<string>) returns (after: Jobs)
    requires Admits(l.q, game) && room == MakeRoom(l.q.jobs).0 && (MakeRoom(l.q.jobs).1 ==> |room| < MAX_JOBS)
    ensures var job := Job(l.q.nextId + 1, game, restore, false, volume, Waiting, false);
            var issues := Enqueued(l.q, game, restore, volume).1.Ok?;
            && Outcome(l.q.(jobs := room), job, after, issues)
            && Did(l, Enqueue(game, restore, volume)) == Life(after, if issues then l.issued + [job.id] else l.issued)
  {
    after := Enqueued(l.q, game, restore, volume).0;
  }

  lemma RoomKeepsLife(l: Life, room: seq<Job>, dir: Path)
    requires ValidLife(l) && FindActive(l.q.jobs, dir).None? && room == MakeRoom(l.q.jobs).0
    ensures ValidLife(l.(q := l.q.(jobs := room))) && Unoccupied(room, dir)
    ensures ActiveCount(room) == ActiveCount(l.q.jobs) && (MakeRoom(l.q.jobs).1 ==> |room| < MAX_JOBS)
  {
    RoomKeeps(l.q.jobs, l.q.nextId);
    RoomIsCovered(l.q.jobs, room, l.issued, dir);
  }

  lemma AddedKeepsJobs(q: Jobs, room: seq<Job>, game: Game, restore: bool, volume: Option<string>)
    requires game.state.Idle? && FindActive(q.jobs, game.dir).None? && ActiveCount(q.jobs) < MAX_ACTIVE
    requires room == MakeRoom(q.jobs).0 && DropsOnlyHistory(q.jobs, room)
    ensures NothingElseLost(q.jobs, Enqueued(q, game, restore, volume).0.jobs)
  {
    var (after, r) := Enqueued(q, game, restore, volume);
    if r.Ok? {
      DropsKeepIds(q.jobs, room, [Job(q.nextId + 1, game, restore, false, volume, Waiting, false)]);
    } else {
      assert room + [] == room;
      DropsKeepIds(q.jobs, room, []);
    }
  }

  lemma AddedKeepsLife(small: Life, after: Jobs, job: Job, ok: bool)
    requires ValidLife(small) && job.id == small.q.nextId + 1 && Unoccupied(small.q.jobs, job.game.dir)
    requires ActiveCount(small.q.jobs) < MAX_ACTIVE
    requires Outcome(small.q, job, after, ok)
    ensures KeepsLife(small, Life(after, if ok then small.issued + [job.id] else small.issued))
  {
    if ok {
      OneMore(small, job);
    }
  }

  /** With room made: one job more, an id burned, or nothing else. */
  predicate Outcome(small: Jobs, job: Job, after: Jobs, ok: bool) {
    if ok then small.nextId < U64_MAX && |small.jobs| < MAX_JOBS && after == Jobs(small.jobs + [job], job.id)
    else after == small || (small.nextId < U64_MAX && after == small.(nextId := small.nextId + 1))
  }

  lemma OneMore(l: Life, job: Job)
    requires ValidLife(l) && l.q.nextId < U64_MAX && |l.q.jobs| < MAX_JOBS && ActiveCount(l.q.jobs) < MAX_ACTIVE
    requires job.id == l.q.nextId + 1 && Unoccupied(l.q.jobs, job.game.dir)
    ensures KeepsLife(l, Life(Jobs(l.q.jobs + [job], job.id), l.issued + [job.id]))
  {
    AppendKeeps(l.q.jobs, l.q.nextId, job);
    var t := Life(Jobs(l.q.jobs + [job], job.id), l.issued + [job.id]);
    forall i | 0 <= i < |t.q.jobs| ensures t.q.jobs[i].id in t.issued {
      if i < |l.q.jobs| { assert l.q.jobs[i].id in l.issued; }
    }
  }

  /** Setting a field that is neither id, phase nor game disturbs nothing. */
  lemma ReplacedKeeps(q: Jobs, i: nat, job: Job)
    requires Valid(q) && i < |q.jobs| && job.id == q.jobs[i].id && job.game.dir == q.jobs[i].game.dir
    requires job.phase.Active() && !q.jobs[i].phase.Active() ==>
               ActiveCount(q.jobs) < MAX_ACTIVE && FindActive(q.jobs, job.game.dir).None?
    ensures Valid(q.(jobs := q.jobs[i := job]))
    ensures forall id :: HasId(q.jobs, id) ==> HasId(q.jobs[i := job], id)
  {
    ActiveReplaced(q.jobs, i, job);
    var after := q.jobs[i := job];
    forall a, b | 0 <= a < b < |after| && after[a].phase.Active() && after[b].phase.Active()
      ensures after[a].game.dir != after[b].game.dir
    {
      assert job.phase.Active() && !q.jobs[i].phase.Active() ==>
          !q.jobs[a].Occupies(job.game.dir) && !q.jobs[b].Occupies(job.game.dir);
    }
    forall id | HasId(q.jobs, id) ensures HasId(after, id) {
      var k :| 0 <= k < |q.jobs| && q.jobs[k].id == id;
      assert after[k].id == id;
    }
  }

  lemma SelfHasIds(jobs: seq<Job>)
    ensures NothingElseLost(jobs, jobs)
  {
  }

  lemma MarkedKeeps(l: Life, id: nat, before: seq<Job>)
    requires ValidLife(l) && NothingElseLost(before, l.q.jobs)
    ensures KeepsLife(l, l.(q := MarkedAutomatic(l.q, id)))
    ensures NothingElseLost(before, MarkedAutomatic(l.q, id).jobs)
  {
    var i := FindId(l.q.jobs, id);
    if i.Some? {
      ReplacedKeeps(l.q, i.value, l.q.jobs[i.value].(automatic := true));
    }
  }

  lemma AutomaticUnfolds(l: Life, game: Game, volume: Option<string>)
    ensures var l1 := Did(l, Enqueue(game, false, volume));
            var r := Enqueued(l.q, game, false, volume).1;
            Did(l, Automatic(game, volume))
            == if r.Err? || FindActive(l.q.jobs, game.dir).Some? then l1 else l1.(q := MarkedAutomatic(l1.q, r.value))
  {
  }

  lemma AutomaticKeeps(l: Life, game: Game, volume: Option<string>)
    requires ValidLife(l)
    ensures KeepsLife(l, Did(l, Automatic(game, volume)))
    ensures NothingElseLost(l.q.jobs, Did(l, Automatic(game, volume)).q.jobs)
  {
    EnqueuedKeeps(l, game, false, volume);
    AutomaticUnfolds(l, game, volume);
    var r := Enqueued(l.q, game, false, volume).1;
    if r.Ok? {
      MarkedKeeps(Did(l, Enqueue(game, false, volume)), r.value, l.q.jobs);
    }
  }

  lemma RetriedKeeps(l: Life, id: nat, volume: Option<string>)
    requires ValidLife(l)
    ensures KeepsLife(l, Did(l, Retry(id, volume)))
    ensures NothingElseLost(l.q.jobs, Retried(l.q, id, volume).0.jobs)
  {
    SelfHasIds(l.q.jobs);
    var (after, r) := Retried(l.q, id, volume);
    if r.Ok? {
      var i := FindId(l.q.jobs, id).value;
      ReplacedKeeps(l.q, i, after.jobs[i]);
    }
  }

  lemma {:induction false} ReloadKeepsCount(jobs: seq<Job>)
    ensures ActiveCount(ReloadedJobs(jobs)) <= ActiveCount(jobs)
  {
    if jobs != [] {
      var last := |jobs| - 1;
      assert ReloadedJobs(jobs)[..last] == ReloadedJobs(jobs[..last]);
      ReloadKeepsCount(jobs[..last]);
    }
  }

  lemma ReloadKeeps(jobs: seq<Job>, n: nat)
    requires DistinctIds(jobs) && OneActivePerDir(jobs) && IdsUpTo(jobs, n)
    ensures DistinctIds(ReloadedJobs(jobs)) && OneActivePerDir(ReloadedJobs(jobs)) && IdsUpTo(ReloadedJobs(jobs), n)
    ensures NothingElseLost(jobs, ReloadedJobs(jobs))
  {
    var after := ReloadedJobs(jobs);
    assert forall i | 0 <= i < |jobs| ::
        after[i].id == jobs[i].id && after[i].game == jobs[i].game
        && (after[i].phase.Active() ==> jobs[i].phase.Active());
    forall i | 0 <= i < |jobs| ensures HasId(after, jobs[i].id) {
      assert after[i].id == jobs[i].id;
    }
  }

  lemma MoveKeeps(l: Life, i: nat, phase: Phase)
    requires ValidLife(l)
    ensures KeepsLife(l, Did(l, Move(i, phase)))
    ensures NothingElseLost(l.q.jobs, Moved(l.q, i, phase).jobs)
  {
    SelfHasIds(l.q.jobs);
    if i < |l.q.jobs| && l.q.jobs[i].phase.Active() {
      ReplacedKeeps(l.q, i, l.q.jobs[i].(phase := phase));
    }
  }

  lemma OpKeeps(l: Life, op: Op)
    requires ValidLife(l)
    ensures KeepsLife(l, Did(l, op)) && NothingElseLost(l.q.jobs, Did(l, op).q.jobs)
    ensures l.issued <= Did(l, op).issued
  {
    match op
    case Enqueue(game, restore, volume) => EnqueuedKeeps(l, game, restore, volume);
    case Automatic(game, volume) => AutomaticKeeps(l, game, volume);
    case Retry(id, volume) => RetriedKeeps(l, id, volume);
    case Move(i, phase) => MoveKeeps(l, i, phase);
  }

  /** Every run keeps the bounds, the unique ids and one active job per folder, and never issues an id twice. */
  lemma {:induction false} EveryRunKeepsQueue(l: Life, ops: seq<Op>)
    requires ValidLife(l)
    ensures KeepsLife(l, Lived(l, ops)) && l.issued <= Lived(l, ops).issued
    decreases |ops|
  {
    if ops != [] {
      OpKeeps(l, ops[0]);
      EveryRunKeepsQueue(Did(l, ops[0]), ops[1..]);
    }
  }

  // ---------------------------------------------------------------- memory and file

  /** The queue in memory and the file it was last saved to. */
  datatype Session = Session(l: Life, file: QueueFile)

  /** A failed save does nothing; a stop before a save is a restart without one. */
  datatype Act = Do(op: Op) | Save | Restart

  function Acted(s: Session, a: Act): Session {
    match a
    case Do(op) => s.(l := Did(s.l, op))
    case Save => s.(file := Holding(s.l.q))
    case Restart => (match Loaded(s.file) case Ok(q) => s.(l := s.l.(q := q)) case Err => s)
  }

  function Session0(): Session {
    Session(Life(Jobs([], 0), []), Missing)
  }

  function Played(s: Session, acts: seq<Act>): Session
    decreases |acts|
  {
    if acts == [] then s else Played(Acted(s, acts[0]), acts[1..])
  }

  ghost predicate ValidSession(s: Session) {
    && ValidLife(s.l)
    && (s.file.Missing? || (s.file.Holding? && ValidLife(Life(s.file.q, s.l.issued))))
  }

  /** A restart now goes on from an id that no issued id exceeds. */
  predicate Covers(s: Session) {
    Loaded(s.file).Ok? && forall i | 0 <= i < |s.l.issued| :: s.l.issued[i] <= Loaded(s.file).value.nextId
  }

  /** Every restart of the run finds such a file. */
  predicate AllCovered(s: Session, acts: seq<Act>)
    decreases |acts|
  {
    acts == [] || ((acts[0].Restart? ==> Covers(s)) && AllCovered(Acted(s, acts[0]), acts[1..]))
  }

  /** A restart loads the saved queue, with the same jobs, and keeps what was valid of it. */
  lemma RestartKeeps(s: Session)
    requires ValidSession(s)
    ensures Loaded(s.file).Ok? && ValidLife(Life(Loaded(s.file).value, s.l.issued))
    ensures s.file.Holding? ==>
              && Loaded(s.file).value == Jobs(ReloadedJobs(s.file.q.jobs), s.file.q.nextId)
              && NothingElseLost(s.file.q.jobs, Loaded(s.file).value.jobs)
  {
    if s.file.Holding? {
      var q := s.file.q;
      ReloadKeepsCount(q.jobs);
      ReloadKeeps(q.jobs, q.nextId);
      assert Loaded(s.file).value == Jobs(ReloadedJobs(q.jobs), q.nextId);
    }
  }

  lemma ActKeeps(s: Session, a: Act)
    requires ValidSession(s)
    ensures ValidSession(Acted(s, a)) && s.l.issued <= Acted(s, a).l.issued
    ensures Rising(s.l) && (a.Restart? ==> Covers(s)) ==> Rising(Acted(s, a).l)
  {
    match a
    case Do(op) =>
      OpKeeps(s.l, op);
      assert forall id :: id in s.l.issued ==> id in Did(s.l, op).issued;
    case Save =>
    case Restart => RestartKeeps(s);
  }

  /** A save covers the ids issued so far. */
  lemma SaveCovers(s: Session)
    requires ValidSession(s) && Rising(s.l)
    ensures Covers(Acted(s, Save))
  {
    ActKeeps(s, Save);
    RestartKeeps(Acted(s, Save));
  }

  /** Every run keeps the queue valid, saved or not; and issues rising ids as long as restarts find covering files. */
  lemma {:induction false} EverySessionKeepsQueue(s: Session, acts: seq<Act>)
    requires ValidSession(s)
    ensures ValidSession(Played(s, acts))
    ensures Rising(s.l) && AllCovered(s, acts) ==> Rising(Played(s, acts).l)
    decreases |acts|
  {
    if acts != [] {
      ActKeeps(s, acts[0]);
      EverySessionKeepsQueue(Acted(s, acts[0]), acts[1..]);
    }
  }

  /**
   From an empty queue, with saves and restarts anywhere: the bounds, the ids, one active job per
   folder, in every state of every run; and rising ids if every restart finds a file saved since the
   last id was issued.
   */
  lemma QueueSafety(acts: seq<Act>)
    ensures var l := Played(Session0(), acts).l;
            && |l.q.jobs| <= 1000 && ActiveCount(l.q.jobs) <= 200
            && (forall i, j | 0 <= i < j < |l.q.jobs| :: l.q.jobs[i].id != l.q.jobs[j].id)
            && (forall i | 0 <= i < |l.q.jobs| :: l.q.jobs[i].id <= l.q.nextId)
            && (forall i, j | 0 <= i < j < |l.q.jobs| && l.q.jobs[i].phase.Active() && l.q.jobs[j].phase.Active() ::
                  l.q.jobs[i].game.dir != l.q.jobs[j].game.dir)
            && (AllCovered(Session0(), acts) ==> forall i, j | 0 <= i < j < |l.issued| :: l.issued[i] < l.issued[j])
  {
    EverySessionKeepsQueue(Session0(), acts);
  }

  // ---- when a restart can lead to an id being issued twice

  predicate NoRepeats(issued: seq<nat>) {
    forall i, j | 0 <= i < j < |issued| :: issued[i] != issued[j]
  }

  lemma {:induction false} LivedConcat(l: Life, first: seq<Op>, second: seq<Op>)
    ensures Lived(l, first + second) == Lived(Lived(l, first), second)
    decreases |first|
  {
    if first == [] {
      assert first + second == second;
    } else {
      assert (first + second)[1..] == first[1..] + second;
      LivedConcat(Did(l, first[0]), first[1..], second);
    }
  }

  /** Some folder no job is about. */
  lemma {:induction false} UnusedDir(jobs: seq<Job>) returns (n: nat)
    ensures forall i | 0 <= i < |jobs| :: |jobs[i].game.dir| < n
  {
    n := 0;
    if jobs != [] {
      var m := UnusedDir(jobs[..|jobs| - 1]);
      n := Max(m, |jobs[|jobs| - 1].game.dir| + 1);
    }
  }

  /** Another job is admitted, perhaps by dropping one from the history. */
  predicate Roomy(q: Jobs) {
    ActiveCount(q.jobs) < MAX_ACTIVE && MakeRoom(q.jobs).1
  }

  function Idler(dir: Path): Game {
    Game("", [], true, dir, None, Idle)
  }

  /** An enqueue whose volume cannot be read burns an id, and leaves room for the next. */
  lemma OneBurned(l: Life, dir: Path)
    requires ValidLife(l) && Roomy(l.q) && Unoccupied(l.q.jobs, dir) && l.q.nextId < U64_MAX
    ensures var t := Did(l, Enqueue(Idler(dir), false, None));
            && ValidLife(t) && Roomy(t.q) && Unoccupied(t.q.jobs, dir)
            && t.q.nextId == l.q.nextId + 1 && t.issued == l.issued
  {
    OpKeeps(l, Enqueue(Idler(dir), false, None));
    RoomKeeps(l.q.jobs, l.q.nextId);
    RoomIsCovered(l.q.jobs, MakeRoom(l.q.jobs).0, l.issued, dir);
    assert FindActive(l.q.jobs, dir).None?;
  }

  /** Burning brings the next id as close to any higher one as wished. */
  lemma {:induction false} Burned(l: Life, dir: Path, n: nat) returns (ops: seq<Op>)
    requires ValidLife(l) && Roomy(l.q) && Unoccupied(l.q.jobs, dir) && l.q.nextId + n <= U64_MAX
    ensures var t := Lived(l, ops);
            && ValidLife(t) && Roomy(t.q) && Unoccupied(t.q.jobs, dir)
            && t.q.nextId == l.q.nextId + n && t.issued == l.issued
    decreases n
  {
    if n == 0 {
      ops := [];
    } else {
      var op := Enqueue(Idler(dir), false, None);
      OneBurned(l, dir);
      var rest := Burned(Did(l, op), dir, n - 1);
      ops := [op] + rest;
      assert ops[1..] == rest;
    }
  }

  /** With room, any higher id can be issued next after some burning. */
  lemma CanIssue(l: Life, id: nat) returns (ops: seq<Op>)
    requires ValidLife(l) && Roomy(l.q) && l.q.nextId < id <= U64_MAX
    ensures Lived(l, ops).issued == l.issued + [id]
  {
    var n := UnusedDir(l.q.jobs);
    var dir: Path := seq(n, i => "");
    assert Unoccupied(l.q.jobs, dir);
    var burn := Burned(l, dir, id - 1 - l.q.nextId);
    var t := Lived(l, burn);
    var op := Enqueue(Idler(dir), false, Some(""));
    LivedConcat(l, burn, [op]);
    ops := burn + [op];
  }

  /** A completed job makes room. */
  lemma CompletedIsRoom(q: Jobs, i: nat)
    requires Valid(q) && i < |q.jobs| && q.jobs[i].phase.Active()
    ensures Roomy(Moved(q, i, Completed))
  {
    var after := Moved(q, i, Completed).jobs;
    ActiveReplaced(q.jobs, i, after[i]);
    var k := FindEvictable(after);
    assert k.Some?;
    assert |after| >= MAX_JOBS ==> |Without(after, k.value)| < MAX_JOBS;
  }

  lemma CompletingMakesRoom(l: Life, i: nat)
    requires ValidLife(l) && i < |l.q.jobs| && l.q.jobs[i].phase.Active()
    ensures var t := Lived(l, [Move(i, Completed)]);
            ValidLife(t) && Roomy(t.q) && t.q.nextId == l.q.nextId && t.issued == l.issued
  {
    CompletedIsRoom(l.q, i);
    OpKeeps(l, Move(i, Completed));
  }

  lemma {:induction false} NoneActive(jobs: seq<Job>)
    requires forall i | 0 <= i < |jobs| :: !jobs[i].phase.Active()
    ensures ActiveCount(jobs) == 0
    decreases |jobs|
  {
    if jobs != [] {
      NoneActive(jobs[..|jobs| - 1]);
    }
  }

  /** Some operations make room in any valid queue without using up an id. */
  lemma CanMakeRoom(l: Life) returns (ops: seq<Op>)
    requires ValidLife(l)
    ensures var t := Lived(l, ops);
            ValidLife(t) && Roomy(t.q) && t.q.nextId == l.q.nextId && t.issued == l.issued
  {
    if i: nat :| i < |l.q.jobs| && l.q.jobs[i].phase.Active() {
      CompletingMakesRoom(l, i);
      ops := [Move(i, Completed)];
    } else if Roomy(l.q) {
      ops := [];
    } else {
      NoneActive(l.q.jobs);
      ops := RetryMakesRoom(l);
    }
  }

  lemma RetriedWaits(l: Life) returns (i: nat)
    requires |l.q.jobs| > 0 && ActiveCount(l.q.jobs) == 0
    requires forall i | 0 <= i < |l.q.jobs| :: !l.q.jobs[i].phase.Active()
    ensures var t := Did(l, Retry(l.q.jobs[0].id, Some("")));
            && i < |t.q.jobs| && t.q.jobs[i].phase.Waiting? && t.q.nextId == l.q.nextId && t.issued == l.issued
  {
    i := FindId(l.q.jobs, l.q.jobs[0].id).value;
    assert FindActive(l.q.jobs, l.q.jobs[i].game.dir).None?;
  }

  /** A history of nothing but failures: one is retried, and completes. */
  lemma RetryMakesRoom(l: Life) returns (ops: seq<Op>)
    requires ValidLife(l) && ActiveCount(l.q.jobs) == 0 && !Roomy(l.q)
    requires forall i | 0 <= i < |l.q.jobs| :: !l.q.jobs[i].phase.Active()
    ensures var t := Lived(l, ops);
            ValidLife(t) && Roomy(t.q) && t.q.nextId == l.q.nextId && t.issued == l.issued
  {
    var retry := Retry(l.q.jobs[0].id, Some(""));
    var i := RetriedWaits(l);
    OpKeeps(l, retry);
    CompletingMakesRoom(Did(l, retry), i);
    LivedConcat(l, [retry], [Move(i, Completed)]);
    ops := [retry] + [Move(i, Completed)];
  }

  /**
   A restart never leads to an id being issued twice, whatever is done after it, exactly if the file
   it finds covers the ids issued so far.
   */
  lemma RestartRepeatsExactly(s: Session)
    requires ValidSession(s) && Rising(s.l)
    ensures (forall ops :: NoRepeats(Lived(Acted(s, Restart).l, ops).issued)) <==> Covers(s)
  {
    ActKeeps(s, Restart);
    var l := Acted(s, Restart).l;
    if Covers(s) {
      forall ops ensures NoRepeats(Lived(l, ops).issued) {
        EveryRunKeepsQueue(l, ops);
      }
    } else {
      RestartKeeps(s);
      var i: nat :| i < |s.l.issued| && s.l.issued[i] > l.q.nextId;
      var ops := RepeatedBy(l, i);
      assert !NoRepeats(Lived(l, ops).issued);
    }
  }

  lemma RepeatedBy(l: Life, i: nat) returns (ops: seq<Op>)
    requires ValidLife(l) && i < |l.issued| && l.q.nextId < l.issued[i] <= U64_MAX
    ensures !NoRepeats(Lived(l, ops).issued)
  {
    var room := CanMakeRoom(l);
    var t := Lived(l, room);
    var more := CanIssue(t, l.issued[i]);
    LivedConcat(l, room, more);
    ops := room + more;
    RepeatSeen(l.issued, i);
  }

  lemma RepeatSeen(issued: seq<nat>, i: nat)
    requires i < |issued|
    ensures !NoRepeats(issued + [issued[i]])
  {
    var more := issued + [issued[i]];
    assert more[i] == more[|issued|];
  }

  // ---------------------------------------------------------------- what the calls answer

  /** An active job of this folder and kind has this id. */
  predicate Joins(jobs: seq<Job>, dir: Path, restore: bool, id: nat) {
    exists i | 0 <= i < |jobs| :: jobs[i].Occupies(dir) && jobs[i].restore == restore && jobs[i].id == id
  }

  /** At the limit the oldest completed or cancelled job goes; below it none does. */
  predicate MadeRoom(jobs: seq<Job>, room: seq<Job>) {
    if |jobs| < MAX_JOBS then room == jobs
    else exists i | 0 <= i < |jobs| ::
           && jobs[i].phase.Evictable() && (forall k | 0 <= k < i :: !jobs[k].phase.Evictable())
           && room == jobs[..i] + jobs[i + 1..]
  }

  predicate CanRoom(jobs: seq<Job>) {
    |jobs| < MAX_JOBS || exists i | 0 <= i < |jobs| :: jobs[i].phase.Evictable()
  }

  /** Nothing but the next id and the volume stands between the enqueue and a new job. */
  predicate Open(q: Jobs, game: Game) {
    game.state.Idle? && Unoccupied(q.jobs, game.dir) && ActiveCount(q.jobs) < MAX_ACTIVE
  }

  predicate IsNew(job: Job, id: nat, game: Game, restore: bool, automatic: bool, volume: Option<string>) {
    && job.id == id && job.game == game && job.restore == restore && job.automatic == automatic
    && job.volume == volume && job.phase.Waiting? && !job.userPaused
  }

  /** The queue after one job was added, with room made for it. */
  ghost predicate Adds(
    q: Jobs, game: Game, restore: bool, automatic: bool, volume: Option<string>, after: Jobs)
  {
    && after.nextId == q.nextId + 1 && after.jobs != []
    && MadeRoom(q.jobs, after.jobs[..|after.jobs| - 1])
    && IsNew(after.jobs[|after.jobs| - 1], after.nextId, game, restore, automatic, volume)
  }

  lemma RoomIsOldest(jobs: seq<Job>)
    requires |jobs| <= MAX_JOBS
    ensures MakeRoom(jobs).1 <==> CanRoom(jobs)
    ensures if CanRoom(jobs) then MadeRoom(jobs, MakeRoom(jobs).0) else MakeRoom(jobs).0 == jobs
  {
    if |jobs| == MAX_JOBS && FindEvictable(jobs).Some? {
      var w := Without(jobs, FindEvictable(jobs).value);
      assert MakeRoom(jobs) == MakeRoom(w) == (w, true);
    }
  }

  /** An enqueue names an active job of the folder and kind that asked, or the one it adds, exactly when it can. */
  lemma EnqueueAnswersExactly(q: Jobs, game: Game, restore: bool, volume: Option<string>)
    requires Valid(q)
    ensures var (after, r) := Enqueued(q, game, restore, volume);
            var adds := Open(q, game) && CanRoom(q.jobs) && q.nextId < U64_MAX && volume.Some?;
            && (forall id: nat :: r == Ok(id) <==>
                  (game.state.Idle? && Joins(q.jobs, game.dir, restore, id)) || (adds && id == q.nextId + 1))
            && (adds ==> Adds(q, game, restore, false, volume, after))
            && (r.Ok? ==> Joins(after.jobs, game.dir, restore, r.value))
            && (!Open(q, game) || !CanRoom(q.jobs) ==> after == q)
            && (Open(q, game) && CanRoom(q.jobs) && r.Err? ==>
                  && MadeRoom(q.jobs, after.jobs)
                  && after.nextId == if q.nextId < U64_MAX then q.nextId + 1 else q.nextId)
  {
    RoomIsOldest(q.jobs);
    OccupiedAnswers(q, game, restore, volume);
    if FindActive(q.jobs, game.dir).None? && Enqueued(q, game, restore, volume).1.Ok? {
      AddsOne(q, game, restore, volume);
    }
  }

  lemma OccupiedAnswers(q: Jobs, game: Game, restore: bool, volume: Option<string>)
    requires Valid(q)
    ensures FindActive(q.jobs, game.dir).Some? <==> !Unoccupied(q.jobs, game.dir)
    ensures Unoccupied(q.jobs, game.dir) ==> forall id: nat :: !Joins(q.jobs, game.dir, restore, id)
    ensures !Unoccupied(q.jobs, game.dir) && game.state.Idle? ==>
              forall id: nat ::
                Enqueued(q, game, restore, volume) == (q, Ok(id)) <==> Joins(q.jobs, game.dir, restore, id)
  {
    var i := FindActive(q.jobs, game.dir);
    if i.Some? {
      assert forall k | 0 <= k < |q.jobs| && q.jobs[k].Occupies(game.dir) :: k == i.value;
    }
  }

  lemma AddsOne(q: Jobs, game: Game, restore: bool, volume: Option<string>)
    requires |q.jobs| <= MAX_JOBS && FindActive(q.jobs, game.dir).None? && Enqueued(q, game, restore, volume).1.Ok?
    ensures var (after, r) := Enqueued(q, game, restore, volume);
            Adds(q, game, restore, false, volume, after) && Joins(after.jobs, game.dir, restore, r.value)
  {
    var (after, r) := Enqueued(q, game, restore, volume);
    RoomIsOldest(q.jobs);
    assert after.jobs[..|after.jobs| - 1] == MakeRoom(q.jobs).0;
    assert after.jobs[|after.jobs| - 1].Occupies(game.dir);
  }

  /** An automatic enqueue answers as an enqueue for compression does; only a job it adds is automatic. */
  lemma AutomaticAnswersExactly(q: Jobs, game: Game, volume: Option<string>)
    requires Valid(q)
    ensures var (after, r) := EnqueuedAutomatic(q, game, volume);
            var (plain, s) := Enqueued(q, game, false, volume);
            && r == s
            && if r.Ok? && Unoccupied(q.jobs, game.dir) then Adds(q, game, false, true, volume, after)
               else after == plain
  {
    OccupiedAnswers(q, game, false, volume);
    if Enqueued(q, game, false, volume).1.Ok? && Unoccupied(q.jobs, game.dir) {
      AutomaticAdds(q, game, volume);
    }
  }

  lemma AutomaticAdds(q: Jobs, game: Game, volume: Option<string>)
    requires Valid(q) && FindActive(q.jobs, game.dir).None? && Enqueued(q, game, false, volume).1.Ok?
    ensures Adds(q, game, false, true, volume, EnqueuedAutomatic(q, game, volume).0)
  {
    var plain := Enqueued(q, game, false, volume).0;
    var room := plain.jobs[..|plain.jobs| - 1];
    AddsOne(q, game, false, volume);
    RoomKeeps(q.jobs, q.nextId);
    assert room == MakeRoom(q.jobs).0;
    MarkedLast(plain, room);
    var last := plain.jobs[|plain.jobs| - 1].(automatic := true);
    assert (room + [last])[..|room|] == room;
  }

  lemma MarkedLast(q: Jobs, room: seq<Job>)
    requires q.jobs != [] && q.jobs[..|q.jobs| - 1] == room
    requires forall i | 0 <= i < |room| :: room[i].id != q.jobs[|q.jobs| - 1].id
    ensures var last := |q.jobs| - 1;
            MarkedAutomatic(q, q.jobs[last].id) == q.(jobs := room + [q.jobs[last].(automatic := true)])
  {
    var last := |q.jobs| - 1;
    assert forall i | 0 <= i < last :: q.jobs[i] == room[i];
    assert FindId(q.jobs, q.jobs[last].id) == Some(last);
    assert q.jobs == room + [q.jobs[last]];
  }

  /**
   A retry succeeds exactly for an inactive job whose folder is free, with room and a volume; then only
   that job changes.
   */
  lemma RetryAnswersExactly(q: Jobs, i: nat, volume: Option<string>)
    requires Valid(q) && i < |q.jobs|
    ensures var job := q.jobs[i];
            var (after, r) := Retried(q, job.id, volume);
            && (r.Ok? <==>
                  && !job.phase.Active() && ActiveCount(q.jobs) < MAX_ACTIVE && Unoccupied(q.jobs, job.game.dir)
                  && (job.volume.Some? || volume.Some?))
            && (r.Err? ==> after == q)
            && (r.Ok? ==>
                  && after.nextId == q.nextId && |after.jobs| == |q.jobs|
                  && (forall k | 0 <= k < |q.jobs| && k != i :: after.jobs[k] == q.jobs[k])
                  && IsNew(after.jobs[i], job.id, job.game, job.restore, job.automatic,
                           if job.volume.Some? then job.volume else volume))
    ensures forall id :: !HasId(q.jobs, id) ==> Retried(q, id, volume) == (q, Err)
  {
    assert FindId(q.jobs, q.jobs[i].id) == Some(i);
    assert FindActive(q.jobs, q.jobs[i].game.dir).None? <==> Unoccupied(q.jobs, q.jobs[i].game.dir);
  }

  /** A load changes only phases: a job at work, or one that waits without a volume, is interrupted. */
  lemma LoadAnswersExactly(q: Jobs)
    ensures Loaded(Holding(q)).Ok? <==> |q.jobs| <= MAX_JOBS
    ensures Loaded(Holding(q)).Ok? ==>
              var after := Loaded(Holding(q)).value;
              && |after.jobs| == |q.jobs|
              && (forall k | 0 <= k < |q.jobs| ::
                    var job := q.jobs[k];
                    after.jobs[k] == job.(phase :=
                      match job.phase
                      case Running => Interrupted
                      case Paused => Interrupted
                      case Waiting => if job.volume.None? then Interrupted else Waiting
                      case phase => phase))
              && q.nextId <= after.nextId && (forall k | 0 <= k < |q.jobs| :: q.jobs[k].id <= after.nextId)
              && (after.nextId == q.nextId || exists k | 0 <= k < |q.jobs| :: q.jobs[k].id == after.nextId)
    ensures Loaded(Missing) == Ok(Jobs([], 0)) && Loaded(Unreadable) == Err
  {
  }

  /** An enqueue that fails can still cost a history entry, and this is exactly when. */
  lemma FailedEnqueueEvicts(q: Jobs, game: Game, restore: bool, volume: Option<string>)
    requires Valid(q) && Enqueued(q, game, restore, volume).1.Err?
    ensures Enqueued(q, game, restore, volume).0.jobs != q.jobs <==>
              && game.state.Idle? && FindActive(q.jobs, game.dir).None? && ActiveCount(q.jobs) < MAX_ACTIVE
              && |q.jobs| == MAX_JOBS && FindEvictable(q.jobs).Some?
  {
    if |q.jobs| == MAX_JOBS && FindEvictable(q.jobs).Some? {
      var w := Without(q.jobs, FindEvictable(q.jobs).value);
      assert MakeRoom(q.jobs) == MakeRoom(w) == (w, true);
      assert |w| != |q.jobs|;
    }
  }
}
