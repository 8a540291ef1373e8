/** The sampling budget that parallel samplers share: read before a file, spent after it. */
module Budget {
  import opened Common
  import Sampling

  datatype Pc = Waiting | Busy | Ended

  /** `spent` is history: the bytes that finished samplers reported. */
  datatype State = State(budget: nat, pcs: seq<Pc>, busy: set<nat>, spent: nat)

  /** `Load` reads the budget and starts on a file if any is left; `Finish` reports what was sampled. */
  datatype Action = Load(i: nat) | Finish(i: nat) | Fail(i: nat) | Skip(i: nat)

  /** `sampled[i]` is what file `i` reports; `threads` bounds the files in progress. */
  datatype Job = Job(initial: nat, threads: nat, sampled: seq<nat>)

  function Initial(job: Job): State {
    State(job.initial, seq(|job.sampled|, i => Waiting), {}, 0)
  }

  function Step(job: Job, s: State, a: Action): State {
    if a.i >= |s.pcs| || a.i >= |job.sampled| then s
    else
      var i := a.i;
      match a
      case Load(_) =>
        if s.pcs[i] != Waiting || |s.busy| >= job.threads then s
        else if s.budget == 0 then s.(pcs := s.pcs[i := Ended])
        else s.(pcs := s.pcs[i := Busy], busy := s.busy + {i})
      case Finish(_) =>
        if s.pcs[i] != Busy then s
        else
          // One atomic update of the counter: what is left, less what this file took.
          State(SaturatingSub(s.budget, job.sampled[i]), s.pcs[i := Ended], s.busy - {i}, s.spent + job.sampled[i])
      case Fail(_) => if s.pcs[i] != Busy then s else s.(pcs := s.pcs[i := Ended], busy := s.busy - {i})
      case Skip(_) => if s.pcs[i] != Waiting then s else s.(pcs := s.pcs[i := Ended])
  }

  function Run(job: Job, s: State, actions: seq<Action>): State
    decreases |actions|
  {
    if actions == [] then s else Run(job, Step(job, s, actions[0]), actions[1..])
  }

  predicate Capped(job: Job, cap: nat) {
    forall i | 0 <= i < |job.sampled| :: job.sampled[i] <= cap
  }

  /** What is spent and what the files in progress may still report stay below the budget and one file a thread. */
  predicate Inv(job: Job, cap: nat, s: State) {
    && |s.pcs| == |job.sampled|
    && (forall i | 0 <= i < |s.pcs| :: s.pcs[i] == Busy <==> i in s.busy)
    && s.budget == SaturatingSub(job.initial, s.spent)
    && |s.busy| <= job.threads
    && (s.spent + |s.busy| * cap == 0 || s.spent + |s.busy| * cap < job.initial + job.threads * cap)
  }

  lemma MoreBusy(busy: nat, threads: nat, cap: nat)
    requires busy <= threads
    ensures busy * cap <= threads * cap
    ensures busy > 0 ==> busy * cap == (busy - 1) * cap + cap
  {
  }

  lemma StepKeeps(job: Job, cap: nat, s: State, a: Action)
    requires Capped(job, cap) && Inv(job, cap, s)
    ensures Inv(job, cap, Step(job, s, a))
  {
    var t := Step(job, s, a);
    if a.i < |job.sampled| && t != s {
      if a.Load? {
        LoadKeeps(job, cap, s, a.i);
      } else if !a.Skip? {
        assert a.i in s.busy && |t.busy| == |s.busy| - 1;
        MoreBusy(|s.busy|, job.threads, cap);
      }
    }
  }

  lemma LoadKeeps(job: Job, cap: nat, s: State, i: nat)
    requires Inv(job, cap, s) && i < |s.pcs|
    ensures Inv(job, cap, Step(job, s, Load(i)))
  {
    var t := Step(job, s, Load(i));
    if t.busy != s.busy {
      assert i !in s.busy && |t.busy| == |s.busy| + 1;
      MoreBusy(|t.busy|, job.threads, cap);
    }
  }

  lemma {:induction false} RunKeeps(job: Job, cap: nat, s: State, actions: seq<Action>)
    requires Capped(job, cap) && Inv(job, cap, s)
    ensures Inv(job, cap, Run(job, s, actions))
    decreases |actions|
  {
    if actions != [] {
      StepKeeps(job, cap, s, actions[0]);
      RunKeeps(job, cap, Step(job, s, actions[0]), actions[1..]);
    }
  }

  /**
   Every interleaving: the counter is always what is left, never wraps, and the overshoot is under
   one file a thread.
   */
  lemma BudgetHolds(job: Job, cap: nat, actions: seq<Action>)
    requires Capped(job, cap)
    ensures var s := Run(job, Initial(job), actions);
            && s.budget == SaturatingSub(job.initial, s.spent) <= job.initial
            && (s.spent == 0 || s.spent < job.initial + job.threads * cap)
  {
    RunKeeps(job, cap, Initial(job), actions);
  }

  /** With the sampler of the estimator, whatever the files: under the budget and one file's cap a thread. */
  lemma EstimateHolds(
      m: Sampling.UnitModel, job: Job, sizes: seq<nat>, container: seq<bool>, ws: seq<seq<Sampling.Window>>,
      actions: seq<Action>)
    requires |sizes| == |container| == |ws| == |job.sampled|
    requires forall i | 0 <= i < |ws| ::
               sizes[i] <= U64_MAX && Sampling.EstimateOf(m, sizes[i], container[i], ws[i])
               && job.sampled[i] == Sampling.Total(ws[i])
    ensures var spent := Run(job, Initial(job), actions).spent;
            spent == 0 || spent < job.initial + job.threads * m.ByteCap()
  {
    forall i | 0 <= i < |ws| ensures job.sampled[i] <= m.ByteCap() {
      Sampling.EstimateFits(m, sizes[i], container[i], ws[i]);
    }
    BudgetHolds(job, m.ByteCap(), actions);
  }

  // ---------------------------------------------------------------- the bound cannot be lowered

  lemma {:induction false} RunConcat(job: Job, s: State, first: seq<Action>, second: seq<Action>)
    ensures Run(job, s, first + second) == Run(job, Run(job, s, first), second)
    decreases |first|
  {
    if first == [] {
      assert first + second == second;
    } else {
      assert (first + second)[1..] == first[1..] + second;
      RunConcat(job, Step(job, s, first[0]), first[1..], second);
    }
  }

  /** All but one byte of the budget is used up by one-byte files; then every thread starts on a full-cap file. */
  function GreedyJob(initial: nat, threads: nat, cap: nat): Job
    requires initial > 0
  {
    Job(initial, threads, seq(initial - 1 + threads, i => if i < initial - 1 then 1 else cap))
  }

  lemma {:induction false} OneByOne(initial: nat, threads: nat, cap: nat, n: nat) returns (actions: seq<Action>)
    requires threads >= 1 && n < initial
    ensures var job := GreedyJob(initial, threads, cap);
            var s := Run(job, Initial(job), actions);
            && s.budget == initial - n && s.spent == n && s.busy == {} && |s.pcs| == |job.sampled|
            && forall i | n <= i < |s.pcs| :: s.pcs[i] == Waiting
    decreases n
  {
    var job := GreedyJob(initial, threads, cap);
    if n == 0 {
      actions := [];
    } else {
      var before := OneByOne(initial, threads, cap, n - 1);
      var s := Run(job, Initial(job), before);
      var loaded := Step(job, s, Load(n - 1));
      RunConcat(job, Initial(job), before, [Load(n - 1)]);
      RunConcat(job, Initial(job), before + [Load(n - 1)], [Finish(n - 1)]);
      actions := before + [Load(n - 1)] + [Finish(n - 1)];
      assert loaded.busy == {n - 1} && loaded.busy - {n - 1} == {};
    }
  }

  lemma {:induction false} AllStart(initial: nat, threads: nat, cap: nat, n: nat) returns (actions: seq<Action>)
    requires threads >= 1 && initial > 0 && n <= threads
    ensures var job := GreedyJob(initial, threads, cap);
            var s := Run(job, Initial(job), actions);
            && s.budget == 1 && s.spent == initial - 1 && |s.pcs| == |job.sampled| && |s.busy| == n
            && (forall i | initial - 1 <= i < |s.pcs| :: s.pcs[i] == if i < initial - 1 + n then Busy else Waiting)
            && (forall i | i in s.busy :: i < initial - 1 + n)
    decreases n
  {
    var job := GreedyJob(initial, threads, cap);
    if n == 0 {
      actions := OneByOne(initial, threads, cap, initial - 1);
    } else {
      var before := AllStart(initial, threads, cap, n - 1);
      var s, i := Run(job, Initial(job), before), initial - 1 + (n - 1);
      RunConcat(job, Initial(job), before, [Load(i)]);
      actions := before + [Load(i)];
    }
  }

  lemma {:induction false} AllFinish(initial: nat, threads: nat, cap: nat, n: nat) returns (actions: seq<Action>)
    requires threads >= 1 && initial > 0 && n <= threads
    ensures var job := GreedyJob(initial, threads, cap);
            var s := Run(job, Initial(job), actions);
            && s.spent == initial - 1 + n * cap && |s.pcs| == |job.sampled|
            && (forall i | initial - 1 + n <= i < |s.pcs| :: s.pcs[i] == Busy)
    decreases n
  {
    var job := GreedyJob(initial, threads, cap);
    if n == 0 {
      actions := AllStart(initial, threads, cap, threads);
    } else {
      var before := AllFinish(initial, threads, cap, n - 1);
      var s, i := Run(job, Initial(job), before), initial - 1 + (n - 1);
      RunConcat(job, Initial(job), before, [Finish(i)]);
      actions := before + [Finish(i)];
      MoreBusy(n, n, cap);
    }
  }

  /** For every budget, thread count and cap some run overshoots by all of it. */
  lemma BoundIsReached(initial: nat, threads: nat, cap: nat)
    requires initial > 0 && threads > 0 && cap > 0
    ensures exists job: Job, actions ::
              job.initial == initial && job.threads == threads && Capped(job, cap)
              && Run(job, Initial(job), actions).spent == initial - 1 + threads * cap
  {
    var job := GreedyJob(initial, threads, cap);
    var actions := AllFinish(initial, threads, cap, threads);
    assert Run(job, Initial(job), actions).spent == initial - 1 + threads * cap;
  }
}
