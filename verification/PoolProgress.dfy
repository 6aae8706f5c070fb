/** The validation jobs come to rest: without further enqueueing only so many steps are left. */
module PoolProgress {
  import opened Json
  import opened Pool
  import opened PoolSafety

  function Docs(content: Content): nat {
    if content.Parsed? then |content.docs| else 0
  }

  /** A bound on the steps a worker still takes for a job. */
  function PcLeft(content: Content, pc: Pc): nat
    requires PcFits(content, pc)
  {
    match pc
    case Entry => 4 * Docs(content) + 3
    case Loop(i, _, _) => 4 * (Docs(content) - i) + 2
    case Doc(i, _, _) => 4 * (Docs(content) - i) + 1
    case Typed(i, _, _) => 4 * (Docs(content) - i)
    case Compiling(i, _, _) => 4 * (Docs(content) - i) - 1
    case Publishing(_, _) => 1
  }

  function WorkerLeft(jobs: seq<Job>, w: Worker): nat {
    if w.Busy? && w.job < |jobs| && PcFits(jobs[w.job].content, w.pc) then PcLeft(jobs[w.job].content, w.pc) else 0
  }

  function WorkersLeft(jobs: seq<Job>, workers: seq<Worker>): nat {
    if workers == [] then 0 else WorkerLeft(jobs, workers[0]) + WorkersLeft(jobs, workers[1..])
  }

  function JobLeft(jobs: seq<Job>, id: JobId): nat {
    if id < |jobs| then 4 * Docs(jobs[id].content) + 4 else 1
  }

  function QueueLeft(jobs: seq<Job>, queue: seq<JobId>): nat {
    if queue == [] then 0 else JobLeft(jobs, queue[0]) + QueueLeft(jobs, queue[1..])
  }

  /** Over the jobs below n that are still being submitted. */
  function SubmitLeft(jobs: seq<Job>, submitting: set<JobId>, n: nat): nat {
    if n == 0 then 0
    else SubmitLeft(jobs, submitting, n - 1) + if n - 1 in submitting then JobLeft(jobs, n - 1) + 1 else 0
  }

  function StepsLeft(s: State): nat {
    SubmitLeft(s.jobs, s.submitting, |s.jobs|) + QueueLeft(s.jobs, s.queue) + WorkersLeft(s.jobs, s.workers)
  }

  lemma {:induction false} WorkersLeftUpdate(jobs: seq<Job>, workers: seq<Worker>, w: nat, next: Worker)
    requires w < |workers|
    ensures WorkersLeft(jobs, workers[w := next]) + WorkerLeft(jobs, workers[w]) ==
        WorkersLeft(jobs, workers) + WorkerLeft(jobs, next)
  {
    if w == 0 {
      assert workers[w := next][1..] == workers[1..];
    } else {
      WorkersLeftUpdate(jobs, workers[1..], w - 1, next);
      assert workers[w := next][1..] == workers[1..][w - 1 := next];
    }
  }

  lemma {:induction false} QueueLeftAppend(jobs: seq<Job>, queue: seq<JobId>, id: JobId)
    ensures QueueLeft(jobs, queue + [id]) == QueueLeft(jobs, queue) + JobLeft(jobs, id)
  {
    if queue != [] {
      QueueLeftAppend(jobs, queue[1..], id);
      assert (queue + [id])[1..] == queue[1..] + [id];
    }
  }

  lemma {:induction false} SubmitLeftRemove(jobs: seq<Job>, submitting: set<JobId>, n: nat, id: JobId)
    requires id in submitting
    ensures SubmitLeft(jobs, submitting, n) ==
            SubmitLeft(jobs, submitting - {id}, n) + if id < n then JobLeft(jobs, id) + 1 else 0
  {
    if n > 0 { SubmitLeftRemove(jobs, submitting, n - 1, id); }
  }

  predicate Progress(a: Action) {
    a.Send? || a.Drop? || a.Take? || a.Work?
  }

  /** Each step of a submitter or a worker leaves fewer; no other but an enqueueing adds any. */
  lemma ProgressStep(s: State, a: Action)
    requires Conserved(s) && Enabled(s, a) && !a.Enqueue?
    ensures if Progress(a) then StepsLeft(Next(s, a)) < StepsLeft(s) else StepsLeft(Next(s, a)) == StepsLeft(s)
  {
    var t := Next(s, a);
    if t.workers != s.workers { WorkersLeftUpdate(s.jobs, s.workers, a.w, t.workers[a.w]); }
    match a
    case Send(id) =>
      assert Places(s, id) == One(id < |s.jobs|);
      SubmitLeftRemove(s.jobs, s.submitting, |s.jobs|, id);
      QueueLeftAppend(s.jobs, s.queue, id);
    case Drop(id) =>
      assert Places(s, id) == One(id < |s.jobs|);
      SubmitLeftRemove(s.jobs, s.submitting, |s.jobs|, id);
    case Take(w) => TakeLeaves(s, w);
    case Work(w) => WorkLeaves(s, w);
    case _ =>
  }

  lemma TakeLeaves(s: State, w: nat)
    requires Conserved(s) && Enabled(s, Take(w))
    ensures s.queue[0] < |s.jobs|
    ensures WorkerLeft(s.jobs, Busy(s.queue[0], Entry)) < JobLeft(s.jobs, s.queue[0])
  {
    QueuedSome(s.queue, 0);
    assert Places(s, s.queue[0]) == One(s.queue[0] < |s.jobs|);
  }

  lemma WorkLeaves(s: State, w: nat)
    requires Enabled(s, Work(w))
    ensures WorkerLeft(s.jobs, Next(s, Work(w)).workers[w]) < WorkerLeft(s.jobs, s.workers[w])
  {
  }

  function ProgressSteps(actions: seq<Action>): nat {
    if actions == [] then 0 else ProgressSteps(actions[..|actions| - 1]) + One(Progress(actions[|actions| - 1]))
  }

  /** The state after further steps. */
  function Continue(s: State, actions: seq<Action>): Option<State> {
    if actions == [] then Some(s)
    else match Continue(s, actions[..|actions| - 1])
      case Some(t) => if Enabled(t, actions[|actions| - 1]) then Some(Next(t, actions[|actions| - 1])) else None
      case None => None
  }

  /** However the steps interleave, a run on which nothing is enqueued any more takes at most
      StepsLeft steps of submitters and workers, so it comes to rest. */
  lemma {:induction false} ComesToRest(s: State, actions: seq<Action>)
    requires Invariant(s) && Continue(s, actions).Some? && forall i | 0 <= i < |actions| :: !actions[i].Enqueue?
    ensures Invariant(Continue(s, actions).value)
    ensures ProgressSteps(actions) + StepsLeft(Continue(s, actions).value) <= StepsLeft(s)
  {
    if actions != [] {
      var n := |actions| - 1;
      ComesToRest(s, actions[..n]);
      var t := Continue(s, actions[..n]).value;
      InvariantKept(t, actions[n]);
      hide StepsLeft, Next;
      ProgressStep(t, actions[n]);
    }
  }
}
