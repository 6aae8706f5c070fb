/** How often a job looks for its cancellation, and in which order and number jobs wait. */
module PoolChecks {
  import opened Json
  import opened Pool
  import opened PoolSafety

  // ---------- the checks before a publication ----------

  function Checks(log: seq<Event>, id: JobId): nat {
    if log == [] then 0 else Checks(log[..|log| - 1], id) + One(log[|log| - 1] == Checked(id))
  }

  lemma ChecksAppend(log: seq<Event>, e: Event, id: JobId)
    ensures Checks(log + [e], id) == Checks(log, id) + One(e == Checked(id))
  {
    assert (log + [e])[..|log|] == log;
  }

  /** The first document whose schema cannot be compiled, or how many there are. */
  function FirstBad(docs: seq<Outcome>): (f: nat)
    ensures f <= |docs| && (f < |docs| ==> docs[f].Uncompilable?) && forall i | 0 <= i < f :: !docs[i].Uncompilable?
  {
    if docs == [] || docs[0].Uncompilable? then 0 else 1 + FirstBad(docs[1..])
  }

  /** How many of the first documents have a schema to be compiled. */
  function Compiled(docs: seq<Outcome>, n: nat): nat
    requires n <= |docs|
  {
    if n == 0 then 0 else Compiled(docs, n - 1) + One(docs[n - 1].Uncompilable? || docs[n - 1].Validated?)
  }

  /** One when the job starts, one before each document considered, or before publishing what they
      came to, and one before each compilation. */
  function ChecksDue(content: Content): nat {
    match content
    case NoSchema | Unparsable(_) => 1
    case Parsed(docs) =>
      var f := FirstBad(docs);
      1 + (f + 1) + Compiled(docs, if f < |docs| then f + 1 else f)
  }

  /** The checks passed where a worker stands. */
  ghost predicate Passed(content: Content, pc: Pc, n: nat)
    requires PcFits(content, pc)
  {
    match pc
    case Entry => n == 0
    case Loop(i, _, _) => i <= FirstBad(content.docs) && n == 1 + i + Compiled(content.docs, i)
    case Doc(i, _, _) => i <= FirstBad(content.docs) && n == 2 + i + Compiled(content.docs, i)
    case Typed(i, _, _) => i <= FirstBad(content.docs) && n == 2 + i + Compiled(content.docs, i)
    case Compiling(i, _, _) => i <= FirstBad(content.docs) && n == 3 + i + Compiled(content.docs, i)
    case Publishing(_, _) => n == ChecksDue(content)
  }

  lemma StepCounts(s: State, id: JobId, pc: Pc, n: nat)
    requires id < |s.jobs| && PcFits(s.jobs[id].content, pc) && Passed(s.jobs[id].content, pc, n)
    ensures
      var (next, events) := WorkerStep(s, id, pc);
      var content := s.jobs[id].content;
      && (events == [] || events == [Checked(id)] ||
          (|events| == 1 && events[0].Published? && events[0].job == id && next.Idle? && n == ChecksDue(content)))
      && (next.Busy? ==>
            && next.job == id && PcFits(content, next.pc)
            && Passed(content, next.pc, n + One(events == [Checked(id)])))
  {
  }

  ghost predicate Counted(s: State) {
    && (forall id: JobId | id in s.submitting || id in s.queue || id >= |s.jobs| :: Checks(s.log, id) == 0)
    && (forall w | 0 <= w < |s.workers| && s.workers[w].Busy? ::
          var Busy(id, pc) := s.workers[w];
          id < |s.jobs| && PcFits(s.jobs[id].content, pc) && Passed(s.jobs[id].content, pc, Checks(s.log, id)))
    && (forall k | 0 <= k < |s.log| && s.log[k].Published? ::
          var id := s.log[k].job;
          id < |s.jobs| && Checks(s.log[..k], id) == ChecksDue(s.jobs[id].content))
  }

  lemma {:induction false} RunningTwice(workers: seq<Worker>, v: nat, w: nat, id: JobId)
    requires v < w < |workers| && Runs(workers[v], id) && Runs(workers[w], id)
    ensures Running(workers, id) >= 2
  {
    if v > 0 {
      RunningTwice(workers[1..], v - 1, w - 1, id);
    } else {
      RunningSome(workers[1..], w - 1);
    }
  }

  /** A running job is at one worker, and waits nowhere. */
  lemma RunningAlone(s: State, w: nat)
    requires Conserved(s) && w < |s.workers| && s.workers[w].Busy?
    ensures
      var id := s.workers[w].job;
      && id < |s.jobs| && id !in s.submitting && id !in s.queue
      && forall v | 0 <= v < |s.workers| && v != w :: !Runs(s.workers[v], id)
  {
    var id := s.workers[w].job;
    assert Places(s, id) == One(id < |s.jobs|);
    RunningSome(s.workers, w);
    if i :| 0 <= i < |s.queue| && s.queue[i] == id { QueuedSome(s.queue, i); }
    forall v | 0 <= v < |s.workers| && v != w ensures !Runs(s.workers[v], id) {
      if Runs(s.workers[v], id) { RunningTwice(s.workers, if v < w then v else w, if v < w then w else v, id); }
    }
  }

  lemma LogsNoCheck(s: State, a: Action)
    requires Enabled(s, a) && !a.Work?
    ensures forall id :: Checks(Next(s, a).log, id) == Checks(s.log, id)
    ensures forall k | 0 <= k < |Next(s, a).log| && Next(s, a).log[k].Published? ::
              k < |s.log| && Next(s, a).log[..k] == s.log[..k] && Next(s, a).log[k] == s.log[k]
  {
    var log := Next(s, a).log;
    if log != s.log {
      var e := log[|s.log|];
      assert log == s.log + [e] && !e.Published?;
      forall id ensures Checks(log, id) == Checks(s.log, id) { ChecksAppend(s.log, e, id); }
    }
  }

  lemma WaitingCounted(s: State, a: Action)
    requires Conserved(s) && Counted(s) && Enabled(s, a) && !a.Work?
    ensures Counted(Next(s, a))
  {
    LogsNoCheck(s, a);
    QueuedIsJob(s);
    hide Checks, Passed, Conserved;
    if a.Take? { assert s.queue[0] in s.queue; }
  }

  /** What a step of a worker changes, for the counts. */
  ghost predicate Worked(s: State, t: State, w: nat, next: Worker, events: seq<Event>)
    requires w < |s.workers| && s.workers[w].Busy?
  {
    var id := s.workers[w].job;
    && t.jobs == s.jobs && t.submitting == s.submitting && t.queue == s.queue && t.workers == s.workers[w := next]
    && t.log == s.log + events
    && forall other ::
      Checks(t.log, other) == Checks(s.log, other) + One(other == id && events == [Checked(id)])
  }

  lemma WorkStep(s: State, w: nat)
    requires Counted(s) && Enabled(s, Work(w))
    ensures
      var (next, events) := WorkerStep(s, s.workers[w].job, s.workers[w].pc);
      Worked(s, Next(s, Work(w)), w, next, events)
  {
    var Busy(id, pc) := s.workers[w];
    StepCounts(s, id, pc, Checks(s.log, id));
    var events := WorkerStep(s, id, pc).1;
    hide WorkerStep, Passed, ChecksDue, Counted, Checks;
    assert s.log + [] == s.log;
    forall other
      ensures Checks(s.log + events, other) == Checks(s.log, other) + One(other == id && events == [Checked(id)])
    {
      if events != [] {
        assert events == [events[0]];
        ChecksAppend(s.log, events[0], other);
      }
    }
  }

  lemma WorkCounted(s: State, w: nat)
    requires Conserved(s) && Counted(s) && Enabled(s, Work(w))
    ensures Counted(Next(s, Work(w)))
  {
    var t := Next(s, Work(w));
    var Busy(id, pc) := s.workers[w];
    StepCounts(s, id, pc, Checks(s.log, id));
    RunningAlone(s, w);
    WorkStep(s, w);
    var (next, events) := WorkerStep(s, id, pc);
    hide Checks, Passed, Conserved, WorkerStep, PcFits, ChecksDue, Next;
    PublishedCounted(s, t, w, next, events);
    OthersCounted(s, t, w, next, events);
  }

  lemma PublishedCounted(s: State, t: State, w: nat, next: Worker, events: seq<Event>)
    requires Counted(s) && w < |s.workers| && s.workers[w].Busy? && Worked(s, t, w, next, events)
    requires
      var id := s.workers[w].job;
      events == [] || events == [Checked(id)] ||
      (|events| == 1 && events[0].Published? && events[0].job == id &&
       Checks(s.log, id) == ChecksDue(s.jobs[id].content))
    ensures forall k | 0 <= k < |t.log| && t.log[k].Published? ::
              t.log[k].job < |t.jobs| && Checks(t.log[..k], t.log[k].job) == ChecksDue(t.jobs[t.log[k].job].content)
  {
    hide Checks, Passed, PcFits, ChecksDue;
    forall k | 0 <= k < |t.log| && t.log[k].Published?
      ensures t.log[k].job < |t.jobs| && Checks(t.log[..k], t.log[k].job) == ChecksDue(t.jobs[t.log[k].job].content)
    {
      assert t.log[..k] == s.log[..k];
      assert s.log[..|s.log|] == s.log;
    }
  }

  lemma OthersCounted(s: State, t: State, w: nat, next: Worker, events: seq<Event>)
    requires Counted(s) && w < |s.workers| && s.workers[w].Busy? && Worked(s, t, w, next, events)
    requires forall v | 0 <= v < |s.workers| && v != w :: !Runs(s.workers[v], s.workers[w].job)
    ensures forall v | 0 <= v < |t.workers| && v != w && t.workers[v].Busy? ::
              var Busy(id, pc) := t.workers[v];
              id < |t.jobs| && PcFits(t.jobs[id].content, pc) && Passed(t.jobs[id].content, pc, Checks(t.log, id))
  {
    hide Checks, Passed, PcFits;
    forall v | 0 <= v < |t.workers| && v != w && t.workers[v].Busy?
      ensures
        var Busy(id, pc) := t.workers[v];
        id < |t.jobs| && PcFits(t.jobs[id].content, pc) && Passed(t.jobs[id].content, pc, Checks(t.log, id))
    {
      assert t.workers[v] == s.workers[v] && !Runs(s.workers[v], s.workers[w].job);
      assert Checks(t.log, t.workers[v].job) == Checks(s.log, t.workers[v].job);
    }
  }

  lemma {:induction false} RunCounts(size: nat, actions: seq<Action>)
    requires Run(size, actions).Some?
    ensures Counted(Run(size, actions).value)
  {
    if actions != [] {
      var n := |actions| - 1;
      RunCounts(size, actions[..n]);
      RunKeepsInvariant(size, actions[..n]);
      var s := Run(size, actions[..n]).value;
      if actions[n].Work? { WorkCounted(s, actions[n].w); } else { WaitingCounted(s, actions[n]); }
    }
  }

  /** In every interleaving, a job has passed exactly the checks due when it publishes. */
  lemma ChecksBeforePublishing(size: nat, s: State, k: nat)
    requires Reachable(size, s) && k < |s.log| && s.log[k].Published?
    ensures s.log[k].job < |s.jobs|
    ensures Checks(s.log[..k], s.log[k].job) == ChecksDue(s.jobs[s.log[k].job].content)
  {
    var actions :| Run(size, actions) == Some(s);
    RunCounts(size, actions);
  }

  // ---------- waiting jobs ----------

  /** The queue never holds more than four jobs for each worker, and a submission waits only while it is full. */
  lemma {:induction false} QueueBounded(size: nat, actions: seq<Action>)
    requires Run(size, actions).Some?
    ensures
      var s := Run(size, actions).value;
      && |s.workers| == size && |s.queue| <= 4 * size
      && forall id | id in s.submitting :: Enabled(s, Send(id)) <==> |s.queue| != 4 * size
  {
    if actions != [] {
      var n := |actions| - 1;
      QueueBounded(size, actions[..n]);
      QueueStep(Run(size, actions[..n]).value, actions[n]);
    }
  }

  lemma QueueStep(s: State, a: Action)
    requires Enabled(s, a) && |s.queue| <= 4 * |s.workers|
    ensures |Next(s, a).workers| == |s.workers| && |Next(s, a).queue| <= 4 * |s.workers|
  {
    hide PcFits, WorkerStep;
  }

  function Sent(actions: seq<Action>): seq<JobId> {
    if actions == [] then []
    else
      var last := actions[|actions| - 1];
      Sent(actions[..|actions| - 1]) + if last.Send? then [last.id] else []
  }

  /** The jobs that workers have taken up, in order. */
  function Taken(size: nat, actions: seq<Action>): seq<JobId>
    requires Run(size, actions).Some?
  {
    if actions == [] then []
    else
      var init, last := actions[..|actions| - 1], actions[|actions| - 1];
      var workers := Run(size, actions).value.workers;
      Taken(size, init) +
      if last.Take? && last.w < |workers| && workers[last.w].Busy? then [workers[last.w].job] else []
  }

  /** Jobs are taken up in the order they were sent, and those not yet taken are queued. */
  lemma {:induction false} FirstInFirstOut(size: nat, actions: seq<Action>)
    requires Run(size, actions).Some?
    ensures Sent(actions) == Taken(size, actions) + Run(size, actions).value.queue
  {
    if actions != [] {
      var init, last := actions[..|actions| - 1], actions[|actions| - 1];
      FirstInFirstOut(size, init);
      var s := Run(size, init).value;
      if last.Take? { assert s.queue == [s.queue[0]] + s.queue[1..]; }
    }
  }
}
