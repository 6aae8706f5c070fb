/** What every interleaving of the validation jobs keeps. */
module PoolSafety {
  import opened Json
  import opened Pool

  // ---------- a job is cancelled exactly when something superseded it ----------

  predicate Supersedes(e: Event, uri: string) {
    e.ShutDown? || e == Enqueued(uri) || e == Closed(uri)
  }

  /** Something between two log positions (exclusive) superseded the jobs of a URI. */
  predicate Superseded(log: seq<Event>, uri: string, from: nat, to: nat) {
    exists k | from < k < to && k < |log| :: Supersedes(log[k], uri)
  }

  lemma SupersededAppend(log: seq<Event>, e: Event, uri: string, from: nat)
    requires from < |log|
    ensures Superseded(log + [e], uri, from, |log| + 1) <==> Superseded(log, uri, from, |log|) || Supersedes(e, uri)
  {
    var longer := log + [e];
    if Superseded(log, uri, from, |log|) {
      var k :| from < k < |log| && Supersedes(log[k], uri);
      assert Supersedes(longer[k], uri);
    }
    if Supersedes(e, uri) { assert Supersedes(longer[|log|], uri); }
    if Superseded(longer, uri, from, |log| + 1) {
      var k :| from < k < |longer| && Supersedes(longer[k], uri);
      if k < |log| { assert Supersedes(log[k], uri); }
    }
  }

  lemma SupersededBefore(log: seq<Event>, more: seq<Event>, uri: string, from: nat, to: nat)
    requires to <= |log|
    ensures Superseded(log + more, uri, from, to) == Superseded(log, uri, from, to)
  {
    if Superseded(log, uri, from, to) {
      var k :| from < k < to && k < |log| && Supersedes(log[k], uri);
      assert Supersedes((log + more)[k], uri);
    }
    if Superseded(log + more, uri, from, to) {
      var k :| from < k < to && k < |log + more| && Supersedes((log + more)[k], uri);
      assert Supersedes(log[k], uri);
    }
  }

  ghost predicate Enqueueings(s: State) {
    && |s.at| == |s.jobs|
    && (forall id | 0 <= id < |s.jobs| :: s.at[id] < |s.log| && s.log[s.at[id]] == Enqueued(s.jobs[id].uri))
    && (forall i, j | 0 <= i < j < |s.at| :: s.at[i] < s.at[j])
  }

  ghost predicate Table(s: State) {
    && (forall uri | uri in s.table :: s.table[uri] < |s.jobs| && s.jobs[s.table[uri]].uri == uri)
    && (forall id | id in s.cancelled :: id < |s.jobs|)
    && (forall id | 0 <= id < |s.jobs| && id !in s.cancelled ::
        s.jobs[id].uri in s.table && s.table[s.jobs[id].uri] == id)
  }

  ghost predicate Cancellation(s: State)
    requires |s.at| == |s.jobs|
  {
    forall id | 0 <= id < |s.jobs| :: id in s.cancelled <==> Superseded(s.log, s.jobs[id].uri, s.at[id], |s.log|)
  }

  lemma EnqueueKeepsTable(s: State, job: Job)
    requires Enqueueings(s) && Table(s)
    ensures Enqueueings(AfterEnqueue(s, job)) && Table(AfterEnqueue(s, job))
  {
  }

  lemma EnqueueCancels(s: State, job: Job)
    requires Table(s)
    ensures forall id | 0 <= id < |s.jobs| ::
              id in AfterEnqueue(s, job).cancelled <==> id in s.cancelled || s.jobs[id].uri == job.uri
  {
  }

  lemma EnqueueAt(s: State, job: Job, id: JobId)
    requires Enqueueings(s) && Table(s) && Cancellation(s) && id < |s.jobs|
    ensures
      var t := AfterEnqueue(s, job);
      |t.at| == |t.jobs| && (id in t.cancelled <==> Superseded(t.log, t.jobs[id].uri, t.at[id], |t.log|))
  {
    EnqueueCancels(s, job);
    hide Superseded, Table;
    SupersededAppend(s.log, Enqueued(job.uri), s.jobs[id].uri, s.at[id]);
  }

  lemma EnqueueKeeps(s: State, job: Job)
    requires Enqueueings(s) && Table(s) && Cancellation(s)
    ensures Enqueueings(AfterEnqueue(s, job)) && Table(AfterEnqueue(s, job)) && Cancellation(AfterEnqueue(s, job))
  {
    var t := AfterEnqueue(s, job);
    assert !Superseded(t.log, job.uri, |s.log|, |t.log|);
    EnqueueKeepsTable(s, job);
    forall id | 0 <= id < |s.jobs| ensures id in t.cancelled <==> Superseded(t.log, t.jobs[id].uri, t.at[id], |t.log|) {
      EnqueueAt(s, job, id);
    }
    assert |s.jobs| !in t.cancelled;
    hide Superseded, Table, Enqueueings;
  }

  lemma CloseKeeps(s: State, uri: string)
    requires Enqueueings(s) && Table(s) && Cancellation(s)
    ensures Enqueueings(AfterClose(s, uri)) && Table(AfterClose(s, uri)) && Cancellation(AfterClose(s, uri))
  {
    var t := AfterClose(s, uri);
    assert t.log == s.log + [Closed(uri)];
    hide Superseded;
    forall id | 0 <= id < |t.jobs| ensures id in t.cancelled <==> Superseded(t.log, t.jobs[id].uri, t.at[id], |t.log|) {
      SupersededAppend(s.log, Closed(uri), s.jobs[id].uri, s.at[id]);
    }
  }

  lemma CancelAllKeeps(s: State)
    requires Enqueueings(s) && Table(s) && Cancellation(s)
    ensures Enqueueings(AfterCancelAll(s)) && Table(AfterCancelAll(s)) && Cancellation(AfterCancelAll(s))
  {
    var t := AfterCancelAll(s);
    assert t.log == s.log + [ShutDown];
    hide Superseded;
    forall id | 0 <= id < |t.jobs| ensures id in t.cancelled <==> Superseded(t.log, t.jobs[id].uri, t.at[id], |t.log|) {
      SupersededAppend(s.log, ShutDown, s.jobs[id].uri, s.at[id]);
    }
  }

  /** A step that enqueues and cancels nothing, and logs at most a check or a publication. */
  ghost predicate Quiet(s: State, t: State) {
    && t.jobs == s.jobs && t.at == s.at && t.table == s.table && t.cancelled == s.cancelled
    && (t.log == s.log || (|t.log| == |s.log| + 1 && t.log == s.log + [t.log[|s.log|]]
                           && (t.log[|s.log|].Checked? || t.log[|s.log|].Published?)))
  }

  lemma QuietStep(s: State, a: Action)
    requires Enabled(s, a) && !a.Enqueue? && !a.Close? && !a.CancelAll?
    ensures Quiet(s, Next(s, a))
  {
  }

  lemma QuietKeeps(s: State, t: State)
    requires Enqueueings(s) && Table(s) && Cancellation(s) && Quiet(s, t)
    ensures Enqueueings(t) && Table(t) && Cancellation(t)
  {
    if t.log != s.log {
      hide Superseded;
      forall id | 0 <= id < |t.jobs|
        ensures id in t.cancelled <==> Superseded(t.log, t.jobs[id].uri, t.at[id], |t.log|)
      {
        SupersededAppend(s.log, t.log[|s.log|], s.jobs[id].uri, s.at[id]);
      }
    }
  }

  lemma CancellationKept(s: State, a: Action)
    requires Enqueueings(s) && Table(s) && Cancellation(s) && Enabled(s, a)
    ensures Enqueueings(Next(s, a)) && Table(Next(s, a)) && Cancellation(Next(s, a))
  {
    hide Enqueueings, Table, Cancellation, Quiet;
    match a
    case Enqueue(job) => EnqueueKeeps(s, job);
    case Close(uri) => CloseKeeps(s, uri);
    case CancelAll => CancelAllKeeps(s);
    case _ => QuietStep(s, a); QuietKeeps(s, Next(s, a));
  }

  // ---------- what the workers know ----------

  ghost predicate HoldsCheck(log: seq<Event>, id: JobId, pc: Pc) {
    pc.Entry? || (pc.check < |log| && log[pc.check] == Checked(id))
  }

  /** What is found so far and the documents still to come make up the report. */
  ghost predicate OnTrack(content: Content, pc: Pc)
    requires PcFits(content, pc)
  {
    match pc
    case Entry => true
    case Publishing(diags, _) => diags == Report(content)
    case _ => DocsReport(content.docs[pc.i..], pc.found) == Report(content)
  }

  ghost predicate WorkersKnow(s: State) {
    forall w | 0 <= w < |s.workers| && s.workers[w].Busy? ::
      var Busy(id, pc) := s.workers[w];
      id < |s.jobs| && HoldsCheck(s.log, id, pc) && PcFits(s.jobs[id].content, pc) && OnTrack(s.jobs[id].content, pc)
  }

  lemma WorkerStepKnows(s: State, id: JobId, pc: Pc)
    requires id < |s.jobs| && HoldsCheck(s.log, id, pc) && PcFits(s.jobs[id].content, pc) &&
        OnTrack(s.jobs[id].content, pc)
    ensures
      var content := s.jobs[id].content;
      var (next, events) := WorkerStep(s, id, pc);
      next.Idle? || (next.Busy? && next.job == id && PcFits(content, next.pc) &&
          HoldsCheck(s.log + events, id, next.pc) && OnTrack(content, next.pc))
  {
    var content := s.jobs[id].content;
    if content.Parsed? {
      assert content.docs[0..] == content.docs && content.docs[|content.docs|..] == [];
    }
    if pc.Doc? || pc.Compiling? {
      assert content.docs[pc.i..][0] == content.docs[pc.i] && content.docs[pc.i..][1..] == content.docs[pc.i + 1..];
    }
  }

  lemma WorkersKept(s: State, a: Action)
    requires WorkersKnow(s) && Enabled(s, a)
    requires forall id | id in s.queue :: id < |s.jobs|
    ensures WorkersKnow(Next(s, a))
  {
    var t := Next(s, a);
    if a.Work? { WorkerStepKnows(s, s.workers[a.w].job, s.workers[a.w].pc); }
    if a.Take? {
      assert s.queue[0] in s.queue;
      assert PcFits(s.jobs[s.queue[0]].content, Entry) && OnTrack(s.jobs[s.queue[0]].content, Entry);
    }
    hide WorkerStep, PcFits, OnTrack;
    forall w | 0 <= w < |t.workers| && t.workers[w].Busy?
      ensures
        var Busy(id, pc) := t.workers[w];
        id < |t.jobs| && HoldsCheck(t.log, id, pc) && PcFits(t.jobs[id].content, pc) && OnTrack(t.jobs[id].content, pc)
    {
      var Busy(id, pc) := t.workers[w];
      if t.workers[w] == s.workers[w] { assert t.jobs[id] == s.jobs[id]; }
    }
  }

  // ---------- what the log shows ----------

  ghost predicate ChecksSound(s: State)
    requires |s.at| == |s.jobs|
  {
    forall k | 0 <= k < |s.log| && s.log[k].Checked? ::
      var id := s.log[k].job;
      id < |s.jobs| && s.at[id] < k && !Superseded(s.log, s.jobs[id].uri, s.at[id], k)
  }

  ghost predicate PublicationSound(s: State, k: nat)
    requires k < |s.log| && s.log[k].Published?
  {
    var Published(id, diags, check, cancelled) := s.log[k];
    && id < |s.jobs| && check < k && s.log[check] == Checked(id)
    && diags == Report(s.jobs[id].content)
    && (cancelled <==> Superseded(s.log, s.jobs[id].uri, check, k))
  }

  ghost predicate PublicationsSound(s: State) {
    forall k | 0 <= k < |s.log| && s.log[k].Published? :: PublicationSound(s, k)
  }

  /** Only a worker logs checks and publications. */
  lemma ChecksKept(s: State, a: Action)
    requires Enqueueings(s) && Cancellation(s) && ChecksSound(s) && WorkersKnow(s) && Enabled(s, a)
    ensures |Next(s, a).at| == |Next(s, a).jobs| && ChecksSound(Next(s, a))
  {
    var t := Next(s, a);
    var more := t.log[|s.log|..];
    assert t.log == s.log + more;
    hide Superseded, PcFits, OnTrack;
    forall k | 0 <= k < |t.log| && t.log[k].Checked?
      ensures var id := t.log[k].job; id < |t.jobs| && t.at[id] < k && !Superseded(t.log, t.jobs[id].uri, t.at[id], k)
    {
      var id := t.log[k].job;
      if k < |s.log| {
        SupersededBefore(s.log, more, s.jobs[id].uri, s.at[id], k);
      } else {
        assert a.Work? && s.workers[a.w].job == id && id !in s.cancelled;
        SupersededBefore(s.log, more, s.jobs[id].uri, s.at[id], k);
      }
    }
  }

  /** The job of a sound check is superseded since its enqueueing exactly when it is since the check. */
  lemma SupersededSince(log: seq<Event>, uri: string, at: nat, check: nat, to: nat)
    requires at < check < to <= |log| && log[check].Checked? && !Superseded(log, uri, at, check)
    ensures Superseded(log, uri, at, to) <==> Superseded(log, uri, check, to)
  {
    if Superseded(log, uri, at, to) {
      var k :| at < k < to && Supersedes(log[k], uri);
      assert check < k < to;
    }
    if Superseded(log, uri, check, to) {
      var k :| check < k < to && Supersedes(log[k], uri);
      assert at < k < to;
    }
  }

  lemma PublicationsKept(s: State, a: Action)
    requires Enqueueings(s) && Cancellation(s) && ChecksSound(s) && WorkersKnow(s) && PublicationsSound(s)
    requires Enabled(s, a)
    ensures PublicationsSound(Next(s, a))
  {
    var t := Next(s, a);
    var more := t.log[|s.log|..];
    assert t.log == s.log + more;
    forall k | 0 <= k < |t.log| && t.log[k].Published? ensures PublicationSound(t, k) {
      var Published(id, diags, check, cancelled) := t.log[k];
      if k < |s.log| {
        assert PublicationSound(s, k);
        hide Superseded;
        SupersededBefore(s.log, more, s.jobs[id].uri, check, k);
      } else {
        PublishStep(s, a);
        hide Superseded;
        SupersededBefore(s.log, more, s.jobs[id].uri, check, k);
      }
    }
  }

  lemma PublishStep(s: State, a: Action)
    requires Enqueueings(s) && Cancellation(s) && ChecksSound(s) && WorkersKnow(s) && Enabled(s, a)
    requires |Next(s, a).log| > |s.log| && Next(s, a).log[|s.log|].Published?
    ensures
      var Published(id, diags, check, cancelled) := Next(s, a).log[|s.log|];
      && id < |s.jobs| && check < |s.log| && s.log[check] == Checked(id) && diags == Report(s.jobs[id].content)
      && (cancelled <==> Superseded(s.log, s.jobs[id].uri, check, |s.log|))
      && |Next(s, a).log| == |s.log| + 1
  {
    hide Superseded;
    var Published(id, diags, check, cancelled) := Next(s, a).log[|s.log|];
    assert a.Work? && s.workers[a.w] == Busy(id, Publishing(diags, check));
    SupersededSince(s.log, s.jobs[id].uri, s.at[id], check, |s.log|);
  }

  // ---------- every job is in one place ----------

  function One(b: bool): nat { if b then 1 else 0 }

  predicate Runs(w: Worker, id: JobId) { w.Busy? && w.job == id }

  function Running(workers: seq<Worker>, id: JobId): nat {
    if workers == [] then 0 else One(Runs(workers[0], id)) + Running(workers[1..], id)
  }

  function Queued(queue: seq<JobId>, id: JobId): nat {
    if queue == [] then 0 else One(queue[0] == id) + Queued(queue[1..], id)
  }

  lemma {:induction false} RunningUpdate(workers: seq<Worker>, w: nat, next: Worker, id: JobId)
    requires w < |workers|
    ensures Running(workers[w := next], id) + One(Runs(workers[w], id)) == Running(workers, id) + One(Runs(next, id))
  {
    if w == 0 {
      assert workers[w := next][1..] == workers[1..];
    } else {
      RunningUpdate(workers[1..], w - 1, next, id);
      assert workers[w := next][1..] == workers[1..][w - 1 := next];
    }
  }

  lemma {:induction false} QueuedAppend(queue: seq<JobId>, last: JobId, id: JobId)
    ensures Queued(queue + [last], id) == Queued(queue, id) + One(last == id)
  {
    if queue != [] {
      QueuedAppend(queue[1..], last, id);
      assert (queue + [last])[1..] == queue[1..] + [last];
    }
  }

  /** In how many places a job is. */
  function Places(s: State, id: JobId): nat {
    One(id in s.submitting) + Queued(s.queue, id) + Running(s.workers, id) +
    One(id in s.finished) + One(id in s.dropped)
  }

  /** Each job ever enqueued is being submitted, queued, running, finished or dropped: exactly one of these, once. */
  ghost predicate Conserved(s: State) {
    forall id: JobId :: Places(s, id) == One(id < |s.jobs|)
  }

  lemma {:induction false} RunningSome(workers: seq<Worker>, w: nat)
    requires w < |workers| && workers[w].Busy?
    ensures Running(workers, workers[w].job) >= 1
  {
    if w > 0 { RunningSome(workers[1..], w - 1); }
  }

  lemma {:induction false} QueuedSome(queue: seq<JobId>, i: nat)
    requires i < |queue|
    ensures Queued(queue, queue[i]) >= 1
  {
    if i > 0 { QueuedSome(queue[1..], i - 1); }
  }

  lemma ConservedStep(s: State, a: Action, id: JobId)
    requires Conserved(s) && Enabled(s, a)
    ensures Places(Next(s, a), id) == One(id < |Next(s, a).jobs|)
  {
    var t := Next(s, a);
    assert Places(s, id) == One(id < |s.jobs|);
    if t.workers != s.workers { RunningUpdate(s.workers, a.w, t.workers[a.w], id); }
    hide Running, PcFits, Conserved;
    match a
    case Send(last) => QueuedAppend(s.queue, last, id);
    case Work(w) => RunningSome(s.workers, w);
    case _ =>
  }

  lemma ConservedKept(s: State, a: Action)
    requires Conserved(s) && Enabled(s, a)
    ensures Conserved(Next(s, a))
  {
    forall id: JobId ensures Places(Next(s, a), id) == One(id < |Next(s, a).jobs|) {
      ConservedStep(s, a, id);
    }
  }

  // ---------- what is delivered ----------

  /** A job publishes at most once; a finished job that was not cancelled has published. */
  ghost predicate Delivered(s: State) {
    && (forall k | 0 <= k < |s.log| && s.log[k].Published? :: s.log[k].job in s.finished)
    && (forall k, l | 0 <= k < l < |s.log| && s.log[k].Published? && s.log[l].Published? ::
        s.log[k].job != s.log[l].job)
    && (forall id | id in s.finished && id !in s.cancelled ::
          exists k | 0 <= k < |s.log| :: s.log[k].Published? && s.log[k].job == id)
  }

  ghost predicate Stopping(s: State) {
    && (s.dropped != {} ==> s.stopped)
    && (forall w | 0 <= w < |s.workers| && s.workers[w].Exited? :: s.stopped)
  }

  lemma DeliveredKept(s: State, a: Action)
    requires Conserved(s) && Delivered(s) && Table(s) && Enabled(s, a)
    ensures Delivered(Next(s, a))
  {
    var t := Next(s, a);
    var more := t.log[|s.log|..];
    assert t.log == s.log + more;
    assert s.cancelled <= t.cancelled && s.finished <= t.finished;
    if a.Work? { RunningSome(s.workers, a.w); }
    hide PcFits, Running, Queued;
    forall id | id in t.finished && id !in t.cancelled
      ensures exists k | 0 <= k < |t.log| :: t.log[k].Published? && t.log[k].job == id
    {
      if id in s.finished {
        var k :| 0 <= k < |s.log| && s.log[k].Published? && s.log[k].job == id;
        assert t.log[k] == s.log[k];
      } else {
        assert t.log[|s.log|].Published? && t.log[|s.log|].job == id;
      }
    }
    forall k | 0 <= k < |t.log| && t.log[k].Published? ensures t.log[k].job in t.finished {
      if k < |s.log| { assert t.log[k] == s.log[k]; }
    }
    forall k, l | 0 <= k < l < |t.log| && t.log[k].Published? && t.log[l].Published?
      ensures t.log[k].job != t.log[l].job
    {
      assert t.log[k] == s.log[k];
      if l == |s.log| { FinishedNotRunning(s, a.w); }
    }
  }

  lemma FinishedNotRunning(s: State, w: nat)
    requires Conserved(s) && w < |s.workers| && s.workers[w].Busy?
    ensures s.workers[w].job !in s.finished && s.workers[w].job < |s.jobs|
  {
    RunningSome(s.workers, w);
    assert Places(s, s.workers[w].job) == One(s.workers[w].job < |s.jobs|);
  }

  lemma StoppingKept(s: State, a: Action)
    requires Stopping(s) && Enabled(s, a)
    ensures Stopping(Next(s, a)) && |Next(s, a).workers| == |s.workers|
  {
  }

  // ---------- over every run ----------

  ghost predicate Invariant(s: State) {
    && Enqueueings(s) && Table(s) && Cancellation(s)
    && Conserved(s) && WorkersKnow(s) && ChecksSound(s) && PublicationsSound(s) && Delivered(s) && Stopping(s)
  }

  lemma QueuedIsJob(s: State)
    requires Conserved(s)
    ensures forall id | id in s.queue :: id < |s.jobs|
  {
    forall id | id in s.queue ensures id < |s.jobs| {
      var i :| 0 <= i < |s.queue| && s.queue[i] == id;
      QueuedSome(s.queue, i);
      assert Places(s, id) == One(id < |s.jobs|);
    }
  }

  lemma InvariantKept(s: State, a: Action)
    requires Invariant(s) && Enabled(s, a)
    ensures Invariant(Next(s, a))
  {
    hide Enqueueings, Table, Cancellation, Conserved, WorkersKnow, ChecksSound, PublicationsSound, Delivered, Stopping,
        Enabled, Next;
    CancellationKept(s, a);
    ConservedKept(s, a);
    QueuedIsJob(s);
    WorkersKept(s, a);
    ChecksKept(s, a);
    PublicationsKept(s, a);
    DeliveredKept(s, a);
    StoppingKept(s, a);
  }

  lemma {:induction false} IdleRunning(size: nat, id: JobId)
    ensures Running(seq(size, _ => Idle), id) == 0
  {
    if size > 0 {
      assert seq(size, _ => Idle)[1..] == seq(size - 1, _ => Idle);
      IdleRunning(size - 1, id);
    }
  }

  lemma {:induction false} RunKeepsInvariant(size: nat, actions: seq<Action>)
    ensures Run(size, actions).Some? ==>
        Invariant(Run(size, actions).value) && |Run(size, actions).value.workers| == size
  {
    if actions == [] {
      forall id: JobId ensures Places(Initial(size), id) == 0 { IdleRunning(size, id); }
    } else if Run(size, actions).Some? {
      var n := |actions| - 1;
      RunKeepsInvariant(size, actions[..n]);
      var s := Run(size, actions[..n]).value;
      InvariantKept(s, actions[n]);
      StoppingKept(s, actions[n]);
    }
  }

  lemma ReachableInvariant(size: nat, s: State)
    requires Reachable(size, s)
    ensures Invariant(s) && |s.workers| == size
  {
    var actions :| Run(size, actions) == Some(s);
    RunKeepsInvariant(size, actions);
  }

  // ---------- the theorems ----------

  /** A job that is not cancelled is the newest enqueued for its URI, so there is at most one per URI. */
  lemma UncancelledIsNewest(size: nat, s: State, id: JobId)
    requires Reachable(size, s) && id < |s.jobs| && id !in s.cancelled
    ensures forall other | id < other < |s.jobs| :: s.jobs[other].uri != s.jobs[id].uri
    ensures forall other | 0 <= other < |s.jobs| && other != id && other !in s.cancelled ::
        s.jobs[other].uri != s.jobs[id].uri
  {
    ReachableInvariant(size, s);
    hide Reachable, Invariant;
    NewestOfItsUri(s, id);
    forall other | 0 <= other < |s.jobs| && other != id && other !in s.cancelled
      ensures s.jobs[other].uri != s.jobs[id].uri
    {
      NewestOfItsUri(s, other);
    }
  }

  lemma NewestOfItsUri(s: State, id: JobId)
    requires Invariant(s) && id < |s.jobs| && id !in s.cancelled
    ensures forall other | id < other < |s.jobs| :: s.jobs[other].uri != s.jobs[id].uri
  {
    forall other | id < other < |s.jobs| ensures s.jobs[other].uri != s.jobs[id].uri {
      assert Supersedes(s.log[s.at[other]], s.jobs[other].uri);
    }
  }

  /** Exactly when: its enqueueing has been followed by no enqueueing or close of its URI and no shutdown. */
  lemma CancelledIffSuperseded(size: nat, s: State, id: JobId)
    requires Reachable(size, s) && id < |s.jobs|
    ensures id < |s.at| && s.at[id] < |s.log| && s.log[s.at[id]] == Enqueued(s.jobs[id].uri)
    ensures id in s.cancelled <==> Superseded(s.log, s.jobs[id].uri, s.at[id], |s.log|)
  {
    ReachableInvariant(size, s);
  }

  lemma EachJobInOnePlace(size: nat, s: State, id: JobId)
    requires Reachable(size, s)
    ensures Places(s, id) == One(id < |s.jobs|)
  {
    ReachableInvariant(size, s);
  }

  /** What is published is the report of the job, after a check that the job passed as the newest
      of its URI; it is published by a cancelled job exactly when something superseded it between
      that check and the publication. */
  lemma PublicationsFollowChecks(size: nat, s: State, k: nat)
    requires Reachable(size, s) && k < |s.log| && s.log[k].Published?
    ensures
      var Published(id, diags, check, cancelled) := s.log[k];
      && id < |s.jobs| && diags == Report(s.jobs[id].content)
      && check < k && s.log[check] == Checked(id)
      && |s.at| == |s.jobs| && s.at[id] < check && !Superseded(s.log, s.jobs[id].uri, s.at[id], check)
      && (cancelled <==> Superseded(s.log, s.jobs[id].uri, check, k))
  {
    ReachableInvariant(size, s);
    assert PublicationSound(s, k);
    hide Superseded, Reachable;
  }

  /** Publications for a URI, ordered by the check each rests on, follow the order of enqueueing. */
  lemma PublicationsByCheckFollowEnqueueing(size: nat, s: State, k: nat, l: nat)
    requires Reachable(size, s) && k < |s.log| && l < |s.log| && s.log[k].Published? && s.log[l].Published?
    requires s.log[k].check < s.log[l].check
    requires s.log[k].job < |s.jobs| && s.log[l].job < |s.jobs| && s.jobs[s.log[k].job].uri == s.jobs[s.log[l].job].uri
    ensures s.log[k].job <= s.log[l].job && (k != l ==> s.log[k].job < s.log[l].job)
  {
    ReachableInvariant(size, s);
    PublicationsFollowChecks(size, s, k);
    PublicationsFollowChecks(size, s, l);
    hide Reachable;
    var i, j := s.log[k].job, s.log[l].job;
    if i > j { assert false; }
  }

  /** Two publications for a URI come in the wrong order exactly when the job published first was
      enqueued after the check on which the second rests. */
  lemma OutOfOrderExactly(size: nat, s: State, k: nat, l: nat)
    requires Reachable(size, s) && k < l < |s.log| && s.log[k].Published? && s.log[l].Published?
    requires s.log[k].job < |s.jobs| && s.log[l].job < |s.jobs| && s.jobs[s.log[k].job].uri == s.jobs[s.log[l].job].uri
    ensures |s.at| == |s.jobs|
    ensures s.log[k].job > s.log[l].job <==> s.log[l].check < s.at[s.log[k].job]
    ensures s.log[k].job > s.log[l].job ==> s.log[l].cancelled
  {
    ReachableInvariant(size, s);
    PublicationsFollowChecks(size, s, k);
    PublicationsFollowChecks(size, s, l);
    hide Reachable;
    var i, j := s.log[k].job, s.log[l].job;
    if i > j { assert Supersedes(s.log[s.at[i]], s.jobs[j].uri); }
  }

  /** No step is left that a worker or a submitter could take. */
  ghost predicate Quiescent(s: State) {
    && (forall id :: !Enabled(s, Send(id)))
    && (forall w :: !Enabled(s, Take(w)) && !Enabled(s, Work(w)))
  }

  /** Where a running pool comes to rest, every job has finished, and the newest job of each URI
      has published its report unless it was cancelled: none is lost. */
  lemma RestDelivers(size: nat, s: State)
    requires Reachable(size, s) && size > 0 && !s.stopped && Quiescent(s)
    ensures forall id | 0 <= id < |s.jobs| :: id in s.finished
    ensures forall id | 0 <= id < |s.jobs| && id !in s.cancelled ::
              exists k | 0 <= k < |s.log| ::
                  s.log[k].Published? && s.log[k].job == id && s.log[k].diags == Report(s.jobs[id].content)
  {
    ReachableInvariant(size, s);
    hide Reachable, Invariant, Quiescent;
    forall id: nat | id < |s.jobs|
      ensures id in s.finished
      ensures id !in s.cancelled ==>
                exists k | 0 <= k < |s.log| ::
                    s.log[k].Published? && s.log[k].job == id && s.log[k].diags == Report(s.jobs[id].content)
    {
      RestPublishes(s, id);
    }
  }

  lemma RestPublishes(s: State, id: JobId)
    requires Invariant(s) && s.workers != [] && !s.stopped && Quiescent(s) && id < |s.jobs|
    ensures id in s.finished
    ensures id !in s.cancelled ==>
              exists k | 0 <= k < |s.log| ::
                  s.log[k].Published? && s.log[k].job == id && s.log[k].diags == Report(s.jobs[id].content)
  {
    RestIsIdle(s);
    AllIdle(s.workers, id);
    assert Places(s, id) == One(id < |s.jobs|);
    if id !in s.cancelled {
      var k :| 0 <= k < |s.log| && s.log[k].Published? && s.log[k].job == id;
      assert PublicationSound(s, k);
    }
  }

  lemma RestIsIdle(s: State)
    requires Invariant(s) && |s.workers| > 0 && !s.stopped && Quiescent(s)
    ensures s.submitting == {} && s.queue == [] && s.dropped == {}
    ensures forall w | 0 <= w < |s.workers| :: s.workers[w].Idle?
  {
    forall w | 0 <= w < |s.workers| ensures s.workers[w].Idle? {
      assert !Enabled(s, Work(w));
    }
    assert !Enabled(s, Take(0));
    forall id ensures id !in s.submitting {
      assert !Enabled(s, Send(id));
    }
  }

  lemma {:induction false} AllIdle(workers: seq<Worker>, id: JobId)
    requires forall w | 0 <= w < |workers| :: workers[w].Idle?
    ensures Running(workers, id) == 0
  {
    if workers != [] { AllIdle(workers[1..], id); }
  }

  // ---------- a stale publication ----------

  lemma ReachableNext(size: nat, s: State, a: Action) returns (t: State)
    requires Reachable(size, s) && Enabled(s, a)
    ensures t == Next(s, a) && Reachable(size, t)
  {
    t := Next(s, a);
    var actions :| Run(size, actions) == Some(s);
    assert (actions + [a])[..|actions|] == actions;
    assert Run(size, actions + [a]) == Some(t);
  }

  /** The older job publishes last: it passed its check before the newer one was enqueued. */
  lemma StalePublicationCanComeLast()
    ensures exists s, k, l ::
              Reachable(2, s) && 0 <= k < l < |s.log| && s.log[k].Published? && s.log[l].Published?
              && s.log[k].job == 1 && s.log[l].job == 0 && |s.jobs| == 2 && s.jobs[0].uri == s.jobs[1].uri
  {
    var s := CheckedThenSuperseded();
    hide Reachable, Run;
    s := ReachableNext(2, s, Send(1));
    s := ReachableNext(2, s, Take(1));
    s := ReachableNext(2, s, Work(1));
    s := ReachableNext(2, s, Work(1));
    s := ReachableNext(2, s, Work(0));
    assert s.log[4].Published? && s.log[5].Published?;
  }

  lemma CheckedThenSuperseded() returns (s: State)
    ensures Reachable(2, s)
    ensures
      var job := Job("a", 1, NoSchema);
      s == State([job, job], [0, 2], [Enqueued("a"), Checked(0), Enqueued("a")], {0}, map["a" := 1], {1}, [],
                 [Busy(0, Publishing([], 1)), Idle], {}, {}, false)
  {
    var job := Job("a", 1, NoSchema);
    s := Initial(2);
    assert Run(2, []) == Some(s);
    hide Reachable, Run;
    s := ReachableNext(2, s, Enqueue(job));
    s := ReachableNext(2, s, Send(0));
    assert s.queue == [0] && s.submitting == {} && s.workers == [Idle, Idle];
    s := ReachableNext(2, s, Take(0));
    assert s.workers == [Busy(0, Entry), Idle];
    s := CheckThenSupersede(s);
  }

  lemma CheckThenSupersede(s: State) returns (t: State)
    requires Reachable(2, s)
    requires
      var job := Job("a", 1, NoSchema);
      s == State([job], [0], [Enqueued("a")], {}, map["a" := 0], {}, [], [Busy(0, Entry), Idle], {}, {}, false)
    ensures Reachable(2, t)
    ensures
      var job := Job("a", 1, NoSchema);
      t == State([job, job], [0, 2], [Enqueued("a"), Checked(0), Enqueued("a")], {0}, map["a" := 1], {1}, [],
                 [Busy(0, Publishing([], 1)), Idle], {}, {}, false)
  {
    hide Reachable, Run;
    t := ReachableNext(2, s, Work(0));
    t := ReachableNext(2, t, Enqueue(Job("a", 1, NoSchema)));
  }
}
