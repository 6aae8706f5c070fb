/**
 The cancellable validation jobs (internal/lsp/workers.go, enqueueValidation and the shutdown of Run
 in internal/lsp/server.go, the cancellation in DidClose) as a transition system. Every lock-protected
 section, channel operation, cancellation check and publication is one step, and steps of different
 goroutines interleave freely.
 */
module Pool {
  import opened Json

  type JobId = nat

  datatype Diag = Diag(line: nat, character: nat, message: string)

  /** What validating one document of a job comes to. */
  datatype Outcome = Untyped | Mismatch | Uncompilable(message: string) | Validated(diags: seq<Diag>)

  datatype Content = NoSchema | Unparsable(message: string) | Parsed(docs: seq<Outcome>)

  datatype Job = Job(uri: string, version: int, content: Content)

  /** Where a worker stands in a job; check is the log position of the last check it passed. */
  datatype Pc =
    | Entry
    | Loop(i: nat, found: seq<Diag>, check: nat)
    | Doc(i: nat, found: seq<Diag>, check: nat)
    | Typed(i: nat, found: seq<Diag>, check: nat)
    | Compiling(i: nat, found: seq<Diag>, check: nat)
    | Publishing(diags: seq<Diag>, check: nat)

  datatype Worker = Idle | Exited | Busy(job: JobId, pc: Pc)

  datatype Event =
    | Enqueued(uri: string)
    | Closed(uri: string)
    | ShutDown
    | Checked(job: JobId)
    | Published(job: JobId, diags: seq<Diag>, check: nat, cancelled: bool)

  /** jobs lists every job in the order of its enqueueing, at the log position of each. */
  datatype State = State(
    jobs: seq<Job>, at: seq<nat>, log: seq<Event>,
    cancelled: set<JobId>, table: map<string, JobId>,
    submitting: set<JobId>, queue: seq<JobId>, workers: seq<Worker>, finished: set<JobId>, dropped: set<JobId>,
    stopped: bool)

  // ---------- what a job should publish ----------

  function ErrorAtStart(message: string): seq<Diag> { [Diag(0, 0, message)] }

  /** The diagnostics of the documents in order, unless one cannot be compiled: then only the
      error of the first such. */
  function DocsReport(docs: seq<Outcome>, found: seq<Diag>): seq<Diag> {
    if docs == [] then found
    else match docs[0]
      case Untyped | Mismatch => DocsReport(docs[1..], found)
      case Uncompilable(message) => ErrorAtStart(message)
      case Validated(diags) => DocsReport(docs[1..], found + diags)
  }

  function Report(content: Content): seq<Diag> {
    match content
    case NoSchema => []
    case Unparsable(message) => ErrorAtStart(message)
    case Parsed(docs) => DocsReport(docs, [])
  }

  // ---------- steps ----------

  datatype Action =
    | Enqueue(job: Job)
    | Send(id: JobId)
    | Drop(id: JobId)
    | Close(uri: string)
    | CancelAll
    | Stop
    | Take(w: nat)
    | Exit(w: nat)
    | Work(w: nat)

  function Initial(size: nat): State {
    State([], [], [], {}, map[], {}, [], seq(size, _ => Idle), {}, {}, false)
  }

  predicate PcFits(content: Content, pc: Pc) {
    match pc
    case Entry | Publishing(_, _) => true
    case Loop(i, _, _) => content.Parsed? && i <= |content.docs|
    case Doc(i, _, _) => content.Parsed? && i < |content.docs|
    case Typed(i, _, _) => Compilable(content, i)
    case Compiling(i, _, _) => Compilable(content, i)
  }

  predicate Compilable(content: Content, i: nat) {
    content.Parsed? && i < |content.docs| && (content.docs[i].Uncompilable? || content.docs[i].Validated?)
  }

  /** What one step of a worker does: where it stands next and what it adds to the log. */
  function WorkerStep(s: State, id: JobId, pc: Pc): (Worker, seq<Event>)
    requires id < |s.jobs| && PcFits(s.jobs[id].content, pc)
  {
    var content := s.jobs[id].content;
    var live := id !in s.cancelled;
    var now := |s.log|;
    match pc
    case Entry =>
      if !live then (Idle, [])
      else
        var next := match content
          case NoSchema => Publishing([], now)
          case Unparsable(message) => Publishing(ErrorAtStart(message), now)
          case Parsed(_) => Loop(0, [], now);
        (Busy(id, next), [Checked(id)])
    case Loop(i, found, _) =>
      if !live then (Idle, [])
      else (Busy(id, if i < |content.docs| then Doc(i, found, now) else Publishing(found, now)), [Checked(id)])
    case Doc(i, found, check) =>
      var skips := content.docs[i].Untyped? || content.docs[i].Mismatch?;
      (Busy(id, if skips then Loop(i + 1, found, check) else Typed(i, found, check)), [])
    case Typed(i, found, _) =>
      if !live then (Idle, []) else (Busy(id, Compiling(i, found, now)), [Checked(id)])
    case Compiling(i, found, check) =>
      (match content.docs[i]
       case Uncompilable(message) => (Busy(id, Publishing(ErrorAtStart(message), check)), [])
       case Validated(diags) => (Busy(id, Loop(i + 1, found + diags, check)), []))
    case Publishing(diags, check) =>
      (Idle, [Published(id, diags, check, !live)])
  }

  predicate Enabled(s: State, a: Action) {
    match a
    case Enqueue(_) | Close(_) | CancelAll | Stop => true
    case Send(id) => id in s.submitting && |s.queue| < 4 * |s.workers|
    case Drop(id) => id in s.submitting && s.stopped
    case Take(w) => w < |s.workers| && s.workers[w].Idle? && s.queue != []
    case Exit(w) => w < |s.workers| && s.workers[w].Idle? && s.stopped
    case Work(w) => w < |s.workers| && s.workers[w].Busy? && s.workers[w].job < |s.jobs|
                    && PcFits(s.jobs[s.workers[w].job].content, s.workers[w].pc)
  }

  function AfterEnqueue(s: State, job: Job): State {
    var id := |s.jobs|;
    s.(jobs := s.jobs + [job], at := s.at + [|s.log|], log := s.log + [Enqueued(job.uri)],
       cancelled := if job.uri in s.table then s.cancelled + {s.table[job.uri]} else s.cancelled,
       table := s.table[job.uri := id], submitting := s.submitting + {id})
  }

  function AfterClose(s: State, uri: string): State {
    s.(log := s.log + [Closed(uri)],
       cancelled := if uri in s.table then s.cancelled + {s.table[uri]} else s.cancelled,
       table := s.table - {uri})
  }

  function AfterCancelAll(s: State): State {
    s.(log := s.log + [ShutDown], cancelled := s.cancelled + s.table.Values)
  }

  function AfterWork(s: State, w: nat): State
    requires Enabled(s, Work(w))
  {
    var id := s.workers[w].job;
    var (next, events) := WorkerStep(s, id, s.workers[w].pc);
    s.(workers := s.workers[w := next], log := s.log + events,
       finished := if next.Idle? then s.finished + {id} else s.finished)
  }

  function Next(s: State, a: Action): State
    requires Enabled(s, a)
  {
    match a
    case Enqueue(job) => AfterEnqueue(s, job)
    case Send(id) => s.(submitting := s.submitting - {id}, queue := s.queue + [id])
    case Drop(id) => s.(submitting := s.submitting - {id}, dropped := s.dropped + {id})
    case Close(uri) => AfterClose(s, uri)
    case CancelAll => AfterCancelAll(s)
    case Stop => s.(stopped := true)
    case Take(w) => s.(workers := s.workers[w := Busy(s.queue[0], Entry)], queue := s.queue[1..])
    case Exit(w) => s.(workers := s.workers[w := Exited])
    case Work(w) => AfterWork(s, w)
  }

  /** The state after a run of a pool with size workers; None if some step is not enabled. */
  function Run(size: nat, actions: seq<Action>): Option<State> {
    if actions == [] then Some(Initial(size))
    else match Run(size, actions[..|actions| - 1])
      case Some(s) => if Enabled(s, actions[|actions| - 1]) then Some(Next(s, actions[|actions| - 1])) else None
      case None => None
  }

  ghost predicate Reachable(size: nat, s: State) {
    exists actions :: Run(size, actions) == Some(s)
  }
}
