/**
 The server's handlers and its validation jobs together: what the handlers ask for is what the jobs
 deliver. Handlers run one after the other; each of their effects, and every step of the pool, is a
 step of its own, in any interleaving.
 */
module Protocol {
  import opened Json
  import opened Pool
  import opened PoolSafety
  import opened Resolution
  import opened ServerRun

  import Registry
  import ResolverChain

  /** What validating a text against a resolution comes to. */
  type Outcomes = (string, Result) -> Content

  /** cdn is what the registry answered at the last request; pending are the effects of that request still
      to take place; asked is, for each document, the validation last asked for and not cancelled by
      closing. */
  datatype System = System(
    world: World, cdn: Registries, session: Session, pool: Pool.State,
    pending: seq<(string, Effect)>, asked: map<string, Job>)

  datatype Move =
    /** A request, with what the registry answers and an order for its documents. */
    | Handle(request: Request, cdn: Registries, order: seq<string>)
    | Emit
    | Background(action: Action)

  // ---------- steps ----------

  function Label(uri: string, effects: seq<Effect>): seq<(string, Effect)> {
    seq(|effects|, i requires 0 <= i < |effects| => (uri, effects[i]))
  }

  function Listed(out: Effects, order: seq<string>): seq<(string, Effect)> {
    if order == [] then []
    else
      var uri := order[|order| - 1];
      Listed(out, order[..|order| - 1]) + if uri in out then Label(uri, out[uri]) else []
  }

  /** What an effect does to the validations asked for. */
  function Ask(outcomes: Outcomes, asked: map<string, Job>, uri: string, effect: Effect): map<string, Job> {
    match effect
    case Validate(version, text, result) => asked[uri := Job(uri, version, outcomes(text, result))]
    case Cleared => asked - {uri}
    case _ => asked
  }

  function AskAll(outcomes: Outcomes, asked: map<string, Job>, effects: seq<(string, Effect)>): map<string, Job> {
    if effects == [] then asked
    else
      var (uri, effect) := effects[|effects| - 1];
      Ask(outcomes, AskAll(outcomes, asked, effects[..|effects| - 1]), uri, effect)
  }

  predicate Covers(order: seq<string>, out: Effects) {
    (forall uri | uri in out :: uri in order) && forall i, j | 0 <= i < j < |order| :: order[i] != order[j]
  }

  predicate Possible(s: System, m: Move) {
    match m
    case Handle(request, cdn, order) => s.pending == [] && Covers(order, Step(s.world, cdn, s.session, request).2)
    case Emit => s.pending != []
    case Background(a) => !a.Enqueue? && !a.Close? && Enabled(s.pool, a)
  }

  function AfterEffect(outcomes: Outcomes, pool: Pool.State, uri: string, effect: Effect): Pool.State {
    match effect
    case Validate(version, text, result) => AfterEnqueue(pool, Job(uri, version, outcomes(text, result)))
    case Cleared => AfterClose(pool, uri)
    case _ => pool
  }

  function After(outcomes: Outcomes, s: System, m: Move): System
    requires Possible(s, m)
  {
    match m
    case Handle(request, cdn, order) =>
      var (world, session, out) := Step(s.world, cdn, s.session, request);
      var effects := Listed(out, order);
      System(world, cdn, session, s.pool, effects, AskAll(outcomes, s.asked, effects))
    case Emit =>
      s.(pool := AfterEffect(outcomes, s.pool, s.pending[0].0, s.pending[0].1), pending := s.pending[1..])
    case Background(a) => s.(pool := Next(s.pool, a))
  }

  function Start(world: World, size: nat): System {
    System(world, _ => ResolverChain.Answering(Registry.NotFound), NOTHING_OPEN, Initial(size), [], map[])
  }

  function Runs(outcomes: Outcomes, world: World, size: nat, moves: seq<Move>): Option<System> {
    if moves == [] then Some(Start(world, size))
    else
      match Runs(outcomes, world, size, moves[..|moves| - 1])
      case Some(s) => if Possible(s, moves[|moves| - 1]) then Some(After(outcomes, s, moves[|moves| - 1])) else None
      case None => None
  }

  // ---------- the jobs are those asked for ----------

  /** The newest job of each URI in the cancel table. */
  ghost function Newest(pool: Pool.State): map<string, Job>
    requires Table(pool)
  {
    map uri | uri in pool.table :: pool.jobs[pool.table[uri]]
  }

  ghost predicate TableLive(pool: Pool.State) {
    (forall k | 0 <= k < |pool.log| :: !pool.log[k].ShutDown?) ==>
      forall uri | uri in pool.table :: pool.table[uri] !in pool.cancelled
  }

  ghost predicate InStep(outcomes: Outcomes, s: System) {
    && Invariant(s.pool) && TableLive(s.pool)
    && AskAll(outcomes, Newest(s.pool), s.pending) == s.asked
    && s.asked.Keys == s.session.tracked
  }

  lemma {:induction false} AskFirst(outcomes: Outcomes, asked: map<string, Job>, effects: seq<(string, Effect)>)
    requires effects != []
    ensures AskAll(outcomes, asked, effects) ==
        AskAll(outcomes, Ask(outcomes, asked, effects[0].0, effects[0].1), effects[1..])
  {
    var n := |effects| - 1;
    hide Ask;
    if n == 0 {
      assert effects[1..] == [] && effects[..0] == [];
    } else {
      AskFirst(outcomes, asked, effects[..n]);
      assert effects[..n][1..] == effects[1..][..n - 1];
    }
  }

  lemma {:induction false} AskAppend(outcomes: Outcomes, asked: map<string, Job>, a: seq<(string, Effect)>,
          b: seq<(string, Effect)>)
    ensures AskAll(outcomes, asked, a + b) == AskAll(outcomes, AskAll(outcomes, asked, a), b)
  {
    hide Ask;
    if b == [] {
      assert a + b == a;
    } else {
      AskAppend(outcomes, asked, a, b[..|b| - 1]);
      assert (a + b)[..|a + b| - 1] == a + b[..|b| - 1];
    }
  }

  /** An effect changes the newest jobs as it changes what is asked for. */
  lemma EffectAsks(outcomes: Outcomes, pool: Pool.State, uri: string, effect: Effect)
    requires Invariant(pool) && TableLive(pool)
    ensures
      var after := AfterEffect(outcomes, pool, uri, effect);
      Invariant(after) && TableLive(after) && Newest(after) == Ask(outcomes, Newest(pool), uri, effect)
  {
    match effect
    case Validate(version, text, result) =>
      var job := Job(uri, version, outcomes(text, result));
      InvariantKept(pool, Action.Enqueue(job));
      EnqueueAsks(pool, job);
    case Cleared =>
      InvariantKept(pool, Action.Close(uri));
      CloseAsks(pool, uri);
    case _ =>
  }

  lemma EnqueueAsks(pool: Pool.State, job: Job)
    requires Table(pool) && TableLive(pool) && Table(AfterEnqueue(pool, job))
    ensures TableLive(AfterEnqueue(pool, job)) && Newest(AfterEnqueue(pool, job)) == Newest(pool)[job.uri := job]
  {
    var after := AfterEnqueue(pool, job);
    assert forall k | 0 <= k < |pool.log| :: after.log[k] == pool.log[k];
    assert Newest(after) == Newest(pool)[job.uri := job];
  }

  lemma CloseAsks(pool: Pool.State, uri: string)
    requires Table(pool) && TableLive(pool) && Table(AfterClose(pool, uri))
    ensures TableLive(AfterClose(pool, uri)) && Newest(AfterClose(pool, uri)) == Newest(pool) - {uri}
  {
    var after := AfterClose(pool, uri);
    assert forall k | 0 <= k < |pool.log| :: after.log[k] == pool.log[k];
    assert Newest(after) == Newest(pool) - {uri};
  }

  lemma BackgroundKeeps(pool: Pool.State, a: Action)
    requires Invariant(pool) && TableLive(pool) && Enabled(pool, a) && !a.Enqueue? && !a.Close?
    ensures Invariant(Next(pool, a)) && TableLive(Next(pool, a)) && Newest(Next(pool, a)) == Newest(pool)
  {
    InvariantKept(pool, a);
    if a.CancelAll? {
      CancelAllKeepsNewest(pool);
    } else {
      QuietStep(pool, a);
      hide Next, Invariant, Enabled;
      QuietKeepsNewest(pool, Next(pool, a));
    }
  }

  lemma CancelAllKeepsNewest(pool: Pool.State)
    requires Table(pool) && TableLive(pool)
    ensures
      var after := AfterCancelAll(pool);
      TableLive(after) && Table(after) && Newest(after) == Newest(pool)
  {
    assert AfterCancelAll(pool).log[|pool.log|].ShutDown?;
  }

  lemma QuietKeepsNewest(pool: Pool.State, after: Pool.State)
    requires Table(pool) && Table(after) && TableLive(pool) && Quiet(pool, after)
    ensures TableLive(after) && Newest(after) == Newest(pool)
  {
    assert forall k | 0 <= k < |pool.log| :: after.log[k] == pool.log[k];
  }

  // ---------- what is asked for is what is tracked ----------

  function Get(asked: map<string, Job>, uri: string): Option<Job> {
    if uri in asked then Some(asked[uri]) else None
  }

  /** The validation asked for a document after effects for it. */
  function JobAfter(outcomes: Outcomes, was: Option<Job>, uri: string, effects: seq<Effect>): Option<Job> {
    if effects == [] then was
    else
      var n := |effects| - 1;
      match effects[n]
      case Validate(version, text, result) => Some(Job(uri, version, outcomes(text, result)))
      case Cleared => None
      case _ => JobAfter(outcomes, was, uri, effects[..n])
  }

  lemma {:induction false} LabelledAsks(outcomes: Outcomes, asked: map<string, Job>, uri: string,
          effects: seq<Effect>, other: string)
    ensures Get(AskAll(outcomes, asked, Label(uri, effects)), other) ==
            if other == uri then JobAfter(outcomes, Get(asked, uri), uri, effects) else Get(asked, other)
  {
    if effects == [] {
      assert Label(uri, effects) == [];
    } else {
      var n := |effects| - 1;
      LabelledAsks(outcomes, asked, uri, effects[..n], other);
      assert Label(uri, effects)[..n] == Label(uri, effects[..n]);
    }
  }

  /** What a request's effects make of the validation asked for a document does not depend on the
      order of its documents. */
  lemma {:induction false} ListedAsks(outcomes: Outcomes, asked: map<string, Job>, out: Effects, order: seq<string>,
          uri: string)
    requires forall i, j | 0 <= i < j < |order| :: order[i] != order[j]
    ensures Get(AskAll(outcomes, asked, Listed(out, order)), uri) ==
            if uri in order && uri in out then JobAfter(outcomes, Get(asked, uri), uri, out[uri]) else Get(asked, uri)
  {
    if order != [] {
      var n := |order| - 1;
      var last := order[n];
      ListedAsks(outcomes, asked, out, order[..n], uri);
      assert uri in order <==> uri in order[..n] || uri == last;
      assert last !in order[..n];
      if last in out {
        AskAppend(outcomes, asked, Listed(out, order[..n]), Label(last, out[last]));
        LabelledAsks(outcomes, AskAll(outcomes, asked, Listed(out, order[..n])), last, out[last], uri);
      } else {
        assert Listed(out, order) == Listed(out, order[..n]);
      }
    }
  }

  lemma NoticeAsksNothing(outcomes: Outcomes, was: Option<Job>, uri: string, first: seq<Effect>, r: Result)
    ensures JobAfter(outcomes, was, uri, first + Notice(r)) == JobAfter(outcomes, was, uri, first)
  {
    if r.state.Unindexable? {
      assert first + Notice(r) == first;
    } else {
      assert (first + Notice(r))[..|first|] == first;
    }
  }

  lemma OneAsks(outcomes: Outcomes, was: Option<Job>, uri: string, effect: Effect)
    ensures JobAfter(outcomes, was, uri, [effect]) ==
            match effect
            case Validate(version, text, result) => Some(Job(uri, version, outcomes(text, result)))
            case Cleared => None
            case _ => was
  {
    assert [effect][..0] == [];
  }

  /** The validation of a document's stored text in its present resolution. */
  function Fitting(outcomes: Outcomes, world: World, cdn: Registries, s: Session, uri: string): Job
    requires uri in s.docs
  {
    Job(uri, s.docs[uri].version, outcomes(s.docs[uri].text, Current(world, cdn, s, uri)))
  }

  lemma StoredAsks(outcomes: Outcomes, world: World, cdn: Registries, s: Session, uri: string, was: Option<Job>)
    requires uri in s.docs
    ensures
      var (_, out) := Stored(world, cdn, s, uri);
      out.Keys == {uri} && JobAfter(outcomes, was, uri, out[uri]) ==
      if Owned(Current(world, cdn, s, uri)) then Some(Fitting(outcomes, world, cdn, s, uri)) else was
  {
    hide ChainResult;
    var r := Current(world, cdn, s, uri);
    var Document(version, text) := s.docs[uri];
    OneAsks(outcomes, was, uri, Validate(version, text, r));
    OneAsks(outcomes, was, uri, ParseOnly(version, text));
    NoticeAsksNothing(outcomes, was, uri, [Validate(version, text, r)], r);
    NoticeAsksNothing(outcomes, was, uri, [ParseOnly(version, text)], r);
    NoticeAsksNothing(outcomes, was, uri, [], r);
  }

  lemma RequeuedAsks(outcomes: Outcomes, world: World, cdn: Registries, s: Session, uri: string, was: Option<Job>)
    requires uri in s.docs
    ensures JobAfter(outcomes, was, uri, Requeued(world, cdn, s, uri)) == Some(Fitting(outcomes, world, cdn, s, uri))
  {
    hide ChainResult;
    var r := Current(world, cdn, s, uri);
    OneAsks(outcomes, was, uri, Validate(s.docs[uri].version, s.docs[uri].text, r));
    NoticeAsksNothing(outcomes, was, uri, [Validate(s.docs[uri].version, s.docs[uri].text, r)], r);
  }

  /** The requests that ask for a validation of a document: those that store a text that is owned,
      and a change of a pin file while the document is tracked. */
  predicate Revalidates(world: World, cdn: Registries, s: Session, request: Request, uri: string) {
    var (world', s', _) := Step(world, cdn, s, request);
    match request
    case Open(u, _, _) => u == uri && Owned(Current(world', cdn, s', uri))
    case Change(u, _, changes) => u == uri && changes != [] && Owned(Current(world', cdn, s', uri))
    case FilesChanged(uris, _) => uri in s.tracked && uri in s.docs && exists i | 0 <= i < |uris| :: IsPinFile(uris[i])
    case _ => false
  }

  /** What each request makes of the validation asked for a document. An unowned text, a chosen
      version and a retry leave the earlier one standing. */
  function AskedAfter(outcomes: Outcomes, world: World, cdn: Registries, s: Session, request: Request, uri: string,
          was: Option<Job>): Option<Job> {
    var (world', s', _) := Step(world, cdn, s, request);
    if Revalidates(world, cdn, s, request, uri) && uri in s'.docs then Some(Fitting(outcomes, world', cdn, s', uri))
    else if request == Request.Close(uri) then None
    else was
  }

  /** That is what its effects come to, and the cancel table follows it. */
  lemma StepAsks(outcomes: Outcomes, world: World, cdn: Registries, s: Session, request: Request, uri: string,
      was: Option<Job>)
    requires was.Some? <==> uri in s.tracked
    ensures
      var (_, s', out) := Step(world, cdn, s, request);
      var next := AskedAfter(outcomes, world, cdn, s, request, uri, was);
      && next == (if uri in out then JobAfter(outcomes, was, uri, out[uri]) else was)
      && (next.Some? <==> uri in s'.tracked)
  {
    hide ChainResult, Stored, Requeued;
    match request
    case Open(u, version, text) =>
      var stored := s.(docs := s.docs[u := Document(version, text)]);
      StoredKeeps(world, cdn, stored, u, uri);
      if u == uri { StoredAsks(outcomes, world, cdn, stored, u, was); }
    case Change(u, version, changes) =>
      if changes != [] {
        var stored := s.(docs := s.docs[u := Document(version, changes[0])]);
        StoredKeeps(world, cdn, stored, u, uri);
        if u == uri { StoredAsks(outcomes, world, cdn, stored, u, was); }
      }
    case FilesChanged(uris, files) =>
      if uri in s.docs { RequeuedAsks(outcomes, world.(files := files), cdn, s, uri, was); }
    case _ =>
      var out := Step(world, cdn, s, request).2;
      if uri in out { OneAsks(outcomes, was, uri, out[uri][0]); }
  }

  lemma StoredKeeps(world: World, cdn: Registries, s: Session, uri: string, other: string)
    requires uri in s.docs
    ensures
      var (s', out) := Stored(world, cdn, s, uri);
      && s'.docs == s.docs && s'.overrides == s.overrides && out.Keys == {uri}
      && Current(world, cdn, s', uri) == Current(world, cdn, s, uri)
      && (other in s'.tracked <==> other in s.tracked || (other == uri && Owned(Current(world, cdn, s, uri))))
  {
    hide ChainResult;
  }

  lemma HandleKeeps(outcomes: Outcomes, s: System, request: Request, cdn: Registries, order: seq<string>)
    requires InStep(outcomes, s) && Possible(s, Handle(request, cdn, order))
    ensures InStep(outcomes, After(outcomes, s, Handle(request, cdn, order)))
    ensures forall uri :: Get(After(outcomes, s, Handle(request, cdn, order)).asked, uri) ==
              AskedAfter(outcomes, s.world, cdn, s.session, request, uri, Get(s.asked, uri))
  {
    NothingAsked(outcomes, Newest(s.pool));
    hide Step, Invariant, TableLive, Listed, AskAll, AskedAfter;
    var (world, session, out) := Step(s.world, cdn, s.session, request);
    var asked := AskAll(outcomes, s.asked, Listed(out, order));
    forall uri
      ensures uri in asked <==> uri in session.tracked
      ensures Get(asked, uri) == AskedAfter(outcomes, s.world, cdn, s.session, request, uri, Get(s.asked, uri))
    {
      ListedAsks(outcomes, s.asked, out, order, uri);
      StepAsks(outcomes, s.world, cdn, s.session, request, uri, Get(s.asked, uri));
    }
  }

  lemma NothingAsked(outcomes: Outcomes, asked: map<string, Job>)
    ensures AskAll(outcomes, asked, []) == asked
  {
  }

  lemma EmitKeeps(outcomes: Outcomes, s: System)
    requires InStep(outcomes, s) && Possible(s, Emit)
    ensures InStep(outcomes, After(outcomes, s, Emit))
  {
    var newest := Newest(s.pool);
    hide Invariant, TableLive, AskAll, Newest, AfterEffect, Ask;
    EffectAsks(outcomes, s.pool, s.pending[0].0, s.pending[0].1);
    AskFirst(outcomes, newest, s.pending);
  }

  lemma InStepKept(outcomes: Outcomes, s: System, m: Move)
    requires InStep(outcomes, s) && Possible(s, m)
    ensures InStep(outcomes, After(outcomes, s, m))
  {
    hide Invariant, TableLive, Step, Listed, AskAll, Newest;
    match m
    case Handle(request, cdn, order) => HandleKeeps(outcomes, s, request, cdn, order);
    case Emit => EmitKeeps(outcomes, s);
    case Background(a) => BackgroundKeeps(s.pool, a);
  }

  lemma StartInStep(outcomes: Outcomes, world: World, size: nat)
    ensures InStep(outcomes, Start(world, size))
  {
    RunKeepsInvariant(size, []);
    assert Newest(Initial(size)) == map[];
  }

  /** In every run the cancel table, once the last request's effects have taken place, holds exactly the
      tracked documents, each with the validation last asked for. */
  lemma {:induction false} RunsInStep(outcomes: Outcomes, world: World, size: nat, moves: seq<Move>)
    ensures Runs(outcomes, world, size, moves).Some? ==>
              InStep(outcomes, Runs(outcomes, world, size, moves).value) &&
                  |Runs(outcomes, world, size, moves).value.pool.workers| == size
  {
    if moves == [] {
      StartInStep(outcomes, world, size);
    } else {
      var n := |moves| - 1;
      RunsInStep(outcomes, world, size, moves[..n]);
      hide InStep, Possible;
      if Runs(outcomes, world, size, moves).Some? {
        InStepKept(outcomes, Runs(outcomes, world, size, moves[..n]).value, moves[n]);
        SameWorkers(outcomes, Runs(outcomes, world, size, moves[..n]).value, moves[n]);
      }
    }
  }

  lemma SameWorkers(outcomes: Outcomes, s: System, m: Move)
    requires Possible(s, m)
    ensures |After(outcomes, s, m).pool.workers| == |s.pool.workers|
  {
    hide Step, Listed, AskAll;
  }

  // ---------- from asking to publishing ----------

  ghost predicate AtRest(s: System) {
    && s.pending == [] && Quiescent(s.pool) && !s.pool.stopped && s.pool.workers != []
    && forall k | 0 <= k < |s.pool.log| :: !s.pool.log[k].ShutDown?
  }

  ghost predicate Delivers(s: System, uri: string, job: Job) {
    exists id, k | 0 <= id < |s.pool.jobs| && 0 <= k < |s.pool.log| ::
      && s.pool.jobs[id] == job && id !in s.pool.cancelled
      && (forall later | id < later < |s.pool.jobs| :: s.pool.jobs[later].uri != uri)
      && s.pool.log[k].Published? && s.pool.log[k].job == id && s.pool.log[k].diags == Report(job.content)
  }

  /** Where a run comes to rest, the newest job of every tracked document is the validation last
      asked for, it was not cancelled, and its report has been published. */
  lemma AskedIsDelivered(outcomes: Outcomes, world: World, size: nat, moves: seq<Move>, uri: string)
    requires Runs(outcomes, world, size, moves).Some?
    ensures
      var s := Runs(outcomes, world, size, moves).value;
      AtRest(s) && uri in s.session.tracked ==> uri in s.asked && Delivers(s, uri, s.asked[uri])
  {
    RunsInStep(outcomes, world, size, moves);
    var s := Runs(outcomes, world, size, moves).value;
    hide Runs;
    if AtRest(s) && uri in s.session.tracked {
      NothingAsked(outcomes, Newest(s.pool));
      hide AtRest, Invariant, TableLive, AskAll;
      NewestDelivered(s, uri);
    }
  }

  lemma NewestDelivered(s: System, uri: string)
    requires Invariant(s.pool) && TableLive(s.pool) && AtRest(s) && uri in Newest(s.pool)
    ensures Delivers(s, uri, Newest(s.pool)[uri])
  {
    var job := Newest(s.pool)[uri];
    var id := NewestJob(s.pool, uri);
    hide Invariant, Quiescent, TableLive, Newest;
    RestPublishes(s.pool, id);
    NewestOfItsUri(s.pool, id);
    hide AtRest;
    JobDelivers(s, id, job);
  }

  lemma JobDelivers(s: System, id: JobId, job: Job)
    requires id < |s.pool.jobs| && s.pool.jobs[id] == job && id !in s.pool.cancelled
    requires forall later | id < later < |s.pool.jobs| :: s.pool.jobs[later].uri != job.uri
    requires exists k | 0 <= k < |s.pool.log| ::
               s.pool.log[k].Published? && s.pool.log[k].job == id &&
                   s.pool.log[k].diags == Report(s.pool.jobs[id].content)
    ensures Delivers(s, job.uri, job)
  {
    hide Report;
  }

  lemma NewestJob(pool: Pool.State, uri: string) returns (id: JobId)
    requires Table(pool) && TableLive(pool) && uri in Newest(pool)
    requires forall k | 0 <= k < |pool.log| :: !pool.log[k].ShutDown?
    ensures id < |pool.jobs| && pool.jobs[id] == Newest(pool)[uri] && pool.jobs[id].uri == uri && id !in pool.cancelled
  {
    id := pool.table[uri];
  }

  // ---------- what is asked for ----------

  /** The validation asked for a document is that of its stored text in its present resolution. */
  predicate Settled(outcomes: Outcomes, s: System, uri: string) {
    uri in s.session.docs && Get(s.asked, uri) == Some(Fitting(outcomes, s.world, s.cdn, s.session, uri))
  }

  /** Requests that speak of another document, or only read. */
  predicate Elsewhere(request: Request, uri: string) {
    match request
    case Open(u, _, _) => u != uri
    case Change(u, _, _) => u != uri
    case Close(u) => u != uri
    case SetVersion(u, _) => u != uri
    case Complete(_) | Hover(_) | Poll(_) => true
    case Retry(_, _) => true
    case FilesChanged(_, _) => false
  }

  /** Storing an owned text and a change of the pin files settle a document; reads and whatever
      concerns other documents keep it so, as long as the registry is taken to answer the same about it. */
  lemma SettledBy(outcomes: Outcomes, s: System, request: Request, cdn: Registries, order: seq<string>, uri: string)
    requires InStep(outcomes, s) && Possible(s, Handle(request, cdn, order))
    requires
      || Revalidates(s.world, cdn, s.session, request, uri)
      || (Settled(outcomes, s, uri) && Elsewhere(request, uri) && cdn(uri) == s.cdn(uri))
    ensures Settled(outcomes, After(outcomes, s, Handle(request, cdn, order)), uri)
  {
    HandleKeeps(outcomes, s, request, cdn, order);
    hide InStep, Possible, AskAll, Listed, ChainResult;
    var (world', s', _) := Step(s.world, cdn, s.session, request);
    var after := After(outcomes, s, Handle(request, cdn, order));
    assert after.session == s' && after.world == world' && after.cdn == cdn;
    StepElsewhere(s.world, s.cdn, cdn, s.session, request, uri);
  }

  lemma StepElsewhere(world: World, cdn: Registries, cdn': Registries, s: Session, request: Request, uri: string)
    ensures
      var (world', s', _) := Step(world, cdn', s, request);
      && (Elsewhere(request, uri) && cdn'(uri) == cdn(uri) ==>
            && (uri in s.docs ==> uri in s'.docs && s'.docs[uri] == s.docs[uri])
            && Current(world', cdn', s', uri) == Current(world, cdn, s, uri)
            && !Revalidates(world, cdn', s, request, uri) && request != Request.Close(uri))
      && (Revalidates(world, cdn', s, request, uri) ==> uri in s'.docs)
  {
    hide ChainResult;
  }

  /** At rest, the newest job of a settled document has published the report on its stored text
      against the schema it now has. */
  lemma SettledIsDelivered(outcomes: Outcomes, world: World, size: nat, moves: seq<Move>, uri: string)
    requires Runs(outcomes, world, size, moves).Some?
    ensures
      var s := Runs(outcomes, world, size, moves).value;
      AtRest(s) && Settled(outcomes, s, uri) ==> Delivers(s, uri, Fitting(outcomes, s.world, s.cdn, s.session, uri))
  {
    AskedIsDelivered(outcomes, world, size, moves, uri);
    RunsInStep(outcomes, world, size, moves);
    hide Runs, AtRest, Delivers, Fitting;
  }

  // ---------- by the requests handled so far ----------

  function Handled(moves: seq<Move>): seq<Request> {
    if moves == [] then []
    else
      var n := |moves| - 1;
      Handled(moves[..n]) + if moves[n].Handle? then [moves[n].request] else []
  }

  /** In every run the session holds what the requests handled so far say. */
  lemma {:induction false} SessionReflects(outcomes: Outcomes, world: World, size: nat, moves: seq<Move>)
    requires Runs(outcomes, world, size, moves).Some?
    ensures
      var s := Runs(outcomes, world, size, moves).value;
      Reflects(world, Handled(moves), s.world, s.session)
  {
    if moves != [] {
      var n := |moves| - 1;
      SessionReflects(outcomes, world, size, moves[..n]);
      var s := Runs(outcomes, world, size, moves[..n]).value;
      if moves[n].Handle? {
        ReflectsMore(world, moves[n].cdn, Handled(moves[..n]), s.world, s.session, moves[n].request);
      } else {
        assert Handled(moves) == Handled(moves[..n]);
      }
      hide Reflects, Step, Possible, AskAll, Listed;
    }
  }

  /** So what is delivered at rest for a settled document is the report on the text of the last request
      about it, against what that text, the version chosen for it and the pin files lead to. */
  lemma LastTextIsDelivered(outcomes: Outcomes, world: World, size: nat, moves: seq<Move>, uri: string)
    requires Runs(outcomes, world, size, moves).Some?
    ensures
      var s := Runs(outcomes, world, size, moves).value;
      AtRest(s) && Settled(outcomes, s, uri) ==>
        var requests := Handled(moves);
        DocAfter(requests, uri).Some? &&
        var Document(version, text) := DocAfter(requests, uri).value;
        Delivers(s, uri, Job(uri, version, outcomes(text, ResultAfter(world, s.cdn, requests, uri))))
  {
    var s := Runs(outcomes, world, size, moves).value;
    SettledIsDelivered(outcomes, world, size, moves, uri);
    SessionReflects(outcomes, world, size, moves);
    CurrentIsDue(world, s.cdn, Handled(moves), s.world, s.session, uri);
    hide Runs, AtRest, Delivers, Reflects, DocAfter, ResultAfter, Current, Handled;
  }
}
