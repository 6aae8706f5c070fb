/**
 What a validation job finds (process in internal/lsp/workers.go): the documents of a text, each
 against the one schema its text was resolved to, with the compile cache; and why the check of the
 integrity that a job repeats skips no document of a text the resolver chain owns.
 */
module Validation {
  import opened CompileCache
  import opened Json
  import opened Pool
  import opened Registry
  import opened Resolution
  import opened ResolverChain
  import opened Sorting

  import C = CachingServer
  import D = Diagnostics
  import P = Protocol
  import PositionIndex
  import S = ServerRun

  /** A document of a YAML stream; apiVersion and kind are "" where they are missing. */
  datatype Source = Source(apiVersion: string, kind: string, body: Option<Value>, nodes: PositionIndex.Index)

  /** The documents that can be parsed, and the errors of the others. */
  datatype Stream = Stream(docs: seq<Source>, error: Option<string>)

  /** What a job calls: YAML parsing, the schema library, and the check of a value by a compiled schema. */
  datatype Setting<!Doc, !Schema> = Setting(
    parse: string -> Stream, lib: Library<Doc, Schema>, check: (Schema, Value) -> Option<D.Error>, strict: bool)

  // ---------- what a job should find ----------

  function Back(n: nat): nat { if n == 0 then 0 else n - 1 }

  /** Positions count from 1 in the validator and from 0 in the protocol. */
  function ToLsp(diagnostics: seq<D.Diagnostic>): seq<Diag> {
    seq(|diagnostics|, i requires 0 <= i < |diagnostics| =>
        Diag(Back(diagnostics[i].at.line), Back(diagnostics[i].at.column), diagnostics[i].message))
  }

  function CompileError(doc: Source): string { "could not compile schema for " + doc.apiVersion + "/" + doc.kind }

  predicate HasType(doc: Source) { doc.apiVersion != "" && doc.kind != "" }

  function Findings<Doc, Schema>(setting: Setting<Doc, Schema>, doc: Source, compiled: Schema): seq<Diag> {
    ToLsp(D.Listing(doc.nodes, if doc.body.Some? then setting.check(compiled, doc.body.value) else None))
  }

  function OutcomeOf<Doc, Schema>(setting: Setting<Doc, Schema>, doc: Source, schema: Bytes,
      integrity: string): Outcome {
    if !HasType(doc) then Untyped
    else if !Verified(setting.lib.hash, schema, integrity) then Mismatch
    else match Direct(setting.lib, Use(schema, setting.strict))
      case None => Uncompilable(CompileError(doc))
      case Some(compiled) => Validated(Findings(setting, doc, compiled))
  }

  function ContentOf<Doc, Schema>(setting: Setting<Doc, Schema>, text: string, r: Result): Content {
    if r.schema == [] then NoSchema
    else
      var Stream(docs, error) := setting.parse(text);
      if error.Some? && docs == [] then Unparsable("YAML parse error: " + error.value)
      else Parsed(Outcomes(setting, docs, r.schema, r.integrity))
  }

  // ---------- what it does find ----------

  /** A job that is not cancelled: with the compile cache it publishes the report of its content. */
  method Process<Doc, Schema>(setting: Setting<Doc, Schema>, compiler: Compiler<Doc, Schema>, text: string, r: Result,
          ghost bodies: set<Bytes>) returns (diags: seq<Diag>)
    requires compiler.lib == setting.lib && compiler.Agrees(bodies)
    requires r.schema in bodies && HashFits(setting.lib, bodies)
    modifies compiler
    ensures compiler.Agrees(bodies) && diags == Report(ContentOf(setting, text, r))
    ensures
      var use := Use(r.schema, setting.strict);
      IsCompiled(setting.lib, use, Direct(setting.lib, use)) &&
      Publishes(setting, text, r, Direct(setting.lib, use), diags)
  {
    ReportPublishes(setting, text, r);
    hide HashFits, Direct, Publishes, IsCompiled;
    ghost var content := ContentOf(setting, text, r);
    if r.schema == [] {
      return [];
    }
    var Stream(docs, error) := setting.parse(text);
    if error.Some? && docs == [] {
      return ErrorAtStart("YAML parse error: " + error.value);
    }
    diags := [];
    for n := 0 to |docs|
      invariant compiler.Agrees(bodies)
      invariant Report(content) == DocsReport(content.docs[n..], diags)
    {
      assert content.docs[n..][0] == OutcomeOf(setting, docs[n], r.schema, r.integrity);
      assert content.docs[n..][1..] == content.docs[n + 1..];
      if HasType(docs[n]) && setting.lib.hash(r.schema) == r.integrity {
        var compiled := compiler.CompileUse(Use(r.schema, setting.strict), bodies);
        if compiled.None? {
          return ErrorAtStart(CompileError(docs[n]));
        }
        var found := D.Validate(docs[n].body, v => setting.check(compiled.value, v), docs[n].nodes);
        diags := diags + ToLsp(found);
      }
    }
  }

  // ---------- what that means for the diagnostics ----------

  function Concat(parts: seq<seq<Diag>>): seq<Diag> {
    if parts == [] then [] else parts[0] + Concat(parts[1..])
  }

  /** What a document with a type and a body contributes, given the compiled schema: its errors in
      order, at positions counted from 0. Any other contributes nothing. */
  ghost predicate Contributes<Doc, Schema>(setting: Setting<Doc, Schema>, compiled: Schema, doc: Source,
                                           part: seq<Diag>) {
    if doc.apiVersion == "" || doc.kind == "" || doc.body.None? || setting.check(compiled, doc.body.value).None? then
      part == []
    else
      exists listing: seq<D.Diagnostic> | |listing| == |part| ::
        && D.Lists(doc.nodes, setting.check(compiled, doc.body.value).value, listing)
        && forall k | 0 <= k < |part| :: part[k] == Diag(
              if listing[k].at.line == 0 then 0 else listing[k].at.line - 1,
              if listing[k].at.column == 0 then 0 else listing[k].at.column - 1,
              listing[k].message)
  }

  ghost predicate AllContribute<Doc, Schema>(setting: Setting<Doc, Schema>, compiled: Schema, docs: seq<Source>,
                                             parts: seq<seq<Diag>>) {
    |parts| == |docs| && forall i | 0 <= i < |docs| :: Contributes(setting, compiled, docs[i], parts[i])
  }

  /** What a job publishes, given what the bytes of its schema compile to: each document with a type is
      checked by that. */
  ghost predicate Publishes<Doc, Schema>(setting: Setting<Doc, Schema>, text: string, r: Result,
                                         compiled: Option<Schema>, diags: seq<Diag>) {
    var Stream(docs, error) := setting.parse(text);
    if r.schema == [] then diags == []
    else if docs == [] then
      diags == if error.Some? then [Diag(0, 0, "YAML parse error: " + error.value)] else []
    else if setting.lib.hash(r.schema) != r.integrity then diags == []
    else
      match compiled
      case Some(schema) => exists parts :: AllContribute(setting, schema, docs, parts) && diags == Concat(parts)
      case None => FirstFails(docs, diags)
  }

  /** Only the first document with a type is reported on. */
  ghost predicate FirstFails(docs: seq<Source>, diags: seq<Diag>) {
    && ((forall i | 0 <= i < |docs| :: docs[i].apiVersion == "" || docs[i].kind == "") ==> diags == [])
    && forall i | 0 <= i < |docs| && docs[i].apiVersion != "" && docs[i].kind != ""
                 && (forall k | 0 <= k < i :: docs[k].apiVersion == "" || docs[k].kind == "") ::
      diags == [Diag(0, 0, "could not compile schema for " + docs[i].apiVersion + "/" + docs[i].kind)]
  }

  lemma Contribution<Doc, Schema>(setting: Setting<Doc, Schema>, compiled: Schema, doc: Source, schema: Bytes,
                                  integrity: string)
    returns (part: seq<Diag>)
    requires setting.lib.hash(schema) == integrity && Direct(setting.lib, Use(schema, setting.strict)) == Some(compiled)
    ensures Contributes(setting, compiled, doc, part)
    ensures OutcomeOf(setting, doc, schema, integrity) == Validated(part) ||
            (OutcomeOf(setting, doc, schema, integrity).Untyped? && part == [])
  {
    hide Direct;
    if !HasType(doc) {
      part := [];
    } else {
      part := Findings(setting, doc, compiled);
      if doc.body.Some? && setting.check(compiled, doc.body.value).Some? {
        var e := setting.check(compiled, doc.body.value).value;
        D.ListingLists(doc.nodes, e);
        hide D.Lists, D.Listing;
        var listing := D.Listing(doc.nodes, Some(e));
        assert |listing| == |part|;
      }
    }
  }

  lemma {:induction false} Contributions<Doc, Schema>(setting: Setting<Doc, Schema>, compiled: Schema,
                                                      docs: seq<Source>, schema: Bytes, integrity: string,
                                                      found: seq<Diag>)
    returns (parts: seq<seq<Diag>>)
    requires setting.lib.hash(schema) == integrity && Direct(setting.lib, Use(schema, setting.strict)) == Some(compiled)
    ensures AllContribute(setting, compiled, docs, parts)
    ensures DocsReport(Outcomes(setting, docs, schema, integrity), found) == found + Concat(parts)
  {
    hide Direct, Contributes, OutcomeOf;
    if docs == [] {
      parts := [];
    } else {
      var part := Contribution(setting, compiled, docs[0], schema, integrity);
      var rest := Contributions(setting, compiled, docs[1..], schema, integrity, found + part);
      parts := [part] + rest;
      assert parts[1..] == rest;
      OutcomesFirst(setting, docs, schema, integrity);
      assert found + part + Concat(rest) == found + (part + Concat(rest));
      assert part == [] ==> found + part == found;
    }
  }

  function Outcomes<Doc, Schema>(setting: Setting<Doc, Schema>, docs: seq<Source>, schema: Bytes,
                                 integrity: string): seq<Outcome> {
    seq(|docs|, i requires 0 <= i < |docs| => OutcomeOf(setting, docs[i], schema, integrity))
  }

  lemma OutcomesFirst<Doc, Schema>(setting: Setting<Doc, Schema>, docs: seq<Source>, schema: Bytes, integrity: string)
    requires docs != []
    ensures
      var outcomes := Outcomes(setting, docs, schema, integrity);
      outcomes[0] == OutcomeOf(setting, docs[0], schema, integrity) &&
      outcomes[1..] == Outcomes(setting, docs[1..], schema, integrity)
  {
  }

  lemma {:induction false} NothingFound<Doc, Schema>(setting: Setting<Doc, Schema>, docs: seq<Source>, schema: Bytes,
                                                     integrity: string)
    requires setting.lib.hash(schema) != integrity
    ensures DocsReport(Outcomes(setting, docs, schema, integrity), []) == []
  {
    if docs != [] {
      OutcomesFirst(setting, docs, schema, integrity);
      NothingFound(setting, docs[1..], schema, integrity);
    }
  }

  lemma {:induction false} FailureFound<Doc, Schema>(setting: Setting<Doc, Schema>, docs: seq<Source>, schema: Bytes,
                                                     integrity: string)
    requires setting.lib.hash(schema) == integrity && Direct(setting.lib, Use(schema, setting.strict)) == None
    ensures FirstFails(docs, DocsReport(Outcomes(setting, docs, schema, integrity), []))
  {
    hide Direct;
    if docs != [] {
      OutcomesFirst(setting, docs, schema, integrity);
      FailureFound(setting, docs[1..], schema, integrity);
      assert forall i | 1 <= i < |docs| :: docs[i] == docs[1..][i - 1];
    }
  }

  lemma ReportPublishes<Doc, Schema>(setting: Setting<Doc, Schema>, text: string, r: Result)
    ensures
      var use := Use(r.schema, setting.strict);
      IsCompiled(setting.lib, use, Direct(setting.lib, use)) &&
      Publishes(setting, text, r, Direct(setting.lib, use), Report(ContentOf(setting, text, r)))
  {
    var Stream(docs, error) := setting.parse(text);
    var diags := Report(ContentOf(setting, text, r));
    if r.schema != [] && docs != [] {
      hide FirstFails, AllContribute, OutcomeOf;
      assert diags == DocsReport(Outcomes(setting, docs, r.schema, r.integrity), []);
      if setting.lib.hash(r.schema) != r.integrity {
        NothingFound(setting, docs, r.schema, r.integrity);
      } else {
        var direct := Direct(setting.lib, Use(r.schema, setting.strict));
        match direct
        case Some(schema) =>
          var parts := Contributions(setting, schema, docs, r.schema, r.integrity, []);
          assert [] + Concat(parts) == Concat(parts);
        case None => FailureFound(setting, docs, r.schema, r.integrity);
      }
    }
  }

  // ---------- no document is skipped ----------

  /** No document is passed over because the schema does not have the stated hash. */
  predicate NoneSkipped(content: Content) {
    content.Parsed? ==> forall i | 0 <= i < |content.docs| :: !content.docs[i].Mismatch?
  }

  /** What a job needs of a result: its schema has the stated hash, or there is none. */
  predicate Checkable(hash: Bytes -> string, r: Result) {
    r.schema == [] || Verified(hash, r.schema, r.integrity)
  }

  /** Exactly what makes a job skip a document with a type. */
  lemma SkippedIff<Doc, Schema>(setting: Setting<Doc, Schema>, text: string, r: Result)
    ensures
      NoneSkipped(ContentOf(setting, text, r)) <==>
      Checkable(setting.lib.hash, r)
      || forall i | 0 <= i < |setting.parse(text).docs| :: !HasType(setting.parse(text).docs[i])
  {
    hide Direct, Findings;
    var docs := setting.parse(text).docs;
    if !Checkable(setting.lib.hash, r) && exists i | 0 <= i < |docs| :: HasType(docs[i]) {
      var i :| 0 <= i < |docs| && HasType(docs[i]);
      assert ContentOf(setting, text, r).docs[i].Mismatch?;
    }
  }

  /** From a text to the content of its job, whatever the clock, the network and the disk do: no
      document is skipped. */
  method Prepare<Doc, Schema>(setting: Setting<Doc, Schema>, chain: Chain, world: World, uri: string, text: string,
                              chosen: Option<Override>) returns (r: Result, ghost content: Content)
    requires chain.Valid(world.files) && setting.lib.hash == chain.resolver.hash
    modifies chain.lookup, chain.resolver
    ensures chain.Valid(world.files) && Backed(chain.resolver.hash, chain.resolver.log, r)
    ensures content == ContentOf(setting, text, r) && NoneSkipped(content)
    ensures !Owned(r) ==> content == NoSchema
  {
    hide Chain.Valid;
    ghost var cdn;
    r, cdn := chain.Resolve(world, uri, text, chosen);
    SkippedIff(setting, text, r);
    content := ContentOf(setting, text, r);
  }

  // ---------- over runs ----------

  ghost predicate AllCheckable(hash: Bytes -> string, effects: seq<S.Effect>) {
    forall k | 0 <= k < |effects| && effects[k].Validate? :: Checkable(hash, effects[k].result)
  }

  lemma CurrentCheckable(hash: Bytes -> string, world: World, cdn: S.Registries, s: S.Session, uri: string)
    requires C.AllTrustworthy(hash, cdn)
    ensures Checkable(hash, S.Current(world, cdn, s, uri))
  {
    OwnedIsVerified(hash, world, cdn(uri), uri, S.TextOf(s.docs, uri), S.OverrideOf(s.overrides, uri));
  }

  lemma StepCheckable(hash: Bytes -> string, world: World, cdn: S.Registries, s: S.Session, request: S.Request)
    requires C.AllTrustworthy(hash, cdn)
    ensures
      var out := S.Step(world, cdn, s, request).2;
      forall uri | uri in out :: AllCheckable(hash, out[uri])
  {
    hide ChainResult, C.AllTrustworthy;
    var (world', s', out) := S.Step(world, cdn, s, request);
    forall uri | uri in out ensures AllCheckable(hash, out[uri]) {
      CurrentCheckable(hash, world', cdn, s', uri);
    }
  }

  ghost predicate ListCheckable(hash: Bytes -> string, effects: seq<(string, S.Effect)>) {
    forall k | 0 <= k < |effects| && effects[k].1.Validate? :: Checkable(hash, effects[k].1.result)
  }

  lemma {:induction false} ListedCheckable(hash: Bytes -> string, out: S.Effects, order: seq<string>)
    requires forall uri | uri in out :: AllCheckable(hash, out[uri])
    ensures ListCheckable(hash, P.Listed(out, order))
  {
    if order != [] {
      var n := |order| - 1;
      ListedCheckable(hash, out, order[..n]);
      if order[n] in out {
        assert AllCheckable(hash, out[order[n]]);
        assert P.Listed(out, order) == P.Listed(out, order[..n]) + P.Label(order[n], out[order[n]]);
      } else {
        assert P.Listed(out, order) == P.Listed(out, order[..n]);
      }
    }
  }

  /** No job skips a document, and none to come will. */
  ghost predicate Unskipping(hash: Bytes -> string, s: P.System) {
    && (forall id | 0 <= id < |s.pool.jobs| :: NoneSkipped(s.pool.jobs[id].content))
    && ListCheckable(hash, s.pending)
  }

  /** A step of the jobs, of an effect, or of a handler that meets a registry that hands out only what it states. */
  lemma MoveKeeps<Doc, Schema>(setting: Setting<Doc, Schema>, outcomes: P.Outcomes, s: P.System, m: P.Move)
    requires forall text, r :: outcomes(text, r) == ContentOf(setting, text, r)
    requires Unskipping(setting.lib.hash, s) && P.Possible(s, m)
    requires m.Handle? ==> C.AllTrustworthy(setting.lib.hash, m.cdn)
    ensures Unskipping(setting.lib.hash, P.After(outcomes, s, m))
  {
    hide C.AllTrustworthy, ContentOf, S.Step, P.Listed, P.AskAll;
    match m
    case Handle(request, cdn, order) =>
      StepCheckable(setting.lib.hash, s.world, cdn, s.session, request);
      var (world, session, out) := S.Step(s.world, cdn, s.session, request);
      ListedCheckable(setting.lib.hash, out, order);
      assert P.After(outcomes, s, m).pending == P.Listed(out, order);
    case Emit =>
      if s.pending[0].1.Validate? {
        SkippedIff(setting, s.pending[0].1.text, s.pending[0].1.result);
      }
    case Background(a) =>
  }

  lemma OneMoreMove(outcomes: P.Outcomes, world: World, size: nat, moves: seq<P.Move>, s: P.System, m: P.Move)
    requires P.Runs(outcomes, world, size, moves) == Some(s) && P.Possible(s, m)
    ensures P.Runs(outcomes, world, size, moves + [m]) == Some(P.After(outcomes, s, m))
  {
    hide P.Possible, P.After;
    assert (moves + [m])[..|moves|] == moves;
  }

  /** The server, the effects of its requests and its jobs, step by step in any order, on top of the
      resolver chain. */
  class Instance<!Doc, !Schema> {
    const setting: Setting<Doc, Schema>
    const outcomes: P.Outcomes
    const server: C.Server
    const start: World
    const size: nat
    var world: World
    var pool: Pool.State
    var pending: seq<(string, S.Effect)>
    /** The run of the protocol so far, and where it has come to. */
    ghost var moves: seq<P.Move>
    ghost var reached: P.System

    /** What happens is a run of the protocol in which no job skips a document with a type. */
    ghost predicate Valid()
      reads this, server, server.chain.lookup, server.chain.resolver
    {
      && setting.lib.hash == server.chain.resolver.hash && server.Sound(world)
      && (forall text, r :: outcomes(text, r) == ContentOf(setting, text, r))
      && P.Runs(outcomes, start, size, moves) == Some(reached) && Unskipping(setting.lib.hash, reached)
      && reached == P.System(world, reached.cdn, server.Abstract(), pool, pending, reached.asked)
    }

    constructor (setting: Setting<Doc, Schema>, outcomes: P.Outcomes, server: C.Server, world: World, size: nat)
      requires server.Sound(world) && server.Abstract() == S.NOTHING_OPEN
      requires setting.lib.hash == server.chain.resolver.hash
      requires forall text, r :: outcomes(text, r) == ContentOf(setting, text, r)
      ensures Valid() && moves == [] && this.server == server && pending == []
    {
      this.setting, this.outcomes, this.server, this.start, this.size := setting, outcomes, server, world, size;
      this.world, this.pool, this.pending := world, Initial(size), [];
      this.moves, this.reached := [], P.Start(world, size);
    }

    method Handle(request: S.Request)
      requires Valid() && pending == []
      modifies this, server, server.chain.lookup, server.chain.resolver
      ensures Valid() && exists order :: moves == old(moves) + [P.Move.Handle(request, C.AsMet(server.met), order)]
    {
      hide C.Server.Sound, S.Step, ContentOf, P.Runs, P.AskAll, P.Listed, Unskipping, C.AllTrustworthy, C.AsMet;
      var out;
      world, out := server.Handle(world, request);
      server.MetTrustworthy(world);
      var order := AnyOrder(out.Keys);
      ghost var m := P.Move.Handle(request, C.AsMet(server.met), order);
      MoveKeeps(setting, outcomes, reached, m);
      OneMoreMove(outcomes, start, size, moves, reached, m);
      pending := P.Listed(out, order);
      moves, reached := moves + [m], P.After(outcomes, reached, m);
    }

    /** The next effect of the last request. */
    method Emit()
      requires Valid() && pending != []
      modifies this
      ensures Valid() && moves == old(moves) + [P.Emit]
    {
      hide C.Server.Sound, ContentOf, P.Runs, P.AskAll, Unskipping, P.AfterEffect;
      MoveKeeps(setting, outcomes, reached, P.Emit);
      OneMoreMove(outcomes, start, size, moves, reached, P.Emit);
      pool, pending := P.AfterEffect(outcomes, pool, pending[0].0, pending[0].1), pending[1..];
      moves, reached := moves + [P.Emit], P.After(outcomes, reached, P.Emit);
    }

    /** A step of the jobs. */
    method Work(action: Action)
      requires Valid() && !action.Enqueue? && !action.Close? && Enabled(pool, action)
      modifies this
      ensures Valid() && moves == old(moves) + [P.Background(action)]
    {
      hide C.Server.Sound, ContentOf, P.Runs, P.AskAll, Unskipping, Next, Enabled;
      MoveKeeps(setting, outcomes, reached, P.Background(action));
      OneMoreMove(outcomes, start, size, moves, reached, P.Background(action));
      pool := Next(pool, action);
      moves, reached := moves + [P.Background(action)], P.After(outcomes, reached, P.Background(action));
    }

    /** Whatever the clock, the network and the disk do, and however handlers, effects and jobs
        interleave: no job ever enqueued skips a document with a type. */
    method Run(requests: seq<S.Request>, steps: nat)
      requires Valid()
      modifies this, server, server.chain.lookup, server.chain.resolver
      ensures Valid() && forall id | 0 <= id < |pool.jobs| :: NoneSkipped(pool.jobs[id].content)
    {
      hide C.Server.Sound, ContentOf, P.Runs, Enabled;
      var next := 0;
      for n := 0 to steps
        invariant Valid() && next <= |requests|
      {
        var choice: nat := *;
        var action: Action := *;
        if choice == 0 && pending == [] && next < |requests| {
          Handle(requests[next]);
          next := next + 1;
        } else if choice == 1 && pending != [] {
          Emit();
        } else if !action.Enqueue? && !action.Close? && Enabled(pool, action) {
          Work(action);
        }
      }
    }
  }
}
