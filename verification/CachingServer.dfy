/**
 The handlers of the language server with the router's and the pin lookup's caches
 (internal/lsp/server_typed.go, internal/lsp/router.go), on top of the resolver of the registry: it
 answers as the server without caches.
 */
module CachingServer {
  import opened Json
  import opened PinWalk
  import opened Resolution
  import opened ResolverChain
  import opened ServerRun

  import CdnResolver
  import Registry

  // ---------- how long an answer of the registry stands ----------

  /** The requests after which a document is resolved anew. */
  predicate Forgets(request: Request, uri: string) {
    match request
    case Open(u, _, _) => u == uri
    case Change(u, _, changes) => u == uri && changes != []
    case Close(u) => u == uri
    case SetVersion(u, _) => u == uri
    case Retry(_, _) => true
    case FilesChanged(uris, _) => exists i | 0 <= i < |uris| :: IsPinFile(uris[i])
    case Complete(_) | Hover(_) | Poll(_) => false
  }

  /** A request that has resolved a document. */
  predicate Resolves(request: Request, out: Effects, uri: string) {
    uri in out && !request.Close? && !request.Poll?
  }

  /** What a document met of the registry when it was resolved stands for it until it is to be resolved anew. */
  ghost predicate Steady(requests: seq<Request>, outs: seq<Effects>, cdns: seq<Registries>)
    requires |outs| == |cdns| == |requests|
  {
    forall i, j, uri | 0 <= i < j < |requests| && Resolves(requests[i], outs[i], uri)
                      && Unforgotten(requests, i, j, uri) ::
      cdns[j](uri) == cdns[i](uri)
  }

  ghost predicate Remembers(request: Request, before: map<string, Cdn>, met: map<string, Cdn>) {
    forall uri | uri in before && !Forgets(request, uri) :: uri in met && met[uri] == before[uri]
  }

  /** What documents met is what they still have, unless they are to be resolved anew. */
  ghost predicate StillMet(requests: seq<Request>, outs: seq<Effects>, cdns: seq<Registries>, met: map<string, Cdn>)
    requires |outs| == |cdns| == |requests|
  {
    forall i, uri | 0 <= i < |requests| && Resolves(requests[i], outs[i], uri)
                   && Unforgotten(requests, i, |requests|, uri) ::
      uri in met && met[uri] == cdns[i](uri)
  }

  lemma SteadyOneMore(requests: seq<Request>, outs: seq<Effects>, cdns: seq<Registries>, met: map<string, Cdn>,
                      request: Request, out: Effects, met': map<string, Cdn>)
    requires |outs| == |cdns| == |requests|
    requires Steady(requests, outs, cdns) && StillMet(requests, outs, cdns, met)
    requires forall uri | Resolves(request, out, uri) :: uri in met'
    requires Remembers(request, met, met')
    ensures Steady(requests + [request], outs + [out], cdns + [AsMet(met')])
    ensures StillMet(requests + [request], outs + [out], cdns + [AsMet(met')], met')
  {
    hide Resolves, Forgets;
    var requests', outs', cdns', n := requests + [request], outs + [out], cdns + [AsMet(met')], |requests|;
    forall i, uri | 0 <= i <= n && Resolves(requests'[i], outs'[i], uri) && Unforgotten(requests', i, n + 1, uri)
      ensures uri in met' && met'[uri] == cdns'[i](uri)
    {
      if i < n {
        assert !Forgets(requests'[n], uri);
        assert Unforgotten(requests, i, n, uri) by {
          forall k | i < k <= n && k < n ensures !Forgets(requests[k], uri) { assert requests'[k] == requests[k]; }
        }
      }
    }
    forall i, j, uri | 0 <= i < j <= n && Resolves(requests'[i], outs'[i], uri) && Unforgotten(requests', i, j, uri)
      ensures cdns'[j](uri) == cdns'[i](uri)
    {
      if j < n {
        assert Unforgotten(requests, i, j, uri) by {
          forall k | i < k <= j && k < n ensures !Forgets(requests[k], uri) { assert requests'[k] == requests[k]; }
        }
      } else {
        assert Unforgotten(requests', i, n + 1, uri);
      }
    }
  }

  predicate Unforgotten(requests: seq<Request>, i: nat, j: nat, uri: string) {
    forall k | i < k <= j && k < |requests| :: !Forgets(requests[k], uri)
  }

  ghost predicate AllTrustworthy(hash: Registry.Bytes -> string, cdn: Registries) {
    forall uri :: Trustworthy(hash, cdn(uri))
  }

  /** What was known stays known. */
  ghost predicate Extends(met: map<string, Cdn>, before: map<string, Cdn>) {
    forall uri | uri in before :: uri in met && met[uri] == before[uri]
  }

  /** The registries documents have met; the others have nothing to expect. */
  ghost function AsMet(met: map<string, Cdn>): Registries {
    uri => if uri in met then met[uri] else Answering(Registry.NotFound)
  }

  // ---------- the server ----------

  lemma Remembered(request: Request, before: map<string, Cdn>, met: map<string, Cdn>)
    requires
      match request
      case Open(u, _, _) => met - {u} == before - {u}
      case Change(u, _, changes) => met - {u} == before - {u} && (changes == [] ==> met == before)
      case Close(u) => met - {u} == before - {u}
      case SetVersion(u, _) => met - {u} == before - {u}
      case Complete(_) | Hover(_) | Poll(_) => Extends(met, before)
      case Retry(_, _) => true
      case FilesChanged(uris, _) => (exists i | 0 <= i < |uris| :: IsPinFile(uris[i])) || met == before
    ensures Remembers(request, before, met)
  {
    forall uri | uri in before && !Forgets(request, uri) ensures uri in met && met[uri] == before[uri] {
      if request.Open? || request.Change? || request.Close? || request.SetVersion? {
        var u := request.uri;
        if u != uri {
          assert uri in before - {u} && (before - {u})[uri] == before[uri];
          assert uri in met - {u} && (met - {u})[uri] == met[uri];
        }
      }
    }
  }

  lemma SameAnswers(world: World, before: map<string, Cdn>, met: map<string, Cdn>, s: Session, uri: string)
    requires uri in before && Extends(met, before) && uri in s.docs
    ensures Requeued(world, AsMet(met), s, uri) == Requeued(world, AsMet(before), s, uri)
  {
    hide ChainResult;
  }

  /** A result is the one of the URI's stored text ("" if it is not open), its override, the pin files
      and a registry that hands out only what it states; it is backed by the registry's history. */
  ghost predicate Fits(world: World, s: Session, hash: Registry.Bytes -> string, log: seq<CdnResolver.Event>,
                       uri: string, r: Result, cdn: Cdn) {
    && r == ChainResult(world, cdn, uri, TextOf(s.docs, uri), OverrideOf(s.overrides, uri))
    && Trustworthy(hash, cdn) && Backed(hash, log, r)
  }

  ghost predicate AllFit(world: World, s: Session, hash: Registry.Bytes -> string, log: seq<CdnResolver.Event>,
                         cache: map<string, Result>, met: map<string, Cdn>) {
    met.Keys == cache.Keys && forall uri | uri in cache :: Fits(world, s, hash, log, uri, cache[uri], met[uri])
  }

  lemma FitLater(world: World, s: Session, s': Session, hash: Registry.Bytes -> string, log: seq<CdnResolver.Event>,
                 longer: seq<CdnResolver.Event>, cache: map<string, Result>, met: map<string, Cdn>)
    requires AllFit(world, s, hash, log, cache, met) && log <= longer
    requires s'.docs == s.docs && s'.overrides == s.overrides
    ensures AllFit(world, s', hash, longer, cache, met)
  {
    hide ChainResult, Trustworthy, Backed;
    forall uri | uri in cache ensures Fits(world, s', hash, longer, uri, cache[uri], met[uri]) {
      assert Fits(world, s, hash, log, uri, cache[uri], met[uri]);
      BackedStays(hash, log, longer, cache[uri]);
    }
  }

  /** What is said of a document may change if its result is dropped. */
  lemma FitWithout(world: World, s: Session, s': Session, hash: Registry.Bytes -> string,
                   log: seq<CdnResolver.Event>, cache: map<string, Result>, met: map<string, Cdn>, uri: string)
    requires AllFit(world, s, hash, log, cache, met)
    requires s.docs - {uri} == s'.docs - {uri} && s.overrides - {uri} == s'.overrides - {uri}
    ensures AllFit(world, s', hash, log, cache - {uri}, met - {uri})
  {
    hide ChainResult, Trustworthy, Backed;
    forall u | u in cache && u != uri ensures Fits(world, s', hash, log, u, cache[u], met[u]) {
      assert Fits(world, s, hash, log, u, cache[u], met[u]);
      assert u in s.docs <==> u in s.docs - {uri};
      assert u in s'.docs <==> u in s'.docs - {uri};
      assert u in s.overrides <==> u in s.overrides - {uri};
      assert u in s'.overrides <==> u in s'.overrides - {uri};
      assert u in s.docs ==> (s.docs - {uri})[u] == (s'.docs - {uri})[u];
      assert u in s.overrides ==> (s.overrides - {uri})[u] == (s'.overrides - {uri})[u];
    }
  }

  lemma FitMore(world: World, s: Session, hash: Registry.Bytes -> string, log: seq<CdnResolver.Event>,
                cache: map<string, Result>, met: map<string, Cdn>, uri: string, r: Result, cdn: Cdn)
    requires AllFit(world, s, hash, log, cache, met) && Fits(world, s, hash, log, uri, r, cdn)
    ensures AllFit(world, s, hash, log, cache[uri := r], met[uri := cdn])
  {
    hide Fits;
  }

  /** A result in the cache is the present one, and trustworthy is what was met. */
  lemma FitIs(world: World, s: Session, hash: Registry.Bytes -> string, log: seq<CdnResolver.Event>,
              cache: map<string, Result>, met: map<string, Cdn>, uri: string)
    requires AllFit(world, s, hash, log, cache, met) && uri in cache
    ensures uri in met && cache[uri] == Current(world, AsMet(met), s, uri) && Trustworthy(hash, met[uri])
    ensures Backed(hash, log, cache[uri])
  {
    hide ChainResult, Trustworthy, Backed;
    assert Fits(world, s, hash, log, uri, cache[uri], met[uri]);
  }

  lemma NoneFit(world: World, s: Session, hash: Registry.Bytes -> string, log: seq<CdnResolver.Event>)
    ensures AllFit(world, s, hash, log, map[], map[])
  {
  }

  class Server {
    var docs: map<string, Document>
    var overrides: map<string, Override>
    var tracked: set<string>
    /** The router's results by URI, and what each met of the registry. */
    var cache: map<string, Result>
    ghost var met: map<string, Cdn>
    const chain: Chain

    function Abstract(): Session
      reads this
    {
      Session(docs, overrides, tracked)
    }

    ghost predicate Sound(world: World)
      reads this, chain.lookup, chain.resolver
    {
      chain.Valid(world.files) && AllFit(world, Abstract(), chain.resolver.hash, chain.resolver.log, cache, met)
    }

    constructor (chain: Chain)
      ensures Abstract() == NOTHING_OPEN && cache == map[] && met == map[] && this.chain == chain
    {
      docs, overrides, tracked, cache, met, this.chain := map[], map[], {}, map[], map[], chain;
    }

    /** Router.Resolve. */
    method Resolve(world: World, uri: string, text: string) returns (r: Result)
      requires Sound(world) && text == TextOf(docs, uri)
      modifies this`cache, this`met, chain.lookup, chain.resolver
      ensures Sound(world) && old(chain.resolver.log) <= chain.resolver.log
      ensures uri in met && r == Current(world, AsMet(met), Abstract(), uri) &&
          Backed(chain.resolver.hash, chain.resolver.log, r)
      ensures met == old(met)[uri := met[uri]] && (uri in old(met) ==> met[uri] == old(met)[uri])
    {
      hide ChainResult, Trustworthy, Backed, AllFit, Chain.Valid, Current, AsMet;
      ghost var s, hash, before := Abstract(), chain.resolver.hash, chain.resolver.log;
      if uri in cache {
        FitIs(world, s, hash, before, cache, met, uri);
        assert met == met[uri := met[uri]];
        return cache[uri];
      }
      ghost var cdn;
      r, cdn := chain.Resolve(world, uri, text, OverrideOf(overrides, uri));
      FitLater(world, s, s, hash, before, chain.resolver.log, cache, met);
      FitMore(world, s, hash, chain.resolver.log, cache, met, uri, r, cdn);
      cache, met := cache[uri := r], met[uri := cdn];
      FitIs(world, s, hash, chain.resolver.log, cache, met, uri);
      NotYetMet(world, s, hash, before, old(cache), old(met), uri);
    }

    lemma NotYetMet(world: World, s: Session, hash: Registry.Bytes -> string, log: seq<CdnResolver.Event>,
                    cache: map<string, Result>, met: map<string, Cdn>, uri: string)
      requires AllFit(world, s, hash, log, cache, met) && uri !in cache
      ensures uri !in met
    {
    }

    /** Router.Invalidate. */
    method Invalidate(uri: string)
      modifies this`cache, this`met
      ensures cache == old(cache) - {uri} && met == old(met) - {uri}
    {
      cache, met := cache - {uri}, met - {uri};
    }

    /** Router.InvalidateAll. */
    method InvalidateAll()
      modifies this`cache, this`met
      ensures cache == map[] && met == map[]
    {
      cache, met := map[], map[];
    }

    /** The common part of DidOpen and DidChange. */
    method Store(world: World, uri: string, document: Document) returns (out: Effects)
      requires Sound(world)
      modifies this, chain.lookup, chain.resolver
      ensures Sound(world)
      ensures (Abstract(), out) == Stored(world, AsMet(met), old(Abstract()).(docs := old(docs)[uri := document]), uri)
      ensures uri in met && met - {uri} == old(met) - {uri}
    {
      hide ChainResult, Trustworthy, Backed, AllFit, Chain.Valid, Current, AsMet;
      docs := docs[uri := document];
      Invalidate(uri);
      FitWithout(world, old(Abstract()), Abstract(), chain.resolver.hash, chain.resolver.log, old(cache),
          old(met), uri);
      var r := Resolve(world, uri, document.text);
      var first := [];
      if Owned(r) {
        ghost var s := Abstract();
        tracked := tracked + {uri};
        FitLater(world, s, Abstract(), chain.resolver.hash, chain.resolver.log, chain.resolver.log, cache, met);
        first := [Validate(document.version, document.text, r)];
      } else if !world.proxied {
        first := [ParseOnly(document.version, document.text)];
      }
      out := map[uri := first + Notice(r)];
    }

    method DidChange(world: World, uri: string, version: int, changes: seq<string>) returns (out: Effects)
      requires Sound(world)
      modifies this, chain.lookup, chain.resolver
      ensures Sound(world)
      ensures (world, Abstract(), out) == Step(world, AsMet(met), old(Abstract()), Change(uri, version, changes))
      ensures met - {uri} == old(met) - {uri} && if changes == [] then met == old(met) else uri in met
    {
      hide ChainResult, Trustworthy, Backed, AllFit, Chain.Valid, Current, AsMet, Stored;
      if changes == [] {
        return map[];
      }
      out := Store(world, uri, Document(version, changes[0]));
    }

    method DidClose(world: World, uri: string) returns (out: Effects)
      requires Sound(world)
      modifies this, chain.lookup, chain.resolver
      ensures Sound(world)
      ensures (world, Abstract(), out) == Step(world, AsMet(met), old(Abstract()), Close(uri))
      ensures met == old(met) - {uri}
    {
      hide ChainResult, Trustworthy, Backed, AllFit, Chain.Valid, Current, AsMet;
      tracked := tracked - {uri};
      docs := docs - {uri};
      overrides := overrides - {uri};
      Invalidate(uri);
      FitWithout(world, old(Abstract()), Abstract(), chain.resolver.hash, chain.resolver.log, old(cache),
          old(met), uri);
      out := map[uri := [Cleared]];
    }

    /** Completion and hover: what they answer is a function of the text, the result and their position. */
    method Read(world: World, uri: string) returns (out: Effects)
      requires Sound(world)
      modifies this`cache, this`met, chain.lookup, chain.resolver
      ensures Sound(world)
      ensures (world, Abstract(), out) == Step(world, AsMet(met), old(Abstract()), Complete(uri))
      ensures (world, Abstract(), out) == Step(world, AsMet(met), old(Abstract()), Hover(uri))
      ensures uri in met && Extends(met, old(met))
    {
      hide ChainResult, Trustworthy, Backed, AllFit, Chain.Valid, Current, AsMet;
      var text := TextOf(docs, uri);
      var r := Resolve(world, uri, text);
      out := map[uri := [Reply(text, r)]];
    }

    /** A document that is not open is answered for without resolving it. */
    method GetDocumentState(world: World, uri: string) returns (out: Effects)
      requires Sound(world)
      modifies this`cache, this`met, chain.lookup, chain.resolver
      ensures Sound(world)
      ensures (world, Abstract(), out) == Step(world, AsMet(met), old(Abstract()), Poll(uri))
      ensures Extends(met, old(met))
    {
      hide ChainResult, Trustworthy, Backed, AllFit, Chain.Valid, Current, AsMet;
      if uri !in docs {
        return map[uri := [Reply("", Nothing("", ""))]];
      }
      var r := Resolve(world, uri, docs[uri].text);
      out := map[uri := [Reply("", r.(schema := [], integrity := ""))]];
    }

    method SetDocumentVersionOverride(world: World, uri: string, chosen: string) returns (out: Effects)
      requires Sound(world)
      modifies this, chain.lookup, chain.resolver
      ensures Sound(world)
      ensures (world, Abstract(), out) == Step(world, AsMet(met), old(Abstract()), SetVersion(uri, chosen))
      ensures uri in met && met - {uri} == old(met) - {uri}
    {
      hide ChainResult, Trustworthy, Backed, AllFit, Chain.Valid, Current, AsMet, GroupIn;
      var text := TextOf(docs, uri);
      if chosen == "" {
        overrides := overrides - {uri};
      } else {
        overrides := overrides[uri := Override.Override(GroupIn(world, text), chosen)];
      }
      Invalidate(uri);
      FitWithout(world, old(Abstract()), Abstract(), chain.resolver.hash, chain.resolver.log, old(cache),
          old(met), uri);
      var r := Resolve(world, uri, text);
      out := map[uri := [StateChanged(r)]];
    }

    /** The back-off of the group ends, and nothing resolved before is answered again. */
    method RetryResolve(world: World, uri: string, group: string) returns (out: Effects)
      requires Sound(world)
      modifies this`cache, this`met, chain.lookup, chain.resolver
      ensures Sound(world)
      ensures (world, Abstract(), out) == Step(world, AsMet(met), old(Abstract()), Retry(uri, group))
      ensures met.Keys == if uri == "" then {} else {uri}
      ensures
        old(chain.resolver.log) + [CdnResolver.ClearedErrors(CdnResolver.Key(ECOSYSTEM, group))] <= chain.resolver.log
    {
      hide ChainResult, Trustworthy, Backed, AllFit, CdnResolver.Resolver.Valid, Lookup.Fresh, Current, AsMet;
      chain.resolver.ClearTransientErrors(CdnResolver.Key(ECOSYSTEM, group));
      InvalidateAll();
      NoneFit(world, Abstract(), chain.resolver.hash, chain.resolver.log);
      if uri == "" {
        return map[];
      }
      var r := Resolve(world, uri, TextOf(docs, uri));
      out := map[uri := [StateChanged(r)]];
    }

    /** Only the first event about a pin file matters. */
    method DidChangeWatchedFiles(world: World, uris: seq<string>, files: FileSystem)
      returns (world': World, out: Effects)
      requires Sound(world)
      modifies this`cache, this`met, chain.lookup, chain.resolver
      ensures Sound(world')
      ensures (world', Abstract(), out) == Step(world, AsMet(met), old(Abstract()), FilesChanged(uris, files))
      ensures out.Keys <= met.Keys && ((exists i | 0 <= i < |uris| :: IsPinFile(uris[i])) || met == old(met))
    {
      hide ChainResult, Trustworthy, Backed, AllFit, CdnResolver.Resolver.Valid, Current, AsMet, Requeued;
      for i := 0 to |uris|
        invariant forall k | 0 <= k < i :: !IsPinFile(uris[k])
        invariant Sound(world) && Abstract() == old(Abstract()) && met == old(met)
      {
        if IsPinFile(uris[i]) {
          world' := world.(files := files);
          chain.lookup.Invalidate();
          InvalidateAll();
          NoneFit(world', Abstract(), chain.resolver.hash, chain.resolver.log);
          out := RequeueAll(world');
          return world', out;
        }
      }
      return world, map[];
    }

    /** The tracked documents that are open, in any order. */
    method RequeueAll(world: World) returns (out: Effects)
      requires Sound(world)
      modifies this`cache, this`met, chain.lookup, chain.resolver
      ensures Sound(world) && Abstract() == old(Abstract()) && out.Keys <= met.Keys
      ensures out == map uri | uri in tracked && uri in docs :: Requeued(world, AsMet(met), Abstract(), uri)
    {
      hide ChainResult, Trustworthy, Backed, AllFit, Chain.Valid, Current, AsMet, Requeued;
      out := map[];
      var todo := tracked;
      while todo != {}
        invariant todo <= tracked && Sound(world) && Abstract() == old(Abstract()) && out.Keys <= met.Keys
        invariant out == map uri | uri in tracked - todo && uri in docs :: Requeued(world, AsMet(met), Abstract(), uri)
        decreases todo
      {
        var uri :| uri in todo;
        todo := todo - {uri};
        if uri in docs {
          ghost var before := met;
          var again := Requeue(world, uri);
          forall u | u in out ensures out[u] == Requeued(world, AsMet(met), Abstract(), u) {
            assert u in before;
            SameAnswers(world, before, met, Abstract(), u);
          }
          out := out[uri := again];
        }
      }
    }

    method Requeue(world: World, uri: string) returns (again: seq<Effect>)
      requires Sound(world) && uri in docs
      modifies this`cache, this`met, chain.lookup, chain.resolver
      ensures Sound(world) && Abstract() == old(Abstract()) && again == Requeued(world, AsMet(met), Abstract(), uri)
      ensures uri in met && Extends(met, old(met))
    {
      hide ChainResult, Trustworthy, Backed, AllFit, Chain.Valid, Current, AsMet;
      var r := Resolve(world, uri, docs[uri].text);
      again := [Validate(docs[uri].version, docs[uri].text, r)] + Notice(r);
    }

    method Handle(world: World, request: Request) returns (world': World, out: Effects)
      requires Sound(world)
      modifies this, chain.lookup, chain.resolver
      ensures Sound(world') && (world', Abstract(), out) == Step(world, AsMet(met), old(Abstract()), request)
      ensures forall uri | Resolves(request, out, uri) :: uri in met
      ensures Remembers(request, old(met), met)
    {
      hide ChainResult, Current, AsMet, Requeued, Sound;
      world' := world;
      match request {
        case Open(uri, version, text) => out := Store(world, uri, Document(version, text));
        case Change(uri, version, changes) => out := DidChange(world, uri, version, changes);
        case Close(uri) => out := DidClose(world, uri);
        case Complete(uri) => out := Read(world, uri);
        case Hover(uri) => out := Read(world, uri);
        case Poll(uri) => out := GetDocumentState(world, uri);
        case SetVersion(uri, chosen) => out := SetDocumentVersionOverride(world, uri, chosen);
        case Retry(uri, group) => out := RetryResolve(world, uri, group);
        case FilesChanged(uris, files) => world', out := DidChangeWatchedFiles(world, uris, files);
      }
      Remembered(request, old(met), met);
    }

    /** Over every serial run of requests, whatever the clock, the network and the disk do, the server
        answers as one without caches does for registries that hand out only what they state, where
        each document keeps what it met until it is to be resolved anew; completions, hovers and polls,
        which fill the caches, change nothing it does for the other requests. */
    method Serve(world: World, requests: seq<Request>) returns (outs: seq<Effects>, ghost cdns: seq<Registries>)
      requires Sound(world)
      modifies this, chain.lookup, chain.resolver
      ensures |outs| == |cdns| == |requests| && outs == Run(world, old(Abstract()), requests, cdns)
      ensures old(Abstract()) == NOTHING_OPEN ==> AllDue(world, cdns, requests, outs)
      ensures
        var (world', s) := After(world, old(Abstract()), requests, cdns);
        Sound(world') && Abstract() == s
      ensures Steady(requests, outs, cdns) && forall i | 0 <= i < |cdns| :: AllTrustworthy(chain.resolver.hash, cdns[i])
      ensures Without(requests, outs) ==
          Run(world, old(Abstract()), Without(requests, requests), Without(requests, cdns))
    {
      hide Step, Sound, Run, After, AllTrustworthy, Forgets, Resolves, AsMet, Steady, StillMet, Without, Due, AllDue;
      outs, cdns := [], [];
      var now := world;
      NoRun(world, Abstract(), met);
      assert requests[..0] == [];
      for i := 0 to |requests|
        invariant Sound(now) && |outs| == |cdns| == i
        invariant outs == Run(world, old(Abstract()), requests[..i], cdns)
        invariant (now, Abstract()) == After(world, old(Abstract()), requests[..i], cdns)
        invariant old(Abstract()) == NOTHING_OPEN ==> AllDue(world, cdns, requests[..i], outs)
        invariant Steady(requests[..i], outs, cdns) && StillMet(requests[..i], outs, cdns, met)
        invariant forall k | 0 <= k < i :: AllTrustworthy(chain.resolver.hash, cdns[k])
      {
        ghost var before := met;
        var out;
        now, out := Handle(now, requests[i]);
        assert requests[..i + 1] == requests[..i] + [requests[i]];
        SteadyOneMore(requests[..i], outs, cdns, before, requests[i], out, met);
        RunOneMore(world, old(Abstract()), requests[..i], cdns, requests[i], AsMet(met));
        MetTrustworthy(now);
        if old(Abstract()) == NOTHING_OPEN {
          StepIsDue(world, requests[..i], cdns, requests[i], AsMet(met));
          AllDueMore(world, cdns, requests[..i], outs, AsMet(met), requests[i], out);
        }
        outs, cdns := outs + [out], cdns + [AsMet(met)];
      }
      assert requests[..|requests|] == requests;
      ReadsLeaveNoTrace(world, old(Abstract()), requests, cdns);
    }

    lemma MetTrustworthy(world: World)
      requires Sound(world)
      ensures AllTrustworthy(chain.resolver.hash, AsMet(met))
    {
      hide ChainResult, Backed, Chain.Valid, Fits;
      forall uri ensures Trustworthy(chain.resolver.hash, AsMet(met)(uri)) {
        if uri in met { FitIs(world, Abstract(), chain.resolver.hash, chain.resolver.log, cache, met, uri); }
      }
    }
  }

  lemma NoRun(world: World, s: Session, met: map<string, Cdn>)
    ensures Run(world, s, [], []) == [] && After(world, s, [], []) == (world, s)
    ensures Steady([], [], []) && StillMet([], [], [], met) && AllDue(world, [], [], [])
  {
  }
}
