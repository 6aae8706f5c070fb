/**
 The resolver chain on top of the resolver of the registry and the lookup of pins
 (internal/lsp/resolve.go): whatever the clock, the network and the disk do, it answers as the chain
 does for some registry that hands out only schemas with the stated hash.
 */
module ResolverChain {
  import opened CdnResolver
  import opened Json
  import opened PinWalk
  import opened Registry
  import opened Resolution

  /** A registry that answers every request with one answer. */
  function Answering(answer: Fetched<Resolved>): Cdn {
    Cdn((_, _, _) => answer, (_, _) => answer)
  }

  /** What an owned document is served with, given the registry's history: bytes that hash to the
      integrity a manifest fetched for exactly its ecosystem, group, version and kind states. A document
      that is not owned is served without a schema. */
  ghost predicate Backed(hash: Bytes -> string, log: seq<CdnResolver.Event>, r: Result) {
    if Owned(r) then
      Genuine(log, hash, Item(ECOSYSTEM, r.group, r.version, r.kind), Resolved(r.version, r.integrity, r.schema))
    else r.schema == []
  }

  lemma BackedStays(hash: Bytes -> string, log: seq<CdnResolver.Event>, longer: seq<CdnResolver.Event>, r: Result)
    requires Backed(hash, log, r) && log <= longer
    ensures Backed(hash, longer, r)
  {
    if Owned(r) {
      assert longer == log + longer[|log|..];
      StatedGrows(log, longer[|log|..], Item(ECOSYSTEM, r.group, r.version, r.kind), r.integrity, |log|, |longer|);
    }
  }

  /** The registry was asked for the version chosen for the document's group, or else for the pinned one,
      or else, where the fallback is on, for the latest; the answer rests on what could be served then. */
  ghost predicate Consulted(hash: Bytes -> string, log: seq<CdnResolver.Event>, span: Span, world: World, cdn: Cdn,
                            uri: string, text: string, chosen: Option<Override>) {
    forall group, kind | HasType(world, text, group, kind) ::
      if chosen.Some? && chosen.value.group == group then
        var version := chosen.value.version;
        JustifiedAt(log, hash, Item("kubernetes", group, version, kind), cdn.at(group, kind, version), span)
      else match PinFor(world, uri, group)
        case Some(version) =>
          JustifiedAt(log, hash, Item("kubernetes", group, version, kind), cdn.at(group, kind, version), span)
        case None =>
          world.fallback ==> JustifiedLatest(log, hash, "kubernetes", group, kind, cdn.latest(group, kind), span)
  }

  class Chain {
    const lookup: Lookup
    const resolver: Resolver

    constructor (lookup: Lookup, resolver: Resolver)
      ensures this.lookup == lookup && this.resolver == resolver
    {
      this.lookup, this.resolver := lookup, resolver;
    }

    ghost predicate Valid(files: FileSystem)
      reads lookup, resolver
    {
      lookup.Fresh(files) && resolver.Valid()
    }

    /** The override before the pin, the pin before the fallback. */
    method Resolve(world: World, uri: string, text: string, chosen: Option<Override>)
        returns (r: Result, ghost cdn: Cdn)
      requires Valid(world.files)
      modifies lookup, resolver
      ensures Valid(world.files) && old(resolver.log) <= resolver.log
      ensures Trustworthy(resolver.hash, cdn) && r == ChainResult(world, cdn, uri, text, chosen)
      ensures Backed(resolver.hash, resolver.log, r) && Prioritised(world, cdn, uri, text, chosen, r)
      ensures old(resolver.now) <= resolver.now
      ensures
        var span := Span(old(resolver.now), resolver.now, resolver.times);
        Consulted(resolver.hash, resolver.log, span, world, cdn, uri, text, chosen)
    {
      hide Effective, EndsInPast, BacksOff, OnRecord, RecordsKept, VersionsKept, ManifestsKept, WritesSound, Stated;
      hide Chosen, Fallback, PinIn, HasType, Prioritised, JustifiedAt, JustifiedLatest;
      TypeIs(world, text);
      cdn := Answering(NotFound);
      var head := world.parse(text);
      if head.None? || head.value.apiVersion == "" || head.value.kind == "" {
        r := Nothing("", "");
      } else {
        var group, kind := GroupOf(head.value.apiVersion), head.value.kind;
        if group == "" {
          r := Nothing("", "");
        } else if chosen.Some? && chosen.value.group == group {
          r, cdn := Choose(Preview, group, kind, chosen.value.version, "override");
        } else {
          var pin := FindPin(lookup, world, uri, group);
          PinForIs(world, uri, group);
          hide PinnedVersion, PinFor, Trustworthy;
          if pin.Pinned? {
            r, cdn := Choose(State.Pinned, group, kind, pin.version, "intent");
          } else {
            r, cdn := FallBack(world, group, kind);
          }
        }
      }
      ChainPriority(world, cdn, uri, text, chosen);
    }

    method Choose(state: State, group: string, kind: string, version: string, source: string)
      returns (r: Result, ghost cdn: Cdn)
      requires resolver.Valid() && (state.Preview? || state.Pinned?)
      modifies resolver
      ensures resolver.Valid() && old(resolver.log) <= resolver.log
      ensures Trustworthy(resolver.hash, cdn) && r == Chosen(cdn, state, group, kind, version, source)
      ensures Backed(resolver.hash, resolver.log, r) && old(resolver.now) <= resolver.now
      ensures
        var span := Span(old(resolver.now), resolver.now, resolver.times);
        var item := Item(ECOSYSTEM, group, version, kind);
        JustifiedAt(resolver.log, resolver.hash, item, cdn.at(group, kind, version), span)
    {
      hide CdnResolver.Absent, Unavailable, StatedNow, Stated;
      var answer := resolver.ResolveAt(ECOSYSTEM, group, kind, version);
      cdn := Answering(answer);
      match answer
      case Got(got) => r := Served(state, group, kind, source, got);
      case _ => r := Result(Error, group, kind, version, "cdn-error", [], "", Message(answer));
    }

    method FallBack(world: World, group: string, kind: string) returns (r: Result, ghost cdn: Cdn)
      requires resolver.Valid()
      modifies resolver
      ensures resolver.Valid() && old(resolver.log) <= resolver.log
      ensures Trustworthy(resolver.hash, cdn) && r == Fallback(world, cdn, group, kind)
      ensures Backed(resolver.hash, resolver.log, r) && old(resolver.now) <= resolver.now
      ensures
        var span := Span(old(resolver.now), resolver.now, resolver.times);
        world.fallback ==>
          JustifiedLatest(resolver.log, resolver.hash, ECOSYSTEM, group, kind, cdn.latest(group, kind), span)
    {
      hide CdnResolver.Absent, Unavailable, StatedNow, Stated, Latest, ListServed;
      cdn := Answering(NotFound);
      if !world.fallback {
        return Nothing(group, kind), cdn;
      }
      var answer := resolver.Resolve(ECOSYSTEM, group, kind);
      cdn := Answering(answer);
      match answer
      case Got(got) => r := Served(Unpinned, group, kind, "cdn-latest", got);
      case NotFound => r := Nothing(group, kind);
      case Failed(message) => r := Result(Error, group, kind, "", "cdn-error", [], "", message);
    }
  }
}
