/**
 The handlers of the language server as steps of a serial run (internal/lsp/server_typed.go): a server
 without caches, which resolves every document anew each time, and what its effects should be by the
 requests so far.
 */
module ServerRun {
  import opened Json
  import opened PinWalk
  import opened Resolution
  import opened ResolverChain

  import CdnResolver
  import PinMerge
  import Pointers
  import Registry

  datatype Document = Document(version: int, text: string)

  /** What a server without caches keeps; tracked are the URIs with an entry in the cancel table. */
  datatype Session = Session(docs: map<string, Document>, overrides: map<string, Override>, tracked: set<string>)

  datatype Request =
    | Open(uri: string, version: int, text: string)
    | Change(uri: string, version: int, changes: seq<string>)
    | Close(uri: string)
    | Complete(uri: string)
    | Hover(uri: string)
    | Poll(uri: string)
    | SetVersion(uri: string, chosen: string)
    | Retry(uri: string, group: string)
    /** The pin files may be different from here on if one is among those changed. */
    | FilesChanged(uris: seq<string>, files: FileSystem)

  datatype Effect =
    | Validate(version: int, text: string, result: Result)
    | ParseOnly(version: int, text: string)
    | StateChanged(result: Result)
    | Cleared
    | Reply(text: string, result: Result)

  /** The effects of a request, document by document. */
  type Effects = map<string, seq<Effect>>

  // ---------- the server without caches ----------

  function TextOf(docs: map<string, Document>, uri: string): string {
    if uri in docs then docs[uri].text else ""
  }

  function OverrideOf(overrides: map<string, Override>, uri: string): Option<Override> {
    if uri in overrides then Some(overrides[uri]) else None
  }

  /** What the registry answers about each document. */
  type Registries = string -> Cdn

  /** The resolution of a document, computed anew. */
  function Current(world: World, cdn: Registries, s: Session, uri: string): Result {
    ChainResult(world, cdn(uri), uri, TextOf(s.docs, uri), OverrideOf(s.overrides, uri))
  }

  function Notice(r: Result): seq<Effect> {
    if r.state.Unindexable? then [] else [StateChanged(r)]
  }

  /** What follows storing a text: validation, or without a schema only parse errors, unless the
      document is left to the proxied server. */
  function Stored(world: World, cdn: Registries, s: Session, uri: string): (Session, Effects) {
    var r := Current(world, cdn, s, uri);
    var Document(version, text) := if uri in s.docs then s.docs[uri] else Document(0, "");
    var first := if Owned(r) then [Validate(version, text, r)]
                 else if world.proxied then [] else [ParseOnly(version, text)];
    (s.(tracked := if Owned(r) then s.tracked + {uri} else s.tracked), map[uri := first + Notice(r)])
  }

  function GroupIn(world: World, text: string): string {
    match world.parse(text) case Some(head) => GroupOf(head.apiVersion) case None => ""
  }

  /** Whether a changed file is a pin file. */
  predicate IsPinFile(uri: string) {
    EndsWith(uri, "schemalock.yaml") || EndsWith(uri, "schemalock.lock")
  }

  predicate EndsWith(s: string, suffix: string) {
    |suffix| <= |s| && s[|s| - |suffix|..] == suffix
  }

  function Requeued(world: World, cdn: Registries, s: Session, uri: string): seq<Effect>
    requires uri in s.docs
  {
    var r := Current(world, cdn, s, uri);
    [Validate(s.docs[uri].version, s.docs[uri].text, r)] + Notice(r)
  }

  function Step(world: World, cdn: Registries, s: Session, request: Request): (World, Session, Effects) {
    match request
    case Open(uri, version, text) =>
      var (s', out) := Stored(world, cdn, s.(docs := s.docs[uri := Document(version, text)]), uri);
      (world, s', out)
    case Change(uri, version, changes) =>
      if changes == [] then (world, s, map[])
      else
        var (s', out) := Stored(world, cdn, s.(docs := s.docs[uri := Document(version, changes[0])]), uri);
        (world, s', out)
    case Close(uri) =>
      (world, Session(s.docs - {uri}, s.overrides - {uri}, s.tracked - {uri}), map[uri := [Cleared]])
    case Complete(uri) => (world, s, map[uri := [Reply(TextOf(s.docs, uri), Current(world, cdn, s, uri))]])
    case Hover(uri) => (world, s, map[uri := [Reply(TextOf(s.docs, uri), Current(world, cdn, s, uri))]])
    case Poll(uri) =>
      var shown := if uri in s.docs then Current(world, cdn, s, uri).(schema := [], integrity := "")
                   else Nothing("", "");
      (world, s, map[uri := [Reply("", shown)]])
    case SetVersion(uri, chosen) =>
      var overrides := if chosen == "" then s.overrides - {uri}
                       else s.overrides[uri := Override.Override(GroupIn(world, TextOf(s.docs, uri)), chosen)];
      var s' := s.(overrides := overrides);
      (world, s', map[uri := [StateChanged(Current(world, cdn, s', uri))]])
    case Retry(uri, _) =>
      (world, s, if uri == "" then map[] else map[uri := [StateChanged(Current(world, cdn, s, uri))]])
    case FilesChanged(uris, files) =>
      if forall i | 0 <= i < |uris| :: !IsPinFile(uris[i]) then (world, s, map[])
      else
        var world' := world.(files := files);
        (world', s, map uri | uri in s.tracked && uri in s.docs :: Requeued(world', cdn, s, uri))
  }

  /** The effects of a run of a server without caches, given what the registry answers at each request. */
  function Run(world: World, s: Session, requests: seq<Request>, cdns: seq<Registries>): seq<Effects>
    requires |cdns| == |requests|
    decreases |requests|
  {
    if requests == [] then []
    else
      var (world', s', out) := Step(world, cdns[0], s, requests[0]);
      [out] + Run(world', s', requests[1..], cdns[1..])
  }

  /** The world and the session after a run. */
  function After(world: World, s: Session, requests: seq<Request>, cdns: seq<Registries>): (World, Session)
    requires |cdns| == |requests|
    decreases |requests|
  {
    if requests == [] then (world, s)
    else
      var (world', s', _) := Step(world, cdns[0], s, requests[0]);
      After(world', s', requests[1..], cdns[1..])
  }

  lemma {:induction false} RunOneMore(world: World, s: Session, requests: seq<Request>, cdns: seq<Registries>,
                                      last: Request, cdn: Registries)
    requires |cdns| == |requests|
    ensures
      var (world', s') := After(world, s, requests, cdns);
      var (world'', s'', out) := Step(world', cdn, s', last);
      && After(world, s, requests + [last], cdns + [cdn]) == (world'', s'')
      && Run(world, s, requests + [last], cdns + [cdn]) == Run(world, s, requests, cdns) + [out]
    decreases |requests|
  {
    hide Step;
    var all, every := requests + [last], cdns + [cdn];
    if requests == [] {
      assert all[1..] == [] && every[1..] == [];
    } else {
      var (world', s', out) := Step(world, cdns[0], s, requests[0]);
      assert all[1..] == requests[1..] + [last] && every[1..] == cdns[1..] + [cdn];
      RunOneMore(world', s', requests[1..], cdns[1..], last, cdn);
    }
  }

  const NOTHING_OPEN := Session(map[], map[], {})

  // ---------- what is due, by the requests so far ----------

  /** The requests that settle whether a document is open, and with what text. */
  predicate Touches(request: Request, uri: string) {
    match request
    case Open(u, _, _) => u == uri
    case Change(u, _, changes) => u == uri && changes != []
    case Close(u) => u == uri
    case _ => false
  }

  /** The document, if it is open: as it was last opened or changed. */
  function DocAfter(requests: seq<Request>, uri: string): Option<Document> {
    if requests == [] then None
    else
      var n := |requests| - 1;
      if !Touches(requests[n], uri) then DocAfter(requests[..n], uri)
      else match requests[n]
        case Open(_, version, text) => Some(Document(version, text))
        case Change(_, version, changes) => Some(Document(version, changes[0]))
        case _ => None
  }

  ghost predicate LastTouch(requests: seq<Request>, uri: string, i: nat) {
    i < |requests| && Touches(requests[i], uri) && forall j | i < j < |requests| :: !Touches(requests[j], uri)
  }

  /** It is open exactly if the last request about it is not its closing, and then has the text of that
      request, the first given in a change. */
  lemma {:induction false} DocAfterExact(requests: seq<Request>, uri: string)
    ensures DocAfter(requests, uri).Some? <==> exists i: nat :: LastTouch(requests, uri, i) && !requests[i].Close?
    ensures forall i: nat | LastTouch(requests, uri, i) ::
              match requests[i]
              case Open(_, version, text) => DocAfter(requests, uri) == Some(Document(version, text))
              case Change(_, version, changes) => DocAfter(requests, uri) == Some(Document(version, changes[0]))
              case _ => DocAfter(requests, uri) == None
  {
    if requests != [] {
      var n := |requests| - 1;
      DocAfterExact(requests[..n], uri);
      if Touches(requests[n], uri) {
        assert LastTouch(requests, uri, n);
      } else {
        forall i: nat ensures LastTouch(requests, uri, i) <==> LastTouch(requests[..n], uri, i) {
          if LastTouch(requests[..n], uri, i) { assert forall j | i < j < n :: requests[..n][j] == requests[j]; }
          if LastTouch(requests, uri, i) { assert forall j | i < j < n :: requests[..n][j] == requests[j]; }
        }
      }
    }
  }

  function TextAfter(requests: seq<Request>, uri: string): string {
    match DocAfter(requests, uri) case Some(doc) => doc.text case None => ""
  }

  /** The version chosen for a document, with the group its text had then. */
  function ChosenAfter(world: World, requests: seq<Request>, uri: string): Option<Override> {
    if requests == [] then None
    else
      var n := |requests| - 1;
      match requests[n]
      case SetVersion(u, chosen) =>
        if u != uri then ChosenAfter(world, requests[..n], uri)
        else if chosen == "" then None
        else
          var group := match world.parse(TextAfter(requests[..n], uri))
                       case Some(head) => GroupOf(head.apiVersion) case None => "";
          Some(Override.Override(group, chosen))
      case Close(u) => if u == uri then None else ChosenAfter(world, requests[..n], uri)
      case _ => ChosenAfter(world, requests[..n], uri)
  }

  predicate Chooses(request: Request, uri: string) {
    request == Close(uri) || (request.SetVersion? && request.uri == uri)
  }

  ghost predicate LastChoice(requests: seq<Request>, uri: string, i: nat) {
    i < |requests| && Chooses(requests[i], uri) && forall j | i < j < |requests| :: !Chooses(requests[j], uri)
  }

  /** A document has a chosen version exactly if, since it was last closed, the last choice was not empty. */
  lemma {:induction false} ChosenAfterExact(world: World, requests: seq<Request>, uri: string)
    ensures ChosenAfter(world, requests, uri).Some? <==>
            exists i: nat :: LastChoice(requests, uri, i) && requests[i].SetVersion? && requests[i].chosen != ""
    ensures forall i: nat | LastChoice(requests, uri, i) && requests[i].SetVersion? && requests[i].chosen != "" ::
              var head := world.parse(TextAfter(requests[..i], uri));
              ChosenAfter(world, requests, uri) ==
              Some(Override.Override(if head.Some? then GroupOf(head.value.apiVersion) else "", requests[i].chosen))
  {
    hide GroupOf, TextAfter;
    if requests != [] {
      var n := |requests| - 1;
      ChosenAfterExact(world, requests[..n], uri);
      if Chooses(requests[n], uri) {
        assert LastChoice(requests, uri, n);
      } else {
        forall i: nat ensures LastChoice(requests, uri, i) <==> LastChoice(requests[..n], uri, i) {
          if LastChoice(requests[..n], uri, i) { assert forall j | i < j < n :: requests[..n][j] == requests[j]; }
          if LastChoice(requests, uri, i) { assert forall j | i < j < n :: requests[..n][j] == requests[j]; }
        }
        forall i: nat | i < n ensures requests[..i] == requests[..n][..i] && requests[i] == requests[..n][i] {
        }
        hide LastChoice;
      }
    }
  }

  /** Some changed file is called schemalock.yaml or schemalock.lock. */
  ghost predicate NamesPins(uris: seq<string>) {
    exists i, dir | 0 <= i < |uris| :: uris[i] == dir + "schemalock.yaml" || uris[i] == dir + "schemalock.lock"
  }

  lemma NamesPinsIff(uris: seq<string>)
    ensures NamesPins(uris) <==> exists i | 0 <= i < |uris| :: IsPinFile(uris[i])
  {
    forall i | 0 <= i < |uris|
      ensures IsPinFile(uris[i]) <==>
              exists dir :: uris[i] == dir + "schemalock.yaml" || uris[i] == dir + "schemalock.lock"
    {
      EndsWithIff(uris[i], "schemalock.yaml");
      EndsWithIff(uris[i], "schemalock.lock");
      hide EndsWith;
    }
    hide IsPinFile;
  }

  lemma EndsWithIff(s: string, suffix: string)
    ensures EndsWith(s, suffix) <==> exists dir :: s == dir + suffix
  {
    if EndsWith(s, suffix) { assert s == s[..|s| - |suffix|] + suffix; }
  }

  /** The pin files as they were last said to have changed. */
  ghost function FilesAfter(files: FileSystem, requests: seq<Request>): FileSystem {
    if requests == [] then files
    else
      var n := |requests| - 1;
      match requests[n]
      case FilesChanged(uris, changed) => if NamesPins(uris) then changed else FilesAfter(files, requests[..n])
      case _ => FilesAfter(files, requests[..n])
  }

  /** What a document is served with after some requests. */
  ghost function ResultAfter(world: World, cdn: Registries, requests: seq<Request>, uri: string): Result {
    ChainResult(world.(files := FilesAfter(world.files, requests)), cdn(uri), uri, TextAfter(requests, uri),
                ChosenAfter(world, requests, uri))
  }

  /** A document is to be looked at again when the pin files change: some request since it was last closed
      gave it a text with which it was then owned. */
  ghost predicate RequeueDue(world: World, cdns: seq<Registries>, requests: seq<Request>, uri: string)
    requires |cdns| == |requests|
  {
    exists i | 0 <= i < |requests| :: GivesOwned(world, cdns, requests, i, uri) && Close(uri) !in requests[i + 1..]
  }

  ghost predicate GivesOwned(world: World, cdns: seq<Registries>, requests: seq<Request>, i: nat, uri: string)
    requires i < |requests| == |cdns|
  {
    Touches(requests[i], uri) && !requests[i].Close? && Owned(ResultAfter(world, cdns[i], requests[..i + 1], uri))
  }

  ghost function NoticeDue(r: Result): seq<Effect> {
    if r.state.Unindexable? then [] else [StateChanged(r)]
  }

  /** The effects due on the last of some requests. */
  ghost predicate Due(world: World, cdns: seq<Registries>, requests: seq<Request>, out: Effects)
    requires |cdns| == |requests| > 0
  {
    var cdn := cdns[|requests| - 1];
    match requests[|requests| - 1]
    case Open(uri, _, _) => StoreDue(world, cdn, requests, uri, out)
    case Change(uri, _, changes) => if changes == [] then out == map[] else StoreDue(world, cdn, requests, uri, out)
    case Close(uri) => out == map[uri := [Cleared]]
    case Complete(uri) => out == map[uri := [Reply(TextAfter(requests, uri), ResultAfter(world, cdn, requests, uri))]]
    case Hover(uri) => out == map[uri := [Reply(TextAfter(requests, uri), ResultAfter(world, cdn, requests, uri))]]
    case Poll(uri) =>
      var r := if DocAfter(requests, uri).Some? then ResultAfter(world, cdn, requests, uri)
               else Result(Unindexable, "", "", "", "", [], "", "");
      out == map[uri := [Reply("", r.(schema := [], integrity := ""))]]
    case SetVersion(uri, _) => out == map[uri := [StateChanged(ResultAfter(world, cdn, requests, uri))]]
    case Retry(uri, _) =>
      out == if uri == "" then map[] else map[uri := [StateChanged(ResultAfter(world, cdn, requests, uri))]]
    case FilesChanged(uris, _) =>
      if !NamesPins(uris) then out == map[]
      else forall uri ::
        && (uri in out <==> RequeueDue(world, cdns, requests, uri))
        && (uri in out ==>
              var r := ResultAfter(world, cdn, requests, uri);
              DocAfter(requests, uri).Some? &&
              var Document(version, text) := DocAfter(requests, uri).value;
              out[uri] == [Validate(version, text, r)] + NoticeDue(r))
  }

  /** Validation of an owned text, or else, unless the document is left to the proxied server, of its
      syntax only; and a notice of the state. */
  ghost predicate StoreDue(world: World, cdn: Registries, requests: seq<Request>, uri: string, out: Effects) {
    var r := ResultAfter(world, cdn, requests, uri);
    DocAfter(requests, uri).Some? &&
    var Document(version, text) := DocAfter(requests, uri).value;
    out.Keys == {uri} &&
    out[uri] == (if Owned(r) then [Validate(version, text, r)]
                 else if world.proxied then [] else [ParseOnly(version, text)]) + NoticeDue(r)
  }

  // ---------- the server without caches does what is due ----------

  /** A session holds what the requests say. */
  ghost predicate Reflects(world: World, requests: seq<Request>, world': World, s: Session) {
    && world' == world.(files := FilesAfter(world.files, requests))
    && (forall uri :: DocAfter(requests, uri) == if uri in s.docs then Some(s.docs[uri]) else None)
    && (forall uri :: ChosenAfter(world, requests, uri) == OverrideOf(s.overrides, uri))
  }

  lemma ReflectsMore(world: World, cdn: Registries, requests: seq<Request>, world': World, s: Session, last: Request)
    requires Reflects(world, requests, world', s)
    ensures
      var (world'', s', _) := Step(world', cdn, s, last);
      Reflects(world, requests + [last], world'', s')
  {
    var all := requests + [last];
    assert all[..|requests|] == requests;
    var (world'', s', _) := Step(world', cdn, s, last);
    if last.FilesChanged? { NamesPinsIff(last.uris); }
    hide ChainResult, GroupOf, NamesPins, IsPinFile;
    forall uri ensures DocAfter(all, uri) == if uri in s'.docs then Some(s'.docs[uri]) else None {
      assert DocAfter(requests, uri) == if uri in s.docs then Some(s.docs[uri]) else None;
    }
    forall uri ensures ChosenAfter(world, all, uri) == OverrideOf(s'.overrides, uri) {
      assert ChosenAfter(world, requests, uri) == OverrideOf(s.overrides, uri);
      assert DocAfter(requests, uri) == if uri in s.docs then Some(s.docs[uri]) else None;
    }
  }

  lemma {:induction false} AfterReflects(world: World, requests: seq<Request>, cdns: seq<Registries>)
    requires |cdns| == |requests|
    ensures
      var (world', s) := After(world, NOTHING_OPEN, requests, cdns);
      Reflects(world, requests, world', s)
    decreases |requests|
  {
    if requests != [] {
      var n := |requests| - 1;
      AfterReflects(world, requests[..n], cdns[..n]);
      var (world', s) := After(world, NOTHING_OPEN, requests[..n], cdns[..n]);
      assert requests == requests[..n] + [requests[n]] && cdns == cdns[..n] + [cdns[n]];
      RunOneMore(world, NOTHING_OPEN, requests[..n], cdns[..n], requests[n], cdns[n]);
      ReflectsMore(world, cdns[n], requests[..n], world', s, requests[n]);
      hide Reflects, After, Step, Run;
    }
  }

  lemma CurrentIsDue(world: World, cdn: Registries, requests: seq<Request>, world': World, s: Session, uri: string)
    requires Reflects(world, requests, world', s)
    ensures Current(world', cdn, s, uri) == ResultAfter(world, cdn, requests, uri)
    ensures TextOf(s.docs, uri) == TextAfter(requests, uri) && (uri in s.docs <==> DocAfter(requests, uri).Some?)
    ensures uri in s.docs ==> s.docs[uri] == DocAfter(requests, uri).value
  {
    hide ChainResult, ChosenAfter, FilesAfter;
    assert DocAfter(requests, uri) == if uri in s.docs then Some(s.docs[uri]) else None;
    assert ChosenAfter(world, requests, uri) == OverrideOf(s.overrides, uri);
  }

  /** In a serial run only open documents have an entry in the cancel table. */
  lemma {:induction false} TrackedAreOpen(world: World, s: Session, requests: seq<Request>, cdns: seq<Registries>)
    requires |cdns| == |requests| && s.tracked <= s.docs.Keys
    ensures After(world, s, requests, cdns).1.tracked <= After(world, s, requests, cdns).1.docs.Keys
    decreases |requests|
  {
    if requests != [] {
      var (world', s', _) := Step(world, cdns[0], s, requests[0]);
      assert s'.tracked <= s'.docs.Keys;
      TrackedAreOpen(world', s', requests[1..], cdns[1..]);
    }
  }

  /** Whether a request stores a text for a document that is then owned. */
  predicate StoresOwned(world: World, cdn: Registries, s: Session, request: Request, uri: string) {
    var (_, s', _) := Step(world, cdn, s, request);
    match request
    case Open(u, _, _) => u == uri && Owned(Current(world, cdn, s', uri))
    case Change(u, _, changes) => u == uri && changes != [] && Owned(Current(world, cdn, s', uri))
    case _ => false
  }

  predicate StoresOwnedAt(world: World, requests: seq<Request>, cdns: seq<Registries>, i: nat, uri: string)
    requires i < |requests| == |cdns|
  {
    var (world', s') := After(world, NOTHING_OPEN, requests[..i], cdns[..i]);
    StoresOwned(world', cdns[i], s', requests[i], uri)
  }

  /** Some request since the document was last closed stored a text that was then owned. */
  ghost predicate OwnedSinceClosed(world: World, requests: seq<Request>, cdns: seq<Registries>, uri: string)
    requires |cdns| == |requests|
  {
    exists i | 0 <= i < |requests| :: StoresOwnedAt(world, requests, cdns, i, uri) && Close(uri) !in requests[i + 1..]
  }

  lemma SinceClosedOneMore(world: World, requests: seq<Request>, cdns: seq<Registries>, last: Request, cdn: Registries,
                           uri: string)
    requires |cdns| == |requests|
    ensures
      var (world', s') := After(world, NOTHING_OPEN, requests, cdns);
      OwnedSinceClosed(world, requests + [last], cdns + [cdn], uri) <==>
      StoresOwned(world', cdn, s', last, uri) || (last != Close(uri) && OwnedSinceClosed(world, requests, cdns, uri))
  {
    hide After, StoresOwned;
    var all, every, n := requests + [last], cdns + [cdn], |requests|;
    assert all[..n] == requests && every[..n] == cdns && all[n + 1..] == [];
    var (world', s') := After(world, NOTHING_OPEN, requests, cdns);
    assert StoresOwnedAt(world, all, every, n, uri) == StoresOwned(world', cdn, s', last, uri);
    forall i | 0 <= i < n
      ensures StoresOwnedAt(world, all, every, i, uri) == StoresOwnedAt(world, requests, cdns, i, uri)
    {
      assert all[..i] == requests[..i] && every[..i] == cdns[..i];
    }
    hide StoresOwnedAt;
    assert forall i {:trigger requests[i]} | 0 <= i < n :: all[i + 1..] == requests[i + 1..] + [last];
  }

  /** How a request changes the entries of the cancel table. */
  lemma StepTracks(world: World, cdn: Registries, s: Session, request: Request, uri: string)
    ensures uri in Step(world, cdn, s, request).1.tracked <==>
            StoresOwned(world, cdn, s, request, uri) || (request != Close(uri) && uri in s.tracked)
  {
    hide ChainResult;
  }

  lemma {:induction false} TrackedIff(world: World, requests: seq<Request>, cdns: seq<Registries>, uri: string)
    requires |cdns| == |requests|
    ensures uri in After(world, NOTHING_OPEN, requests, cdns).1.tracked <==>
        OwnedSinceClosed(world, requests, cdns, uri)
    decreases |requests|
  {
    if requests != [] {
      var n := |requests| - 1;
      var (world', s') := After(world, NOTHING_OPEN, requests[..n], cdns[..n]);
      assert requests == requests[..n] + [requests[n]] && cdns == cdns[..n] + [cdns[n]];
      TrackedIff(world, requests[..n], cdns[..n], uri);
      RunOneMore(world, NOTHING_OPEN, requests[..n], cdns[..n], requests[n], cdns[n]);
      SinceClosedOneMore(world, requests[..n], cdns[..n], requests[n], cdns[n], uri);
      StepTracks(world', cdns[n], s', requests[n], uri);
      hide Step, After, Run, OwnedSinceClosed, StoresOwned;
    }
  }

  /** Being tracked is being due to be looked at again. */
  lemma RequeueDueIff(world: World, requests: seq<Request>, cdns: seq<Registries>, uri: string)
    requires |cdns| == |requests|
    ensures OwnedSinceClosed(world, requests, cdns, uri) <==> RequeueDue(world, cdns, requests, uri)
  {
    forall i | 0 <= i < |requests|
      ensures StoresOwnedAt(world, requests, cdns, i, uri) <==> GivesOwned(world, cdns, requests, i, uri)
    {
      StoresOwnedIsDue(world, requests, cdns, i, uri);
    }
    hide StoresOwnedAt, GivesOwned;
  }

  lemma StoresOwnedIsDue(world: World, requests: seq<Request>, cdns: seq<Registries>, i: nat, uri: string)
    requires i < |requests| == |cdns|
    ensures StoresOwnedAt(world, requests, cdns, i, uri) <==> GivesOwned(world, cdns, requests, i, uri)
  {
    var (world', s) := After(world, NOTHING_OPEN, requests[..i], cdns[..i]);
    assert requests[..i + 1] == requests[..i] + [requests[i]] && cdns[..i + 1] == cdns[..i] + [cdns[i]];
    AfterReflects(world, requests[..i], cdns[..i]);
    ReflectsMore(world, cdns[i], requests[..i], world', s, requests[i]);
    var (world'', s', _) := Step(world', cdns[i], s, requests[i]);
    CurrentIsDue(world, cdns[i], requests[..i + 1], world'', s', uri);
    hide ChainResult, Reflects, ResultAfter, After, Current;
    assert requests[i].Open? || requests[i].Change? ==> world'' == world';
  }

  lemma RequeueDueMore(world: World, requests: seq<Request>, cdns: seq<Registries>, last: Request, cdn: Registries,
                       uri: string)
    requires |cdns| == |requests| && last.FilesChanged?
    ensures RequeueDue(world, cdns + [cdn], requests + [last], uri) <==> RequeueDue(world, cdns, requests, uri)
  {
    var all, every, n := requests + [last], cdns + [cdn], |requests|;
    forall i | 0 <= i < n ensures GivesOwned(world, every, all, i, uri) == GivesOwned(world, cdns, requests, i, uri) {
      assert all[..i + 1] == requests[..i + 1];
    }
    assert !GivesOwned(world, every, all, n, uri);
    hide GivesOwned;
    assert forall i {:trigger requests[i]} | 0 <= i < n :: all[i + 1..] == requests[i + 1..] + [last];
  }

  /** The last of some requests leaves the documents and results that it should. */
  ghost predicate Fitting(world: World, cdn: Registries, all: seq<Request>, world': World, s: Session) {
    forall uri ::
      && Current(world', cdn, s, uri) == ResultAfter(world, cdn, all, uri) && TextOf(s.docs, uri) == TextAfter(all, uri)
      && DocAfter(all, uri) == if uri in s.docs then Some(s.docs[uri]) else None
  }

  lemma StepFits(world: World, requests: seq<Request>, cdns: seq<Registries>, last: Request, cdn: Registries)
    requires |cdns| == |requests|
    ensures
      var (world', s) := After(world, NOTHING_OPEN, requests, cdns);
      var (world'', s', _) := Step(world', cdn, s, last);
      Fitting(world, cdn, requests + [last], world'', s')
  {
    var (world', s) := After(world, NOTHING_OPEN, requests, cdns);
    AfterReflects(world, requests, cdns);
    ReflectsMore(world, cdn, requests, world', s, last);
    var (world'', s', _) := Step(world', cdn, s, last);
    hide Step, Reflects, DocAfter, Current, ResultAfter;
    forall uri
      ensures
        && Current(world'', cdn, s', uri) == ResultAfter(world, cdn, requests + [last], uri)
        && TextOf(s'.docs, uri) == TextAfter(requests + [last], uri)
        && DocAfter(requests + [last], uri) == if uri in s'.docs then Some(s'.docs[uri]) else None
    {
      CurrentIsDue(world, cdn, requests + [last], world'', s', uri);
    }
  }

  /** What the server without caches does on the last of some requests is what is due. */
  lemma StepIsDue(world: World, requests: seq<Request>, cdns: seq<Registries>, last: Request, cdn: Registries)
    requires |cdns| == |requests|
    ensures
      var (world', s) := After(world, NOTHING_OPEN, requests, cdns);
      Due(world, cdns + [cdn], requests + [last], Step(world', cdn, s, last).2)
  {
    var (world', s) := After(world, NOTHING_OPEN, requests, cdns);
    StepFits(world, requests, cdns, last, cdn);
    AfterReflects(world, requests, cdns);
    if last.FilesChanged? {
      FilesStepIsDue(world, requests, cdns, last, cdn);
    } else {
      hide After, ChainResult, ResultAfter, TextAfter, DocAfter;
      OtherStepIsDue(world, requests, cdns, last, cdn, world', s);
    }
  }

  lemma OtherStepIsDue(world: World, requests: seq<Request>, cdns: seq<Registries>, last: Request, cdn: Registries,
                       world': World, s: Session)
    requires |cdns| == |requests| && !last.FilesChanged? && world'.proxied == world.proxied
    requires
      var (world'', s', _) := Step(world', cdn, s, last);
      Fitting(world, cdn, requests + [last], world'', s')
    ensures Due(world, cdns + [cdn], requests + [last], Step(world', cdn, s, last).2)
  {
    var (world'', s', out) := Step(world', cdn, s, last);
    var all := requests + [last];
    hide ChainResult, ResultAfter, TextAfter, DocAfter;
    assert all[|all| - 1] == last && (cdns + [cdn])[|all| - 1] == cdn;
    match last
    case Open(uri, version, text) =>
      StoredIsDue(world, cdn, all, world', s.(docs := s.docs[uri := Document(version, text)]), uri);
    case Change(uri, version, changes) =>
      if changes != [] {
        StoredIsDue(world, cdn, all, world', s.(docs := s.docs[uri := Document(version, changes[0])]), uri);
      }
    case _ =>
  }

  lemma StoredIsDue(world: World, cdn: Registries, all: seq<Request>, world': World, s: Session, uri: string)
    requires Fitting(world, cdn, all, world', Stored(world', cdn, s, uri).0) && uri in s.docs
    requires world'.proxied == world.proxied
    ensures StoreDue(world, cdn, all, uri, Stored(world', cdn, s, uri).1)
  {
    hide ChainResult, ResultAfter, TextAfter, DocAfter;
    var (s', out) := Stored(world', cdn, s, uri);
    assert Current(world', cdn, s', uri) == Current(world', cdn, s, uri);
    assert DocAfter(all, uri) == Some(s.docs[uri]);
  }

  lemma TrackedIsDue(world: World, requests: seq<Request>, cdns: seq<Registries>, last: Request, cdn: Registries)
    requires |cdns| == |requests| && last.FilesChanged?
    ensures
      var s := After(world, NOTHING_OPEN, requests, cdns).1;
      && s.tracked <= s.docs.Keys
      && forall uri :: uri in s.tracked <==> RequeueDue(world, cdns + [cdn], requests + [last], uri)
  {
    TrackedAreOpen(world, NOTHING_OPEN, requests, cdns);
    hide After, RequeueDue, OwnedSinceClosed;
    var s := After(world, NOTHING_OPEN, requests, cdns).1;
    forall uri ensures uri in s.tracked <==> RequeueDue(world, cdns + [cdn], requests + [last], uri) {
      TrackedIff(world, requests, cdns, uri);
      RequeueDueIff(world, requests, cdns, uri);
      RequeueDueMore(world, requests, cdns, last, cdn, uri);
    }
  }

  lemma FilesStepIsDue(world: World, requests: seq<Request>, cdns: seq<Registries>, last: Request, cdn: Registries)
    requires |cdns| == |requests| && last.FilesChanged?
    ensures
      var (world', s) := After(world, NOTHING_OPEN, requests, cdns);
      Due(world, cdns + [cdn], requests + [last], Step(world', cdn, s, last).2)
  {
    StepFits(world, requests, cdns, last, cdn);
    NamesPinsIff(last.uris);
    TrackedIsDue(world, requests, cdns, last, cdn);
    hide After, ChainResult, ResultAfter, TextAfter, DocAfter, RequeueDue, OwnedSinceClosed, NamesPins, IsPinFile;
    var all := requests + [last];
    var (world', s) := After(world, NOTHING_OPEN, requests, cdns);
    var out := Step(world', cdn, s, last).2;
    assert all[|all| - 1] == last && (cdns + [cdn])[|all| - 1] == cdn;
    if NamesPins(last.uris) {
      assert out.Keys == s.tracked;
      forall uri | uri in out ensures out[uri] == Requeued(world'.(files := last.files), cdn, s, uri) {
      }
    }
  }

  /** Each request of a run has the effects due by the requests up to it. */
  ghost predicate AllDue(world: World, cdns: seq<Registries>, requests: seq<Request>, outs: seq<Effects>)
    requires |outs| == |cdns| == |requests|
  {
    forall i | 0 <= i < |requests| :: Due(world, cdns[..i + 1], requests[..i + 1], outs[i])
  }

  lemma AllDueMore(world: World, cdns: seq<Registries>, requests: seq<Request>, outs: seq<Effects>, cdn: Registries,
                   last: Request, out: Effects)
    requires |outs| == |cdns| == |requests| && AllDue(world, cdns, requests, outs)
    requires Due(world, cdns + [cdn], requests + [last], out)
    ensures AllDue(world, cdns + [cdn], requests + [last], outs + [out])
  {
    hide Due;
    var every, all, n := cdns + [cdn], requests + [last], |requests|;
    forall i | 0 <= i <= n ensures Due(world, every[..i + 1], all[..i + 1], (outs + [out])[i]) {
      if i < n {
        assert every[..i + 1] == cdns[..i + 1] && all[..i + 1] == requests[..i + 1];
      } else {
        assert every[..i + 1] == every && all[..i + 1] == all;
      }
    }
  }

  // ---------- what follows for runs ----------

  predicate Reads(request: Request) {
    request.Complete? || request.Hover? || request.Poll?
  }

  /** How many requests are not reads. */
  function Others(requests: seq<Request>): nat {
    if requests == [] then 0 else (if Reads(requests[0]) then 0 else 1) + Others(requests[1..])
  }

  /** What stands at the places of requests that are not reads. */
  function Without<T>(requests: seq<Request>, items: seq<T>): (others: seq<T>)
    requires |requests| == |items|
    ensures |others| == Others(requests)
  {
    if requests == [] then []
    else (if Reads(requests[0]) then [] else [items[0]]) + Without(requests[1..], items[1..])
  }

  lemma {:induction false} RunLength(world: World, s: Session, requests: seq<Request>, cdns: seq<Registries>)
    requires |cdns| == |requests|
    ensures |Run(world, s, requests, cdns)| == |requests|
    decreases |requests|
  {
    if requests != [] {
      var (world', s', out) := Step(world, cdns[0], s, requests[0]);
      RunLength(world', s', requests[1..], cdns[1..]);
    }
  }

  /** Completions, hovers and polls, wherever they fall, change no effect of any other request:
      a poll that reaches the server before the document is opened does not spoil the opening. */
  lemma {:induction false} ReadsLeaveNoTrace(world: World, s: Session, requests: seq<Request>, cdns: seq<Registries>)
    requires |cdns| == |requests|
    ensures |Run(world, s, requests, cdns)| == |requests|
    ensures Without(requests, Run(world, s, requests, cdns)) ==
            Run(world, s, Without(requests, requests), Without(requests, cdns))
    decreases |requests|
  {
    RunLength(world, s, requests, cdns);
    if requests != [] {
      var (world', s', out) := Step(world, cdns[0], s, requests[0]);
      ReadsLeaveNoTrace(world', s', requests[1..], cdns[1..]);
      var run := Run(world', s', requests[1..], cdns[1..]);
      assert Run(world, s, requests, cdns)[1..] == run;
      if Reads(requests[0]) {
        assert world' == world && s' == s;
        hide Step;
        assert Without(requests, requests) == Without(requests[1..], requests[1..]);
        assert Without(requests, cdns) == Without(requests[1..], cdns[1..]);
      } else {
        hide Step;
        assert Without(requests, requests)[1..] == Without(requests[1..], requests[1..]);
        assert Without(requests, cdns)[1..] == Without(requests[1..], cdns[1..]);
      }
    }
  }

  /** After every history of requests, a change of a pin file requeues a document if and only if, since
      it was last closed, some request stored a text for it that was then owned: all open documents
      exactly if that is so of each. */
  lemma RequeuesAllOpenIff(world: World, requests: seq<Request>, cdns: seq<Registries>, uris: seq<string>,
                           files: FileSystem, cdn: Registries)
    requires |cdns| == |requests| && exists i | 0 <= i < |uris| :: IsPinFile(uris[i])
    ensures
      var (world', s) := After(world, NOTHING_OPEN, requests, cdns);
      var out := Step(world', cdn, s, FilesChanged(uris, files)).2;
      && (forall uri :: uri in out <==> OwnedSinceClosed(world, requests, cdns, uri))
      && (s.docs.Keys == out.Keys <==> forall uri | uri in s.docs :: OwnedSinceClosed(world, requests, cdns, uri))
  {
    TrackedAreOpen(world, NOTHING_OPEN, requests, cdns);
    var (world', s) := After(world, NOTHING_OPEN, requests, cdns);
    forall uri ensures uri in s.tracked <==> OwnedSinceClosed(world, requests, cdns, uri) {
      TrackedIff(world, requests, cdns, uri);
    }
    hide After, OwnedSinceClosed, Requeued;
  }

  /** It can miss one: a document opened while unowned is not looked at again when a change of
      the pin files makes it owned. */
  lemma RequeueCanMissADocument()
    returns (world: World, request: Request, before: Registries, changed: Request, after: Registries, uri: string)
    ensures changed.FilesChanged?
    ensures
      var (world1, s1, _) := Step(world, before, NOTHING_OPEN, request);
      var (world2, s2, out) := Step(world1, after, s1, changed);
      uri in s2.docs && Owned(Current(world2, after, s2, uri)) && out == map[]
  {
    uri := "u";
    var root: Dir := [];
    var nothing := Answering(Registry.NotFound);
    before := _ => nothing;
    world := World(_ => Some(Head("g/v", "K")), _ => Some(root), _ => Absent, false, false);
    request := Open("u", 1, "t");
    var (world1, s1, _) := Step(world, before, NOTHING_OPEN, request);
    var withDoc := Session(map["u" := Document(1, "t")], map[], {});
    NoPinUnowned(world, before, withDoc);
    assert (world1, s1) == (world, withDoc);
    hide ChainResult;
    var pins := Doc(1, true, true, map["kubernetes" := ["g@1"]]);
    var files: FileSystem := _ => File(pins);
    var one := Answering(Registry.Got(Registry.Resolved("1", "", [])));
    after := _ => one;
    changed := FilesChanged(["schemalock.yaml"], files);
    assert IsPinFile("schemalock.yaml") by { assert EndsWith("schemalock.yaml", "schemalock.yaml"); }
    assert IsPinFile(changed.uris[0]);
    var (world2, s2, out) := Step(world1, after, s1, changed);
    assert s2 == withDoc && world2 == world.(files := files) && out == map[];
    OnePinOwned(world2, after, withDoc);
  }

  lemma GroupOfExample()
    ensures GroupOf("g/v") == "g"
  {
    assert Pointers.SlashAt("g/v") == 1;
  }

  lemma NoPinUnowned(world: World, cdn: Registries, s: Session)
    requires world.parse("t") == Some(Head("g/v", "K")) && world.dirOf("u") == Some([]) && world.files([]) == Absent
    requires !world.fallback && s == Session(map["u" := Document(1, "t")], map[], {})
    ensures !Owned(Current(world, cdn, s, "u"))
  {
    GroupOfExample();
    assert !HasFile(world.files, []);
    assert Effective(world.files, []) == Some(map[]);
  }

  lemma OnePinOwned(world: World, cdn: Registries, s: Session)
    requires world.parse("t") == Some(Head("g/v", "K")) && world.dirOf("u") == Some([])
    requires world.files([]) == File(Doc(1, true, true, map["kubernetes" := ["g@1"]]))
    requires cdn("u").at("g", "K", "1").Got? && s == Session(map["u" := Document(1, "t")], map[], {})
    ensures Owned(Current(world, cdn, s, "u"))
  {
    GroupOfExample();
    OnePin(world.files, [], Doc(1, true, true, map["kubernetes" := ["g@1"]]));
    hide Effective, PinIn;
  }

  lemma OnePin(files: FileSystem, root: Dir, pins: Doc)
    requires root == [] && pins == Doc(1, true, true, map["kubernetes" := ["g@1"]]) && files(root) == File(pins)
    ensures PinIn(Effective(files, root), "kubernetes", "g") == Answer.Pinned("1")
  {
    var spec := "g@1";
    PinMerge.ParseSpecExact(spec, "g", "1");
    assert PinMerge.ParseSpec(spec) == Some(("g", "1"));
    assert [spec][..0] == [];
    assert PinMerge.Listed([spec]) == Some(map["g" := "1"]);
    var f := PinMerge.IntentFile(1, true, map["kubernetes" := [spec]]);
    assert DecodeRoot(files(root)) == Some(f);
    assert PinMerge.Unambiguous(f);
    assert Effective(files, root) == PinMerge.Override(Some(map[]), f);
  }
}
