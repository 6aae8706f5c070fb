/** The resolver chain (internal/lsp/resolve.go): which schema a document is served with. */
module Resolution {
  import opened Json
  import opened PinMerge
  import opened PinWalk
  import opened Registry

  import Pointers

  datatype State = Unindexable | Pinned | Unpinned | Preview | Error

  datatype Result = Result(
    state: State, group: string, kind: string, version: string, source: string,
    schema: Bytes, integrity: string, message: string)

  datatype Override = Override(group: string, version: string)

  /** The apiVersion and kind of the first document of a text. */
  datatype Head = Head(apiVersion: string, kind: string)

  /** The registry's answers: a version asked for, or the latest. */
  datatype Cdn = Cdn(at: (string, string, string) -> Fetched<Resolved>, latest: (string, string) -> Fetched<Resolved>)

  /** What is outside the server, but for the registry. parse is None where YAML parsing fails or finds
      no document; dirOf is None for a URI without a file path. */
  datatype World = World(
    parse: string -> Option<Head>, dirOf: string -> Option<Dir>, files: FileSystem, fallback: bool, proxied: bool)

  const ECOSYSTEM := "kubernetes"

  /** The part of an apiVersion before its first "/"; "" if it has none. */
  function GroupOf(apiVersion: string): string {
    var at := Pointers.SlashAt(apiVersion);
    if at < |apiVersion| then apiVersion[..at] else ""
  }

  function Nothing(group: string, kind: string): Result {
    Result(Unindexable, group, kind, "", "", [], "", "")
  }

  function Served(state: State, group: string, kind: string, source: string, r: Resolved): Result {
    Result(state, group, kind, r.version, source, r.schema, r.integrity, "")
  }

  function Message(f: Fetched<Resolved>): string {
    match f case Got(_) => "" case NotFound => "not found" case Failed(message) => message
  }

  /** A chosen version: any failure to get it is an error. */
  function Chosen(cdn: Cdn, state: State, group: string, kind: string, version: string, source: string): Result {
    match cdn.at(group, kind, version)
    case Got(r) => Served(state, group, kind, source, r.(version := version))
    case f => Result(Error, group, kind, version, "cdn-error", [], "", Message(f))
  }

  /** No version chosen: the registry's latest, if the fallback is enabled. */
  function Fallback(world: World, cdn: Cdn, group: string, kind: string): Result {
    if !world.fallback then Nothing(group, kind)
    else match cdn.latest(group, kind)
      case Got(r) => Served(Unpinned, group, kind, "cdn-latest", r)
      case NotFound => Nothing(group, kind)
      case Failed(message) => Result(Error, group, kind, "", "cdn-error", [], "", message)
  }

  /** The version pinned for the document's directory; lookup failures count as no pin. */
  function PinnedVersion(world: World, uri: string, group: string): Answer {
    match world.dirOf(uri)
    case Some(dir) => PinIn(Effective(world.files, dir), ECOSYSTEM, group)
    case None => NotPinned
  }

  method FindPin(lookup: Lookup, world: World, uri: string, group: string) returns (r: Answer)
    requires lookup.Fresh(world.files)
    modifies lookup
    ensures lookup.Fresh(world.files) && r == PinnedVersion(world, uri, group)
  {
    var dir := world.dirOf(uri);
    if dir.None? {
      return NotPinned;
    }
    r := lookup.PinFor(world.files, dir.value, ECOSYSTEM, group);
  }

  /** The override beats the pin, the pin beats the fallback. */
  function ChainResult(world: World, cdn: Cdn, uri: string, text: string, chosen: Option<Override>): Result {
    match world.parse(text)
    case None => Nothing("", "")
    case Some(Head(apiVersion, kind)) =>
      var group := GroupOf(apiVersion);
      if apiVersion == "" || kind == "" || group == "" then Nothing("", "")
      else if chosen.Some? && chosen.value.group == group then
        Chosen(cdn, Preview, group, kind, chosen.value.version, "override")
      else
        match PinnedVersion(world, uri, group)
        case Pinned(version) => Chosen(cdn, State.Pinned, group, kind, version, "intent")
        case _ => Fallback(world, cdn, group, kind)
  }

  predicate Owned(r: Result) {
    r.state.Pinned? || r.state.Unpinned? || r.state.Preview?
  }

  // ---------- which answer is due ----------

  /** The first document of a text has a kind, and an apiVersion with this group before its first "/". */
  ghost predicate HasType(world: World, text: string, group: string, kind: string) {
    group != "" && kind != "" && '/' !in group && world.parse(text).Some? && world.parse(text).value.kind == kind
    && exists rest :: world.parse(text).value.apiVersion == group + "/" + rest
  }

  /** The version that the pins effective in the document's directory give the group. */
  function PinFor(world: World, uri: string, group: string): Option<string> {
    match world.dirOf(uri)
    case None => None
    case Some(dir) =>
      match Effective(world.files, dir)
      case None => None
      case Some(pins) =>
        if "kubernetes" in pins && group in pins["kubernetes"] then Some(pins["kubernetes"][group]) else None
  }

  /** A version was asked for: it is served in this state, or its failure is an error. */
  predicate ServedAt(r: Result, state: State, version: string, answer: Fetched<Resolved>) {
    && r.version == version
    && match answer
       case Got(got) => r.state == state && r.schema == got.schema && r.integrity == got.integrity
       case NotFound => r.state.Error? && r.schema == []
       case Failed(message) => r.state.Error? && r.schema == [] && r.message == message
  }

  /** The latest was asked for: it is served, or there is none, or its failure is an error. */
  predicate ServedLatest(r: Result, answer: Fetched<Resolved>) {
    match answer
    case Got(got) =>
      r.state.Unpinned? && r.version == got.version && r.schema == got.schema && r.integrity == got.integrity
    case NotFound => r.state.Unindexable? && r.schema == []
    case Failed(message) => r.state.Error? && r.schema == [] && r.message == message
  }

  /** Where the version of a result comes from. */
  predicate Labelled(r: Result) {
    match r.state
    case Preview => r.source == "override"
    case Pinned => r.source == "intent"
    case Unpinned => r.source == "cdn-latest"
    case Error => r.source == "cdn-error"
    case Unindexable => r.source == ""
  }

  /** The version the user chose for the document's group, or else the pinned one, or else, where the
      fallback is on, the latest. */
  ghost predicate ServedBy(world: World, cdn: Cdn, uri: string, chosen: Option<Override>, r: Result, group: string,
                           kind: string) {
    && r.group == group && r.kind == kind
    && if chosen.Some? && chosen.value.group == group then
         ServedAt(r, Preview, chosen.value.version, cdn.at(group, kind, chosen.value.version))
       else match PinFor(world, uri, group)
         case Some(version) => ServedAt(r, State.Pinned, version, cdn.at(group, kind, version))
         case None => if world.fallback then ServedLatest(r, cdn.latest(group, kind)) else r.state.Unindexable?
  }

  ghost predicate Prioritised(world: World, cdn: Cdn, uri: string, text: string, chosen: Option<Override>, r: Result) {
    && Labelled(r)
    && (forall group, kind | HasType(world, text, group, kind) :: ServedBy(world, cdn, uri, chosen, r, group, kind))
    && ((forall group, kind :: !HasType(world, text, group, kind)) ==> r.state.Unindexable? && r.schema == [])
  }

  lemma GroupExact(apiVersion: string, group: string)
    requires group != ""
    ensures GroupOf(apiVersion) == group <==> '/' !in group && exists rest :: apiVersion == group + "/" + rest
  {
    var at := Pointers.SlashAt(apiVersion);
    if GroupOf(apiVersion) == group {
      assert apiVersion == apiVersion[..at] + "/" + apiVersion[at + 1..];
    }
    if '/' !in group && exists rest :: apiVersion == group + "/" + rest {
      var rest :| apiVersion == group + "/" + rest;
      assert apiVersion[|group|] == '/' && forall i | 0 <= i < |group| :: apiVersion[i] == group[i] && group[i] != '/';
      assert apiVersion[..|group|] == group;
    }
  }

  lemma ChainPriority(world: World, cdn: Cdn, uri: string, text: string, chosen: Option<Override>)
    ensures Prioritised(world, cdn, uri, text, chosen, ChainResult(world, cdn, uri, text, chosen))
  {
    TypeIs(world, text);
    ChainLabelled(world, cdn, uri, text, chosen);
    hide GroupOf, PinnedVersion, HasType, Labelled, ServedBy;
    match world.parse(text)
    case None =>
    case Some(Head(apiVersion, kind)) => ChainServes(world, cdn, uri, text, chosen, GroupOf(apiVersion), kind);
  }

  lemma ChainServes(world: World, cdn: Cdn, uri: string, text: string, chosen: Option<Override>, group: string,
                    kind: string)
    ensures HasType(world, text, group, kind) ==>
              ServedBy(world, cdn, uri, chosen, ChainResult(world, cdn, uri, text, chosen), group, kind)
  {
    TypeIs(world, text);
    PinForIs(world, uri, group);
    hide GroupOf, PinnedVersion, HasType, PinFor;
  }

  lemma ChainLabelled(world: World, cdn: Cdn, uri: string, text: string, chosen: Option<Override>)
    ensures Labelled(ChainResult(world, cdn, uri, text, chosen))
  {
    hide GroupOf, PinnedVersion;
  }

  lemma PinForIs(world: World, uri: string, group: string)
    ensures PinFor(world, uri, group) ==
            match PinnedVersion(world, uri, group) case Pinned(version) => Some(version) case _ => None
  {
    hide Effective;
  }

  /** The type the chain goes by. */
  lemma TypeIs(world: World, text: string)
    ensures
      match world.parse(text)
      case None => forall group, kind :: !HasType(world, text, group, kind)
      case Some(Head(apiVersion, own)) =>
        && (apiVersion == "" ==> GroupOf(apiVersion) == "")
        && forall group, kind :: HasType(world, text, group, kind) <==>
             group == GroupOf(apiVersion) && kind == own && group != "" && kind != ""
  {
    match world.parse(text)
    case None =>
    case Some(Head(apiVersion, own)) =>
      assert apiVersion == "" ==> GroupOf(apiVersion) == "";
      hide GroupOf;
      forall group, kind
        ensures HasType(world, text, group, kind) <==>
                group == GroupOf(apiVersion) && kind == own && group != "" && kind != ""
      {
        if group != "" { GroupExact(apiVersion, group); }
      }
  }

  predicate HonestAnswer(hash: Bytes -> string, answer: Fetched<Resolved>) {
    answer.Got? ==> Verified(hash, answer.value.schema, answer.value.integrity)
  }

  /** The registry hands out only schemas that hash to their stated integrity. */
  ghost predicate Trustworthy(hash: Bytes -> string, cdn: Cdn) {
    && (forall g, k, v :: HonestAnswer(hash, cdn.at(g, k, v))) && (forall g, k :: HonestAnswer(hash, cdn.latest(g, k)))
  }

  /** The check of the integrity that a worker repeats succeeds for every owned document; a
      document that is not owned carries no schema. */
  lemma OwnedIsVerified(hash: Bytes -> string, world: World, cdn: Cdn, uri: string, text: string,
                        chosen: Option<Override>)
    requires Trustworthy(hash, cdn)
    ensures
      var r := ChainResult(world, cdn, uri, text, chosen);
      if Owned(r) then Verified(hash, r.schema, r.integrity) else r.schema == []
  {
    hide Effective, PinIn;
    match world.parse(text)
    case None =>
    case Some(Head(apiVersion, kind)) =>
      var group := GroupOf(apiVersion);
      assert HonestAnswer(hash, cdn.latest(group, kind));
  }

  /** The document as the chain sees it. */
  predicate Indexable(world: World, text: string) {
    match world.parse(text)
    case Some(Head(apiVersion, kind)) => kind != "" && GroupOf(apiVersion) != ""
    case None => false
  }

  /** An override for another group, or on a text without a group, changes nothing. */
  lemma OtherOverride(world: World, cdn: Cdn, uri: string, text: string, o: Override)
    requires Indexable(world, text) ==> o.group != GroupOf(world.parse(text).value.apiVersion)
    ensures ChainResult(world, cdn, uri, text, Some(o)) == ChainResult(world, cdn, uri, text, None)
  {
  }
}
