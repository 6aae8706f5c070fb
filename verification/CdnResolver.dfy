/**
 The registry side of the resolver chain (internal/lsp/cdn_resolver.go): expiring caches for version
 lists and manifests, a back-off after transient failures, and a disk cache whose contents are
 checked by hash. The clock, the network and the disk answer arbitrarily.
 */
module CdnResolver {
  import opened Json
  import opened Registry

  // ---------- cache paths ----------

  predicate SafeSegment(s: string) {
    s != "" && s != "." && s != ".." && '/' !in s && '\\' !in s && '\0' !in s
  }

  datatype Item = Item(ecosystem: string, group: string, version: string, kind: string)

  predicate Safe(item: Item) {
    SafeSegment(item.ecosystem) && SafeSegment(item.group) && SafeSegment(item.version) && SafeSegment(item.kind)
  }

  function PathOf(root: string, item: Item): string {
    root + "/" + (item.ecosystem + "/" + (item.group + "/" + (item.version + "/" + (item.kind + ".json"))))
  }

  function CachePath(root: string, item: Item): Option<string> {
    if Safe(item) then Some(PathOf(root, item)) else None
  }

  /** What comes before a first "/" and what comes after are determined. */
  lemma CutAtSlash(a: string, x: string, b: string, y: string)
    requires '/' !in a && '/' !in b && a + "/" + x == b + "/" + y
    ensures a == b && x == y
  {
    var s := a + "/" + x;
    assert s[|a|] == '/' && s[|b|] == '/';
    assert forall i | 0 <= i < |a| :: s[i] == a[i] && s[i] != '/';
    assert forall i | 0 <= i < |b| :: s[i] == b[i] && s[i] != '/';
    assert a == s[..|a|] && b == s[..|b|] && x == s[|a| + 1..] && y == s[|b| + 1..];
  }

  lemma SameTail(root: string, x: string, y: string)
    requires root + "/" + x == root + "/" + y
    ensures x == y
  {
    assert x == (root + "/" + x)[|root| + 1..] && y == (root + "/" + y)[|root| + 1..];
  }

  lemma SameStem(x: string, y: string, end: string)
    requires x + end == y + end
    ensures x == y
  {
    assert |x| == |y| && x == (x + end)[..|x|] && y == (y + end)[..|y|];
  }

  /** Distinct items never share a cache path. */
  lemma CachePathInjective(root: string, a: Item, b: Item)
    requires CachePath(root, a).Some? && CachePath(root, a) == CachePath(root, b)
    ensures a == b
  {
    var afterVersion := (i: Item) => i.kind + ".json";
    var afterGroup := (i: Item) => i.version + "/" + afterVersion(i);
    var afterEcosystem := (i: Item) => i.group + "/" + afterGroup(i);
    SameTail(root, a.ecosystem + "/" + afterEcosystem(a), b.ecosystem + "/" + afterEcosystem(b));
    CutAtSlash(a.ecosystem, afterEcosystem(a), b.ecosystem, afterEcosystem(b));
    CutAtSlash(a.group, afterGroup(a), b.group, afterGroup(b));
    CutAtSlash(a.version, afterVersion(a), b.version, afterVersion(b));
    SameStem(a.kind, b.kind, ".json");
  }

  /** A maximal piece of a path without "/". */
  predicate IsComponent(path: string, i: int, j: int) {
    && 0 <= i <= j <= |path| && (i == 0 || path[i - 1] == '/') && (j == |path| || path[j] == '/')
    && '/' !in path[i..j]
  }

  /** Following a path never leads upwards, and stays nowhere. */
  ghost predicate Descends(path: string) {
    forall i, j | IsComponent(path, i, j) :: path[i..j] != "" && path[i..j] != "." && path[i..j] != ".."
  }

  lemma DescendsLast(s: string)
    requires s != "" && s != "." && s != ".." && '/' !in s
    ensures Descends(s)
  {
    forall i, j | IsComponent(s, i, j) ensures s[i..j] == s {
      assert i == 0 && j == |s|;
    }
  }

  lemma DescendsOnce(s: string, rest: string)
    requires s != "" && s != "." && s != ".." && '/' !in s && Descends(rest)
    ensures Descends(s + "/" + rest)
  {
    var path := s + "/" + rest;
    var n := |s| + 1;
    assert path[|s|] == '/' && path[n..] == rest;
    forall i, j | IsComponent(path, i, j) ensures path[i..j] != "" && path[i..j] != "." && path[i..j] != ".." {
      if i == 0 {
        assert forall k | i <= k < j :: path[k] in path[i..j];
        assert j == |s| && path[i..j] == s;
      } else {
        assert i >= n;
        assert path[i..j] == rest[i - n..j - n];
        assert IsComponent(rest, i - n, j - n);
      }
    }
  }

  /** An item has a cache path unless one of its four parts is empty, a dot or two, or holds a
      separator or a zero byte; the path descends from the root. */
  lemma CachePathBelowRoot(root: string, item: Item)
    ensures CachePath(root, item).None? <==>
              exists part | part in [item.ecosystem, item.group, item.version, item.kind] ::
                part in ["", ".", ".."] || '/' in part || '\\' in part || '\0' in part
    ensures CachePath(root, item).Some? ==>
              |CachePath(root, item).value| > |root| + 1 && CachePath(root, item).value[..|root| + 1] == root + "/" &&
                  Descends(CachePath(root, item).value[|root| + 1..])
  {
    var parts := [item.ecosystem, item.group, item.version, item.kind];
    assert parts[0] in parts && parts[1] in parts && parts[2] in parts && parts[3] in parts;
    if Safe(item) {
      var path := CachePath(root, item).value;
      var file := item.kind + ".json";
      assert '/' !in ".json";
      DescendsLast(file);
      DescendsOnce(item.version, file);
      DescendsOnce(item.group, item.version + "/" + file);
      DescendsOnce(item.ecosystem, item.group + "/" + (item.version + "/" + file));
      var rest := item.ecosystem + "/" + (item.group + "/" + (item.version + "/" + file));
      assert path == root + "/" + rest;
      assert path[|root| + 1..] == rest;
    }
  }

  // ---------- the history of a run ----------

  datatype Answer =
    | Versions(list: Fetched<seq<string>>)
    | ManifestOf(version: string, manifest: Fetched<Manifest>)
    | SchemaOf(version: string, kind: string, schema: Fetched<Bytes>)

  datatype Event =
    | Fetch(ecosystem: string, group: string, answer: Answer, started: int, ended: int)
    | ClearedErrors(key: string)
    | Wrote(item: Item, path: string, body: Bytes, integrity: string)

  function Key(ecosystem: string, group: string): string { ecosystem + "/" + group }

  /** Groups are told apart, as the names of ecosystems hold no "/". */
  lemma KeysApart(ecosystem: string, group: string, ecosystem': string, group': string)
    requires '/' !in ecosystem && '/' !in ecosystem'
    ensures Key(ecosystem, group) == Key(ecosystem', group') <==> ecosystem == ecosystem' && group == group'
  {
    if Key(ecosystem, group) == Key(ecosystem', group') {
      CutAtSlash(ecosystem, group, ecosystem', group');
    }
  }

  predicate IsFetch(e: Event, key: string) {
    e.Fetch? && Key(e.ecosystem, e.group) == key
  }

  /** Failures of a version list or a manifest are transient errors; those of a schema are not noted. */
  predicate Transient(e: Event) {
    e.Fetch? && match e.answer
      case Versions(list) => list.Failed?
      case ManifestOf(_, manifest) => manifest.Failed?
      case SchemaOf(_, _, _) => false
  }

  predicate ClearedBetween(log: seq<Event>, key: string, i: nat, j: nat) {
    exists k | i < k < j && k < |log| :: log[k] == ClearedErrors(key)
  }

  /** No request about a group starts within errTTL of a transient failure for it, unless the
      failure was cleared in between. */
  ghost predicate BacksOff(log: seq<Event>, errTTL: nat) {
    forall i, j | 0 <= i < j < |log| && Transient(log[i]) && IsFetch(log[j], Key(log[i].ecosystem, log[i].group)) ::
      ClearedBetween(log, Key(log[i].ecosystem, log[i].group), i, j) || log[j].started > log[i].ended + errTTL
  }

  /** Each uncleared failure is over, or on record until it is. */
  ghost predicate OnRecord(log: seq<Event>, errors: map<string, int>, now: int, errTTL: nat) {
    forall i | 0 <= i < |log| && Transient(log[i]) ::
      var key := Key(log[i].ecosystem, log[i].group);
      || ClearedBetween(log, key, i, |log|)
      || now > log[i].ended + errTTL
      || (key in errors && errors[key] >= log[i].ended + errTTL)
  }

  /** A failure of a group at a log position that ended at some time and has not been cleared. */
  predicate Uncleared(log: seq<Event>, key: string, i: nat, ended: int) {
    && i < |log| && Transient(log[i]) && Key(log[i].ecosystem, log[i].group) == key && log[i].ended == ended
    && !ClearedBetween(log, key, i, |log|)
  }

  /** A record that lasts errTTL from an uncleared failure. */
  ghost predicate Recorded(log: seq<Event>, key: string, until: int, errTTL: nat) {
    exists i: nat, ended: int :: Uncleared(log, key, i, ended) && until == ended + errTTL
  }

  ghost predicate RecordsKept(log: seq<Event>, errors: map<string, int>, errTTL: nat) {
    forall key | key in errors :: Recorded(log, key, errors[key], errTTL)
  }

  lemma UnclearedGrows(log: seq<Event>, e: Event, key: string, i: nat, ended: int)
    requires Uncleared(log, key, i, ended) && e != ClearedErrors(key)
    ensures Uncleared(log + [e], key, i, ended)
  {
    assert forall k | i < k < |log| :: (log + [e])[k] == log[k];
  }

  lemma RecordsGrow(log: seq<Event>, e: Event, errors: map<string, int>, errTTL: nat)
    requires RecordsKept(log, errors, errTTL) && (e.ClearedErrors? ==> e.key !in errors)
    ensures RecordsKept(log + [e], errors, errTTL)
  {
    hide Uncleared;
    forall key | key in errors ensures Recorded(log + [e], key, errors[key], errTTL) {
      var i: nat, ended: int :| Uncleared(log, key, i, ended) && errors[key] == ended + errTTL;
      UnclearedGrows(log, e, key, i, ended);
    }
  }

  lemma RecordsLeft(log: seq<Event>, errors: map<string, int>, errTTL: nat, key: string)
    requires RecordsKept(log, errors, errTTL)
    ensures RecordsKept(log, errors - {key}, errTTL)
  {
    hide Recorded;
  }

  lemma RecordMade(log: seq<Event>, e: Event, errors: map<string, int>, errTTL: nat)
    requires RecordsKept(log, errors, errTTL) && Transient(e)
    ensures RecordsKept(log + [e], errors[Key(e.ecosystem, e.group) := e.ended + errTTL], errTTL)
  {
    RecordsGrow(log, e, errors, errTTL);
    assert Uncleared(log + [e], Key(e.ecosystem, e.group), |log|, e.ended);
  }

  /** A failure of the group had not been cleared, nor was it over when a call began. */
  ghost predicate BackedOff(log: seq<Event>, key: string, from: int, errTTL: nat) {
    exists i: nat, ended: int :: Uncleared(log, key, i, ended) && from <= ended + errTTL
  }

  lemma BackedOffEarlier(log: seq<Event>, key: string, from: int, from': int, errTTL: nat)
    requires BackedOff(log, key, from, errTTL) && from' <= from
    ensures BackedOff(log, key, from', errTTL)
  {
    hide Uncleared;
  }

  lemma RecordBacksOff(log: seq<Event>, key: string, errors: map<string, int>, from: int, errTTL: nat)
    requires RecordsKept(log, errors, errTTL) && key in errors && from <= errors[key]
    ensures BackedOff(log, key, from, errTTL)
  {
  }

  ghost predicate EndsInPast(log: seq<Event>, now: int) {
    forall i | 0 <= i < |log| && log[i].Fetch? :: log[i].started <= log[i].ended <= now
  }

  lemma ClearedGrows(log: seq<Event>, more: seq<Event>, key: string, i: nat, j: nat, j': nat)
    requires ClearedBetween(log, key, i, j) && j <= j'
    ensures ClearedBetween(log + more, key, i, j')
  {
    var k :| i < k < j && k < |log| && log[k] == ClearedErrors(key);
    assert (log + more)[k] == log[k];
  }

  /** Logging a request made while its group is on no record. */
  lemma FetchLogged(log: seq<Event>, e: Event, errors: map<string, int>, now: int, errTTL: nat)
    requires BacksOff(log, errTTL) && OnRecord(log, errors, now, errTTL)
    requires e.Fetch? && Key(e.ecosystem, e.group) !in errors && e.started >= now
    ensures BacksOff(log + [e], errTTL)
  {
    var longer := log + [e];
    forall i, j | 0 <= i < j < |longer| && Transient(longer[i])
                && IsFetch(longer[j], Key(longer[i].ecosystem, longer[i].group))
      ensures ClearedBetween(longer, Key(longer[i].ecosystem, longer[i].group), i, j)
          || longer[j].started > longer[i].ended + errTTL
    {
      var key := Key(log[i].ecosystem, log[i].group);
      if ClearedBetween(log, key, i, j) { ClearedGrows(log, [e], key, i, j, j); }
      if j < |log| { assert longer[j] == log[j]; }
    }
  }

  lemma OnRecordGrows(log: seq<Event>, e: Event, errors: map<string, int>, now: int, now': int, errTTL: nat)
    requires OnRecord(log, errors, now, errTTL) && now <= now' && !Transient(e)
    ensures OnRecord(log + [e], errors, now', errTTL)
  {
    var longer := log + [e];
    forall i | 0 <= i < |longer| && Transient(longer[i])
      ensures
        var key := Key(longer[i].ecosystem, longer[i].group);
        || ClearedBetween(longer, key, i, |longer|)
        || now' > longer[i].ended + errTTL
        || (key in errors && errors[key] >= longer[i].ended + errTTL)
    {
      var key := Key(log[i].ecosystem, log[i].group);
      if ClearedBetween(log, key, i, |log|) { ClearedGrows(log, [e], key, i, |log|, |longer|); }
    }
  }

  lemma FailureNoted(log: seq<Event>, e: Event, errors: map<string, int>, now: int, now': int, errTTL: nat)
    requires OnRecord(log, errors, now, errTTL) && EndsInPast(log, now) && now <= now'
    requires Transient(e) && e.ended <= now'
    ensures OnRecord(log + [e], errors[Key(e.ecosystem, e.group) := now' + errTTL], now', errTTL)
  {
    var longer := log + [e];
    forall i | 0 <= i < |longer| && Transient(longer[i])
      ensures
        var key := Key(longer[i].ecosystem, longer[i].group);
        var errors' := errors[Key(e.ecosystem, e.group) := now' + errTTL];
        || ClearedBetween(longer, key, i, |longer|)
        || now' > longer[i].ended + errTTL
        || (key in errors' && errors'[key] >= longer[i].ended + errTTL)
    {
      if i < |log| {
        var key := Key(log[i].ecosystem, log[i].group);
        if ClearedBetween(log, key, i, |log|) { ClearedGrows(log, [e], key, i, |log|, |longer|); }
      }
    }
  }

  /** An entry that has expired, or whose failures are all over, may be dropped. */
  lemma ErrorDropped(log: seq<Event>, errors: map<string, int>, now: int, errTTL: nat, key: string)
    requires OnRecord(log, errors, now, errTTL) && key in errors && now > errors[key]
    requires RecordsKept(log, errors, errTTL)
    ensures OnRecord(log, errors - {key}, now, errTTL) && RecordsKept(log, errors - {key}, errTTL)
  {
    hide Recorded;
  }

  lemma ErrorsCleared(log: seq<Event>, errors: map<string, int>, now: int, errTTL: nat, key: string)
    requires OnRecord(log, errors, now, errTTL) && BacksOff(log, errTTL)
    ensures OnRecord(log + [ClearedErrors(key)], errors - {key}, now, errTTL)
    ensures BacksOff(log + [ClearedErrors(key)], errTTL)
  {
    var e := ClearedErrors(key);
    var longer := log + [e];
    forall i | 0 <= i < |longer| && Transient(longer[i])
      ensures
        var key' := Key(longer[i].ecosystem, longer[i].group);
        || ClearedBetween(longer, key', i, |longer|)
        || now > longer[i].ended + errTTL
        || (key' in errors - {key} && (errors - {key})[key'] >= longer[i].ended + errTTL)
    {
      var key' := Key(log[i].ecosystem, log[i].group);
      if ClearedBetween(log, key', i, |log|) { ClearedGrows(log, [e], key', i, |log|, |longer|); }
      if key' == key { assert longer[|log|] == ClearedErrors(key'); }
    }
    OtherLogged(log, e, errTTL);
  }

  lemma OtherLogged(log: seq<Event>, e: Event, errTTL: nat)
    requires BacksOff(log, errTTL) && !e.Fetch?
    ensures BacksOff(log + [e], errTTL)
  {
    var longer := log + [e];
    forall i, j | 0 <= i < j < |longer| && Transient(longer[i])
                && IsFetch(longer[j], Key(longer[i].ecosystem, longer[i].group))
      ensures ClearedBetween(longer, Key(longer[i].ecosystem, longer[i].group), i, j)
          || longer[j].started > longer[i].ended + errTTL
    {
      var key := Key(log[i].ecosystem, log[i].group);
      assert longer[j] == log[j];
      if ClearedBetween(log, key, i, j) { ClearedGrows(log, [e], key, i, j, j); }
    }
  }

  // ---------- what the caches hold ----------

  datatype VersionsEntry = VersionsEntry(versions: seq<string>, indexed: bool, expiresAt: int)

  datatype ManifestKey = ManifestKey(ecosystem: string, group: string, version: string)

  datatype ManifestEntry = ManifestEntry(manifest: Manifest, found: bool, expiresAt: int)

  /** How long an answer may be served. */
  datatype Times = Times(posTTL: nat, negTTL: nat, errTTL: nat)

  predicate IsManifestFetch(e: Event, key: ManifestKey, answer: Fetched<Manifest>) {
    e.Fetch? && e.ecosystem == key.ecosystem && e.group == key.group && e.answer == ManifestOf(key.version, answer)
  }

  function VersionsOf(e: VersionsEntry): Fetched<seq<string>> { if e.indexed then Got(e.versions) else NotFound }

  function ManifestIn(e: ManifestEntry): Fetched<Manifest> { if e.found then Got(e.manifest) else NotFound }

  ghost predicate VersionsKept(log: seq<Event>, cache: map<string, VersionsEntry>, times: Times) {
    forall key | key in cache ::
      exists i | 0 <= i < |log| ::
        IsFetch(log[i], key) && log[i].answer == Versions(VersionsOf(cache[key])) &&
            cache[key].expiresAt == log[i].ended + if cache[key].indexed then times.posTTL else times.negTTL
  }

  ghost predicate ManifestsKept(log: seq<Event>, cache: map<ManifestKey, ManifestEntry>, times: Times) {
    forall key | key in cache ::
      exists i | 0 <= i < |log| ::
        IsManifestFetch(log[i], key, ManifestIn(cache[key])) &&
            cache[key].expiresAt == log[i].ended + if cache[key].found then times.posTTL else times.negTTL
  }

  /** An answer given at some time is that of a request that has just ended, or ended less than its time to live
      before. */
  predicate Fresh(e: Event, found: bool, at: int, times: Times)
    requires e.Fetch?
  {
    at == e.ended || at < e.ended + if found then times.posTTL else times.negTTL
  }

  ghost predicate VersionsAnswered(log: seq<Event>, key: string, list: Fetched<seq<string>>, at: int, times: Times) {
    exists i | 0 <= i < |log| ::
        IsFetch(log[i], key) && log[i].answer == Versions(list) && Fresh(log[i], list.Got?, at, times)
  }

  ghost predicate ManifestAnswered(log: seq<Event>, key: ManifestKey, manifest: Fetched<Manifest>, at: int,
          times: Times) {
    exists i | 0 <= i < |log| :: IsManifestFetch(log[i], key, manifest) && Fresh(log[i], manifest.Got?, at, times)
  }

  /** A manifest fetched before the given log position states this integrity for the item. */
  ghost predicate Stated(log: seq<Event>, item: Item, integrity: string, before: nat) {
    exists i, manifest | 0 <= i < before && i < |log| ::
      && IsManifestFetch(log[i], ManifestKey(item.ecosystem, item.group, item.version), Got(manifest))
      && item.kind in manifest && manifest[item.kind] == integrity
  }

  /** Only bytes that hash to the integrity stated for the item are written, and to that item's path. */
  ghost predicate WritesSound(log: seq<Event>, hash: Bytes -> string, root: string) {
    forall k | 0 <= k < |log| && log[k].Wrote? ::
      var Wrote(item, path, body, integrity) := log[k];
      Verified(hash, body, integrity) && CachePath(root, item) == Some(path) && Stated(log, item, integrity, k)
  }

  /** Requests for the version list of one group, or for one manifest. */
  predicate SameQuestion(a: Event, b: Event) {
    && a.Fetch? && b.Fetch? && a.ecosystem == b.ecosystem && a.group == b.group
    && match a.answer
       case Versions(_) => b.answer.Versions?
       case ManifestOf(version, _) => b.answer.ManifestOf? && b.answer.version == version
       case SchemaOf(_, _, _) => false
  }

  predicate PastTTL<T>(answer: Fetched<T>, ended: int, at: int, times: Times) {
    && (answer.Got? ==> at >= ended + times.posTTL)
    && (answer.NotFound? ==> at >= ended + times.negTTL)
  }

  /** The time to live of an answer, if it has one, is over. */
  predicate Outdated(e: Event, at: int, times: Times) {
    e.Fetch? ==> match e.answer
      case Versions(list) => PastTTL(list, e.ended, at, times)
      case ManifestOf(_, manifest) => PastTTL(manifest, e.ended, at, times)
      case SchemaOf(_, _, _) => true
  }

  /** No question is asked again before the time to live of its answer is over. */
  ghost predicate AsksOnce(log: seq<Event>, times: Times) {
    forall i, j | 0 <= i < j < |log| && SameQuestion(log[i], log[j]) :: Outdated(log[i], log[j].started, times)
  }

  function ManifestKeyOf(e: Event): ManifestKey
    requires e.Fetch? && e.answer.ManifestOf?
  {
    ManifestKey(e.ecosystem, e.group, e.answer.version)
  }

  /** An answer that may still be served is in the caches. */
  predicate InCaches(e: Event, vCache: map<string, VersionsEntry>, mCache: map<ManifestKey, ManifestEntry>,
                     times: Times) {
    e.Fetch? ==> match e.answer
      case Versions(list) =>
        var key := Key(e.ecosystem, e.group);
        list.Failed? || (key in vCache && Outdated(e, vCache[key].expiresAt, times))
      case ManifestOf(_, manifest) =>
        var key := ManifestKeyOf(e);
        manifest.Failed? || (key in mCache && Outdated(e, mCache[key].expiresAt, times))
      case SchemaOf(_, _, _) => true
  }

  ghost predicate AllCached(log: seq<Event>, vCache: map<string, VersionsEntry>,
                            mCache: map<ManifestKey, ManifestEntry>, times: Times) {
    forall i | 0 <= i < |log| :: InCaches(log[i], vCache, mCache, times)
  }

  /** The caches hold nothing that could have been served instead of making the request. */
  predicate Lapsed(e: Event, vCache: map<string, VersionsEntry>, mCache: map<ManifestKey, ManifestEntry>) {
    e.Fetch? ==> match e.answer
      case Versions(_) =>
        var key := Key(e.ecosystem, e.group);
        key in vCache ==> vCache[key].expiresAt <= e.started
      case ManifestOf(_, _) =>
        var key := ManifestKeyOf(e);
        key in mCache ==> mCache[key].expiresAt <= e.started
      case SchemaOf(_, _, _) => true
  }

  /** The caches after an answer has been kept, if it is one to keep. */
  predicate Kept(e: Event, vCache: map<string, VersionsEntry>, vCache': map<string, VersionsEntry>,
                 mCache: map<ManifestKey, ManifestEntry>, mCache': map<ManifestKey, ManifestEntry>, times: Times) {
    if e.Fetch? && e.answer.Versions? && !e.answer.list.Failed? then
      var key := Key(e.ecosystem, e.group);
      && mCache' == mCache && key in vCache' && vCache' == vCache[key := vCache'[key]]
      && VersionsOf(vCache'[key]) == e.answer.list
      && vCache'[key].expiresAt == e.ended + (if e.answer.list.Got? then times.posTTL else times.negTTL)
    else if e.Fetch? && e.answer.ManifestOf? && !e.answer.manifest.Failed? then
      var key := ManifestKeyOf(e);
      && vCache' == vCache && key in mCache' && mCache' == mCache[key := mCache'[key]]
      && ManifestIn(mCache'[key]) == e.answer.manifest
      && mCache'[key].expiresAt == e.ended + (if e.answer.manifest.Got? then times.posTTL else times.negTTL)
    else vCache' == vCache && mCache' == mCache
  }

  lemma NotKept(log: seq<Event>, e: Event, ended: int, vCache: map<string, VersionsEntry>,
                mCache: map<ManifestKey, ManifestEntry>, times: Times)
    requires AsksOnce(log, times) && AllCached(log, vCache, mCache, times) && Lapsed(e, vCache, mCache)
    requires e.Fetch? && Transient(e) && e.started <= ended
    ensures AsksOnce(log + [e.(ended := ended)], times)
    ensures AllCached(log + [e.(ended := ended)], vCache, mCache, times)
  {
    AskedAfresh(log, e.(ended := ended), vCache, vCache, mCache, mCache, times);
  }

  /** Making a request only when the caches have lapsed, and keeping its answer. */
  lemma AskedAfresh(log: seq<Event>, e: Event, vCache: map<string, VersionsEntry>, vCache': map<string, VersionsEntry>,
                    mCache: map<ManifestKey, ManifestEntry>, mCache': map<ManifestKey, ManifestEntry>, times: Times)
    requires AsksOnce(log, times) && AllCached(log, vCache, mCache, times)
    requires Lapsed(e, vCache, mCache) && Kept(e, vCache, vCache', mCache, mCache', times)
    requires e.Fetch? ==> e.started <= e.ended
    ensures AsksOnce(log + [e], times) && AllCached(log + [e], vCache', mCache', times)
  {
    var longer := log + [e];
    forall i, j | 0 <= i < j < |longer| && SameQuestion(longer[i], longer[j])
      ensures Outdated(longer[i], longer[j].started, times)
    {
      assert InCaches(log[i], vCache, mCache, times);
    }
    forall i | 0 <= i < |longer| ensures InCaches(longer[i], vCache', mCache', times) {
      if i < |log| { assert InCaches(log[i], vCache, mCache, times); }
    }
  }

  lemma StatedGrows(log: seq<Event>, more: seq<Event>, item: Item, integrity: string, before: nat, before': nat)
    requires Stated(log, item, integrity, before) && before <= before'
    ensures Stated(log + more, item, integrity, before')
  {
    var i, manifest :| 0 <= i < before && i < |log|
      && IsManifestFetch(log[i], ManifestKey(item.ecosystem, item.group, item.version), Got(manifest))
      && item.kind in manifest && manifest[item.kind] == integrity;
    assert (log + more)[i] == log[i];
  }

  lemma LogGrows(log: seq<Event>, e: Event, vCache: map<string, VersionsEntry>, mCache: map<ManifestKey, ManifestEntry>,
                 times: Times, hash: Bytes -> string, root: string)
    requires VersionsKept(log, vCache, times) && ManifestsKept(log, mCache, times) && WritesSound(log, hash, root)
    ensures VersionsKept(log + [e], vCache, times) && ManifestsKept(log + [e], mCache, times)
    ensures !e.Wrote? ==> WritesSound(log + [e], hash, root)
  {
    var longer := log + [e];
    assert forall i | 0 <= i < |log| :: longer[i] == log[i];
    forall k | 0 <= k < |longer| && longer[k].Wrote? && !e.Wrote?
      ensures
        var Wrote(item, path, body, integrity) := longer[k];
        Verified(hash, body, integrity) && CachePath(root, item) == Some(path) && Stated(longer, item, integrity, k)
    {
      StatedGrows(log, [e], log[k].item, log[k].integrity, k, k);
    }
  }

  lemma TimePasses(log: seq<Event>, errors: map<string, int>, now: int, now': int, errTTL: nat)
    requires now <= now'
    ensures EndsInPast(log, now) ==> EndsInPast(log, now')
    ensures OnRecord(log, errors, now, errTTL) ==> OnRecord(log, errors, now', errTTL)
  {
  }

  lemma LogFetch(log: seq<Event>, e: Event, errors: map<string, int>, now: int, errTTL: nat)
    requires EndsInPast(log, now) && BacksOff(log, errTTL)
    requires e.Fetch? && e.started <= e.ended <= now && Key(e.ecosystem, e.group) !in errors
    requires OnRecord(log, errors, e.started, errTTL)
    ensures EndsInPast(log + [e], now) && BacksOff(log + [e], errTTL)
  {
    hide ClearedBetween;
    FetchLogged(log, e, errors, e.started, errTTL);
  }

  /** Exactly one request was made, for the given group and with the given answer. */
  predicate OneFetch(log: seq<Event>, log': seq<Event>, ecosystem: string, group: string, answer: Answer) {
    |log'| == |log| + 1 && log' == log + [log'[|log|]]
    && log'[|log|].Fetch? && log'[|log|].ecosystem == ecosystem && log'[|log|].group == group
    && log'[|log|].answer == answer
  }

  /** At most the back-off of the given group has changed, and one is open afterwards that was not
      before only if the last request was a transient failure. */
  predicate Noted(key: string, errors: map<string, int>, errors': map<string, int>, log': seq<Event>) {
    && errors' - {key} == errors - {key}
    && (key in errors' && key !in errors ==> log' != [] && Transient(log'[|log'| - 1]))
  }

  lemma KeptVersions(log: seq<Event>, cache: map<string, VersionsEntry>, key: string, entry: VersionsEntry,
                     times: Times)
    requires VersionsKept(log, cache, times) && log != []
    requires
      var e := log[|log| - 1];
      IsFetch(e, key) && e.answer == Versions(VersionsOf(entry)) &&
          entry.expiresAt == e.ended + if entry.indexed then times.posTTL else times.negTTL
    ensures VersionsKept(log, cache[key := entry], times)
  {
  }

  lemma KeptManifest(log: seq<Event>, cache: map<ManifestKey, ManifestEntry>, key: ManifestKey, entry: ManifestEntry,
                     times: Times)
    requires ManifestsKept(log, cache, times) && log != []
    requires
      var e := log[|log| - 1];
      IsManifestFetch(e, key, ManifestIn(entry)) &&
          entry.expiresAt == e.ended + if entry.found then times.posTTL else times.negTTL
    ensures ManifestsKept(log, cache[key := entry], times)
  {
  }

  lemma VersionsServed(log: seq<Event>, cache: map<string, VersionsEntry>, key: string, at: int, times: Times)
    requires VersionsKept(log, cache, times) && key in cache && at < cache[key].expiresAt
    ensures VersionsAnswered(log, key, VersionsOf(cache[key]), at, times)
  {
  }

  lemma EntryAnswers(log: seq<Event>, cache: map<ManifestKey, ManifestEntry>, key: ManifestKey, at: int, times: Times)
    requires ManifestsKept(log, cache, times) && key in cache && at < cache[key].expiresAt
    ensures ManifestAnswered(log, key, ManifestIn(cache[key]), at, times)
  {
  }

  /** The clock when a call began and when it ended, and how long its answers may be served. */
  datatype Span = Span(from: int, to: int, times: Times)

  /** An answer the cache could serve, or the registry gave, at some time of a call. */
  ghost predicate ListServed(log: seq<Event>, key: string, list: Fetched<seq<string>>, span: Span) {
    exists at | span.from <= at <= span.to :: VersionsAnswered(log, key, list, at, span.times)
  }

  ghost predicate ManifestServed(log: seq<Event>, key: ManifestKey, manifest: Fetched<Manifest>, span: Span) {
    exists at | span.from <= at <= span.to :: ManifestAnswered(log, key, manifest, at, span.times)
  }

  /** A manifest served in a call states this integrity for the item. */
  ghost predicate StatedNow(log: seq<Event>, item: Item, integrity: string, span: Span) {
    exists manifest | item.kind in manifest && manifest[item.kind] == integrity ::
      ManifestServed(log, ManifestKey(item.ecosystem, item.group, item.version), Got(manifest), span)
  }

  /** A schema that hashes to its integrity, which a manifest fetched for it states. */
  ghost predicate Genuine(log: seq<Event>, hash: Bytes -> string, item: Item, r: Resolved) {
    Verified(hash, r.schema, r.integrity) && Stated(log, item, r.integrity, |log|)
  }

  /** A version list served in a call names this version first. */
  ghost predicate Latest(log: seq<Event>, key: string, version: string, span: Span) {
    exists list | list != [] && list[0] == version :: ListServed(log, key, Got(list), span)
  }

  /** One request for the item, and what follows from its answer: a body with the right hash is
      handed out and, to a safe path, written; any other is an error, a 404 stays one. */
  predicate ItemFetched(more: seq<Event>, hash: Bytes -> string, path: Option<string>, item: Item, integrity: string,
          r: Fetched<Resolved>) {
    && more != [] && more[0].Fetch? && more[0].ecosystem == item.ecosystem && more[0].group == item.group
    && more[0].answer.SchemaOf? && more[0].answer.version == item.version && more[0].answer.kind == item.kind
    && match more[0].answer.schema
       case NotFound => r.NotFound? && |more| == 1
       case Failed(_) => r.Failed? && |more| == 1
       case Got(body) =>
         if !Verified(hash, body, integrity) then r.Failed? && |more| == 1
         else r == Got(Resolved(item.version, integrity, body))
              && more[1..] == if path.Some? then [Wrote(item, path.value, body, integrity)] else []
  }

  /** The last request so far was made in this call, for the schema of an item. */
  ghost predicate AskedLast(log: seq<Event>, item: Item, schema: Fetched<Bytes>, span: Span) {
    && log != [] && log[|log| - 1].Fetch? && log[|log| - 1].started >= span.from
    && log[|log| - 1].ecosystem == item.ecosystem && log[|log| - 1].group == item.group
    && log[|log| - 1].answer == SchemaOf(item.version, item.kind, schema)
  }

  /** Why an item is not there: the manifest served for it is absent or does not list its kind, or it
      states an integrity but the schema is absent. */
  ghost predicate Absent(log: seq<Event>, item: Item, span: Span) {
    var key := ManifestKey(item.ecosystem, item.group, item.version);
    || ManifestServed(log, key, NotFound, span)
    || (exists manifest | item.kind !in manifest :: ManifestServed(log, key, Got(manifest), span))
    || ((exists integrity :: StatedNow(log, item, integrity, span)) && AskedLast(log, item, NotFound, span))
  }

  /** Why an item cannot be had: its group is backed off, or the request for its schema failed, or gave
      bytes without the hash that the manifest served for it states. */
  ghost predicate Unavailable(log: seq<Event>, hash: Bytes -> string, item: Item, span: Span) {
    || BackedOff(log, Key(item.ecosystem, item.group), span.from, span.times.errTTL)
    || (exists message :: AskedLast(log, item, Failed(message), span))
    || (exists body, integrity | !Verified(hash, body, integrity) ::
          AskedLast(log, item, Got(body), span) && StatedNow(log, item, integrity, span))
  }

  /** What an answer about an item at a given version rests on. */
  ghost predicate JustifiedAt(log: seq<Event>, hash: Bytes -> string, item: Item, r: Fetched<Resolved>, span: Span) {
    match r
    case Got(got) =>
      got.version == item.version && Genuine(log, hash, item, got) && StatedNow(log, item, got.integrity, span)
    case NotFound => Absent(log, item, span)
    case Failed(_) => Unavailable(log, hash, item, span)
  }

  /** What an answer about an item at the latest version rests on: it is that for the first version of a
      list served in the call; or there is no such list, or none can be had. */
  ghost predicate JustifiedLatest(log: seq<Event>, hash: Bytes -> string, ecosystem: string, group: string,
                                  kind: string, r: Fetched<Resolved>, span: Span) {
    var key := Key(ecosystem, group);
    || (exists version :: Latest(log, key, version, span) &&
                          JustifiedAt(log, hash, Item(ecosystem, group, version, kind), r, span))
    || (r.NotFound? && (ListServed(log, key, NotFound, span) || ListServed(log, key, Got([]), span)))
    || (r.Failed? && BackedOff(log, key, span.from, span.times.errTTL))
  }

  lemma AnswerStates(log: seq<Event>, item: Item, manifest: Manifest, at: int, times: Times)
    requires ManifestAnswered(log, ManifestKey(item.ecosystem, item.group, item.version), Got(manifest), at, times)
    requires item.kind in manifest
    ensures Stated(log, item, manifest[item.kind], |log|)
  {
  }

  lemma ListStays(log: seq<Event>, longer: seq<Event>, key: string, list: Fetched<seq<string>>, at: int, span: Span)
    requires VersionsAnswered(log, key, list, at, span.times) && log <= longer && span.from <= at <= span.to
    ensures ListServed(longer, key, list, span)
  {
    var i :| 0 <= i < |log| && IsFetch(log[i], key) && log[i].answer == Versions(list) &&
        Fresh(log[i], list.Got?, at, span.times);
    assert longer[i] == log[i];
    assert VersionsAnswered(longer, key, list, at, span.times);
  }

  lemma ManifestStays(log: seq<Event>, longer: seq<Event>, key: ManifestKey, manifest: Fetched<Manifest>, at: int,
      span: Span)
    requires ManifestAnswered(log, key, manifest, at, span.times) && log <= longer && span.from <= at <= span.to
    ensures ManifestServed(longer, key, manifest, span)
  {
    var i :| 0 <= i < |log| && IsManifestFetch(log[i], key, manifest) && Fresh(log[i], manifest.Got?, at, span.times);
    assert longer[i] == log[i];
    assert ManifestAnswered(longer, key, manifest, at, span.times);
  }

  lemma WriteLogged(log: seq<Event>, e: Event, hash: Bytes -> string, root: string)
    requires WritesSound(log, hash, root) && e.Wrote?
    requires Verified(hash, e.body, e.integrity) && CachePath(root, e.item) == Some(e.path)
        && Stated(log, e.item, e.integrity, |log|)
    ensures WritesSound(log + [e], hash, root)
  {
    var longer := log + [e];
    forall k | 0 <= k < |longer| && longer[k].Wrote?
      ensures
        var Wrote(item, path, body, integrity) := longer[k];
        Verified(hash, body, integrity) && CachePath(root, item) == Some(path) && Stated(longer, item, integrity, k)
    {
      StatedGrows(log, [e], longer[k].item, longer[k].integrity, k, k);
    }
  }

  datatype Call =
    | AtLatest(ecosystem: string, group: string, kind: string)
    | AtVersion(ecosystem: string, group: string, kind: string, version: string)
    | ListVersions(ecosystem: string, group: string)
    | Clear(ecosystem: string, group: string)

  datatype Reply = Schema(answer: Fetched<Resolved>) | VersionList(list: Fetched<seq<string>>) | Done

  /** What every reply rests on. */
  ghost predicate Justified(log: seq<Event>, hash: Bytes -> string, request: Call, reply: Reply, span: Span) {
    match request
    case AtLatest(ecosystem, group, kind) =>
      reply.Schema? && JustifiedLatest(log, hash, ecosystem, group, kind, reply.answer, span)
    case AtVersion(ecosystem, group, kind, version) =>
      reply.Schema? && JustifiedAt(log, hash, Item(ecosystem, group, version, kind), reply.answer, span)
    case ListVersions(ecosystem, group) =>
      && reply.VersionList?
      && if reply.list.Failed? then BackedOff(log, Key(ecosystem, group), span.from, span.times.errTTL)
         else ListServed(log, Key(ecosystem, group), reply.list, span)
    case Clear(_, _) => reply.Done?
  }

  /** When a reply was given: how long the history was, and the clock before and after. */
  datatype Moment = Moment(events: nat, from: int, to: int)

  predicate Follows(a: Moment, b: Moment) {
    a.events <= b.events && a.to <= b.from
  }

  ghost predicate JustifiedThen(log: seq<Event>, hash: Bytes -> string, request: Call, reply: Reply, at: Moment,
                                times: Times) {
    at.events <= |log| && at.from <= at.to &&
    Justified(log[..at.events], hash, request, reply, Span(at.from, at.to, times))
  }

  // ---------- the resolver ----------

  class Resolver {
    const hash: Bytes -> string
    const root: string
    const times: Times
    var vCache: map<string, VersionsEntry>
    var mCache: map<ManifestKey, ManifestEntry>
    var errors: map<string, int>
    /** The clock. */
    var now: int
    ghost var log: seq<Event>

    ghost predicate Valid()
      reads this
    {
      && EndsInPast(log, now) && BacksOff(log, times.errTTL)
      && OnRecord(log, errors, now, times.errTTL) && RecordsKept(log, errors, times.errTTL)
      && VersionsKept(log, vCache, times) && ManifestsKept(log, mCache, times) && WritesSound(log, hash, root)
      && AsksOnce(log, times) && AllCached(log, vCache, mCache, times)
    }

    constructor (hash: Bytes -> string, root: string, times: Times)
      ensures Valid() && log == [] && this.times == times && this.hash == hash && this.root == root
    {
      this.hash, this.root, this.times := hash, root, times;
      vCache, mCache, errors, log := map[], map[], map[], [];
    }

    /** time.Now: any time not before the last. */
    method Now() returns (t: int)
      requires Valid()
      modifies this`now
      ensures Valid() && t == now >= old(now)
    {
      hide EndsInPast, BacksOff, OnRecord, RecordsKept, VersionsKept, ManifestsKept, WritesSound, AsksOnce, AllCached;
      t :| t >= now;
      TimePasses(log, errors, now, t, times.errTTL);
      now := t;
    }

    method IsTransientError(key: string) returns (active: bool)
      requires Valid()
      modifies this`now, this`errors
      ensures Valid() && now >= old(now)
      ensures active ==> key in errors
      ensures key in old(errors) ==> (active <==> now <= old(errors)[key])
      ensures errors == if active then old(errors) else old(errors) - {key}
    {
      hide EndsInPast, BacksOff, OnRecord, RecordsKept, VersionsKept, ManifestsKept, WritesSound, AsksOnce, AllCached;
      if key !in errors {
        return false;
      }
      var t := Now();
      if t > errors[key] {
        ErrorDropped(log, errors, now, times.errTTL, key);
        errors := errors - {key};
        return false;
      }
      return true;
    }

    method ClearTransientErrors(key: string)
      requires Valid()
      modifies this`errors, this`log
      ensures Valid() && key !in errors && log == old(log) + [ClearedErrors(key)]
    {
      hide BacksOff, OnRecord, RecordsKept, VersionsKept, ManifestsKept, WritesSound;
      RecordsLeft(log, errors, times.errTTL, key);
      ErrorsCleared(log, errors, now, times.errTTL, key);
      RecordsGrow(log, ClearedErrors(key), errors - {key}, times.errTTL);
      LogGrows(log, ClearedErrors(key), vCache, mCache, times, hash, root);
      errors := errors - {key};
      log := log + [ClearedErrors(key)];
    }

    /** A request that has ended well, or with a failure that is not noted, may join the history. */
    lemma Asked(e: Event)
      requires Valid() && e.Fetch? && !Transient(e) && e.started <= e.ended <= now
      requires Key(e.ecosystem, e.group) !in errors && OnRecord(log, errors, e.started, times.errTTL)
      ensures EndsInPast(log + [e], now) && BacksOff(log + [e], times.errTTL)
      ensures OnRecord(log + [e], errors, now, times.errTTL) && RecordsKept(log + [e], errors, times.errTTL)
      ensures VersionsKept(log + [e], vCache, times) && ManifestsKept(log + [e], mCache, times)
      ensures WritesSound(log + [e], hash, root)
    {
      hide EndsInPast, BacksOff, OnRecord, RecordsKept, VersionsKept, ManifestsKept, WritesSound, Transient;
      hide AsksOnce, AllCached;
      LogFetch(log, e, errors, now, times.errTTL);
      OnRecordGrows(log, e, errors, now, now, times.errTTL);
      RecordsGrow(log, e, errors, times.errTTL);
      LogGrows(log, e, vCache, mCache, times, hash, root);
    }

    /** The answer to a request for a schema has come. */
    ghost method Log(e: Event)
      requires Valid() && e.Fetch? && e.answer.SchemaOf? && e.started <= e.ended <= now
      requires Key(e.ecosystem, e.group) !in errors && OnRecord(log, errors, e.started, times.errTTL)
      modifies this`log
      ensures Valid() && log == old(log) + [e]
    {
      hide EndsInPast, BacksOff, OnRecord, RecordsKept, VersionsKept, ManifestsKept, WritesSound, AsksOnce, AllCached;
      Asked(e);
      AskedAfresh(log, e, vCache, vCache, mCache, mCache, times);
      log := log + [e];
    }

    /** The answer about a group's versions has come. */
    method KeepVersions(key: string, entry: VersionsEntry, ghost e: Event)
      requires Valid() && e.Fetch? && e.started <= e.ended <= now && Key(e.ecosystem, e.group) == key
      requires key !in errors && OnRecord(log, errors, e.started, times.errTTL) && Lapsed(e, vCache, mCache)
      requires e.answer == Versions(VersionsOf(entry))
          && entry.expiresAt == e.ended + if entry.indexed then times.posTTL else times.negTTL
      modifies this`log, this`vCache
      ensures Valid() && vCache == old(vCache)[key := entry] && log == old(log) + [e]
    {
      hide EndsInPast, BacksOff, OnRecord, RecordsKept, WritesSound, AsksOnce, AllCached, ManifestsKept, VersionsKept;
      Asked(e);
      KeptVersions(log + [e], vCache, key, entry, times);
      AskedAfresh(log, e, vCache, vCache[key := entry], mCache, mCache, times);
      vCache, log := vCache[key := entry], log + [e];
    }

    method KeepManifest(key: ManifestKey, entry: ManifestEntry, ghost e: Event)
      requires Valid() && e.Fetch? && e.started <= e.ended <= now
      requires Key(key.ecosystem, key.group) !in errors && OnRecord(log, errors, e.started, times.errTTL)
      requires Lapsed(e, vCache, mCache) && IsManifestFetch(e, key, ManifestIn(entry))
          && entry.expiresAt == e.ended + if entry.found then times.posTTL else times.negTTL
      modifies this`log, this`mCache
      ensures Valid() && mCache == old(mCache)[key := entry] && log == old(log) + [e]
    {
      hide EndsInPast, BacksOff, OnRecord, RecordsKept, WritesSound, AsksOnce, AllCached, ManifestsKept, VersionsKept;
      Asked(e);
      KeptManifest(log + [e], mCache, key, entry, times);
      AskedAfresh(log, e, vCache, vCache, mCache, mCache[key := entry], times);
      mCache, log := mCache[key := entry], log + [e];
    }

    /** noteTransientError, for a request that has just failed; the request counts as ended when its
        failure is noted. */
    method NoteTransientError(key: string, ghost e: Event)
      requires Valid() && e.Fetch? && Transient(e) && e.started <= now && Key(e.ecosystem, e.group) == key
      requires key !in errors && OnRecord(log, errors, e.started, times.errTTL) && Lapsed(e, vCache, mCache)
      modifies this`log, this`errors, this`now
      ensures Valid() && now >= old(now) && log == old(log) + [e.(ended := now)]
      ensures errors == old(errors)[key := now + times.errTTL]
    {
      hide EndsInPast, BacksOff, OnRecord, RecordsKept, VersionsKept, ManifestsKept, WritesSound, AsksOnce, AllCached;
      var t := Now();
      ghost var failed := e.(ended := t);
      hide Transient;
      LogFetch(log, failed, errors, now, times.errTTL);
      LogGrows(log, failed, vCache, mCache, times, hash, root);
      FailureNoted(log, failed, errors, now, now, times.errTTL);
      NotKept(log, e, t, vCache, mCache, times);
      RecordMade(log, failed, errors, times.errTTL);
      errors := errors[key := t + times.errTTL];
      log := log + [failed];
    }

    /** The failure of a list is answered exactly while a back-off is open; an entry that has not
        expired is answered without a request. */
    method GetVersions(ecosystem: string, group: string) returns (r: Fetched<seq<string>>)
      requires Valid()
      modifies this`now, this`errors, this`log, this`vCache
      ensures Valid() && now >= old(now) && (log == old(log) || OneFetch(old(log), log, ecosystem, group, Versions(r)))
      ensures !r.Failed? ==> VersionsAnswered(log, Key(ecosystem, group), r, now, times)
      ensures r.Failed? <==> Key(ecosystem, group) in errors
      ensures r.Failed? ==> BackedOff(log, Key(ecosystem, group), old(now), times.errTTL)
      ensures
        var key := Key(ecosystem, group);
        !r.Failed? && key in old(vCache) && now < old(vCache)[key].expiresAt ==>
            log == old(log) && r == VersionsOf(old(vCache)[key])
      ensures Noted(Key(ecosystem, group), old(errors), errors, log)
    {
      hide EndsInPast, BacksOff, OnRecord, RecordsKept, VersionsKept, ManifestsKept, WritesSound, AsksOnce, AllCached;
      var key := Key(ecosystem, group);
      var backedOff := IsTransientError(key);
      if backedOff {
        RecordBacksOff(log, key, errors, old(now), times.errTTL);
        return Failed("back-off");
      }
      if key in vCache {
        var t := Now();
        if t < vCache[key].expiresAt {
          VersionsServed(log, vCache, key, now, times);
          return VersionsOf(vCache[key]);
        }
      }
      var started := Now();
      r := *;
      var ended := Now();
      ghost var e := Fetch(ecosystem, group, Versions(r), started, ended);
      match r
      case Failed(_) =>
        NoteTransientError(key, e);
        RecordBacksOff(log, key, errors, old(now), times.errTTL);
      case NotFound => KeepVersions(key, VersionsEntry([], false, ended + times.negTTL), e);
      case Got(versions) => KeepVersions(key, VersionsEntry(versions, true, ended + times.posTTL), e);
    }

    method GetManifest(key: ManifestKey) returns (r: Fetched<Manifest>)
      requires Valid()
      modifies this`now, this`errors, this`log, this`mCache
      ensures Valid() && now >= old(now)
      ensures (log == old(log) || OneFetch(old(log), log, key.ecosystem, key.group, ManifestOf(key.version, r)))
      ensures !r.Failed? ==> ManifestAnswered(log, key, r, now, times)
      ensures r.Failed? <==> Key(key.ecosystem, key.group) in errors
      ensures r.Failed? ==> BackedOff(log, Key(key.ecosystem, key.group), old(now), times.errTTL)
      ensures !r.Failed? && key in old(mCache) && now < old(mCache)[key].expiresAt ==>
          log == old(log) && r == ManifestIn(old(mCache)[key])
      ensures Noted(Key(key.ecosystem, key.group), old(errors), errors, log)
    {
      hide EndsInPast, BacksOff, OnRecord, RecordsKept, VersionsKept, ManifestsKept, WritesSound, AsksOnce, AllCached;
      var backedOff := IsTransientError(Key(key.ecosystem, key.group));
      if backedOff {
        RecordBacksOff(log, Key(key.ecosystem, key.group), errors, old(now), times.errTTL);
        return Failed("back-off");
      }
      if key in mCache {
        var t := Now();
        if t < mCache[key].expiresAt {
          EntryAnswers(log, mCache, key, now, times);
          return ManifestIn(mCache[key]);
        }
      }
      var started := Now();
      r := *;
      var ended := Now();
      ghost var e := Fetch(key.ecosystem, key.group, ManifestOf(key.version, r), started, ended);
      match r
      case Failed(_) =>
        NoteTransientError(Key(key.ecosystem, key.group), e);
        RecordBacksOff(log, Key(key.ecosystem, key.group), errors, old(now), times.errTTL);
      case NotFound => KeepManifest(key, ManifestEntry(map[], false, ended + times.negTTL), e);
      case Got(manifest) => KeepManifest(key, ManifestEntry(manifest, true, ended + times.posTTL), e);
    }

    /** The schema with the integrity its manifest states: from the disk if what is there hashes to
        it, otherwise from the registry. A failure here opens no back-off. */
    method FetchItem(item: Item, integrity: string) returns (r: Fetched<Resolved>)
      requires Valid() && Key(item.ecosystem, item.group) !in errors && Stated(log, item, integrity, |log|)
      modifies this`now, this`log
      ensures Valid() && now >= old(now) && old(log) <= log
      ensures r.Got? ==>
                r.value.version == item.version && r.value.integrity == integrity && Genuine(log, hash, item, r.value)
      ensures forall i | |old(log)| <= i < |log| :: !Transient(log[i])
      ensures log == old(log) ==> r.Got?
      ensures r.NotFound? ==> AskedLast(log, item, NotFound, Span(old(now), now, times))
      ensures r.Failed? ==>
                || (exists message :: AskedLast(log, item, Failed(message), Span(old(now), now, times)))
                || (exists body | !Verified(hash, body, integrity) ::
                    AskedLast(log, item, Got(body), Span(old(now), now, times)))
      ensures log != old(log) ==> ItemFetched(log[|old(log)|..], hash, CachePath(root, item), item, integrity, r)
    {
      hide EndsInPast, BacksOff, OnRecord, RecordsKept, VersionsKept, ManifestsKept, WritesSound, AsksOnce, AllCached;
      var path := CachePath(root, item);
      var onDisk: Option<Bytes> := *;
      if path.Some? && onDisk.Some? && hash(onDisk.value) == integrity {
        return Got(Resolved(item.version, integrity, onDisk.value));
      }
      var started := Now();
      var answer: Fetched<Bytes> := *;
      var ended := Now();
      ghost var e := Fetch(item.ecosystem, item.group, SchemaOf(item.version, item.kind, answer), started, ended);
      StatedGrows(log, [e], item, integrity, |log|, |log| + 1);
      Log(e);
      match answer
      case NotFound => r := NotFound;
      case Failed(message) => r := Failed(message);
      case Got(body) =>
        if hash(body) != integrity {
          return Failed("integrity mismatch");
        }
        if path.Some? {
          Write(item, path.value, body, integrity);
        }
        r := Got(Resolved(item.version, integrity, body));
    }

    /** Whether or not the write succeeds. */
    method Write(item: Item, path: string, body: Bytes, integrity: string)
      requires Valid() && CachePath(root, item) == Some(path) && Verified(hash, body, integrity)
          && Stated(log, item, integrity, |log|)
      modifies this`log
      ensures Valid() && log == old(log) + [Wrote(item, path, body, integrity)] && Stated(log, item, integrity, |log|)
    {
      hide BacksOff, OnRecord, RecordsKept, VersionsKept, ManifestsKept, WritesSound, Stated, PathOf, Safe;
      ghost var e := Wrote(item, path, body, integrity);
      WriteLogged(log, e, hash, root);
      LogGrows(log, e, vCache, mCache, times, hash, root);
      OtherLogged(log, e, times.errTTL);
      OnRecordGrows(log, e, errors, now, now, times.errTTL);
      RecordsGrow(log, e, errors, times.errTTL);
      StatedGrows(log, [e], item, integrity, |log|, |log| + 1);
      log := log + [e];
    }

    /** The schema of a kind at a given version. */
    method ResolveAt(ecosystem: string, group: string, kind: string, version: string) returns (r: Fetched<Resolved>)
      requires Valid()
      modifies this
      ensures Valid() && now >= old(now) && old(log) <= log
      ensures JustifiedAt(log, hash, Item(ecosystem, group, version, kind), r, Span(old(now), now, times))
      ensures Noted(Key(ecosystem, group), old(errors), errors, log)
    {
      hide EndsInPast, BacksOff, OnRecord, RecordsKept, VersionsKept, ManifestsKept, WritesSound, AsksOnce, AllCached;
      var key := Key(ecosystem, group);
      var backedOff := IsTransientError(key);
      if backedOff {
        RecordBacksOff(log, key, errors, old(now), times.errTTL);
        return Failed("back-off");
      }
      hide JustifiedAt;
      r := ResolveVersion(ecosystem, group, kind, version, old(now));
    }

    /** For a call that began at a given time. */
    method ResolveVersion(ecosystem: string, group: string, kind: string, version: string, ghost from: int)
      returns (r: Fetched<Resolved>)
      requires Valid() && from <= now
      modifies this`now, this`errors, this`log, this`mCache
      ensures Valid() && now >= old(now) && old(log) <= log
      ensures JustifiedAt(log, hash, Item(ecosystem, group, version, kind), r, Span(from, now, times))
      ensures Noted(Key(ecosystem, group), old(errors), errors, log)
    {
      hide EndsInPast, BacksOff, OnRecord, RecordsKept, VersionsKept, ManifestsKept, WritesSound, AsksOnce, AllCached;
      hide ManifestAnswered;
      hide BackedOff, ManifestServed;
      var item, key := Item(ecosystem, group, version, kind), ManifestKey(ecosystem, group, version);
      var manifest := GetManifest(key);
      ghost var before, at := log, now;
      match manifest
      case NotFound =>
        ManifestStays(log, log, key, NotFound, now, Span(from, now, times));
        r := NotFound;
      case Failed(message) =>
        BackedOffEarlier(log, Key(ecosystem, group), old(now), from, times.errTTL);
        r := Failed(message);
      case Got(kinds) =>
        if kind !in kinds {
          ManifestStays(log, log, key, manifest, now, Span(from, now, times));
          return NotFound;
        }
        AnswerStates(log, item, kinds, now, times);
        r := FetchItem(item, kinds[kind]);
        ManifestStays(before, log, key, manifest, at, Span(from, now, times));
        assert StatedNow(log, item, kinds[kind], Span(from, now, times));
    }

    /** The schema of a kind at the latest version, the first listed. */
    method Resolve(ecosystem: string, group: string, kind: string) returns (r: Fetched<Resolved>)
      requires Valid()
      modifies this
      ensures Valid() && now >= old(now) && old(log) <= log
      ensures JustifiedLatest(log, hash, ecosystem, group, kind, r, Span(old(now), now, times))
      ensures Noted(Key(ecosystem, group), old(errors), errors, log)
    {
      hide EndsInPast, BacksOff, OnRecord, RecordsKept, VersionsKept, ManifestsKept, WritesSound, AsksOnce, AllCached;
      hide VersionsAnswered;
      hide BackedOff, JustifiedAt, ListServed;
      var versions := GetVersions(ecosystem, group);
      ghost var before, at := log, now;
      match versions
      case NotFound =>
        ListStays(log, log, Key(ecosystem, group), NotFound, now, Span(old(now), now, times));
        r := NotFound;
      case Failed(message) => r := Failed(message);
      case Got(list) =>
        if list == [] {
          ListStays(log, log, Key(ecosystem, group), versions, now, Span(old(now), now, times));
          return NotFound;
        }
        r := ResolveVersion(ecosystem, group, kind, list[0], old(now));
        ListStays(before, log, Key(ecosystem, group), versions, at, Span(old(now), now, times));
        assert Latest(log, Key(ecosystem, group), list[0], Span(old(now), now, times));
    }

    /** One request to the resolver. */
    method Handle(request: Call) returns (reply: Reply)
      requires Valid()
      modifies this
      ensures Valid() && now >= old(now) && old(log) <= log
      ensures Justified(log, hash, request, reply, Span(old(now), now, times))
    {
      hide EndsInPast, BacksOff, OnRecord, RecordsKept, VersionsKept, ManifestsKept, WritesSound, AsksOnce, AllCached;
      hide JustifiedAt, JustifiedLatest, VersionsAnswered, BackedOff, ListServed;
      match request
      case AtLatest(ecosystem, group, kind) => var r := Resolve(ecosystem, group, kind); reply := Schema(r);
      case AtVersion(ecosystem, group, kind, version) =>
        var r := ResolveAt(ecosystem, group, kind, version);
        reply := Schema(r);
      case ListVersions(ecosystem, group) =>
        var list := GetVersions(ecosystem, group);
        if !list.Failed? {
          ListStays(log, log, Key(ecosystem, group), list, now, Span(old(now), now, times));
        }
        reply := VersionList(list);
      case Clear(ecosystem, group) => ClearTransientErrors(Key(ecosystem, group)); reply := Done;
    }

    /** In every serial run, whatever the clock, the network and the disk do: no request about a
        group is made within errTTL of an uncleared transient failure for it, only bytes with the
        stated hash are written, and each reply, absences and failures included, is justified by the
        history and by what could be served while its request was handled. */
    method Serve(requests: seq<Call>) returns (replies: seq<Reply>, ghost moments: seq<Moment>)
      requires Valid()
      modifies this
      ensures Valid() && old(log) <= log
      ensures BacksOff(log, times.errTTL) && AsksOnce(log, times) && WritesSound(log, hash, root)
      ensures |replies| == |moments| == |requests|
      ensures forall i | 0 <= i < |requests| :: JustifiedThen(log, hash, requests[i], replies[i], moments[i], times)
      ensures forall i, j | 0 <= i < j < |requests| :: Follows(moments[i], moments[j])
    {
      hide EndsInPast, BacksOff, OnRecord, RecordsKept, VersionsKept, ManifestsKept, WritesSound, AsksOnce, AllCached;
      hide Justified;
      replies, moments := [], [];
      for n := 0 to |requests|
        invariant Valid() && old(log) <= log && |replies| == |moments| == n
        invariant forall i | 0 <= i < n :: moments[i].events <= |log| && moments[i].to <= now
        invariant forall i | 0 <= i < n :: JustifiedThen(log, hash, requests[i], replies[i], moments[i], times)
        invariant forall i, j | 0 <= i < j < n :: Follows(moments[i], moments[j])
      {
        ghost var before, from := log, now;
        var reply := Handle(requests[n]);
        assert log[..|log|] == log;
        assert forall k | 0 <= k <= |before| :: log[..k] == before[..k];
        replies, moments := replies + [reply], moments + [Moment(|log|, from, now)];
      }
    }
  }
}
