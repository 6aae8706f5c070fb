/** `schemalock add`, end to end (cmd/schemalock/add.go): choose the pin file, ask the registry for the
    version, upsert, write the file back in canonical order. */
module PinAdd {
  import opened Json
  import opened PinEdit
  import opened PinMerge
  import opened PinWalk
  import opened Sorting

  import Registry

  // ---------- the nearest file ----------

  function Nearest(fs: FileSystem, dir: Dir): Option<Dir>
    decreases |dir|
  {
    if HasFile(fs, dir) then Some(dir) else if dir == [] then None else Nearest(fs, Parent(dir))
  }

  method FindNearest(fs: FileSystem, start: Dir) returns (r: Option<Dir>)
    ensures r == Nearest(fs, start)
  {
    var dir := start;
    while true
      invariant Nearest(fs, start) == Nearest(fs, dir)
      decreases |dir|
    {
      if HasFile(fs, dir) {
        return Some(dir);
      }
      if dir == [] {
        return None;
      }
      dir := Parent(dir);
    }
  }

  lemma {:induction false} NearestExact(fs: FileSystem, dir: Dir, d: Dir)
    ensures Nearest(fs, dir) == Some(d) <==>
            d <= dir && HasFile(fs, d) && forall n | |d| < n <= |dir| :: !HasFile(fs, dir[..n])
    decreases |dir|
  {
    assert dir[..|dir|] == dir;
    if dir != [] {
      var up := Parent(dir);
      NearestExact(fs, up, d);
      assert forall n | 0 <= n <= |up| :: dir[..n] == up[..n];
      assert d != dir ==> (d <= dir <==> d <= up) by {
        if d <= dir && |d| <= |up| { assert d == up[..|d|]; }
        if d <= up { assert d == dir[..|d|]; }
      }
    }
  }

  // ---------- the command ----------

  /** The nearest file from a directory, or with --file the file of a directory, which need not exist. */
  datatype Target = NearestFrom(dir: Dir) | FileIn(dir: Dir)

  function TargetDir(fs: FileSystem, target: Target): Option<Dir> {
    match target
    case NearestFrom(start) => Nearest(fs, start)
    case FileIn(dir) => Some(dir)
  }

  datatype Failure = Usage | Io

  datatype Outcome = Done(fs: FileSystem) | Fails(failure: Failure)

  /** What the registry's list of versions says against a version; None without the check. */
  function Refused(versions: Option<Registry.Fetched<seq<string>>>, version: string): Option<Failure> {
    match versions
    case None => None
    case Some(Got(list)) => if version in list then None else Some(Usage)
    case Some(NotFound) => Some(Usage)
    case Some(Failed(_)) => Some(Io)
  }

  /** The command reads the file as a root, or failing that as an overlay. */
  function ReadEither(e: Entry): Option<IntentFile> {
    if DecodeRoot(e).Some? then DecodeRoot(e) else DecodeOverlay(e)
  }

  const NEW_FILE := IntentFile(0, false, map[])

  /** What decoding an encoded file gives back. */
  function Written(f: IntentFile): Entry {
    File(Doc.Doc(f.version, f.root, true, SortedFile(f).ecosystems))
  }

  function Write(fs: FileSystem, at: Dir, e: Entry): FileSystem {
    d => if d == at then e else fs(d)
  }

  function Upsert(fs: FileSystem, at: Dir, f: IntentFile, ecosystem: string, name: string,
                  version: string): FileSystem {
    if name + "@" + version in ListOf(f.ecosystems, ecosystem) then fs
    else Write(fs, at, Written(f.(ecosystems := Upserted(f.ecosystems, ecosystem, name, version))))
  }

  function Add(fs: FileSystem, target: Target, ecosystem: string, spec: string,
          versions: Option<Registry.Fetched<seq<string>>>): Outcome {
    match ParseSpec(spec)
    case None => Fails(Usage)
    case Some((name, version)) =>
      match TargetDir(fs, target)
      case None => Fails(Usage)
      case Some(at) =>
        if Refused(versions, version).Some? then Fails(Refused(versions, version).value)
        else
          match fs(at)
          case Absent => Done(Upsert(fs, at, NEW_FILE, ecosystem, name, version))
          case Directory | Unreadable => Fails(Io)
          case File(_) =>
            match ReadEither(fs(at))
            case None => Fails(Usage)
            case Some(f) => Done(Upsert(fs, at, f, ecosystem, name, version))
  }

  // ---------- what it does to the effective pins ----------

  ghost predicate AgreeAbove(fs: FileSystem, fs': FileSystem, dir: Dir) {
    forall n | 0 <= n < |dir| :: fs(dir[..n]) == fs'(dir[..n])
  }

  lemma AgreeParent(fs: FileSystem, fs': FileSystem, dir: Dir)
    requires dir != [] && AgreeAbove(fs, fs', dir)
    ensures AgreeAbove(fs, fs', Parent(dir)) && fs(Parent(dir)) == fs'(Parent(dir))
  {
    assert forall n | 0 <= n < |Parent(dir)| :: Parent(dir)[..n] == dir[..n];
  }

  /** The effective pins of a directory depend on the entries of it and its ancestors only. */
  lemma {:induction false} EffectiveDepends(fs: FileSystem, fs': FileSystem, dir: Dir)
    requires AgreeAbove(fs, fs', dir)
    ensures NoFileAbove(fs, dir) == NoFileAbove(fs', dir)
    ensures dir != [] ==> Effective(fs, Parent(dir)) == Effective(fs', Parent(dir))
    decreases |dir|
  {
    if dir != [] {
      AgreeParent(fs, fs', dir);
      EffectiveDepends(fs, fs', Parent(dir));
    }
  }

  /** The command changes nothing for a directory that is not at or below that of the file it writes. */
  lemma AddIsLocal(fs: FileSystem, target: Target, ecosystem: string, spec: string,
          versions: Option<Registry.Fetched<seq<string>>>, dir: Dir)
    requires Add(fs, target, ecosystem, spec, versions).Done? && !(TargetDir(fs, target).value <= dir)
    ensures Effective(Add(fs, target, ecosystem, spec, versions).fs, dir) == Effective(fs, dir)
  {
    hide Upserted, Written, ParseSpec;
    var fs' := Add(fs, target, ecosystem, spec, versions).fs;
    var at := TargetDir(fs, target).value;
    forall n | 0 <= n <= |dir| ensures fs(dir[..n]) == fs'(dir[..n]) {
      assert at != dir[..n];
    }
    assert dir[..|dir|] == dir;
    EffectiveDepends(fs, fs', dir);
  }

  /** Two files whose lists give the same pins override alike. */
  lemma OverrideBySorted(base: PinSet, f: IntentFile)
    requires Unambiguous(f)
    ensures Unambiguous(SortedFile(f))
    ensures Overridden(base, SortedFile(f), SortedFile(f).ecosystems.Keys) == Overridden(base, f, f.ecosystems.Keys)
  {
    forall e | e in f.ecosystems ensures Listed(SortedFile(f).ecosystems[e]) == Listed(f.ecosystems[e]) {
      StringLeqOrder();
      SortCorrect(StringLeq, f.ecosystems[e]);
      ListedPermutes(SortedFile(f).ecosystems[e], f.ecosystems[e]);
    }
    SameOverride(base, f, SortedFile(f));
  }

  lemma OverrideWritten(base: PinSet, f: IntentFile, ecosystem: string, name: string, version: string)
    requires Unambiguous(f) && ParseSpec(name + "@" + version) == Some((name, version))
    ensures
      var f' := f.(ecosystems := Upserted(f.ecosystems, ecosystem, name, version));
      && Override(Some(base), f') == Some(Pin(Override(Some(base), f).value, ecosystem, name, version))
      && Override(Some(base), SortedFile(f')) == Override(Some(base), f')
  {
    var f' := f.(ecosystems := Upserted(f.ecosystems, ecosystem, name, version));
    UpsertedFile(f, ecosystem, name, version);
    OverrideBySorted(base, f');
    hide Upserted, ListedPins, Unambiguous, Overridden, SortedFile;
    UpsertOverride(base, f, f', ecosystem, name, version);
  }

  /** The pins a file at a directory overrides. */
  function Base(fs: FileSystem, at: Dir): Option<PinSet> {
    if LooksLikeRoot(fs(at)) == Some(true) || NoFileAbove(fs, at) then Some(map[]) else Effective(fs, Parent(at))
  }

  /** At a file that exists. */
  lemma AddAt(fs: FileSystem, fs': FileSystem, at: Dir, ecosystem: string, name: string, version: string)
    requires HasFile(fs, at) && Effective(fs, at).Some? && ParseSpec(name + "@" + version) == Some((name, version))
    requires ReadEither(fs(at)).Some? && fs' == Upsert(fs, at, ReadEither(fs(at)).value, ecosystem, name, version)
    ensures Effective(fs', at) == Some(Pin(Effective(fs, at).value, ecosystem, name, version))
  {
    var f := ReadEither(fs(at)).value;
    var base := Base(fs, at).value;
    assert Effective(fs, at) == Override(Some(base), f);
    if name + "@" + version in ListOf(f.ecosystems, ecosystem) {
      UpsertedCases(f.ecosystems, ecosystem, name, version);
      OverrideWritten(base, f, ecosystem, name, version);
    } else {
      EffectiveDepends(fs, fs', at);
      assert Effective(fs', at) ==
          Override(Some(base), SortedFile(f.(ecosystems := Upserted(f.ecosystems, ecosystem, name, version))));
      OverrideWritten(base, f, ecosystem, name, version);
    }
  }

  lemma NewFileOverridesNothing(base: PinSet)
    ensures Unambiguous(NEW_FILE) && Override(Some(base), NEW_FILE) == Some(base)
  {
    assert Overridden(base, NEW_FILE, NEW_FILE.ecosystems.Keys) == base;
  }

  /** A file that --file creates declares no version: as the topmost it cannot be read. */
  lemma AddNew(fs: FileSystem, fs': FileSystem, at: Dir, ecosystem: string, name: string, version: string)
    requires fs(at).Absent? && Effective(fs, at).Some? && ParseSpec(name + "@" + version) == Some((name, version))
    requires fs' == Upsert(fs, at, NEW_FILE, ecosystem, name, version)
    ensures Effective(fs', at) ==
            if NoFileAbove(fs, at) then None else Some(Pin(Effective(fs, at).value, ecosystem, name, version))
  {
    hide Upserted;
    EffectiveDepends(fs, fs', at);
    assert fs'(at) == Written(NEW_FILE.(ecosystems := Upserted(NEW_FILE.ecosystems, ecosystem, name, version)));
    if !NoFileAbove(fs, at) {
      var base := Effective(fs, at).value;
      assert Effective(fs', at) ==
          Override(
            Some(base), SortedFile(NEW_FILE.(ecosystems := Upserted(NEW_FILE.ecosystems, ecosystem, name, version))));
      NewFileOverridesNothing(base);
      hide Overridden;
      OverrideWritten(base, NEW_FILE, ecosystem, name, version);
    }
  }

  lemma {:induction false} EffectiveOfNearest(fs: FileSystem, dir: Dir)
    requires Nearest(fs, dir).Some?
    ensures Effective(fs, dir) == Effective(fs, Nearest(fs, dir).value)
    decreases |dir|
  {
    if !HasFile(fs, dir) { EffectiveOfNearest(fs, Parent(dir)); }
  }

  lemma NearestReads(fs: FileSystem, at: Dir)
    requires HasFile(fs, at) && Effective(fs, at).Some?
    ensures ReadEither(fs(at)).Some? && Unambiguous(ReadEither(fs(at)).value)
  {
  }

  /** Wherever the effective pins are defined, the version is not refused, and there is a file to write
      to, the command succeeds. It changes the pins effective at the given directory at exactly the given
      ecosystem and name; but where it creates the topmost file, no pins can be determined there any more. */
  lemma AddPinsOne(fs: FileSystem, target: Target, ecosystem: string, spec: string, name: string, version: string,
          versions: Option<Registry.Fetched<seq<string>>>)
    requires ParseSpec(spec) == Some((name, version)) && Refused(versions, version).None?
    requires Effective(fs, target.dir).Some? && TargetDir(fs, target).Some?
    requires target.FileIn? ==> !fs(target.dir).Directory?
    ensures
      var outcome := Add(fs, target, ecosystem, spec, versions);
      && outcome.Done?
      && Effective(outcome.fs, target.dir) ==
         if target.FileIn? && fs(target.dir).Absent? && NoFileAbove(fs, target.dir) then None
         else Some(Pin(Effective(fs, target.dir).value, ecosystem, name, version))
  {
    ParseSpecExact(spec, name, version);
    var at := TargetDir(fs, target).value;
    if target.FileIn? && fs(at).Absent? {
      AddNew(fs, Upsert(fs, at, NEW_FILE, ecosystem, name, version), at, ecosystem, name, version);
    } else {
      if target.NearestFrom? {
        NearestExact(fs, target.dir, at);
        EffectiveOfNearest(fs, target.dir);
      }
      NearestReads(fs, at);
      var fs' := Upsert(fs, at, ReadEither(fs(at)).value, ecosystem, name, version);
      AddAt(fs, fs', at, ecosystem, name, version);
      if target.NearestFrom? {
        assert Nearest(fs', target.dir) == Some(at) by {
          hide Effective, Add, Written, ReadEither, Upserted;
          NearestExact(fs', target.dir, at);
        }
        EffectiveOfNearest(fs', target.dir);
      }
    }
  }

  // ---------- what it does below ----------

  predicate IsRoot(fs: FileSystem, dir: Dir) {
    HasFile(fs, dir) && LooksLikeRoot(fs(dir)) == Some(true)
  }

  /** A file that declares itself a root stands between a directory and one below it. */
  predicate CutOff(fs: FileSystem, at: Dir, dir: Dir) {
    exists n | |at| < n <= |dir| :: IsRoot(fs, dir[..n])
  }

  predicate Lists(fs: FileSystem, dir: Dir, ecosystem: string, name: string) {
    match DecodeOverlay(fs(dir))
    case Some(f) => name in ListedPins(f, ecosystem)
    case None => false
  }

  /** A nearer file lists the name. */
  predicate ListedNearer(fs: FileSystem, at: Dir, dir: Dir, ecosystem: string, name: string) {
    exists n | |at| < n <= |dir| :: Lists(fs, dir[..n], ecosystem, name)
  }

  lemma BetweenParent(fs: FileSystem, at: Dir, dir: Dir, ecosystem: string, name: string)
    requires at < dir
    ensures at <= Parent(dir) && dir[..|dir|] == dir
    ensures CutOff(fs, at, dir) <==> CutOff(fs, at, Parent(dir)) || IsRoot(fs, dir)
    ensures ListedNearer(fs, at, dir, ecosystem, name) <==>
            ListedNearer(fs, at, Parent(dir), ecosystem, name) || Lists(fs, dir, ecosystem, name)
  {
    var up := Parent(dir);
    assert dir[..|dir|] == dir && forall n | 0 <= n <= |up| :: up[..n] == dir[..n];
    hide IsRoot, Lists;
    assert at == up[..|at|];
  }

  /** A pin that a file does not list passes through its override, one that it lists does not. */
  lemma OverridePin(base: PinSet, f: IntentFile, ecosystem: string, name: string, version: string)
    requires Unambiguous(f)
    ensures Override(Some(Pin(base, ecosystem, name, version)), f) ==
            if name in ListedPins(f, ecosystem) then Override(Some(base), f)
            else Some(Pin(Override(Some(base), f).value, ecosystem, name, version))
  {
    var keys, pinned := f.ecosystems.Keys, Pin(base, ecosystem, name, version);
    var a, b := Overridden(pinned, f, keys), Overridden(base, f, keys);
    var c := if name in ListedPins(f, ecosystem) then b else Pin(b, ecosystem, name, version);
    assert a.Keys == c.Keys;
    hide ListedPins, Overridden, Pin;
    forall e | e in a ensures Pins(a, e) == Pins(c, e) {
      OverridePinAt(base, f, ecosystem, name, version, e);
    }
    assert a == c;
  }

  lemma OverridePinAt(base: PinSet, f: IntentFile, ecosystem: string, name: string, version: string, e: string)
    ensures
      var a := Overridden(Pin(base, ecosystem, name, version), f, f.ecosystems.Keys);
      var b := Overridden(base, f, f.ecosystems.Keys);
      var c := if name in ListedPins(f, ecosystem) then b else Pin(b, ecosystem, name, version);
      Pins(a, e) == Pins(c, e)
  {
    hide ListedPins, Overridden, Pins, Pin;
    OverriddenPins(Pin(base, ecosystem, name, version), f, e);
    OverriddenPins(base, f, e);
    PinAt(base, ecosystem, name, version, e);
    PinAt(Overridden(base, f, f.ecosystems.Keys), ecosystem, name, version, e);
    if e == ecosystem {
      var own, listed := Pins(base, e), ListedPins(f, e);
      if name in listed {
        assert own[name := version] + listed == own + listed;
      } else {
        assert own[name := version] + listed == (own + listed)[name := version];
      }
    }
  }

  /** One directory further down. */
  lemma ReachesStep(fs: FileSystem, fs': FileSystem, dir: Dir, ecosystem: string, name: string, version: string)
    requires dir != [] && fs'(dir) == fs(dir) && Effective(fs, dir).Some? && !IsRoot(fs, dir)
    requires HasFile(fs, dir) ==> !NoFileAbove(fs, dir) && !NoFileAbove(fs', dir)
    ensures Effective(fs, Parent(dir)).Some?
    ensures Effective(fs', Parent(dir)) == Effective(fs, Parent(dir)) ==> Effective(fs', dir) == Effective(fs, dir)
    ensures Effective(fs', Parent(dir)).None? ==> Effective(fs', dir).None?
    ensures Effective(fs', Parent(dir)) == Some(Pin(Effective(fs, Parent(dir)).value, ecosystem, name, version)) ==>
              Effective(fs', dir) ==
              if HasFile(fs, dir) && Lists(fs, dir, ecosystem, name) then Effective(fs, dir)
              else Some(Pin(Effective(fs, dir).value, ecosystem, name, version))
  {
    if HasFile(fs, dir) {
      var f := DecodeOverlay(fs(dir)).value;
      var base := Effective(fs, Parent(dir)).value;
      OverridePin(base, f, ecosystem, name, version);
      hide Pin, Overridden, ListedPins;
    }
  }

  /** What a change of the pin of a directory comes to further down, unless a root cuts it off. */
  function Reached(fs: FileSystem, at: Dir, dir: Dir, ecosystem: string, name: string, version: string): Option<PinSet>
    requires Effective(fs, dir).Some?
  {
    if CutOff(fs, at, dir) then Effective(fs, dir)
    else if fs(at).Absent? && NoFileAbove(fs, at) then None
    else if ListedNearer(fs, at, dir, ecosystem, name) then Effective(fs, dir)
    else Some(Pin(Effective(fs, dir).value, ecosystem, name, version))
  }

  /** A written file is a file above, and so is one that was there. */
  lemma FilesAbove(fs: FileSystem, fs': FileSystem, at: Dir, dir: Dir)
    requires at < dir && HasFile(fs', at)
    ensures !NoFileAbove(fs', dir)
    decreases |dir|
  {
    assert at <= Parent(dir) by { assert at == dir[..|at|]; }
    if at != Parent(dir) { FilesAbove(fs, fs', at, Parent(dir)); }
  }

  /** The topmost file is not an overlay, so it cannot be read once another stands above it. */
  lemma TopmostIsNoOverlay(fs: FileSystem, fs': FileSystem, dir: Dir)
    requires HasFile(fs, dir) && NoFileAbove(fs, dir) && !NoFileAbove(fs', dir) && fs'(dir) == fs(dir)
    requires Effective(fs, dir).Some? && !IsRoot(fs, dir)
    ensures Effective(fs', dir) == None
  {
  }

  lemma {:induction false} AddReachesFrom(fs: FileSystem, fs': FileSystem, at: Dir, ecosystem: string, name: string,
                                          version: string, dir: Dir)
    requires at <= dir && Effective(fs, dir).Some? && HasFile(fs', at) && (forall d | d != at :: fs'(d) == fs(d))
    requires Effective(fs, at).Some? ==> Effective(fs', at) == Reached(fs, at, at, ecosystem, name, version)
    requires fs(at).Absent? || HasFile(fs, at)
    ensures Effective(fs', dir) == Reached(fs, at, dir, ecosystem, name, version)
    decreases |dir|
  {
    if dir != at {
      BetweenParent(fs, at, dir, ecosystem, name);
      FilesAbove(fs, fs', at, dir);
      var up := Parent(dir);
      hide CutOff, ListedNearer, Pin;
      if !IsRoot(fs, dir) {
        if HasFile(fs, dir) && NoFileAbove(fs, dir) {
          NothingBetween(fs, at, dir, ecosystem, name);
          TopmostIsNoOverlay(fs, fs', dir);
        } else {
          ReachesStep(fs, fs', dir, ecosystem, name, version);
          AddReachesFrom(fs, fs', at, ecosystem, name, version, up);
        }
      }
    }
  }

  lemma {:induction false} NothingBetween(fs: FileSystem, at: Dir, dir: Dir, ecosystem: string, name: string)
    requires at < dir && NoFileAbove(fs, dir)
    ensures !HasFile(fs, at) && NoFileAbove(fs, at) && !CutOff(fs, at, Parent(dir))
    decreases |dir|
  {
    BetweenParent(fs, at, dir, ecosystem, name);
    if at == Parent(dir) {
      assert !CutOff(fs, at, at);
    } else {
      BetweenParent(fs, at, Parent(dir), ecosystem, name);
      NothingBetween(fs, at, Parent(dir), ecosystem, name);
    }
  }

  /** For every directory at or below that of the file the command writes, where the pins are defined: it
      changes exactly the given pin, unless a root in between cuts the directory off or a nearer file
      lists the name, when nothing changes; and where it creates the topmost file, none are defined any
      more but for those cut off. */
  lemma AddReaches(fs: FileSystem, target: Target, ecosystem: string, spec: string, name: string, version: string,
                   versions: Option<Registry.Fetched<seq<string>>>, dir: Dir)
    requires ParseSpec(spec) == Some((name, version)) && Add(fs, target, ecosystem, spec, versions).Done?
    requires TargetDir(fs, target).value <= dir && Effective(fs, dir).Some?
    ensures Effective(Add(fs, target, ecosystem, spec, versions).fs, dir) ==
            Reached(fs, TargetDir(fs, target).value, dir, ecosystem, name, version)
  {
    ParseSpecExact(spec, name, version);
    var at := TargetDir(fs, target).value;
    var fs' := Add(fs, target, ecosystem, spec, versions).fs;
    var f := if fs(at).Absent? then NEW_FILE else ReadEither(fs(at)).value;
    assert fs' == Upsert(fs, at, f, ecosystem, name, version);
    hide Upserted, ReadEither, Written;
    if Effective(fs, at).Some? {
      if fs(at).Absent? {
        AddNew(fs, fs', at, ecosystem, name, version);
      } else {
        AddAt(fs, fs', at, ecosystem, name, version);
      }
    }
    assert !CutOff(fs, at, at) && !ListedNearer(fs, at, at, ecosystem, name);
    hide Effective, Add, ParseSpec, CutOff, ListedNearer, Pin, Lists;
    AddReachesFrom(fs, fs', at, ecosystem, name, version, dir);
  }
}
