/**
 Which pins a directory has, in terms of what is written in the files above it: the specifiers
 themselves, and the fields that make a file a root or an overlay.
 */
module PinMeaning {
  import opened Json
  import opened PinMerge
  import opened PinWalk

  // ---------- one list ----------

  predicate Spells(spec: string, name: string, version: string) {
    spec == name + "@" + version && name != "" && version != "" && '@' !in version
  }

  ghost predicate IsSpec(spec: string) {
    exists name, version :: Spells(spec, name, version)
  }

  ghost predicate SameName(a: string, b: string) {
    exists name, version, version' :: Spells(a, name, version) && Spells(b, name, version')
  }

  /** Every specifier is a name and a version, and no name is listed twice. */
  ghost predicate Proper(specs: seq<string>) {
    (forall i | 0 <= i < |specs| :: IsSpec(specs[i])) &&
    forall i, j | 0 <= i < j < |specs| :: !SameName(specs[i], specs[j])
  }

  ghost predicate Lists(specs: seq<string>, name: string, version: string) {
    exists spec | spec in specs :: Spells(spec, name, version)
  }

  lemma SpellsParse(spec: string, name: string, version: string)
    ensures Spells(spec, name, version) <==> ParseSpec(spec) == Some((name, version))
  {
    ParseSpecExact(spec, name, version);
  }

  lemma IsSpecParses(spec: string)
    ensures IsSpec(spec) <==> ParseSpec(spec).Some?
  {
    hide Spells, ParseSpec;
    if ParseSpec(spec).Some? {
      var (name, version) := ParseSpec(spec).value;
      SpellsParse(spec, name, version);
    }
    if IsSpec(spec) {
      var name, version :| Spells(spec, name, version);
      SpellsParse(spec, name, version);
    }
  }

  lemma SameNameParses(a: string, b: string)
    requires IsSpec(a) && IsSpec(b)
    ensures SameName(a, b) <==> ParseSpec(a).Some? && ParseSpec(b).Some? && ParseSpec(a).value.0 == ParseSpec(b).value.0
  {
    hide Spells, ParseSpec;
    IsSpecParses(a);
    IsSpecParses(b);
    var (name, version) := ParseSpec(a).value;
    var (name', version') := ParseSpec(b).value;
    SpellsParse(a, name, version);
    SpellsParse(b, name', version');
    if SameName(a, b) {
      var n, v, v' :| Spells(a, n, v) && Spells(b, n, v');
      SpellsParse(a, n, v);
      SpellsParse(b, n, v');
    }
  }

  lemma ProperIff(specs: seq<string>)
    ensures Proper(specs) <==> WellFormed(specs)
  {
    hide IsSpec, SameName, ParseSpec;
    forall i | 0 <= i < |specs| ensures IsSpec(specs[i]) <==> ParseSpec(specs[i]).Some? {
      IsSpecParses(specs[i]);
    }
    if forall i | 0 <= i < |specs| :: IsSpec(specs[i]) {
      forall i, j | 0 <= i < j < |specs|
        ensures SameName(specs[i], specs[j]) <==> ParseSpec(specs[i]).value.0 == ParseSpec(specs[j]).value.0
      {
        SameNameParses(specs[i], specs[j]);
      }
    }
  }

  lemma ListsHas(specs: seq<string>, name: string, version: string)
    ensures Lists(specs, name, version) <==> Has(specs, name, version)
  {
    hide Spells, ParseSpec;
    forall i | 0 <= i < |specs|
      ensures Spells(specs[i], name, version) <==> ParseSpec(specs[i]) == Some((name, version))
    {
      SpellsParse(specs[i], name, version);
    }
  }

  // ---------- which files apply ----------

  predicate DeclaresRoot(fs: FileSystem, dir: Dir) {
    fs(dir).File? && fs(dir).doc.Doc? && (fs(dir).doc.root || fs(dir).doc.version > 0)
  }

  predicate Present(fs: FileSystem, dir: Dir) {
    fs(dir).Unreadable? || fs(dir).File?
  }

  /** A file of the directory or an ancestor, with no root declared between. */
  ghost predicate Applies(fs: FileSystem, dir: Dir, d: Dir) {
    d <= dir && Present(fs, d) && forall n | |d| < n <= |dir| :: !DeclaresRoot(fs, dir[..n])
  }

  /** It is a declared root, or no directory above it has a file. */
  ghost predicate Topmost(fs: FileSystem, d: Dir) {
    DeclaresRoot(fs, d) || forall n | 0 <= n < |d| :: !Present(fs, d[..n])
  }

  /** The file decodes without unknown fields, has a version exactly if it is the topmost, and its
      lists are proper. */
  ghost predicate WellRead(fs: FileSystem, d: Dir) {
    && fs(d).File? && fs(d).doc.Doc? && fs(d).doc.strict
    && (if Topmost(fs, d) then fs(d).doc.version != 0 else fs(d).doc.version == 0 && !fs(d).doc.root)
    && forall e | e in fs(d).doc.ecosystems :: Proper(fs(d).doc.ecosystems[e])
  }

  /** The file of a directory lists a version of a name. */
  ghost predicate PinsTo(fs: FileSystem, d: Dir, ecosystem: string, name: string, version: string) {
    && fs(d).File? && fs(d).doc.Doc? && ecosystem in fs(d).doc.ecosystems
    && Lists(fs(d).doc.ecosystems[ecosystem], name, version)
  }

  /** Some file that applies, nearer than the one at d, lists the name. */
  ghost predicate ListedNearer(fs: FileSystem, dir: Dir, d: Dir, ecosystem: string, name: string) {
    exists d', version | Applies(fs, dir, d') && |d'| > |d| :: PinsTo(fs, d', ecosystem, name, version)
  }

  lemma AppliesHere(fs: FileSystem, dir: Dir)
    ensures Applies(fs, dir, dir) <==> Present(fs, dir)
  {
  }

  lemma AppliesAbove(fs: FileSystem, dir: Dir, d: Dir)
    requires dir != [] && d != dir
    ensures Applies(fs, dir, d) <==> !DeclaresRoot(fs, dir) && Applies(fs, Parent(dir), d)
  {
    hide DeclaresRoot, Present;
    var up := Parent(dir);
    assert dir[..|dir|] == dir;
    assert forall n | 0 <= n <= |up| :: dir[..n] == up[..n];
    if d <= dir { assert d == dir[..|d|] && |d| < |dir|; }
    if d <= up { assert d == dir[..|d|]; }
    if Applies(fs, dir, d) {
      assert !DeclaresRoot(fs, dir[..|dir|]);
      assert d == up[..|d|];
      forall n | |d| < n <= |up| ensures !DeclaresRoot(fs, up[..n]) { assert up[..n] == dir[..n]; }
    }
    if !DeclaresRoot(fs, dir) && Applies(fs, up, d) {
      forall n | |d| < n <= |dir| ensures !DeclaresRoot(fs, dir[..n]) {
        if n <= |up| { assert up[..n] == dir[..n]; }
      }
    }
  }

  lemma {:induction false} NoFileAboveIs(fs: FileSystem, dir: Dir)
    ensures NoFileAbove(fs, dir) <==> forall n | 0 <= n < |dir| :: !Present(fs, dir[..n])
    decreases |dir|
  {
    if dir != [] {
      var up := Parent(dir);
      NoFileAboveIs(fs, up);
      assert dir[..|up|] == up;
      assert forall n | 0 <= n <= |up| :: dir[..n] == up[..n];
      if forall n | 0 <= n < |up| :: !Present(fs, up[..n]) {
        assert forall n | 0 <= n < |up| :: dir[..n] == up[..n];
      }
      if n :| 0 <= n < |up| && Present(fs, up[..n]) { assert Present(fs, dir[..n]); }
    }
  }

  /** The file found in a directory, where it reads well. */
  function FileAt(fs: FileSystem, d: Dir): IntentFile
    requires fs(d).File? && fs(d).doc.Doc?
  {
    IntentFile(fs(d).doc.version, fs(d).doc.root, fs(d).doc.ecosystems)
  }

  lemma ListsProper(fs: FileSystem, d: Dir)
    requires fs(d).File? && fs(d).doc.Doc?
    ensures Unambiguous(FileAt(fs, d)) <==>
            forall e | e in fs(d).doc.ecosystems :: Proper(fs(d).doc.ecosystems[e])
  {
    hide Proper, WellFormed, Listed;
    forall e | e in fs(d).doc.ecosystems
      ensures Proper(fs(d).doc.ecosystems[e]) <==> Listed(fs(d).doc.ecosystems[e]).Some?
    {
      ProperIff(fs(d).doc.ecosystems[e]);
      ListedExact(fs(d).doc.ecosystems[e]);
    }
  }

  /** The pins of a directory are those its file adds to the ones above, which count unless it is topmost. */
  lemma EffectiveHere(fs: FileSystem, dir: Dir)
    requires Present(fs, dir)
    ensures Effective(fs, dir).Some? <==>
              WellRead(fs, dir) && (Topmost(fs, dir) || (dir != [] && Effective(fs, Parent(dir)).Some?))
    ensures Effective(fs, dir).Some? ==>
              var base := if Topmost(fs, dir) || dir == [] then Some(map[]) else Effective(fs, Parent(dir));
              base.Some? && Effective(fs, dir) == Override(base, FileAt(fs, dir))
  {
    NoFileAboveIs(fs, dir);
    if fs(dir).File? && fs(dir).doc.Doc? { ListsProper(fs, dir); }
    hide Proper, NoFileAbove;
  }

  lemma OverridePins(base: PinSet, f: IntentFile, ecosystem: string, name: string, version: string)
    requires Unambiguous(f)
    ensures
      var pins, own := Pins(Override(Some(base), f).value, ecosystem), ListedPins(f, ecosystem);
      name in pins && pins[name] == version <==>
      if name in own then own[name] == version
      else name in Pins(base, ecosystem) && Pins(base, ecosystem)[name] == version
  {
    OverriddenPins(base, f, ecosystem);
  }

  lemma OwnPins(fs: FileSystem, d: Dir, ecosystem: string, name: string, version: string)
    requires WellRead(fs, d)
    ensures
      var own := ListedPins(FileAt(fs, d), ecosystem);
      PinsTo(fs, d, ecosystem, name, version) <==> name in own && own[name] == version
  {
    hide WellFormed, Has, Proper;
    if ecosystem in fs(d).doc.ecosystems {
      var specs := fs(d).doc.ecosystems[ecosystem];
      ProperIff(specs);
      ListedExact(specs);
      ListsHas(specs, name, version);
    }
  }

  /** A directory has pins exactly when every file that applies to it reads well. */
  lemma {:induction false} DefinedIff(fs: FileSystem, dir: Dir)
    ensures Effective(fs, dir).Some? <==> forall d | Applies(fs, dir, d) :: WellRead(fs, d)
    decreases |dir|
  {
    AppliesHere(fs, dir);
    if dir == [] { AppliesAtTop(fs); } else { DefinedIff(fs, Parent(dir)); }
    hide WellRead;
    forall d | dir != [] && d != dir
      ensures Applies(fs, dir, d) <==> !DeclaresRoot(fs, dir) && Applies(fs, Parent(dir), d)
    {
      AppliesAbove(fs, dir, d);
    }
    if Present(fs, dir) {
      EffectiveHere(fs, dir);
      if Topmost(fs, dir) { NoneAboveTopmost(fs, dir); }
    }
  }

  lemma AppliesAtTop(fs: FileSystem)
    ensures forall d | Applies(fs, [], d) :: d == []
    ensures Topmost(fs, [])
  {
  }

  lemma NoneAboveTopmost(fs: FileSystem, dir: Dir)
    requires Topmost(fs, dir)
    ensures forall d | Applies(fs, dir, d) :: d == dir
  {
    forall d | Applies(fs, dir, d) ensures d == dir {
      assert dir[..|dir|] == dir && d == dir[..|d|];
    }
  }

  /** The nearest file that applies and lists the name lists this version. */
  ghost predicate Governs(fs: FileSystem, dir: Dir, d: Dir, ecosystem: string, name: string, version: string) {
    && Applies(fs, dir, d) && PinsTo(fs, d, ecosystem, name, version)
    && !ListedNearer(fs, dir, d, ecosystem, name)
  }

  lemma GovernsHere(fs: FileSystem, dir: Dir, ecosystem: string, name: string, version: string)
    ensures Governs(fs, dir, dir, ecosystem, name, version) <==> PinsTo(fs, dir, ecosystem, name, version)
  {
    AppliesHere(fs, dir);
    assert forall d | Applies(fs, dir, d) :: |d| <= |dir|;
  }

  lemma GovernsAbove(fs: FileSystem, dir: Dir, d: Dir, ecosystem: string, name: string, version: string)
    requires dir != [] && d != dir
    ensures Governs(fs, dir, d, ecosystem, name, version) <==>
            && Governs(fs, Parent(dir), d, ecosystem, name, version)
            && !DeclaresRoot(fs, dir) && !(exists v :: PinsTo(fs, dir, ecosystem, name, v))
  {
    var up := Parent(dir);
    AppliesHere(fs, dir);
    AppliesAbove(fs, dir, d);
    forall d' | d' != dir ensures Applies(fs, dir, d') <==> !DeclaresRoot(fs, dir) && Applies(fs, up, d') {
      AppliesAbove(fs, dir, d');
    }
    assert forall v :: PinsTo(fs, dir, ecosystem, name, v) ==> Present(fs, dir);
    assert forall d' | Applies(fs, up, d') :: d' != dir;
    assert Applies(fs, up, d) ==> |d| < |dir|;
    hide Applies, PinsTo, DeclaresRoot, Present;
    if v :| PinsTo(fs, dir, ecosystem, name, v) {
      assert Applies(fs, up, d) ==> ListedNearer(fs, dir, d, ecosystem, name);
    } else if !DeclaresRoot(fs, dir) {
      assert ListedNearer(fs, dir, d, ecosystem, name) <==> ListedNearer(fs, up, d, ecosystem, name);
    }
  }

  /** Where a directory has pins, a name is pinned to a version exactly if the nearest of the files
      that apply and list the name lists it at that version. */
  lemma {:induction false} PinnedExact(fs: FileSystem, dir: Dir, ecosystem: string, name: string, version: string)
    requires Effective(fs, dir).Some?
    ensures
      var pins := Pins(Effective(fs, dir).value, ecosystem);
      name in pins && pins[name] == version <==>
      exists d :: Governs(fs, dir, d, ecosystem, name, version)
    decreases |dir|
  {
    GovernsHere(fs, dir, ecosystem, name, version);
    if Present(fs, dir) { EffectiveHere(fs, dir); }
    if dir != [] && Effective(fs, Parent(dir)).Some? {
      PinnedExact(fs, Parent(dir), ecosystem, name, version);
    }
    forall d | dir != [] && d != dir
      ensures Governs(fs, dir, d, ecosystem, name, version) <==>
              && Governs(fs, Parent(dir), d, ecosystem, name, version)
              && !DeclaresRoot(fs, dir) && !(exists v :: PinsTo(fs, dir, ecosystem, name, v))
    {
      GovernsAbove(fs, dir, d, ecosystem, name, version);
    }
    if Present(fs, dir) {
      PinnedByFile(fs, dir, ecosystem, name, version);
    } else {
      hide WellRead, Topmost, Applies;
      if dir == [] { GovernsAtTop(fs, ecosystem, name, version); }
      assert !DeclaresRoot(fs, dir) && forall v :: !PinsTo(fs, dir, ecosystem, name, v);
    }
  }

  lemma GovernsAtTop(fs: FileSystem, ecosystem: string, name: string, version: string)
    ensures forall d | Governs(fs, [], d, ecosystem, name, version) :: d == []
  {
    AppliesAtTop(fs);
  }

  lemma PinnedByFile(fs: FileSystem, dir: Dir, ecosystem: string, name: string, version: string)
    requires Effective(fs, dir).Some? && Present(fs, dir)
    requires dir != [] && Effective(fs, Parent(dir)).Some? ==>
               var pins := Pins(Effective(fs, Parent(dir)).value, ecosystem);
               name in pins && pins[name] == version <==>
               exists d :: Governs(fs, Parent(dir), d, ecosystem, name, version)
    ensures
      var pins := Pins(Effective(fs, dir).value, ecosystem);
      name in pins && pins[name] == version <==>
      exists d :: Governs(fs, dir, d, ecosystem, name, version)
  {
    EffectiveHere(fs, dir);
    ListsProper(fs, dir);
    var f, top := FileAt(fs, dir), Topmost(fs, dir) || dir == [];
    var base := if top then map[] else Effective(fs, Parent(dir)).value;
    var own := ListedPins(f, ecosystem);
    OverridePins(base, f, ecosystem, name, version);
    OwnPins(fs, dir, ecosystem, name, version);
    if name in own { OwnPins(fs, dir, ecosystem, name, own[name]); }
    forall v | PinsTo(fs, dir, ecosystem, name, v) ensures name in own {
      OwnPins(fs, dir, ecosystem, name, v);
    }
    GovernsHere(fs, dir, ecosystem, name, version);
    forall d | dir != [] && d != dir
      ensures Governs(fs, dir, d, ecosystem, name, version) <==>
              && Governs(fs, Parent(dir), d, ecosystem, name, version)
              && !DeclaresRoot(fs, dir) && !(exists v :: PinsTo(fs, dir, ecosystem, name, v))
    {
      GovernsAbove(fs, dir, d, ecosystem, name, version);
    }
    if dir == [] { GovernsAtTop(fs, ecosystem, name, version); }
    if Topmost(fs, dir) { NoneAboveTopmost(fs, dir); }
    assert !Topmost(fs, dir) ==> !DeclaresRoot(fs, dir);
    assert forall d | Governs(fs, dir, d, ecosystem, name, version) :: Applies(fs, dir, d);
    hide Governs, PinsTo, DeclaresRoot, Topmost, WellRead, Applies, Effective, Override, ListedPins;
  }
}
