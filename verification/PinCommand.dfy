/**
 What `schemalock add` (cmd/schemalock/add.go) writes and when it fails, in terms of the texts of the
 specifiers, the entries of the directories and the answer of the registry.
 */
module PinCommand {
  import opened Json
  import opened PinAdd
  import opened PinEdit
  import opened PinMerge
  import opened PinWalk
  import opened Sorting

  import M = PinMeaning
  import Registry

  /** The file is in the given directory, or in the nearest at or above it that has one. */
  ghost predicate IsTarget(fs: FileSystem, target: Target, at: Dir) {
    match target
    case FileIn(dir) => at == dir
    case NearestFrom(dir) => at <= dir && M.Present(fs, at) && forall n | |at| < n <= |dir| :: !M.Present(fs, dir[..n])
  }

  predicate Published(versions: Option<Registry.Fetched<seq<string>>>, version: string) {
    versions.None? || (versions.value.Got? && version in versions.value.value)
  }

  /** There is no file yet, or one that decodes without unknown fields and declares no root without a version. */
  predicate Readable(e: Entry) {
    e.Absent? || (e.File? && e.doc.Doc? && e.doc.strict && (e.doc.version != 0 || !e.doc.root))
  }

  lemma TargetExact(fs: FileSystem, target: Target, at: Dir)
    ensures TargetDir(fs, target) == Some(at) <==> IsTarget(fs, target, at)
  {
    match target
    case FileIn(_) =>
    case NearestFrom(dir) => NearestExact(fs, dir, at);
  }

  /** The command succeeds exactly if the argument is a specifier, there is a file to write to, its version
      is published where that is asked, and what is there can be read. It fails with an I/O error exactly
      if the registry could not be asked, or else the entry is not a file that can be read, and in all other
      cases with a usage error. */
  lemma AddFailsIff(fs: FileSystem, target: Target, ecosystem: string, spec: string,
                    versions: Option<Registry.Fetched<seq<string>>>)
    ensures
      var outcome := Add(fs, target, ecosystem, spec, versions);
      && (outcome.Done? <==>
          exists name, version, at | M.Spells(spec, name, version) && IsTarget(fs, target, at) ::
            Published(versions, version) && Readable(fs(at)))
      && (outcome == Fails(Io) <==>
          exists name, version, at | M.Spells(spec, name, version) && IsTarget(fs, target, at) ::
            if Published(versions, version) then fs(at).Directory? || fs(at).Unreadable?
            else versions.value.Failed?)
  {
    forall name, version ensures M.Spells(spec, name, version) <==> ParseSpec(spec) == Some((name, version)) {
      M.SpellsParse(spec, name, version);
    }
    forall at ensures TargetDir(fs, target) == Some(at) <==> IsTarget(fs, target, at) {
      TargetExact(fs, target, at);
    }
    hide ParseSpec, IsTarget, TargetDir, Upsert, Upserted, M.Spells;
    if ParseSpec(spec).Some? && TargetDir(fs, target).Some? {
      var (name, version) := ParseSpec(spec).value;
      var at := TargetDir(fs, target).value;
      assert M.Spells(spec, name, version) && IsTarget(fs, target, at);
      assert Refused(versions, version).None? <==> Published(versions, version);
    }
  }

  function ListsIn(e: Entry): map<string, seq<string>> {
    if e.File? && e.doc.Doc? then e.doc.ecosystems else map[]
  }

  ghost predicate SpellsName(spec: string, name: string) {
    exists version :: M.Spells(spec, name, version)
  }

  /** The list has the specifier once, none other of its name, and what it had of other names. */
  ghost predicate Replaced(was: seq<string>, now: seq<string>, spec: string, name: string) {
    forall s :: multiset(now)[s] == if s == spec then 1 else if SpellsName(s, name) then 0 else multiset(was)[s]
  }

  /** The file is written back with the declarations it had, or none; only one list has other specifiers
      than before, and all are in order. */
  ghost predicate Rewritten(e: Entry, e': Entry, ecosystem: string, spec: string, name: string) {
    && e'.File? && e'.doc.Doc? && e'.doc.strict
    && (if e.File? && e.doc.Doc? then e'.doc.version == e.doc.version && e'.doc.root == e.doc.root
        else e'.doc.version == 0 && !e'.doc.root)
    && ListsIn(e').Keys == ListsIn(e).Keys + {ecosystem}
    && (forall e1 | e1 in ListsIn(e') :: Sorted(StringLeq, ListsIn(e')[e1]))
    && (forall e1 | e1 in ListsIn(e) && e1 != ecosystem :: multiset(ListsIn(e')[e1]) == multiset(ListsIn(e)[e1]))
    && Replaced(ListOf(ListsIn(e), ecosystem), ListsIn(e')[ecosystem], spec, name)
  }

  lemma NamesSpells(spec: string, name: string)
    ensures Names(spec, name) <==> SpellsName(spec, name)
  {
    hide ParseSpec, M.Spells;
    if ParseSpec(spec).Some? { M.SpellsParse(spec, ParseSpec(spec).value.0, ParseSpec(spec).value.1); }
    if version :| M.Spells(spec, name, version) { M.SpellsParse(spec, name, version); }
  }

  lemma {:induction false} WithoutCounts(specs: seq<string>, name: string, s: string)
    ensures multiset(Without(specs, name))[s] == if SpellsName(s, name) then 0 else multiset(specs)[s]
  {
    hide Names, SpellsName;
    NamesSpells(s, name);
    if specs != [] {
      var init, last := specs[..|specs| - 1], specs[|specs| - 1];
      WithoutCounts(init, name, s);
      assert specs == init + [last];
    }
  }

  /** The file is left alone if its list has the specifier; otherwise it is rewritten. No other file changes. */
  lemma AddWrites(fs: FileSystem, target: Target, ecosystem: string, spec: string, name: string, version: string,
                  versions: Option<Registry.Fetched<seq<string>>>, at: Dir)
    requires M.Spells(spec, name, version) && IsTarget(fs, target, at)
    requires Add(fs, target, ecosystem, spec, versions).Done?
    ensures
      var fs' := Add(fs, target, ecosystem, spec, versions).fs;
      && (forall d | d != at :: fs'(d) == fs(d))
      && (if spec in ListOf(ListsIn(fs(at)), ecosystem) then fs'(at) == fs(at)
          else Rewritten(fs(at), fs'(at), ecosystem, spec, name))
  {
    TargetExact(fs, target, at);
    M.SpellsParse(spec, name, version);
    hide ParseSpec, IsTarget, TargetDir, Rewritten;
    var f := if fs(at).Absent? then NEW_FILE else ReadEither(fs(at)).value;
    assert f.ecosystems == ListsIn(fs(at));
    if spec !in ListOf(f.ecosystems, ecosystem) {
      WrittenIs(fs(at), f, ecosystem, spec, name, version);
    }
  }

  lemma WrittenIs(e: Entry, f: IntentFile, ecosystem: string, spec: string, name: string, version: string)
    requires f.ecosystems == ListsIn(e) && spec == name + "@" + version && spec !in ListOf(f.ecosystems, ecosystem)
    requires M.Spells(spec, name, version)
    requires if e.File? && e.doc.Doc? then f.version == e.doc.version && f.root == e.doc.root
             else f.version == 0 && !f.root
    ensures Rewritten(e, Written(f.(ecosystems := Upserted(f.ecosystems, ecosystem, name, version))), ecosystem, spec,
                      name)
  {
    var lists := Upserted(f.ecosystems, ecosystem, name, version);
    var was := ListOf(f.ecosystems, ecosystem);
    UpsertReplaces(was, spec, name, version);
    hide Sort, Sorted, M.Spells, Replaced, UpsertList;
    forall e1 | e1 in lists
      ensures Sorted(StringLeq, Sort(StringLeq, lists[e1]))
      ensures multiset(Sort(StringLeq, lists[e1])) == multiset(lists[e1])
    {
      InOrder(lists[e1]);
    }
    SameReplaced(was, lists[ecosystem], Sort(StringLeq, lists[ecosystem]), spec, name);
  }

  lemma InOrder(list: seq<string>)
    ensures Sorted(StringLeq, Sort(StringLeq, list)) && multiset(Sort(StringLeq, list)) == multiset(list)
  {
    StringLeqOrder();
    SortCorrect(StringLeq, list);
  }

  lemma UpsertReplaces(was: seq<string>, spec: string, name: string, version: string)
    requires M.Spells(spec, name, version) && spec !in was
    ensures Replaced(was, UpsertList(was, name, version), spec, name)
  {
    assert UpsertList(was, name, version) == Without(was, name) + [spec];
    hide UpsertList, Without, SpellsName;
    assert SpellsName(spec, name) by { assert M.Spells(spec, name, version); }
    forall s
      ensures multiset(UpsertList(was, name, version))[s] ==
              if s == spec then 1 else if SpellsName(s, name) then 0 else multiset(was)[s]
    {
      WithoutCounts(was, name, s);
    }
  }

  lemma SameReplaced(was: seq<string>, now: seq<string>, now': seq<string>, spec: string, name: string)
    requires Replaced(was, now, spec, name) && multiset(now) == multiset(now')
    ensures Replaced(was, now', spec, name)
  {
  }
}
