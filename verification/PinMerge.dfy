/** Pin specifiers and the merge of a chain of pin files (internal/intent/merge.go). */
module PinMerge {
  import opened Json

  /** Ecosystem, then name, to version. */
  type PinSet = map<string, map<string, string>>

  datatype IntentFile = IntentFile(version: int, root: bool, ecosystems: map<string, seq<string>>)

  // ---------- name@version ----------

  /** The position of the last '@', or -1. */
  function LastAt(s: string): (at: int)
    ensures -1 <= at < |s|
    ensures at >= 0 ==> s[at] == '@'
    ensures forall i | at < i < |s| :: s[i] != '@'
  {
    if s == [] then -1 else if s[|s| - 1] == '@' then |s| - 1 else LastAt(s[..|s| - 1])
  }

  function ParseSpec(spec: string): Option<(string, string)> {
    var at := LastAt(spec);
    if at <= 0 || at == |spec| - 1 then None else Some((spec[..at], spec[at + 1..]))
  }

  /** A specifier reads as a name and a version exactly when it is the two joined by "@",
      neither empty, and no further "@" in the version. */
  lemma ParseSpecExact(spec: string, name: string, version: string)
    ensures ParseSpec(spec) == Some((name, version)) <==>
            spec == name + "@" + version && name != "" && version != "" && '@' !in version
  {
    hide ParseSpec;
    if ParseSpec(spec) == Some((name, version)) { ParsedSpec(spec, name, version); }
    if spec == name + "@" + version && name != "" && version != "" && '@' !in version {
      SpecParses(spec, name, version);
    }
  }

  lemma ParsedSpec(spec: string, name: string, version: string)
    requires ParseSpec(spec) == Some((name, version))
    ensures spec == name + "@" + version && name != "" && version != "" && '@' !in version
  {
    hide LastAt;
    var at := LastAt(spec);
    assert spec == spec[..at] + [spec[at]] + spec[at + 1..];
    assert forall i | 0 <= i < |version| :: version[i] == spec[at + 1 + i];
  }

  lemma SpecParses(spec: string, name: string, version: string)
    requires spec == name + "@" + version && name != "" && version != "" && '@' !in version
    ensures ParseSpec(spec) == Some((name, version))
  {
    hide LastAt;
    assert spec[|name|] == '@' && spec[..|name|] == name && spec[|name| + 1..] == version;
    LastAtIs(spec, |name|);
  }

  lemma LastAtIs(s: string, at: nat)
    requires at < |s| && s[at] == '@' && '@' !in s[at + 1..]
    ensures LastAt(s) == at
  {
    hide LastAt;
    assert forall i | at < i < |s| :: s[i] == s[at + 1..][i - at - 1];
  }

  // ---------- the pins of one list ----------

  /** The pins a list gives, if all its specifiers are well formed and no name is listed twice. */
  function Listed(specs: seq<string>): Option<map<string, string>> {
    if specs == [] then Some(map[])
    else
      match (Listed(specs[..|specs| - 1]), ParseSpec(specs[|specs| - 1]))
      case (Some(pins), Some((name, version))) => if name in pins then None else Some(pins[name := version])
      case _ => None
  }

  ghost predicate WellFormed(specs: seq<string>) {
    && (forall i | 0 <= i < |specs| :: ParseSpec(specs[i]).Some?)
    && (forall i, j | 0 <= i < j < |specs| :: ParseSpec(specs[i]).value.0 != ParseSpec(specs[j]).value.0)
  }

  ghost predicate Has(specs: seq<string>, name: string, version: string) {
    exists i | 0 <= i < |specs| :: ParseSpec(specs[i]) == Some((name, version))
  }

  ghost predicate HasName(specs: seq<string>, name: string) {
    exists version :: Has(specs, name, version)
  }

  lemma HasLast(specs: seq<string>, name: string, version: string)
    requires specs != []
    ensures Has(specs, name, version) <==>
            Has(specs[..|specs| - 1], name, version) || ParseSpec(specs[|specs| - 1]) == Some((name, version))
  {
    var init := specs[..|specs| - 1];
    if i :| 0 <= i < |specs| && ParseSpec(specs[i]) == Some((name, version)) {
      if i < |init| { assert init[i] == specs[i]; }
    }
    if i :| 0 <= i < |init| && ParseSpec(init[i]) == Some((name, version)) {
      assert specs[i] == init[i];
    }
  }

  lemma WellFormedLast(specs: seq<string>)
    requires specs != []
    ensures WellFormed(specs) <==>
            && WellFormed(specs[..|specs| - 1]) && ParseSpec(specs[|specs| - 1]).Some?
            && !HasName(specs[..|specs| - 1], ParseSpec(specs[|specs| - 1]).value.0)
  {
    var n := |specs| - 1;
    var init := specs[..n];
    assert forall i | 0 <= i < n :: init[i] == specs[i];
    if WellFormed(specs) {
      assert forall i | 0 <= i < n :: ParseSpec(init[i]).value.0 != ParseSpec(specs[n]).value.0;
    }
    if WellFormed(init) && ParseSpec(specs[n]).Some? && !HasName(init, ParseSpec(specs[n]).value.0) {
      forall i | 0 <= i < n ensures ParseSpec(specs[i]).value.0 != ParseSpec(specs[n]).value.0 {
        assert !Has(init, ParseSpec(specs[n]).value.0, ParseSpec(init[i]).value.1);
        assert ParseSpec(init[i]) == Some((ParseSpec(init[i]).value.0, ParseSpec(init[i]).value.1));
      }
    }
  }

  /** A list is accepted exactly when it is well formed, and gives exactly the pins it has. */
  lemma {:induction false} ListedExact(specs: seq<string>)
    ensures Listed(specs).Some? <==> WellFormed(specs)
    ensures Listed(specs).Some? ==> forall name, version ::
              name in Listed(specs).value && Listed(specs).value[name] == version <==> Has(specs, name, version)
  {
    if specs != [] {
      var init := specs[..|specs| - 1];
      ListedExact(init);
      WellFormedLast(specs);
      if Listed(init).Some? {
        forall name ensures HasName(init, name) <==> name in Listed(init).value {
          if name in Listed(init).value { assert Has(init, name, Listed(init).value[name]); }
        }
      }
      hide WellFormed, Has, HasName, ParseSpec;
      forall name, version
        ensures Has(specs, name, version) <==>
            Has(init, name, version) || ParseSpec(specs[|specs| - 1]) == Some((name, version))
      {
        HasLast(specs, name, version);
      }
    }
  }

  // ---------- the fold over a chain ----------

  function Pins(pins: PinSet, ecosystem: string): map<string, string> {
    if ecosystem in pins then pins[ecosystem] else map[]
  }

  /** Every list of the file is well formed. */
  predicate Unambiguous(f: IntentFile) {
    forall e | e in f.ecosystems :: Listed(f.ecosystems[e]).Some?
  }

  function ListedPins(f: IntentFile, ecosystem: string): map<string, string> {
    if ecosystem in f.ecosystems && Listed(f.ecosystems[ecosystem]).Some? then Listed(f.ecosystems[ecosystem]).value
    else map[]
  }

  /** A set overridden by the pins a file lists in some ecosystems. */
  function Overridden(base: PinSet, f: IntentFile, ecosystems: set<string>): PinSet {
    map e | e in base.Keys + ecosystems ::
      if e in ecosystems then Pins(base, e) + ListedPins(f, e) else base[e]
  }

  function Override(base: Option<PinSet>, f: IntentFile): Option<PinSet> {
    if base.Some? && Unambiguous(f) then Some(Overridden(base.value, f, f.ecosystems.Keys)) else None
  }

  /** Later files win, name by name. */
  function Merged(chain: seq<IntentFile>): Option<PinSet> {
    if chain == [] then Some(map[]) else Override(Merged(chain[..|chain| - 1]), chain[|chain| - 1])
  }

  /** Merge, file by file. */
  method Merge(chain: seq<IntentFile>) returns (r: Option<PinSet>)
    ensures r == Merged(chain)
  {
    var out: PinSet := map[];
    for n := 0 to |chain|
      invariant Merged(chain[..n]) == Some(out)
    {
      assert chain[..n + 1][..n] == chain[..n];
      var next := MergeFile(out, chain[n]);
      if next.None? {
        MergedFails(chain, n + 1);
        return None;
      }
      out := next.value;
    }
    assert chain[..|chain|] == chain;
    r := Some(out);
  }

  /** The ecosystems of one file, in any order. */
  method MergeFile(base: PinSet, f: IntentFile) returns (r: Option<PinSet>)
    ensures r == Override(Some(base), f)
  {
    var out := base;
    var todo := f.ecosystems.Keys;
    assert Overridden(base, f, f.ecosystems.Keys - todo) == base;
    hide Listed, ListedPins, Overridden, Pins;
    while todo != {}
      invariant todo <= f.ecosystems.Keys
      invariant forall e | e in f.ecosystems && e !in todo :: Listed(f.ecosystems[e]).Some?
      invariant out == Overridden(base, f, f.ecosystems.Keys - todo)
      decreases todo
    {
      var ecosystem :| ecosystem in todo;
      var next := MergeEcosystem(out, f, ecosystem);
      if next.None? {
        return None;
      }
      OverriddenStep(base, f, f.ecosystems.Keys - todo, ecosystem);
      assert f.ecosystems.Keys - todo + {ecosystem} == f.ecosystems.Keys - (todo - {ecosystem});
      out, todo := next.value, todo - {ecosystem};
    }
    assert f.ecosystems.Keys - todo == f.ecosystems.Keys && Unambiguous(f);
    r := Some(out);
  }

  method MergeEcosystem(out: PinSet, f: IntentFile, ecosystem: string) returns (r: Option<PinSet>)
    requires ecosystem in f.ecosystems
    ensures r == if Listed(f.ecosystems[ecosystem]).None? then None else
                 Some(out[ecosystem := Pins(out, ecosystem) + ListedPins(f, ecosystem)])
  {
    var seen := Scan(f.ecosystems[ecosystem]);
    if seen.None? {
      return None;
    }
    var merged := out;
    if ecosystem !in merged {
      merged := merged[ecosystem := map[]];
    }
    merged := Assign(merged, ecosystem, seen.value);
    assert merged == out[ecosystem := Pins(out, ecosystem) + ListedPins(f, ecosystem)];
    r := Some(merged);
  }

  lemma OverriddenStep(base: PinSet, f: IntentFile, done: set<string>, ecosystem: string)
    requires ecosystem !in done
    ensures
      var out := Overridden(base, f, done);
      Overridden(base, f, done + {ecosystem}) == out[ecosystem := Pins(out, ecosystem) + ListedPins(f, ecosystem)]
  {
  }

  /** One list: a malformed specifier or a repeated name is an error. */
  method Scan(specs: seq<string>) returns (r: Option<map<string, string>>)
    ensures r == Listed(specs)
  {
    var seen: map<string, string> := map[];
    for i := 0 to |specs|
      invariant Listed(specs[..i]) == Some(seen)
    {
      assert specs[..i + 1][..i] == specs[..i];
      var parsed := ParseSpec(specs[i]);
      if parsed.None? || parsed.value.0 in seen {
        ListedFails(specs, i + 1);
        return None;
      }
      seen := seen[parsed.value.0 := parsed.value.1];
    }
    assert specs[..|specs|] == specs;
    r := Some(seen);
  }

  method Assign(out: PinSet, ecosystem: string, seen: map<string, string>) returns (out': PinSet)
    requires ecosystem in out
    ensures out' == out[ecosystem := out[ecosystem] + seen]
  {
    out' := out;
    var todo := seen.Keys;
    while todo != {}
      invariant todo <= seen.Keys && out'.Keys == out.Keys
      invariant forall e | e in out && e != ecosystem :: out'[e] == out[e]
      invariant out'[ecosystem].Keys == out[ecosystem].Keys + (seen.Keys - todo)
      invariant forall name | name in out'[ecosystem] ::
                  out'[ecosystem][name] == if name in seen && name !in todo then seen[name] else out[ecosystem][name]
      decreases todo
    {
      var name :| name in todo;
      out' := out'[ecosystem := out'[ecosystem][name := seen[name]]];
      todo := todo - {name};
    }
    assert out'[ecosystem] == out[ecosystem] + seen;
  }

  lemma {:induction false} ListedFails(specs: seq<string>, i: nat)
    requires i <= |specs| && Listed(specs[..i]).None?
    ensures Listed(specs).None?
    decreases |specs| - i
  {
    if i == |specs| {
      assert specs[..i] == specs;
    } else {
      assert specs[..i + 1][..i] == specs[..i];
      ListedFails(specs, i + 1);
    }
  }

  lemma {:induction false} MergedFails(chain: seq<IntentFile>, n: nat)
    requires n <= |chain| && Merged(chain[..n]).None?
    ensures Merged(chain).None?
    decreases |chain| - n
  {
    if n == |chain| {
      assert chain[..n] == chain;
    } else {
      assert chain[..n + 1][..n] == chain[..n];
      MergedFails(chain, n + 1);
    }
  }

  lemma OverriddenPins(base: PinSet, f: IntentFile, ecosystem: string)
    ensures Pins(Overridden(base, f, f.ecosystems.Keys), ecosystem) == Pins(base, ecosystem) + ListedPins(f, ecosystem)
  {
  }

  /** The file listing a name last in a chain, if any. */
  function LastListing(chain: seq<IntentFile>, ecosystem: string, name: string): (i: int)
    ensures -1 <= i < |chain|
    ensures i >= 0 ==> name in ListedPins(chain[i], ecosystem)
    ensures forall j | i < j < |chain| :: name !in ListedPins(chain[j], ecosystem)
  {
    if chain == [] then -1
    else
      var n := |chain| - 1;
      if name in ListedPins(chain[n], ecosystem) then n else LastListing(chain[..n], ecosystem, name)
  }

  /** A name is pinned if some file of the chain lists it, to the version in the last that does. */
  lemma {:induction false} LastFileWins(chain: seq<IntentFile>, ecosystem: string, name: string)
    requires Merged(chain).Some?
    ensures
      var pins := Pins(Merged(chain).value, ecosystem);
      var i := LastListing(chain, ecosystem, name);
      if i >= 0 then name in pins && pins[name] == ListedPins(chain[i], ecosystem)[name] else name !in pins
  {
    if chain != [] {
      var n := |chain| - 1;
      OverriddenPins(Merged(chain[..n]).value, chain[n], ecosystem);
      hide Pins, ListedPins, Overridden, Unambiguous;
      LastFileWins(chain[..n], ecosystem, name);
    }
  }
}
