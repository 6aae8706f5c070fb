/** Editing a pin file: upsertPin (cmd/schemalock/add.go) and canonical order (internal/intent/intent.go). */
module PinEdit {
  import opened Json
  import opened PinMerge
  import opened Sorting

  // ---------- upsert, as a function of the lists ----------

  predicate Names(spec: string, name: string) {
    ParseSpec(spec).Some? && ParseSpec(spec).value.0 == name
  }

  /** The list without the pins of a name; malformed specifiers stay. */
  function Without(specs: seq<string>, name: string): seq<string> {
    if specs == [] then []
    else
      var last := specs[|specs| - 1];
      Without(specs[..|specs| - 1], name) + if Names(last, name) then [] else [last]
  }

  function UpsertList(specs: seq<string>, name: string, version: string): seq<string> {
    var target := name + "@" + version;
    if target in specs then specs else Without(specs, name) + [target]
  }

  function ListOf(lists: map<string, seq<string>>, ecosystem: string): seq<string> {
    if ecosystem in lists then lists[ecosystem] else []
  }

  function Upserted(lists: map<string, seq<string>>, ecosystem: string, name: string, version: string): map<string,
          seq<string>> {
    lists[ecosystem := UpsertList(ListOf(lists, ecosystem), name, version)]
  }

  // ---------- upsert, on slices ----------

  /** A slice: the first len elements of an array that others may share. */
  datatype Slice = Slice(arr: array<string>, len: nat) {
    ghost predicate Valid() { len <= arr.Length }

    ghost function Contents(): seq<string>
      requires Valid()
      reads arr
    {
      arr[..len]
    }
  }

  ghost predicate AllValid(lists: map<string, Slice>) {
    forall e | e in lists :: lists[e].Valid()
  }

  ghost function AllContents(lists: map<string, Slice>): map<string, seq<string>>
    requires AllValid(lists)
    reads set e | e in lists :: lists[e].arr
  {
    map e | e in lists :: lists[e].Contents()
  }

  /** upsertPin: the given lists are copied, then filtered in place and appended to. It writes to
      no array that exists before the call, so the caller's lists stay as they are. */
  method UpsertPin(lists: map<string, Slice>, ecosystem: string, name: string, version: string)
    returns (mutated: bool, replaced: bool, out: map<string, Slice>)
    requires AllValid(lists)
    ensures AllValid(out) && forall e | e in out :: fresh(out[e].arr)
    ensures AllContents(out) == Upserted(AllContents(lists), ecosystem, name, version)
    ensures mutated <==> name + "@" + version !in ListOf(AllContents(lists), ecosystem)
    ensures replaced <==> mutated && exists s | s in ListOf(AllContents(lists), ecosystem) :: Names(s, name)
  {
    hide Without, Names, Upserted;
    ghost var given := AllContents(lists);
    UpsertedCases(given, ecosystem, name, version);
    out := CopyLists(lists);
    var target := name + "@" + version;
    if ecosystem in out {
      mutated, replaced, out := UpsertExisting(out, ecosystem, name, target);
    } else {
      mutated, replaced := true, false;
      out := FirstOf(out, ecosystem, target);
    }
  }

  method UpsertExisting(lists: map<string, Slice>, ecosystem: string, name: string, target: string)
    returns (mutated: bool, replaced: bool, out: map<string, Slice>)
    requires AllValid(lists) && ecosystem in lists
    requires forall e | e in lists && e != ecosystem :: lists[e].arr != lists[ecosystem].arr
    modifies lists[ecosystem].arr
    ensures AllValid(out) && out.Keys == lists.Keys
    ensures forall e | e in out :: fresh(out[e].arr) || out[e].arr == lists[e].arr
    ensures
      var specs := old(lists[ecosystem].Contents());
      && AllContents(out) == (if target in specs then old(AllContents(lists))
                              else old(AllContents(lists))[ecosystem := Without(specs, name) + [target]])
      && (mutated <==> target !in specs)
      && (replaced <==> mutated && exists s | s in specs :: Names(s, name))
  {
    hide Without, Names;
    out := lists;
    var present := Contains(lists[ecosystem], target);
    mutated, replaced := !present, false;
    if mutated {
      replaced, out := ReplaceAt(lists, ecosystem, name, target);
    }
  }

  method ReplaceAt(lists: map<string, Slice>, ecosystem: string, name: string, target: string)
    returns (replaced: bool, out: map<string, Slice>)
    requires AllValid(lists) && ecosystem in lists
    requires forall e | e in lists && e != ecosystem :: lists[e].arr != lists[ecosystem].arr
    modifies lists[ecosystem].arr
    ensures AllValid(out) && out.Keys == lists.Keys
    ensures forall e | e in out :: fresh(out[e].arr) || out[e].arr == lists[e].arr
    ensures AllContents(out) ==
        old(AllContents(lists))[ecosystem := Without(old(lists[ecosystem].Contents()), name) + [target]]
    ensures replaced <==> exists s | s in old(lists[ecosystem].Contents()) :: Names(s, name)
  {
    hide Without, Names;
    var list;
    list, replaced := Replace(lists[ecosystem], name, target);
    out := lists[ecosystem := list];
    assert AllContents(out) == old(AllContents(lists))[ecosystem := list.Contents()];
  }

  method FirstOf(lists: map<string, Slice>, ecosystem: string, target: string) returns (out: map<string, Slice>)
    requires AllValid(lists) && ecosystem !in lists
    ensures AllValid(out) && AllContents(out) == old(AllContents(lists))[ecosystem := [target]]
    ensures out.Keys == lists.Keys + {ecosystem} && fresh(out[ecosystem].arr)
    ensures forall e | e in lists :: out[e] == lists[e]
  {
    var list := new string[1](_ => target);
    assert list[..1] == [target];
    out := lists[ecosystem := Slice(list, 1)];
    assert AllContents(out) == AllContents(lists)[ecosystem := [target]];
  }

  method Contains(list: Slice, target: string) returns (present: bool)
    requires list.Valid()
    ensures present <==> target in list.Contents()
  {
    for i := 0 to list.len
      invariant target !in list.arr[..i]
    {
      if list.arr[i] == target {
        return true;
      }
    }
    return false;
  }

  method Replace(list: Slice, name: string, target: string) returns (out: Slice, dropped: bool)
    requires list.Valid()
    modifies list.arr
    ensures out.Valid() && out.Contents() == Without(old(list.Contents()), name) + [target]
    ensures out.arr == list.arr || fresh(out.arr)
    ensures dropped <==> exists s | s in old(list.Contents()) :: Names(s, name)
  {
    var kept;
    kept, dropped := FilterInPlace(list, name);
    out := Append(Slice(list.arr, kept), target);
  }

  lemma UpsertedCases(lists: map<string, seq<string>>, ecosystem: string, name: string, version: string)
    ensures
      var target := name + "@" + version;
      var specs := ListOf(lists, ecosystem);
      Upserted(lists, ecosystem, name, version) ==
      if ecosystem !in lists then lists[ecosystem := [target]]
      else if target in specs then lists
      else lists[ecosystem := Without(specs, name) + [target]]
  {
    assert Without([], name) + [name + "@" + version] == [name + "@" + version];
  }

  method CopyLists(lists: map<string, Slice>) returns (out: map<string, Slice>)
    requires AllValid(lists)
    ensures AllValid(out) && AllContents(out) == AllContents(lists)
    ensures forall e | e in out :: fresh(out[e].arr)
    ensures forall e, e' | e in out && e' in out && e != e' :: out[e].arr != out[e'].arr
  {
    out := map[];
    var todo := lists.Keys;
    while todo != {}
      invariant todo <= lists.Keys && out.Keys == lists.Keys - todo && AllValid(out)
      invariant forall e | e in out :: fresh(out[e].arr) && out[e].Contents() == lists[e].Contents()
      invariant forall e, e' | e in out && e' in out && e != e' :: out[e].arr != out[e'].arr
      decreases todo
    {
      var e :| e in todo;
      var from := lists[e];
      var copy := new string[from.len](
        i requires 0 <= i < from.len && from.len <= from.arr.Length reads from.arr => from.arr[i]);
      assert copy[..from.len] == from.Contents();
      out := out[e := Slice(copy, from.len)];
      todo := todo - {e};
    }
  }

  /** Move what stays to the front of the same array. */
  method FilterInPlace(list: Slice, name: string) returns (kept: nat, dropped: bool)
    requires list.Valid()
    modifies list.arr
    ensures kept <= list.len && list.arr[..kept] == Without(old(list.Contents()), name)
    ensures dropped <==> exists s | s in old(list.Contents()) :: Names(s, name)
  {
    ghost var specs := list.Contents();
    var a := list.arr;
    kept, dropped := 0, false;
    for i := 0 to list.len
      invariant kept <= i
      invariant a[..kept] == Without(specs[..i], name)
      invariant a[i..list.len] == specs[i..]
      invariant dropped <==> exists s | s in specs[..i] :: Names(s, name)
    {
      assert specs[..i + 1][..i] == specs[..i];
      assert a[i] == a[i..list.len][0] == specs[i];
      assert specs[..i + 1] == specs[..i] + [specs[i]];
      var s := a[i];
      if Names(s, name) {
        dropped := true;
      } else {
        a[kept] := s;
        kept := kept + 1;
      }
      assert a[i + 1..list.len] == specs[i + 1..];
    }
    assert specs[..list.len] == specs;
  }

  /** append: in place if the array has room, else into a larger one. */
  method Append(list: Slice, x: string) returns (out: Slice)
    requires list.Valid()
    modifies list.arr
    ensures out.Valid() && out.Contents() == old(list.Contents()) + [x]
    ensures out.arr == list.arr || fresh(out.arr)
    ensures out.arr != list.arr ==> list.arr[..] == old(list.arr[..])
  {
    if list.len < list.arr.Length {
      list.arr[list.len] := x;
      return Slice(list.arr, list.len + 1);
    }
    var from := list;
    var larger := new string[from.len + 1](
      i requires 0 <= i <= from.len && from.len <= from.arr.Length reads from.arr =>
      if i < from.len then from.arr[i] else x);
    assert larger[..from.len + 1] == list.Contents() + [x];
    return Slice(larger, from.len + 1);
  }

  // ---------- what an upsert does to the merged pins ----------

  lemma ListedAppend(specs: seq<string>, spec: string)
    ensures Listed(specs + [spec]) ==
            match (Listed(specs), ParseSpec(spec))
            case (Some(pins), Some((name, version))) => if name in pins then None else Some(pins[name := version])
            case _ => None
  {
    assert (specs + [spec])[..|specs|] == specs;
  }

  lemma WithoutLast(specs: seq<string>, spec: string, name: string)
    ensures Without(specs + [spec], name) ==
        if Names(spec, name) then Without(specs, name) else Without(specs, name) + [spec]
  {
    assert (specs + [spec])[..|specs|] == specs;
  }

  lemma DropName(pins: map<string, string>, last: string, version: string, name: string)
    ensures pins[last := version] - {name} == if last == name then pins - {name} else (pins - {name})[last := version]
  {
  }

  lemma {:induction false} WithoutPins(specs: seq<string>, name: string)
    requires Listed(specs).Some?
    ensures Listed(Without(specs, name)) == Some(Listed(specs).value - {name})
  {
    if specs == [] {
      assert Listed(specs).value - {name} == Listed(specs).value;
    } else {
      var n := |specs| - 1;
      WithoutPins(specs[..n], name);
      hide Listed, Without, ParseSpec;
      assert specs == specs[..n] + [specs[n]];
      ListedAppend(specs[..n], specs[n]);
      WithoutLast(specs[..n], specs[n], name);
      ListedAppend(Without(specs[..n], name), specs[n]);
      var (last, version) := ParseSpec(specs[n]).value;
      DropName(Listed(specs[..n]).value, last, version, name);
    }
  }

  lemma AlreadyListed(specs: seq<string>, name: string, version: string)
    requires name + "@" + version in specs && ParseSpec(name + "@" + version) == Some((name, version))
    requires Listed(specs).Some?
    ensures Listed(specs) == Some(Listed(specs).value[name := version])
  {
    ListedExact(specs);
    assert Has(specs, name, version);
    hide Listed, ParseSpec, WellFormed, Has;
    assert Listed(specs).value[name := version] == Listed(specs).value;
  }

  lemma UpsertListPins(specs: seq<string>, name: string, version: string)
    requires ParseSpec(name + "@" + version) == Some((name, version)) && Listed(specs).Some?
    ensures Listed(UpsertList(specs, name, version)) == Some(Listed(specs).value[name := version])
  {
    if name + "@" + version in specs {
      AlreadyListed(specs, name, version);
    } else {
      hide Listed, Without, ParseSpec;
      ReplacedPins(specs, name, version, name + "@" + version);
    }
  }

  lemma ReplacedPins(specs: seq<string>, name: string, version: string, target: string)
    requires ParseSpec(target) == Some((name, version)) && Listed(specs).Some?
    ensures Listed(Without(specs, name) + [target]) == Some(Listed(specs).value[name := version])
  {
    hide Listed, Without, ParseSpec;
    WithoutPins(specs, name);
    ListedAppend(Without(specs, name), target);
    DropAndSet(Listed(specs).value, name, version);
  }

  lemma DropAndSet(pins: map<string, string>, name: string, version: string)
    ensures name !in pins - {name} && (pins - {name})[name := version] == pins[name := version]
  {
  }

  /** Where a pin lands in a chain: its last file. */
  function UpsertedChain(chain: seq<IntentFile>, ecosystem: string, name: string, version: string): seq<IntentFile>
    requires chain != []
  {
    var n := |chain| - 1;
    chain[..n] + [chain[n].(ecosystems := Upserted(chain[n].ecosystems, ecosystem, name, version))]
  }

  function Pin(pins: PinSet, ecosystem: string, name: string, version: string): PinSet {
    pins[ecosystem := Pins(pins, ecosystem)[name := version]]
  }

  /** If the chain merges, an upsert into its last file changes the merged set at exactly that
      ecosystem and name. */
  lemma UpsertChangesOnePin(chain: seq<IntentFile>, ecosystem: string, name: string, version: string)
    requires chain != [] && Merged(chain).Some? && ParseSpec(name + "@" + version) == Some((name, version))
    ensures Merged(UpsertedChain(chain, ecosystem, name, version)) ==
        Some(Pin(Merged(chain).value, ecosystem, name, version))
  {
    var n := |chain| - 1;
    var f := chain[n];
    var f' := f.(ecosystems := Upserted(f.ecosystems, ecosystem, name, version));
    var up := UpsertedChain(chain, ecosystem, name, version);
    assert up[..n] == chain[..n] && up[n] == f';
    UpsertedFile(f, ecosystem, name, version);
    hide Upserted, ListedPins, Unambiguous;
    UpsertOverride(Merged(chain[..n]).value, f, f', ecosystem, name, version);
  }

  lemma UpsertedFile(f: IntentFile, ecosystem: string, name: string, version: string)
    requires Unambiguous(f) && ParseSpec(name + "@" + version) == Some((name, version))
    ensures
      var f' := f.(ecosystems := Upserted(f.ecosystems, ecosystem, name, version));
      && Unambiguous(f') && f'.ecosystems.Keys == f.ecosystems.Keys + {ecosystem}
      && (forall e | e != ecosystem :: ListedPins(f', e) == ListedPins(f, e))
      && ListedPins(f', ecosystem) == ListedPins(f, ecosystem)[name := version]
  {
    hide UpsertList;
    UpsertListPins(ListOf(f.ecosystems, ecosystem), name, version);
  }

  lemma UpsertOverride(base: PinSet, f: IntentFile, f': IntentFile, ecosystem: string, name: string, version: string)
    requires f'.ecosystems.Keys == f.ecosystems.Keys + {ecosystem}
    requires forall e | e != ecosystem :: ListedPins(f', e) == ListedPins(f, e)
    requires ListedPins(f', ecosystem) == ListedPins(f, ecosystem)[name := version]
    ensures Overridden(base, f', f'.ecosystems.Keys) ==
        Pin(Overridden(base, f, f.ecosystems.Keys), ecosystem, name, version)
  {
    var a := Overridden(base, f', f'.ecosystems.Keys);
    var b := Pin(Overridden(base, f, f.ecosystems.Keys), ecosystem, name, version);
    assert a.Keys == b.Keys;
    hide ListedPins, Overridden;
    forall e | e in a ensures Pins(a, e) == Pins(b, e) {
      UpsertOverrideAt(base, f, f', ecosystem, name, version, e);
    }
    assert a == b;
  }

  lemma UpsertOverrideAt(base: PinSet, f: IntentFile, f': IntentFile, ecosystem: string, name: string,
          version: string, e: string)
    requires forall e | e != ecosystem :: ListedPins(f', e) == ListedPins(f, e)
    requires ListedPins(f', ecosystem) == ListedPins(f, ecosystem)[name := version]
    ensures Pins(Overridden(base, f', f'.ecosystems.Keys), e) ==
            Pins(Pin(Overridden(base, f, f.ecosystems.Keys), ecosystem, name, version), e)
  {
    hide ListedPins, Overridden, Pins, Pin;
    OverriddenPins(base, f', e);
    OverriddenPins(base, f, e);
    PinAt(Overridden(base, f, f.ecosystems.Keys), ecosystem, name, version, e);
    if e == ecosystem {
      assert Pins(base, e) + ListedPins(f, e)[name := version] == (Pins(base, e) + ListedPins(f, e))[name := version];
    }
  }

  lemma PinAt(pins: PinSet, ecosystem: string, name: string, version: string, e: string)
    ensures Pins(Pin(pins, ecosystem, name, version), e) ==
            if e == ecosystem then Pins(pins, e)[name := version] else Pins(pins, e)
  {
  }

  lemma UpsertIdempotent(lists: map<string, seq<string>>, ecosystem: string, name: string, version: string)
    ensures
      var once := Upserted(lists, ecosystem, name, version);
      Upserted(once, ecosystem, name, version) == once
  {
  }

  // ---------- canonical order ----------

  function SortedFile(f: IntentFile): IntentFile {
    f.(ecosystems := map e | e in f.ecosystems :: Sort(StringLeq, f.ecosystems[e]))
  }

  lemma WellFormedPermutes(a: seq<string>, b: seq<string>)
    requires multiset(a) == multiset(b) && WellFormed(a)
    ensures WellFormed(b)
  {
    forall i | 0 <= i < |b| ensures ParseSpec(b[i]).Some? {
      assert b[i] in multiset(a);
    }
    assert Distinct(a) by {
      forall i, j | 0 <= i < j < |a| ensures a[i] != a[j] {
        assert ParseSpec(a[i]).value.0 != ParseSpec(a[j]).value.0;
      }
    }
    DistinctPermutes(a, b);
    hide ParseSpec;
    forall i, j | 0 <= i < j < |b| ensures ParseSpec(b[i]).value.0 != ParseSpec(b[j]).value.0 {
      assert b[i] in a && b[j] in a && b[i] != b[j];
      var k :| 0 <= k < |a| && a[k] == b[i];
      var l :| 0 <= l < |a| && a[l] == b[j];
    }
  }

  /** The order of a list does not matter: not to its pins, and not to whether it is accepted. */
  lemma ListedPermutes(a: seq<string>, b: seq<string>)
    requires multiset(a) == multiset(b)
    ensures Listed(a) == Listed(b)
  {
    ListedExact(a);
    ListedExact(b);
    if WellFormed(a) { WellFormedPermutes(a, b); }
    if WellFormed(b) { WellFormedPermutes(b, a); }
    if Listed(a).Some? {
      forall name, version ensures Has(a, name, version) <==> Has(b, name, version) {
        if Has(a, name, version) { HasPermutes(a, b, name, version); }
        if Has(b, name, version) { HasPermutes(b, a, name, version); }
      }
      var p, q := Listed(a).value, Listed(b).value;
      hide Has, Listed, WellFormed;
      forall name ensures name in p <==> name in q {
        if name in p { assert Has(a, name, p[name]); }
        if name in q { assert Has(b, name, q[name]); }
      }
      forall name | name in p ensures p[name] == q[name] {
        assert Has(a, name, p[name]);
      }
      assert p == q;
    }
  }

  lemma HasPermutes(a: seq<string>, b: seq<string>, name: string, version: string)
    requires multiset(a) == multiset(b) && Has(a, name, version)
    ensures Has(b, name, version)
  {
    var i :| 0 <= i < |a| && ParseSpec(a[i]) == Some((name, version));
    assert a[i] in multiset(b);
    var j :| 0 <= j < |b| && b[j] == a[i];
  }

  /** Writing every file of a chain in canonical order changes neither the merged set nor
      whether merging fails. */
  lemma {:induction false} CanonicalKeepsMerge(chain: seq<IntentFile>)
    ensures Merged(seq(|chain|, i requires 0 <= i < |chain| => SortedFile(chain[i]))) == Merged(chain)
  {
    var canonical := seq(|chain|, i requires 0 <= i < |chain| => SortedFile(chain[i]));
    if chain != [] {
      var n := |chain| - 1;
      CanonicalKeepsMerge(chain[..n]);
      assert canonical[..n] == seq(n, i requires 0 <= i < n => SortedFile(chain[..n][i]));
      forall e | e in chain[n].ecosystems ensures Listed(canonical[n].ecosystems[e]) == Listed(chain[n].ecosystems[e]) {
        StringLeqOrder();
        SortCorrect(StringLeq, chain[n].ecosystems[e]);
        ListedPermutes(canonical[n].ecosystems[e], chain[n].ecosystems[e]);
      }
      if Merged(chain[..n]).Some? && Unambiguous(chain[n]) {
        SameOverride(Merged(chain[..n]).value, chain[n], canonical[n]);
      }
    }
  }

  lemma SameOverride(base: PinSet, f: IntentFile, f': IntentFile)
    requires f'.ecosystems.Keys == f.ecosystems.Keys
    requires forall e | e in f.ecosystems :: Listed(f'.ecosystems[e]) == Listed(f.ecosystems[e])
    ensures Overridden(base, f', f'.ecosystems.Keys) == Overridden(base, f, f.ecosystems.Keys)
  {
  }

  lemma CanonicalTwice(f: IntentFile)
    ensures SortedFile(SortedFile(f)) == SortedFile(f)
  {
    StringLeqOrder();
    forall e | e in f.ecosystems
      ensures Sort(StringLeq, Sort(StringLeq, f.ecosystems[e])) == Sort(StringLeq, f.ecosystems[e])
    {
      SortCorrect(StringLeq, f.ecosystems[e]);
      SortOfSorted(StringLeq, Sort(StringLeq, f.ecosystems[e]));
    }
  }

  /** The entries of an encoded file: ecosystems in order, each once, each with its list in order. */
  ghost predicate Canonical(f: IntentFile, entries: seq<(string, seq<string>)>) {
    && (forall i, j | 0 <= i < j < |entries| :: entries[i].0 != entries[j].0 && StringLeq(entries[i].0, entries[j].0))
    && (forall i | 0 <= i < |entries| ::
        entries[i].0 in f.ecosystems && entries[i].1 == Sort(StringLeq, f.ecosystems[entries[i].0]))
    && (forall e | e in f.ecosystems :: exists i | 0 <= i < |entries| :: entries[i].0 == e)
  }

  /** EncodeIntent up to the YAML text: whatever the order in which the map gives its keys. */
  method EncodeIntent(f: IntentFile) returns (entries: seq<(string, seq<string>)>)
    ensures Canonical(f, entries)
  {
    hide Sort, StringLeq;
    var keys := AnyOrder(f.ecosystems.Keys);
    StringLeqOrder();
    SortCorrect(StringLeq, keys);
    DistinctPermutes(keys, Sort(StringLeq, keys));
    keys := Sort(StringLeq, keys);
    entries := [];
    for i := 0 to |keys|
      invariant |entries| == i
      invariant forall k | 0 <= k < i :: entries[k] == (keys[k], Sort(StringLeq, f.ecosystems[keys[k]]))
    {
      entries := entries + [(keys[i], Sort(StringLeq, f.ecosystems[keys[i]]))];
    }
    forall e | e in f.ecosystems ensures exists i | 0 <= i < |entries| :: entries[i].0 == e {
      var i :| 0 <= i < |keys| && keys[i] == e;
      assert entries[i].0 == e;
    }
  }

  /** A file has one canonical form. */
  lemma CanonicalUnique(f: IntentFile, a: seq<(string, seq<string>)>, b: seq<(string, seq<string>)>)
    requires Canonical(f, a) && Canonical(f, b)
    ensures a == b
  {
    StringLeqOrder();
    hide Sort, StringLeq;
    SamePrefix(f, a, b, |a|);
    SamePrefix(f, b, a, |b|);
  }

  lemma {:induction false} SamePrefix(f: IntentFile, a: seq<(string, seq<string>)>,
                                      b: seq<(string, seq<string>)>, n: nat)
    requires Canonical(f, a) && Canonical(f, b) && TotalOrder(StringLeq) && n <= |a|
    ensures n <= |b| && forall i | 0 <= i < n :: a[i] == b[i]
  {
    if n > 0 {
      SamePrefix(f, a, b, n - 1);
      hide Sort, StringLeq, Canonical, TotalOrder;
      SameNext(f, a, b, n - 1);
    }
  }

  lemma SameNext(f: IntentFile, a: seq<(string, seq<string>)>, b: seq<(string, seq<string>)>, k: nat)
    requires Canonical(f, a) && Canonical(f, b) && TotalOrder(StringLeq)
    requires k < |a| && k <= |b| && forall i | 0 <= i < k :: a[i] == b[i]
    ensures k < |b| && a[k] == b[k]
  {
    hide Sort, StringLeq;
    var j := AtLeast(f, a, b, k);
    var i := AtLeast(f, b, a, k);
    if i > k {
      assert false;
    }
  }

  /** What comes next in one arrangement is not among what the two have in common. */
  lemma AtLeast(f: IntentFile, a: seq<(string, seq<string>)>, b: seq<(string, seq<string>)>, k: nat) returns (j: nat)
    requires Canonical(f, a) && Canonical(f, b)
    requires k < |a| && k <= |b| && forall i | 0 <= i < k :: a[i] == b[i]
    ensures k <= j < |b| && b[j].0 == a[k].0
  {
    hide Sort, StringLeq;
    assert a[k].0 in f.ecosystems;
    j :| 0 <= j < |b| && b[j].0 == a[k].0;
    if j < k {
      assert false;
    }
  }
}
