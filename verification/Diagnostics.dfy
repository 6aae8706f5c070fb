/** From a tree of validation errors to a list of diagnostics (internal/validator/validate.go). */
module Diagnostics {
  import opened Json
  import opened KeySpelling
  import opened Pointers
  import opened PositionIndex
  import opened Sorting

  /** An error at an instance location; unknown are the names reported by an additionalProperties error. */
  datatype Error = Error(location: Path, message: string, unknown: Option<seq<string>>, causes: seq<Error>)

  datatype Diagnostic = Diagnostic(at: Position, message: string)

  predicate Leaf(e: Error) { e.causes == [] }

  predicate NamesUnknown(e: Error) { e.unknown.Some? && e.unknown.value != [] }

  function UnknownField(name: string): string {
    "unknown field '" + name + "' (not in schema; disable with schemalock.strict=false)"
  }

  // ---------- what a leaf is reported as ----------

  /** The child's position, or else the parent's, or else the start. */
  function Anchor(nodes: Index, location: Path, name: string): Position {
    if Pointer(location + [name]) in nodes then nodes[Pointer(location + [name])]
    else LookupPosition(nodes, Pointer(location))
  }

  function ForNames(nodes: Index, location: Path, names: seq<string>): seq<Diagnostic> {
    seq(|names|, i requires 0 <= i < |names| => Diagnostic(Anchor(nodes, location, names[i]), UnknownField(names[i])))
  }

  function Report(nodes: Index, leaf: Error): seq<Diagnostic> {
    if NamesUnknown(leaf) then ForNames(nodes, leaf.location, Sort(StringLeq, leaf.unknown.value))
    else [Diagnostic(LookupPosition(nodes, Pointer(leaf.location)), leaf.message)]
  }

  /** The leaves of a tree, in order. */
  function Leaves(e: Error): seq<Error>
    decreases e, 1, 0
  {
    if Leaf(e) then [e] else LeavesUpTo(e, |e.causes|)
  }

  function LeavesUpTo(e: Error, n: nat): seq<Error>
    requires n <= |e.causes|
    decreases e, 0, n
  {
    if n == 0 then [] else LeavesUpTo(e, n - 1) + Leaves(e.causes[n - 1])
  }

  function ReportAll(nodes: Index, leaves: seq<Error>): seq<Diagnostic> {
    if leaves == [] then [] else ReportAll(nodes, leaves[..|leaves| - 1]) + Report(nodes, leaves[|leaves| - 1])
  }

  lemma {:induction false} ReportAppend(nodes: Index, a: seq<Error>, b: seq<Error>)
    ensures ReportAll(nodes, a + b) == ReportAll(nodes, a) + ReportAll(nodes, b)
  {
    hide Report;
    if b == [] {
      assert a + b == a;
    } else {
      ReportAppend(nodes, a, b[..|b| - 1]);
      assert (a + b)[..|a + b| - 1] == a + b[..|b| - 1];
    }
  }

  // ---------- collecting ----------

  class Collector {
    var out: seq<Diagnostic>

    constructor ()
      ensures out == []
    {
      out := [];
    }

    /** collectDiagnostics, depth first. */
    method Collect(e: Error, nodes: Index)
      modifies this
      ensures out == old(out) + ReportAll(nodes, Leaves(e))
      ensures forall d :: d in out <==> d in old(out) || exists leaf :: IsLeaf(e, leaf) && Reports(nodes, leaf, d)
      decreases e
    {
      CollectedExact(e, nodes);
      hide ReportAll, Report, IsLeaf, Reports;
      if e.causes == [] {
        ReportOne(nodes, e);
        CollectLeaf(e, nodes);
        return;
      }
      NoLeaves(e, nodes);
      for n := 0 to |e.causes|
        invariant out == old(out) + ReportAll(nodes, LeavesUpTo(e, n))
      {
        ReportAppend(nodes, LeavesUpTo(e, n), Leaves(e.causes[n]));
        Collect(e.causes[n], nodes);
      }
    }

    method CollectLeaf(e: Error, nodes: Index)
      modifies this
      ensures out == old(out) + Report(nodes, e)
    {
      if NamesUnknown(e) {
        CollectNames(e.location, e.unknown.value, nodes);
      } else {
        var pointer := BuildPointer(e.location);
        out := out + [Diagnostic(LookupPosition(nodes, pointer), e.message)];
      }
    }

    method CollectNames(location: Path, unknown: seq<string>, nodes: Index)
      modifies this
      ensures out == old(out) + ForNames(nodes, location, Sort(StringLeq, unknown))
    {
      var parent := BuildPointer(location);
      var names := Sort(StringLeq, unknown);
      hide Sort, StringLeq;
      for i := 0 to |names|
        invariant out == old(out) + ForNames(nodes, location, names)[..i]
      {
        PointerLonger(location, names[i]);
        var child := parent + "/" + Escape(names[i]);
        var at := if child in nodes then nodes[child] else LookupPosition(nodes, parent);
        out := out + [Diagnostic(at, UnknownField(names[i]))];
        assert ForNames(nodes, location, names)[..i + 1] ==
            ForNames(nodes, location, names)[..i] + [ForNames(nodes, location, names)[i]];
      }
      assert ForNames(nodes, location, names)[..|names|] == ForNames(nodes, location, names);
    }
  }

  lemma ReportOne(nodes: Index, leaf: Error)
    ensures ReportAll(nodes, [leaf]) == Report(nodes, leaf)
  {
    hide Report;
    assert [leaf][..0] == [];
    assert ReportAll(nodes, [leaf]) == [] + Report(nodes, leaf);
  }

  lemma NoLeaves(e: Error, nodes: Index)
    ensures ReportAll(nodes, LeavesUpTo(e, 0)) == []
  {
  }

  // ---------- the sorted list ----------

  /** By line, column and message. */
  predicate DiagnosticLeq(a: Diagnostic, b: Diagnostic) {
    if a.at.line != b.at.line then a.at.line < b.at.line
    else if a.at.column != b.at.column then a.at.column < b.at.column
    else StringLeq(a.message, b.message)
  }

  lemma DiagnosticOrder()
    ensures TotalOrder(DiagnosticLeq)
  {
    forall a, b
      ensures (DiagnosticLeq(a, b) || DiagnosticLeq(b, a)) && (DiagnosticLeq(a, b) && DiagnosticLeq(b, a) ==> a == b)
    {
      StringLeqTotal(a.message, b.message);
    }
    forall a, b, c | DiagnosticLeq(a, b) && DiagnosticLeq(b, c) ensures DiagnosticLeq(a, c) {
      if StringLeq(a.message, b.message) && StringLeq(b.message, c.message) {
        StringLeqTransitive(a.message, b.message, c.message);
      }
    }
  }

  // ---------- what a list should hold ----------

  /** The leaves of a tree of errors. */
  ghost predicate IsLeaf(e: Error, leaf: Error)
    decreases e
  {
    if e.causes == [] then leaf == e else exists k | 0 <= k < |e.causes| :: IsLeaf(e.causes[k], leaf)
  }

  /** The position of a location, or else the start. */
  function PositionOf(nodes: Index, location: Path): Position {
    if Pointer(location) in nodes then nodes[Pointer(location)] else Position(1, 1)
  }

  /** A leaf that lists unknown names is reported once a name, at the child of that name, or else at the
      parent; any other with its message at its location. */
  ghost predicate Reports(nodes: Index, leaf: Error, d: Diagnostic) {
    if leaf.unknown.None? || leaf.unknown.value == [] then
      d == Diagnostic(PositionOf(nodes, leaf.location), leaf.message)
    else
      exists name | name in leaf.unknown.value ::
        && d.message == "unknown field '" + name + "' (not in schema; disable with schemalock.strict=false)"
        && var child := leaf.location + [name];
           d.at == PositionOf(nodes, if Pointer(child) in nodes then child else leaf.location)
  }

  lemma {:induction false} LeavesExact(e: Error, leaf: Error)
    ensures leaf in Leaves(e) <==> IsLeaf(e, leaf)
    decreases e, 1, 0
  {
    if e.causes != [] { LeavesUpToExact(e, |e.causes|, leaf); }
  }

  lemma {:induction false} LeavesUpToExact(e: Error, n: nat, leaf: Error)
    requires n <= |e.causes|
    ensures leaf in LeavesUpTo(e, n) <==> exists k | 0 <= k < n :: IsLeaf(e.causes[k], leaf)
    decreases e, 0, n
  {
    if n > 0 {
      LeavesUpToExact(e, n - 1, leaf);
      LeavesExact(e.causes[n - 1], leaf);
    }
  }

  lemma ReportExact(nodes: Index, leaf: Error, d: Diagnostic)
    ensures d in Report(nodes, leaf) <==> Reports(nodes, leaf, d)
  {
    if NamesUnknown(leaf) {
      forall name | name in leaf.unknown.value
        ensures Diagnostic(Anchor(nodes, leaf.location, name), UnknownField(name)) in Report(nodes, leaf)
      {
        NameReported(nodes, leaf, name);
      }
      if d in Report(nodes, leaf) {
        var name := ReportedName(nodes, leaf, d);
      }
      hide Report, Pointer;
    }
  }

  lemma ReportedName(nodes: Index, leaf: Error, d: Diagnostic) returns (name: string)
    requires NamesUnknown(leaf) && d in Report(nodes, leaf)
    ensures name in leaf.unknown.value && d == Diagnostic(Anchor(nodes, leaf.location, name), UnknownField(name))
  {
    var names := Sort(StringLeq, leaf.unknown.value);
    StringLeqOrder();
    SortCorrect(StringLeq, leaf.unknown.value);
    hide Sort, StringLeq, Anchor, UnknownField;
    var i :| 0 <= i < |Report(nodes, leaf)| && Report(nodes, leaf)[i] == d;
    name := names[i];
    assert name in multiset(names);
  }

  lemma {:induction false} ReportAllExact(nodes: Index, leaves: seq<Error>, d: Diagnostic)
    ensures d in ReportAll(nodes, leaves) <==> exists leaf | leaf in leaves :: Reports(nodes, leaf, d)
  {
    hide Report, Reports;
    if leaves != [] {
      var n := |leaves| - 1;
      ReportAllExact(nodes, leaves[..n], d);
      ReportExact(nodes, leaves[n], d);
      assert ReportAll(nodes, leaves) == ReportAll(nodes, leaves[..n]) + Report(nodes, leaves[n]);
      hide ReportAll;
      assert leaves == leaves[..n] + [leaves[n]];
      assert leaves[n] in leaves;
    }
  }

  lemma CollectedExact(e: Error, nodes: Index)
    ensures forall d ::
              d in ReportAll(nodes, Leaves(e)) <==> exists leaf :: IsLeaf(e, leaf) && Reports(nodes, leaf, d)
  {
    hide Leaves, ReportAll, Reports, IsLeaf;
    forall d
      ensures d in ReportAll(nodes, Leaves(e)) <==> exists leaf :: IsLeaf(e, leaf) && Reports(nodes, leaf, d)
    {
      ReportAllExact(nodes, Leaves(e), d);
      forall leaf ensures leaf in Leaves(e) <==> IsLeaf(e, leaf) { LeavesExact(e, leaf); }
    }
  }

  /** The list of a rejected document. */
  ghost predicate Lists(nodes: Index, e: Error, listing: seq<Diagnostic>) {
    && (forall d :: d in listing <==> exists leaf :: IsLeaf(e, leaf) && Reports(nodes, leaf, d))
    && forall i, j | 0 <= i < j < |listing| :: InOrder(listing[i], listing[j])
  }

  /** By line, then column, then message. */
  predicate InOrder(a: Diagnostic, b: Diagnostic) {
    || a.at.line < b.at.line
    || (a.at.line == b.at.line && a.at.column < b.at.column)
    || (a.at == b.at && StringLeq(a.message, b.message))
  }

  lemma ListingLists(nodes: Index, e: Error)
    ensures Lists(nodes, e, Listing(nodes, Some(e)))
  {
    var listing := Listing(nodes, Some(e));
    ListingSorted(nodes, e);
    hide Listing, Leaves, ReportAll, Report, Reports, IsLeaf, DiagnosticLeq;
    forall i, j | 0 <= i < j < |listing| ensures InOrder(listing[i], listing[j]) {
      assert DiagnosticLeq(listing[i], listing[j]);
      LeqInOrder(listing[i], listing[j]);
    }
    forall d ensures d in listing <==> exists leaf :: IsLeaf(e, leaf) && Reports(nodes, leaf, d) {
      assert d in listing <==> d in multiset(listing);
      assert d in ReportAll(nodes, Leaves(e)) <==> d in multiset(ReportAll(nodes, Leaves(e)));
      CollectedExact(e, nodes);
    }
  }

  lemma LeqInOrder(a: Diagnostic, b: Diagnostic)
    requires DiagnosticLeq(a, b)
    ensures InOrder(a, b)
  {
  }

  /** What the error of a check is listed as; None is acceptance. */
  function Listing(nodes: Index, error: Option<Error>): seq<Diagnostic> {
    match error
    case None => []
    case Some(e) => Sort(DiagnosticLeq, ReportAll(nodes, Leaves(e)))
  }

  lemma ListingSorted(nodes: Index, e: Error)
    ensures
      var listing := Listing(nodes, Some(e));
      && listing != [] && Sorted(DiagnosticLeq, listing) && multiset(listing) == multiset(ReportAll(nodes, Leaves(e)))
      && listing == Sort(DiagnosticLeq, ReportAll(nodes, Leaves(e)))
  {
    NeverEmpty(nodes, e);
    DiagnosticOrder();
    SortCorrect(DiagnosticLeq, ReportAll(nodes, Leaves(e)));
    hide DiagnosticLeq, Leaves, ReportAll, Sorted;
  }

  /** Validate. The body is None for an empty document, which is not checked whatever the schema says;
      check is the library's validation, None if it accepts. */
  method Validate(body: Option<Value>, check: Value -> Option<Error>, nodes: Index)
    returns (diagnostics: seq<Diagnostic>)
    ensures diagnostics == [] <==> body.None? || check(body.value).None?
    ensures Sorted(DiagnosticLeq, diagnostics)
    ensures diagnostics != [] ==> multiset(diagnostics) == multiset(ReportAll(nodes, Leaves(check(body.value).value)))
    ensures diagnostics == Listing(nodes, if body.Some? then check(body.value) else None)
    ensures diagnostics != [] ==> Lists(nodes, check(body.value).value, diagnostics)
  {
    hide Leaves, ReportAll, Sort, Lists;
    if body.None? {
      return [];
    }
    var result := check(body.value);
    if result.None? {
      return [];
    }
    var collector := new Collector();
    collector.Collect(result.value, nodes);
    assert collector.out == ReportAll(nodes, Leaves(result.value));
    ListingSorted(nodes, result.value);
    ListingLists(nodes, result.value);
    diagnostics := Sort(DiagnosticLeq, collector.out);
  }

  // ---------- the theorems ----------

  lemma {:induction false} HasLeaf(e: Error, n: nat)
    requires n <= |e.causes| && (n == 0 ==> Leaf(e))
    ensures n > 0 ==> LeavesUpTo(e, n) != []
    ensures n == |e.causes| ==> Leaves(e) != []
    decreases e, n
  {
    if n > 0 { HasLeaf(e.causes[n - 1], |e.causes[n - 1].causes|); }
  }

  /** How many diagnostics a leaf gives: one a name, and otherwise one. */
  lemma ReportCounts(nodes: Index, leaf: Error)
    ensures |Report(nodes, leaf)| == if NamesUnknown(leaf) then |leaf.unknown.value| else 1
  {
    if NamesUnknown(leaf) {
      StringLeqOrder();
      SortCorrect(StringLeq, leaf.unknown.value);
    }
  }

  function Total(leaves: seq<Error>): nat {
    if leaves == [] then 0
    else
      var last := leaves[|leaves| - 1];
      Total(leaves[..|leaves| - 1]) + if NamesUnknown(last) then |last.unknown.value| else 1
  }

  /** Flattening loses and invents nothing: one diagnostic for each ordinary leaf, one for each name
      of a leaf that lists unknown names. */
  lemma {:induction false} ErrorsConserved(nodes: Index, leaves: seq<Error>)
    ensures |ReportAll(nodes, leaves)| == Total(leaves)
    ensures leaves != [] ==> Total(leaves) > 0
  {
    if leaves != [] {
      ErrorsConserved(nodes, leaves[..|leaves| - 1]);
      ReportCounts(nodes, leaves[|leaves| - 1]);
    }
  }

  /** A rejected document never yields an empty list. */
  lemma NeverEmpty(nodes: Index, e: Error)
    ensures ReportAll(nodes, Leaves(e)) != []
  {
    HasLeaf(e, |e.causes|);
    ErrorsConserved(nodes, Leaves(e));
  }

  /** Each leaf's diagnostics are in the list. */
  lemma {:induction false} LeafReported(nodes: Index, leaves: seq<Error>, k: nat)
    requires k < |leaves|
    ensures multiset(Report(nodes, leaves[k])) <= multiset(ReportAll(nodes, leaves))
    ensures forall d | Reports(nodes, leaves[k], d) :: d in ReportAll(nodes, leaves)
  {
    hide Report, Reports;
    forall d | Reports(nodes, leaves[k], d) ensures d in ReportAll(nodes, leaves) {
      ReportAllExact(nodes, leaves, d);
    }
    if k < |leaves| - 1 { LeafReported(nodes, leaves[..|leaves| - 1], k); }
  }

  /** Every name a leaf reports as unknown has its diagnostic, at the anchor of that name. */
  lemma NameReported(nodes: Index, leaf: Error, name: string)
    requires NamesUnknown(leaf)
    ensures name in leaf.unknown.value ==>
        Diagnostic(Anchor(nodes, leaf.location, name), UnknownField(name)) in Report(nodes, leaf)
  {
    StringLeqOrder();
    var names := Sort(StringLeq, leaf.unknown.value);
    SortCorrect(StringLeq, leaf.unknown.value);
    hide Sort, StringLeq, Anchor, UnknownField;
    if name in leaf.unknown.value {
      assert name in multiset(names);
      var i :| 0 <= i < |names| && names[i] == name;
      assert Report(nodes, leaf)[i] == Diagnostic(Anchor(nodes, leaf.location, name), UnknownField(name));
    }
  }

  /** The order in which the library lists the leaves of a rejected document does not matter: the
      sorted list is the same. */
  lemma SortedListUnique(nodes: Index, a: seq<Error>, b: seq<Error>, da: seq<Diagnostic>, db: seq<Diagnostic>)
    requires multiset(a) == multiset(b)
    requires Sorted(DiagnosticLeq, da) && multiset(da) == multiset(ReportAll(nodes, a))
    requires Sorted(DiagnosticLeq, db) && multiset(db) == multiset(ReportAll(nodes, b))
    ensures da == db
  {
    hide DiagnosticLeq, ReportAll;
    ReportPermutes(nodes, a, b);
    DiagnosticOrder();
    SortedUnique(DiagnosticLeq, da, db);
  }

  lemma {:induction false} ReportPermutes(nodes: Index, a: seq<Error>, b: seq<Error>)
    requires multiset(a) == multiset(b)
    ensures multiset(ReportAll(nodes, a)) == multiset(ReportAll(nodes, b))
  {
    if a == [] {
      assert |multiset(b)| == 0;
    } else {
      var n := |a| - 1;
      assert a == a[..n] + [a[n]];
      var k := Find(a, b, n);
      ReportPermutes(nodes, a[..n], b[..k] + b[k + 1..]);
      hide Report, ReportAll;
      ReportWithout(nodes, b, k);
      ReportAppend(nodes, a[..n], [a[n]]);
    }
  }

  /** Where the last of one list stands in a rearrangement of it. */
  lemma Find(a: seq<Error>, b: seq<Error>, n: nat) returns (k: nat)
    requires n < |a| == n + 1 && multiset(a) == multiset(b)
    ensures k < |b| && b[k] == a[n] && multiset(a[..n]) == multiset(b[..k] + b[k + 1..])
  {
    assert a == a[..n] + [a[n]];
    assert a[n] in multiset(b);
    k :| 0 <= k < |b| && b[k] == a[n];
    assert b == b[..k] + [b[k]] + b[k + 1..];
    assert multiset(a) == multiset(a[..n]) + multiset{a[n]};
    assert multiset(b) == multiset(b[..k]) + multiset{a[n]} + multiset(b[k + 1..]);
    assert multiset(a[..n]) == multiset(a) - multiset{a[n]};
  }

  lemma ReportWithout(nodes: Index, b: seq<Error>, k: nat)
    requires k < |b|
    ensures multiset(ReportAll(nodes, b)) ==
        multiset(ReportAll(nodes, b[..k] + b[k + 1..])) + multiset(ReportAll(nodes, [b[k]]))
  {
    hide Report, ReportAll;
    assert b == b[..k] + [b[k]] + b[k + 1..];
    ReportAppend(nodes, b[..k] + [b[k]], b[k + 1..]);
    ReportAppend(nodes, b[..k], [b[k]]);
    ReportAppend(nodes, b[..k], b[k + 1..]);
  }

  /** Where the path of an unknown field and that of its mapping are written as their values and in the
      open, it is reported at its own key, or else at the key of the mapping, or else at the start. */
  lemma AnchoredAtKey(body: Node, nodes: Index, location: Path, name: string)
    requires DistinctKeys(body) && IsImage(Walk(body, [], map[]), nodes)
    requires Plain(body, location + [name]) && Plain(body, location)
    ensures Anchor(nodes, location, name) ==
            match InstancePosition(body, location + [name])
            case Some(at) => at
            case None => (match InstancePosition(body, location) case Some(at) => at case None => START)
  {
    IndexExact(body, nodes, location + [name]);
    SpelledPosition(body, location + [name]);
    SpelledIff(body, location + [name]);
    ValidatorFindsNode(body, nodes, location);
  }

  /** An error without unknown names is reported at the node of its location, if the path is written as
      its values and in the open, or else at the start. */
  lemma LeafAtItsNode(body: Node, nodes: Index, leaf: Error)
    requires DistinctKeys(body) && IsImage(Walk(body, [], map[]), nodes) && Plain(body, leaf.location)
    requires leaf.unknown.None? || leaf.unknown.value == []
    ensures
      var at := match InstancePosition(body, leaf.location) case Some(p) => p case None => Position(1, 1);
      forall d :: Reports(nodes, leaf, d) <==> d == Diagnostic(at, leaf.message)
  {
    ValidatorFindsNode(body, nodes, leaf.location);
  }

  /** An error at a positioned node is reported there if and only if the path is its own spelling and in
      the open, or the node is at the start and nothing is written so. */
  lemma LeafAtItsNodeIff(body: Node, nodes: Index, leaf: Error)
    requires DistinctKeys(body) && DistinctPositions(body) && HiddenApart(body)
    requires IsImage(Walk(body, [], map[]), nodes) && InstancePosition(body, leaf.location).Some?
    requires leaf.unknown.None? || leaf.unknown.value == []
    ensures
      var at := InstancePosition(body, leaf.location).value;
      Reports(nodes, leaf, Diagnostic(at, leaf.message)) <==>
      || (Spelling(body, leaf.location) == Some(leaf.location) && Exposed(body, leaf.location))
      || (at == Position(1, 1) && PositionIndex.PositionAt(body, leaf.location).None?)
  {
    ValidatorFindsNodeIff(body, nodes, leaf.location);
    hide Walk, IsImage, DistinctKeys, Pointer, Spelling, Exposed, InstancePosition, PositionIndex.PositionAt;
  }

  /** A positioned field is reported at its own key if and only if its path is its own spelling and
      stands in the open, or the key is at the start and neither it nor its mapping is found. */
  lemma AnchoredAtKeyIff(body: Node, nodes: Index, location: Path, name: string)
    requires DistinctKeys(body) && DistinctPositions(body) && HiddenApart(body)
    requires IsImage(Walk(body, [], map[]), nodes) && InstancePosition(body, location + [name]).Some?
    ensures
      var child := location + [name];
      var at := InstancePosition(body, child).value;
      Anchor(nodes, location, name) == at <==>
      || (Spelling(body, child) == Some(child) && Exposed(body, child))
      || (at == START && PositionIndex.PositionAt(body, child).None? && PositionIndex.PositionAt(body, location).None?)
  {
    var child := location + [name];
    IndexExact(body, nodes, child);
    IndexExact(body, nodes, location);
    HasItsPosition(body, child, child);
    HasItsPosition(body, child, location);
    if Spelling(body, child).Some? { SpellingLength(body, child); }
    hide Walk, IsImage, DistinctKeys, Pointer, Spelling, Exposed, InstancePosition, PositionIndex.PositionAt;
  }

  /** The input on which a plainly written field is not reported at its key: its mapping has an anchor. */
  lemma AnchoredFieldIsMisplaced(at: Position, inner: Position, nodes: Index)
    requires IsImage(Walk(AnchoredFoo(at, inner), [], map[]), nodes)
    ensures InstancePosition(AnchoredFoo(at, inner), ["spec"] + ["foo"]) == Some(inner)
    ensures Anchor(nodes, ["spec"], "foo") == at
  {
    AnchoredKeyIsMissed(at, inner);
    assert ["spec"] + ["foo"] == ["spec", "foo"];
    IndexExact(AnchoredFoo(at, inner), nodes, ["spec"]);
    hide Walk, IsImage, Pointer;
  }
}
