/** Which mapping a cursor belongs to (positionAt and existingKeysAt in internal/lsp/schema_walker.go). */
module Cursor {
  import opened Json
  import opened Pointers
  import opened PositionIndex
  import opened Sorting

  datatype Entry = Entry(pointer: string, at: Position, depth: nat)

  /** A key position offers the properties of the parent, any other the values of the pointer. */
  datatype Context = Context(pointer: string, parent: string, isKey: bool)

  // ---------- the sorted entries ----------

  /** By line; on one line the deepest first. */
  predicate Before(a: Entry, b: Entry) {
    a.at.line < b.at.line || (a.at.line == b.at.line && a.depth >= b.depth)
  }

  lemma BeforeIsPreorder()
    ensures TotalPreorder(Before)
  {
  }

  function EntryOf(nodes: Index, pointer: string): Entry
    requires pointer in nodes
  {
    Entry(pointer, nodes[pointer], Depth(pointer))
  }

  /** The entries of an index, each once, in sorted order. */
  ghost predicate Arranged(nodes: Index, entries: seq<Entry>) {
    && Sorted(Before, entries) && Distinct(entries)
    && forall e :: e in entries <==> e.pointer in nodes && e == EntryOf(nodes, e.pointer)
  }

  method SortedEntries(nodes: Index) returns (entries: seq<Entry>)
    ensures Arranged(nodes, entries)
  {
    var pointers := AnyOrder(nodes.Keys);
    var list: seq<Entry> := [];
    for i := 0 to |pointers|
      invariant |list| == i && forall k | 0 <= k < i :: list[k] == EntryOf(nodes, pointers[k])
    {
      list := list + [EntryOf(nodes, pointers[i])];
    }
    hide Depth, Before;
    forall e ensures e in list <==> e.pointer in nodes && e == EntryOf(nodes, e.pointer) {
      if e.pointer in nodes && e == EntryOf(nodes, e.pointer) {
        var k :| 0 <= k < |pointers| && pointers[k] == e.pointer;
        assert list[k] == e;
      }
    }
    BeforeIsPreorder();
    SortCorrect(Before, list);
    entries := Sort(Before, list);
    DistinctPermutes(list, entries);
  }

  /** No two keys share a line and a depth. */
  ghost predicate NoSharedLine(nodes: Index) {
    forall p, q | p in nodes && q in nodes && nodes[p].line == nodes[q].line && Depth(p) == Depth(q) :: p == q
  }

  /** Then there is one arrangement, whatever the order in which the map gives its entries. */
  lemma ArrangementUnique(nodes: Index, a: seq<Entry>, b: seq<Entry>)
    requires NoSharedLine(nodes) && Arranged(nodes, a) && Arranged(nodes, b)
    ensures a == b
  {
    BeforeIsPreorder();
    SameElements(a, b);
    hide Depth;
    SortedUnique(Before, a, b);
  }

  /** Otherwise the answer can depend on that order, as for the flow mapping {a: 1, b: 2}. */
  lemma SharedLineCanMatter()
    ensures
      var nodes := map["/a" := Position(1, 2), "/b" := Position(1, 8)];
      exists a, b :: Arranged(nodes, a) && Arranged(nodes, b) && ContextAt(a, 1, 3) != ContextAt(b, 1, 3)
  {
    var nodes := map["/a" := Position(1, 2), "/b" := Position(1, 8)];
    var x, y := Entry("/a", Position(1, 2), 1), Entry("/b", Position(1, 8), 1);
    assert Depth("/a") == 1 && Depth("/b") == 1;
    assert Arranged(nodes, [x, y]) && Arranged(nodes, [y, x]);
    assert ContextAt([x, y], 1, 3).pointer == "/a" && ContextAt([y, x], 1, 3).pointer == "/b";
  }

  lemma SameElements<T>(a: seq<T>, b: seq<T>)
    requires Distinct(a) && Distinct(b) && forall e :: e in a <==> e in b
    ensures multiset(a) == multiset(b)
  {
    forall e ensures multiset(a)[e] == multiset(b)[e] {
      CountDistinct(a, e);
      CountDistinct(b, e);
    }
  }

  lemma CountDistinct<T>(a: seq<T>, e: T)
    requires Distinct(a)
    ensures multiset(a)[e] == if e in a then 1 else 0
  {
    if multiset(a)[e] >= 2 { Twice(a, e); }
    assert e in a <==> e in multiset(a);
  }

  // ---------- the stack of open keys ----------

  /** Close the keys that are not left of a column. */
  function Pop(stack: seq<Entry>, column: nat): seq<Entry> {
    if stack != [] && stack[|stack| - 1].at.column >= column then Pop(stack[..|stack| - 1], column) else stack
  }

  function Push(stack: seq<Entry>, e: Entry): seq<Entry> {
    Pop(stack, e.at.column) + [e]
  }

  /** The keys open after all the entries. */
  function Open(stack: seq<Entry>, entries: seq<Entry>): seq<Entry> {
    if entries == [] then stack else Push(Open(stack, entries[..|entries| - 1]), entries[|entries| - 1])
  }

  /** The last element with a column up to the given one. */
  function LastAtMost(entries: seq<Entry>, column: nat): Option<Entry> {
    if entries == [] then None
    else if entries[|entries| - 1].at.column <= column then Some(entries[|entries| - 1])
    else LastAtMost(entries[..|entries| - 1], column)
  }

  lemma {:induction false} LastAtMostIs(entries: seq<Entry>, column: nat, i: nat)
    requires i < |entries| && entries[i].at.column <= column
    requires forall j | i < j < |entries| :: entries[j].at.column > column
    ensures LastAtMost(entries, column) == Some(entries[i])
  {
    if i < |entries| - 1 { LastAtMostIs(entries[..|entries| - 1], column, i); }
  }

  lemma {:induction false} LastAtMostNone(entries: seq<Entry>, column: nat)
    ensures LastAtMost(entries, column).None? <==> forall i | 0 <= i < |entries| :: entries[i].at.column > column
  {
    if entries != [] {
      var n := |entries| - 1;
      LastAtMostNone(entries[..n], column);
      assert forall i | 0 <= i < n :: entries[i] == entries[..n][i];
    }
  }

  predicate Increasing(stack: seq<Entry>) {
    forall i, j | 0 <= i < j < |stack| :: stack[i].at.column < stack[j].at.column
  }

  lemma {:induction false} PopKeeps(stack: seq<Entry>, column: nat, limit: nat)
    requires limit < column
    ensures LastAtMost(Pop(stack, column), limit) == LastAtMost(stack, limit)
  {
    if stack != [] && stack[|stack| - 1].at.column >= column { PopKeeps(stack[..|stack| - 1], column, limit); }
  }

  lemma {:induction false} PopIncreasing(stack: seq<Entry>, column: nat)
    requires Increasing(stack)
    ensures Increasing(Pop(stack, column)) && forall i | 0 <= i < |Pop(stack, column)| ::
        Pop(stack, column)[i].at.column < column
  {
    if stack != [] && stack[|stack| - 1].at.column >= column { PopIncreasing(stack[..|stack| - 1], column); }
  }

  lemma LastAtMostAppend(entries: seq<Entry>, e: Entry, column: nat)
    ensures LastAtMost(entries + [e], column) == if e.at.column <= column then Some(e) else LastAtMost(entries, column)
  {
    assert (entries + [e])[..|entries|] == entries;
  }

  lemma IncreasingAppend(stack: seq<Entry>, e: Entry)
    requires Increasing(stack) && forall i | 0 <= i < |stack| :: stack[i].at.column < e.at.column
    ensures Increasing(stack + [e])
  {
  }

  /** For any entries at all, the columns of the open keys strictly increase, and the deepest open
      key not right of a column is the last entry not right of it. */
  lemma {:induction false} OpenExact(entries: seq<Entry>, column: nat)
    ensures Increasing(Open([], entries))
    ensures LastAtMost(Open([], entries), column) == LastAtMost(entries, column)
  {
    if entries == [] {
      OpenNothing();
    } else {
      hide Pop, Increasing;
      var n := |entries| - 1;
      var stack, e := Open([], entries[..n]), entries[n];
      assert Open([], entries) == Pop(stack, e.at.column) + [e];
      OpenExact(entries[..n], column);
      hide Open, LastAtMost;
      PopIncreasing(stack, e.at.column);
      IncreasingAppend(Pop(stack, e.at.column), e);
      if column < e.at.column { PopKeeps(stack, e.at.column, column); }
      LastAtMostAppend(Pop(stack, e.at.column), e, column);
      assert entries == entries[..n] + [e];
      LastAtMostAppend(entries[..n], e, column);
    }
  }

  // ---------- the answer ----------

  /** The entries above a line. */
  function Above(entries: seq<Entry>, line: nat): seq<Entry> {
    if entries == [] || entries[0].at.line >= line then [] else [entries[0]] + Above(entries[1..], line)
  }

  /** The length of the last segment as it stands in the pointer. */
  function RawLength(pointer: string): nat {
    |pointer| - LastSlash(pointer) - 1
  }

  /** On the line of a key: at or before its end its name, behind it its value. */
  function OnKey(e: Entry, column: nat): Context {
    Context(e.pointer, ParentPointer(e.pointer), column <= e.at.column + RawLength(e.pointer))
  }

  /** Elsewhere: beside the last key above that is not right of the cursor, or inside it. */
  function OffKeys(above: seq<Entry>, column: nat): Context {
    match LastAtMost(above, column)
    case None => Context("", "", true)
    case Some(k) => Context("", if k.at.column == column then ParentPointer(k.pointer) else k.pointer, true)
  }

  /** The first entry on a line. */
  function FirstOn(entries: seq<Entry>, line: nat): Option<Entry> {
    if entries == [] then None else if entries[0].at.line == line then Some(entries[0]) else FirstOn(entries[1..], line)
  }

  function ContextAt(entries: seq<Entry>, line: nat, column: nat): Context {
    match FirstOn(entries, line)
    case Some(e) => OnKey(e, column)
    case None => OffKeys(Above(entries, line), column)
  }

  // ---------- what the answer means ----------

  /** A pointer, cut at its last "/". */
  predicate Ends(pointer: string, parent: string, last: string) {
    '/' !in last && (pointer == parent + "/" + last || (pointer == last && parent == ""))
  }

  /** A deepest key of the line; the cursor is on its name up to just behind the text of the last segment. */
  ghost predicate OnLine(nodes: Index, line: nat, column: nat, c: Context) {
    && c.pointer in nodes && nodes[c.pointer].line == line
    && (forall q | q in nodes && nodes[q].line == line :: Depth(q) <= Depth(c.pointer))
    && exists last | Ends(c.pointer, c.parent, last) :: c.isKey <==> column <= nodes[c.pointer].column + |last|
  }

  predicate LeftAbove(nodes: Index, line: nat, column: nat, p: string) {
    p in nodes && nodes[p].line < line && nodes[p].column <= column
  }

  /** Of the keys above that are not right of the cursor, one on the lowest line, there the least deep. */
  ghost predicate LastLeft(nodes: Index, line: nat, column: nat, p: string) {
    && LeftAbove(nodes, line, column, p)
    && forall q | LeftAbove(nodes, line, column, q) ::
      nodes[q].line < nodes[p].line || (nodes[q].line == nodes[p].line && Depth(q) >= Depth(p))
  }

  /** In the document where no key above is left; else beside the last such key, or inside it if the
      cursor is further right. */
  ghost predicate OffLine(nodes: Index, line: nat, column: nat, c: Context) {
    && c.pointer == "" && c.isKey
    && ((forall q :: !LeftAbove(nodes, line, column, q)) ==> c.parent == "")
    && ((exists q :: LeftAbove(nodes, line, column, q)) ==>
          exists p | LastLeft(nodes, line, column, p) ::
            if nodes[p].column == column then exists last :: Ends(p, c.parent, last) else c.parent == p)
  }

  ghost predicate Located(nodes: Index, line: nat, column: nat, c: Context) {
    if exists q :: q in nodes && nodes[q].line == line then OnLine(nodes, line, column, c)
    else OffLine(nodes, line, column, c)
  }

  lemma ParentEnds(pointer: string)
    ensures Ends(pointer, ParentPointer(pointer), pointer[LastSlash(pointer) + 1..])
  {
    hide LastSlash;
    var at := LastSlash(pointer);
    FreeBehind(pointer, at + 1);
    if at >= 0 {
      CutAt(pointer, at);
    } else {
      assert pointer[0..] == pointer;
    }
  }

  lemma FreeBehind(s: string, from: nat)
    requires from <= |s| && forall i | from <= i < |s| :: s[i] != '/'
    ensures '/' !in s[from..]
  {
    assert forall i | 0 <= i < |s[from..]| :: s[from..][i] == s[from + i];
  }

  lemma CutAt(s: string, at: nat)
    requires at < |s| && s[at] == '/'
    ensures s == s[..at] + "/" + s[at + 1..] && (at == 0 ==> s[..at] == "")
  {
  }

  lemma {:induction false} FirstOnIs(entries: seq<Entry>, line: nat)
    ensures FirstOn(entries, line).None? <==> forall i | 0 <= i < |entries| :: entries[i].at.line != line
  {
    if entries != [] && entries[0].at.line != line {
      var rest := entries[1..];
      FirstOnIs(rest, line);
      assert forall j | 0 <= j < |rest| :: rest[j] == entries[j + 1];
      assert forall j | 0 < j < |entries| :: entries[j] == rest[j - 1];
    }
  }

  lemma {:induction false} FirstOnAt(entries: seq<Entry>, line: nat) returns (i: nat)
    requires FirstOn(entries, line).Some?
    ensures i < |entries| && FirstOn(entries, line) == Some(entries[i]) && entries[i].at.line == line
    ensures forall j | 0 <= j < i :: entries[j].at.line != line
  {
    if entries[0].at.line == line {
      i := 0;
    } else {
      var k := FirstOnAt(entries[1..], line);
      i := k + 1;
      assert forall j | 0 < j < i :: entries[j] == entries[1..][j - 1];
    }
  }

  lemma {:induction false} AboveIs(entries: seq<Entry>, line: nat)
    ensures
      var n := |Above(entries, line)|;
      && n <= |entries| && Above(entries, line) == entries[..n]
      && (forall i | 0 <= i < n :: entries[i].at.line < line) && (n < |entries| ==> entries[n].at.line >= line)
  {
    if entries != [] && entries[0].at.line < line {
      AboveIs(entries[1..], line);
      var n := |Above(entries[1..], line)|;
      assert entries[..n + 1] == [entries[0]] + entries[1..][..n];
      assert forall i | 0 < i < n + 1 :: entries[i] == entries[1..][i - 1];
    }
  }

  lemma {:induction false} LastAtMostAt(entries: seq<Entry>, column: nat) returns (i: nat)
    requires LastAtMost(entries, column).Some?
    ensures i < |entries| && LastAtMost(entries, column) == Some(entries[i]) && entries[i].at.column <= column
    ensures forall j | i < j < |entries| :: entries[j].at.column > column
  {
    var n := |entries| - 1;
    if entries[n].at.column <= column { i := n; } else { i := LastAtMostAt(entries[..n], column); }
  }

  /** However the entries of the index are arranged, the answer is right. */
  lemma ContextLocated(nodes: Index, entries: seq<Entry>, line: nat, column: nat)
    requires Arranged(nodes, entries)
    ensures Located(nodes, line, column, ContextAt(entries, line, column))
  {
    FirstOnIs(entries, line);
    hide Depth;
    forall q | q in nodes ensures EntryOf(nodes, q) in entries {}
    if FirstOn(entries, line).Some? {
      OnLineLocated(nodes, entries, line, column);
    } else {
      OffLineLocated(nodes, entries, line, column);
    }
  }

  lemma OnLineLocated(nodes: Index, entries: seq<Entry>, line: nat, column: nat)
    requires Arranged(nodes, entries) && FirstOn(entries, line).Some?
    ensures OnLine(nodes, line, column, OnKey(FirstOn(entries, line).value, column))
  {
    var i := FirstOnAt(entries, line);
    hide Depth, FirstOn, OnLine, OnKey;
    assert entries[i] in entries;
    DeepestOn(nodes, entries, line, i);
    OnKeyLocated(nodes, entries[i], line, column);
  }

  lemma OnKeyLocated(nodes: Index, e: Entry, line: nat, column: nat)
    requires e.pointer in nodes && e.at == nodes[e.pointer] && e.at.line == line
    requires forall q | q in nodes && nodes[q].line == line :: Depth(q) <= Depth(e.pointer)
    ensures OnLine(nodes, line, column, OnKey(e, column))
  {
    hide Depth, LastSlash, ParentPointer, Ends;
    ParentEnds(e.pointer);
  }

  lemma DeepestOn(nodes: Index, entries: seq<Entry>, line: nat, i: nat)
    requires Arranged(nodes, entries) && i < |entries| && entries[i].at.line == line
    requires forall j | 0 <= j < i :: entries[j].at.line != line
    ensures forall q | q in nodes && nodes[q].line == line :: Depth(q) <= Depth(entries[i].pointer)
  {
    hide Depth;
    assert entries[i] in entries;
    forall q | q in nodes && nodes[q].line == line ensures Depth(q) <= Depth(entries[i].pointer) {
      assert EntryOf(nodes, q) in entries;
      var j :| 0 <= j < |entries| && entries[j] == EntryOf(nodes, q);
      assert i < j ==> Before(entries[i], entries[j]);
    }
  }

  lemma OffLineLocated(nodes: Index, entries: seq<Entry>, line: nat, column: nat)
    requires Arranged(nodes, entries)
    ensures OffLine(nodes, line, column, OffKeys(Above(entries, line), column))
  {
    var above := Above(entries, line);
    var n := |above|;
    AboveIs(entries, line);
    LeftIsAbove(nodes, entries, line, column);
    hide Depth, Above, OffLine, OffKeys;
    LastAtMostNone(above, column);
    if LastAtMost(above, column).None? {
      assert forall e | e in above :: e.at.column > column;
      NothingLeftLocated(nodes, above, line, column);
    } else {
      var i := LastAtMostAt(above, column);
      assert forall j | i < j < n :: above[j] == entries[j];
      LastLeftIs(nodes, entries, line, column, n, i);
      LastLeftLocated(nodes, above, entries[i], line, column);
    }
  }

  lemma NothingLeftLocated(nodes: Index, above: seq<Entry>, line: nat, column: nat)
    requires LastAtMost(above, column).None? && forall q :: !LeftAbove(nodes, line, column, q)
    ensures OffLine(nodes, line, column, OffKeys(above, column))
  {
  }

  lemma LastLeftLocated(nodes: Index, above: seq<Entry>, e: Entry, line: nat, column: nat)
    requires LastAtMost(above, column) == Some(e)
    requires LastLeft(nodes, line, column, e.pointer) && e.at == nodes[e.pointer]
    ensures OffLine(nodes, line, column, OffKeys(above, column))
  {
    hide Depth, LastSlash, LastAtMost, ParentPointer, Ends;
    ParentEnds(e.pointer);
  }

  lemma LeftIsAbove(nodes: Index, entries: seq<Entry>, line: nat, column: nat)
    requires Arranged(nodes, entries)
    ensures forall q | LeftAbove(nodes, line, column, q) :: EntryOf(nodes, q) in Above(entries, line)
  {
    var above := Above(entries, line);
    var n := |above|;
    AboveIs(entries, line);
    hide Depth, Above;
    forall q | LeftAbove(nodes, line, column, q) ensures EntryOf(nodes, q) in above {
      assert EntryOf(nodes, q) in entries;
      var j :| 0 <= j < |entries| && entries[j] == EntryOf(nodes, q);
      assert n < j ==> Before(entries[n], entries[j]);
      assert above[j] == entries[j];
    }
  }

  lemma LastLeftIs(nodes: Index, entries: seq<Entry>, line: nat, column: nat, n: nat, i: nat)
    requires Arranged(nodes, entries) && i < n <= |entries| && entries[i].at.column <= column
    requires (forall k | 0 <= k < n :: entries[k].at.line < line) && (n < |entries| ==> entries[n].at.line >= line)
    requires forall j | i < j < n :: entries[j].at.column > column
    ensures LastLeft(nodes, line, column, entries[i].pointer) && entries[i] == EntryOf(nodes, entries[i].pointer)
  {
    hide Depth;
    var e := entries[i];
    assert e in entries;
    forall q | LeftAbove(nodes, line, column, q)
      ensures nodes[q].line < e.at.line || (nodes[q].line == e.at.line && Depth(q) >= Depth(e.pointer))
    {
      assert EntryOf(nodes, q) in entries;
      var j :| 0 <= j < |entries| && entries[j] == EntryOf(nodes, q);
      assert n < j ==> Before(entries[n], entries[j]);
      assert j < i ==> Before(entries[j], entries[i]);
    }
  }

  /** positionAt, for a cursor given from 0; the entries are those it has sorted. */
  method PositionAtCursor(nodes: Index, line: nat, character: nat)
    returns (context: Context, existing: seq<string>, ghost entries: seq<Entry>)
    ensures Arranged(nodes, entries) && context == ContextAt(entries, line + 1, character + 1)
    ensures Located(nodes, line + 1, character + 1, context)
    ensures ListsChildren(nodes, context.parent, existing)
  {
    hide Arranged, Depth, ListsChildren, Located;
    var targetLine, targetColumn := line + 1, character + 1;
    var sorted := SortedEntries(nodes);
    entries := sorted;
    ContextLocated(nodes, entries, targetLine, targetColumn);
    for i := 0 to |sorted|
      invariant FirstOn(sorted, targetLine) == FirstOn(sorted[i..], targetLine)
    {
      assert sorted[i..][1..] == sorted[i + 1..];
      if sorted[i].at.line == targetLine {
        context := OnKey(sorted[i], targetColumn);
        existing := ExistingKeys(nodes, context.parent);
        return;
      }
    }
    var stack := OpenAbove(sorted, targetLine);
    OpenExact(Above(sorted, targetLine), targetColumn);
    var k := Deepest(stack, targetColumn);
    if k.None? {
      context := Context("", "", true);
    } else if k.value.at.column == targetColumn {
      context := Context("", ParentPointer(k.value.pointer), true);
    } else {
      context := Context("", k.value.pointer, true);
    }
    existing := ExistingKeys(nodes, context.parent);
  }

  method Close(stack: seq<Entry>, column: nat) returns (rest: seq<Entry>)
    ensures rest == Pop(stack, column)
  {
    rest := stack;
    while rest != [] && rest[|rest| - 1].at.column >= column
      invariant Pop(stack, column) == Pop(rest, column)
      decreases |rest|
    {
      rest := rest[..|rest| - 1];
    }
  }

  method OpenAbove(sorted: seq<Entry>, line: nat) returns (stack: seq<Entry>)
    ensures stack == Open([], Above(sorted, line))
  {
    hide Pop, Open;
    OpenNothing();
    stack := [];
    var i := 0;
    AboveStart(sorted, line);
    while i < |sorted| && sorted[i].at.line < line
      invariant 0 <= i <= |sorted|
      invariant Above(sorted, line) == sorted[..i] + Above(sorted[i..], line)
      invariant stack == Open([], sorted[..i])
    {
      var e := sorted[i];
      var open := Close(stack, e.at.column);
      OpenNext(sorted, i);
      stack := open + [e];
      assert sorted[..i + 1] == sorted[..i] + [e];
      assert sorted[i..][1..] == sorted[i + 1..];
      i := i + 1;
    }
    assert Above(sorted[i..], line) == [];
    assert sorted[..i] + [] == sorted[..i];
  }

  lemma OpenNothing()
    ensures Open([], []) == []
  {
  }

  lemma OpenNext(sorted: seq<Entry>, i: nat)
    requires i < |sorted|
    ensures Open([], sorted[..i + 1]) == Pop(Open([], sorted[..i]), sorted[i].at.column) + [sorted[i]]
  {
    assert sorted[..i + 1][..i] == sorted[..i];
  }

  lemma AboveStart(sorted: seq<Entry>, line: nat)
    ensures Above(sorted, line) == sorted[..0] + Above(sorted[0..], line)
  {
    assert sorted[0..] == sorted && sorted[..0] == [];
    assert [] + Above(sorted, line) == Above(sorted, line);
  }

  method Deepest(stack: seq<Entry>, column: nat) returns (k: Option<Entry>)
    ensures k == LastAtMost(stack, column)
  {
    var i := |stack|;
    assert stack[..i] == stack;
    while i > 0
      invariant 0 <= i <= |stack| && LastAtMost(stack[..i], column) == LastAtMost(stack, column)
    {
      i := i - 1;
      if stack[i].at.column <= column {
        return Some(stack[i]);
      }
      assert stack[..i + 1][..i] == stack[..i];
    }
    return None;
  }

  // ---------- the keys already there ----------

  /** The last segments, as they stand, of the pointers one segment below a parent; sorted. */
  ghost predicate ListsChildren(nodes: Index, parent: string, keys: seq<string>) {
    && Sorted(StringLeq, keys) && Distinct(keys)
    && forall k :: k in keys <==> '/' !in k && parent + "/" + k in nodes
  }

  /** The child of a parent that a pointer is, if it is one. */
  function ChildName(parent: string, pointer: string): Option<string> {
    if parent == "" then
      if Depth(pointer) == 1 && '/' !in pointer[1..] then Some(pointer[1..]) else None
    else
      var prefix := parent + "/";
      if prefix <= pointer && '/' !in pointer[|prefix|..] then Some(pointer[|prefix|..]) else None
  }

  lemma ChildNameExact(parent: string, pointer: string, name: string)
    ensures ChildName(parent, pointer) == Some(name) <==> '/' !in name && pointer == parent + "/" + name
  {
    if pointer == parent + "/" + name && '/' !in name {
      assert pointer[|parent| + 1..] == name;
      if parent == "" {
        NoSlashDepth(name);
        assert pointer == "/" + name;
        DepthAppend("/", name);
      } else {
        assert parent + "/" <= pointer;
      }
    }
    if parent == "" && ChildName(parent, pointer) == Some(name) {
      NoSlashDepth(name);
      assert pointer == [pointer[0]] + name;
      assert pointer[0] == '/';
    }
  }

  method ExistingKeys(nodes: Index, parent: string) returns (keys: seq<string>)
    ensures ListsChildren(nodes, parent, keys)
  {
    var seen: set<string> := {};
    var todo := nodes.Keys;
    while todo != {}
      invariant todo <= nodes.Keys
      invariant forall k :: k in seen <==> '/' !in k && parent + "/" + k in nodes && parent + "/" + k !in todo
      decreases todo
    {
      var pointer :| pointer in todo;
      var child := ChildName(parent, pointer);
      forall k ensures child == Some(k) <==> '/' !in k && pointer == parent + "/" + k {
        ChildNameExact(parent, pointer, k);
      }
      hide ChildName;
      if child.Some? {
        seen := seen + {child.value};
      }
      todo := todo - {pointer};
    }
    var list := AnyOrder(seen);
    StringLeqOrder();
    hide StringLeq;
    SortCorrect(StringLeq, list);
    keys := Sort(StringLeq, list);
    DistinctPermutes(list, keys);
  }

  /** The last segment, as it stands in the pointer, of a path below another in an index. */
  lemma LastRawSegment(path: Path, q: Path, key: string)
    requires '/' !in key && Pointer(q) == Pointer(path) + "/" + key
    ensures q != [] && q == path + [q[|q| - 1]] && Escape(q[|q| - 1]) == key
  {
    hide Pointer, Escape;
    NotEmpty(q);
    var up, last := q[..|q| - 1], q[|q| - 1];
    SplitPointer(q);
    CutAtLastSlash(Pointer(up), Escape(last), Pointer(path), key);
    PointerInjective(up, path);
    assert q == up + [last];
  }

  lemma NotEmpty(q: Path)
    requires Pointer(q) != ""
    ensures q != []
  {
  }

  lemma SplitPointer(q: Path)
    requires q != []
    ensures Pointer(q) == Pointer(q[..|q| - 1]) + "/" + Escape(q[|q| - 1]) && '/' !in Escape(q[|q| - 1])
  {
    EscapeIsEach(q[|q| - 1]);
    EscapedHasNoSlash(q[|q| - 1]);
    hide Escape, EscapeEach;
  }

  lemma CutAtLastSlash(a: string, x: string, b: string, y: string)
    requires '/' !in x && '/' !in y && a + "/" + x == b + "/" + y
    ensures a == b && x == y
  {
    hide LastSlash;
    LastSlashOf(a, x);
    LastSlashOf(b, y);
    var s := a + "/" + x;
    assert a == s[..|a|] && b == s[..|b|] && x == s[|a| + 1..] && y == s[|b| + 1..];
  }

  /** A positioned key or item of a mapping whose escaped text is a given one: its text can only be
      that one unescaped. */
  predicate ListedAs(body: Node, path: Path, key: string) {
    Escape(Unescape(key)) == key && PositionIndex.PositionAt(body, path + [Unescape(key)]).Some?
  }

  /** In the index of a document, exactly the escaped texts of the positioned keys and items below a
      path are listed for it. */
  lemma ExistingKeysExact(body: Node, nodes: Index, path: Path, keys: seq<string>, key: string)
    requires DistinctKeys(body) && IsImage(Walk(body, [], map[]), nodes) && ListsChildren(nodes, Pointer(path), keys)
    ensures key in keys <==> exists text :: Escape(text) == key && PositionIndex.PositionAt(body, path + [text]).Some?
    ensures key in keys <==> ListedAs(body, path, key)
  {
    hide Walk, IsImage, DistinctKeys, PositionIndex.PositionAt, Unescape, Segments;
    if key in keys {
      var pointer := Pointer(path) + "/" + key;
      IndexExact(body, nodes, path);
      var q := Segments(pointer);
      LastRawSegment(path, q, key);
      assert Escape(q[|q| - 1]) == key && PositionIndex.PositionAt(body, path + [q[|q| - 1]]).Some?;
      UnescapeEscape(q[|q| - 1]);
    }
    if text :| Escape(text) == key && PositionIndex.PositionAt(body, path + [text]).Some? {
      UnescapeEscape(text);
      IndexExact(body, nodes, path + [text]);
      PointerLonger(path, text);
      EscapeIsEach(text);
      EscapedHasNoSlash(text);
    }
  }
}
