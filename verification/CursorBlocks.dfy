/**
 The cursor in block mappings (YAML 1.2.2 section 8.2.2): siblings at one column, children to the
 right of their parent, one key to a line. The open keys are then the ancestors, by pointer, of the
 last key above the cursor.
 */
module CursorBlocks {
  import opened Cursor
  import opened Json
  import opened Pointers
  import opened PositionIndex
  import opened Sorting

  // ---------- the layout ----------

  function Pairs(node: Node): (pairs: seq<Pair>)
    ensures forall i | 0 <= i < |pairs| :: pairs[i].value < node
  {
    match node case Single(pair) => [pair] case Mapping(pairs) => pairs case _ => []
  }

  function Placed(pair: Pair): Position {
    if pair.at.Some? then pair.at.value else START
  }

  /** Nothing but mappings and scalars; the keys of a mapping are positioned, at one column, right of
      the given one. */
  ghost predicate Laid(node: Node, indent: nat)
    decreases node
  {
    && !node.Sequence?
    && forall i | 0 <= i < |Pairs(node)| ::
      var pair := Pairs(node)[i];
      pair.at.Some? && Placed(pair).column == Placed(Pairs(node)[0]).column > indent &&
          Laid(pair.value, Placed(pair).column)
  }

  function KeyEntry(path: Path, pair: Pair): Entry {
    Entry(Pointer(path + [pair.text]), Placed(pair), |path| + 1)
  }

  /** The keys in the order of the text. */
  function Keys(node: Node, path: Path): seq<Entry>
    decreases node, 1, 0
  {
    KeysUpTo(node, |Pairs(node)|, path)
  }

  function KeysUpTo(node: Node, n: nat, path: Path): seq<Entry>
    requires n <= |Pairs(node)|
    decreases node, 0, n
  {
    if n == 0 then []
    else
      var pair := Pairs(node)[n - 1];
      KeysUpTo(node, n - 1, path) + [KeyEntry(path, pair)] + Keys(pair.value, path + [pair.text])
  }

  ghost predicate OneKeyPerLine(entries: seq<Entry>) {
    forall i, j | 0 <= i < j < |entries| :: entries[i].at.line < entries[j].at.line
  }

  // ---------- ancestors ----------

  /** For each key, the chain of its ancestors and itself, below a chain that is given. */
  function Chains(node: Node, path: Path, above: seq<Entry>): (chains: seq<seq<Entry>>)
    ensures |chains| == |Keys(node, path)|
    decreases node, 1, 0
  {
    ChainsUpTo(node, |Pairs(node)|, path, above)
  }

  function ChainsUpTo(node: Node, n: nat, path: Path, above: seq<Entry>): (chains: seq<seq<Entry>>)
    requires n <= |Pairs(node)|
    ensures |chains| == |KeysUpTo(node, n, path)|
    decreases node, 0, n
  {
    if n == 0 then []
    else
      var pair := Pairs(node)[n - 1];
      var chain := above + [KeyEntry(path, pair)];
      ChainsUpTo(node, n - 1, path, above) + [chain] + Chains(pair.value, path + [pair.text], chain)
  }

  /** Each pointer is one segment longer than the one before, the first has one. */
  ghost predicate Ancestry(chain: seq<Entry>) {
    && (chain != [] ==> ParentPointer(chain[0].pointer) == "")
    && forall i | 0 < i < |chain| :: ParentPointer(chain[i].pointer) == chain[i - 1].pointer
  }

  ghost predicate EndsAt(chain: seq<Entry>, path: Path) {
    if chain == [] then path == [] else Pointer(path) == chain[|chain| - 1].pointer
  }

  lemma ChainLonger(above: seq<Entry>, path: Path, pair: Pair)
    requires Ancestry(above) && EndsAt(above, path)
    ensures Ancestry(above + [KeyEntry(path, pair)]) && EndsAt(above + [KeyEntry(path, pair)], path + [pair.text])
  {
    ParentOfPointer(path + [pair.text]);
    assert (path + [pair.text])[..|path|] == path;
    hide Pointer, ParentPointer;
    AncestryLonger(above, KeyEntry(path, pair));
  }

  lemma AncestryLonger(above: seq<Entry>, e: Entry)
    requires Ancestry(above)
    requires if above == [] then ParentPointer(e.pointer) == ""
             else ParentPointer(e.pointer) == above[|above| - 1].pointer
    ensures Ancestry(above + [e])
  {
    hide LastSlash;
    var chain := above + [e];
    assert forall i | 0 <= i < |above| :: chain[i] == above[i];
  }

  /** The keys and chains of n pairs: those of the first n - 1, then the n-th with what is below it. */
  lemma LastPair(node: Node, n: nat, path: Path, above: seq<Entry>)
    requires 0 < n <= |Pairs(node)|
    ensures
      var pair := Pairs(node)[n - 1];
      var e := KeyEntry(path, pair);
      && KeysUpTo(node, n, path) ==
         KeysUpTo(node, n - 1, path) + [e] + KeysUpTo(pair.value, |Pairs(pair.value)|, path + [pair.text])
      && ChainsUpTo(node, n, path, above) ==
         ChainsUpTo(node, n - 1, path, above) + [above + [e]] +
         ChainsUpTo(pair.value, |Pairs(pair.value)|, path + [pair.text], above + [e])
  {
  }

  lemma LastKeys(node: Node, n: nat, path: Path)
    requires 0 < n <= |Pairs(node)|
    ensures
      var pair := Pairs(node)[n - 1];
      KeysUpTo(node, n, path) ==
      KeysUpTo(node, n - 1, path) + [KeyEntry(path, pair)] +
      KeysUpTo(pair.value, |Pairs(pair.value)|, path + [pair.text])
  {
  }

  lemma NoPair(node: Node, path: Path, above: seq<Entry>)
    ensures KeysUpTo(node, 0, path) == [] && ChainsUpTo(node, 0, path, above) == []
  {
  }

  lemma LaidPair(node: Node, n: nat, indent: nat)
    requires Laid(node, indent) && 0 < n <= |Pairs(node)|
    ensures
      var pair := Pairs(node)[n - 1];
      pair.at.Some? && Placed(pair).column == Placed(Pairs(node)[0]).column > indent &&
          Laid(pair.value, Placed(pair).column)
  {
  }

  /** A chain is the ancestry, by pointer, of its key. */
  lemma {:induction false} ChainsAreAncestry(node: Node, n: nat, path: Path, above: seq<Entry>, k: nat)
    requires n <= |Pairs(node)| && k < |ChainsUpTo(node, n, path, above)| && Ancestry(above) && EndsAt(above, path)
    ensures
      var chain := ChainsUpTo(node, n, path, above)[k];
      Ancestry(chain) && chain != [] && chain[|chain| - 1] == KeysUpTo(node, n, path)[k]
    decreases node, n
  {
    hide KeysUpTo, ChainsUpTo, Ancestry, EndsAt, KeyEntry;
    if n == 0 {
      NoPair(node, path, above);
    } else {
      var pair := Pairs(node)[n - 1];
      var before := |ChainsUpTo(node, n - 1, path, above)|;
      LastPair(node, n, path, above);
      if k < before {
        ChainsAreAncestry(node, n - 1, path, above, k);
      } else {
        ChainLonger(above, path, pair);
        if k > before {
          ChainsAreAncestry(pair.value, |Pairs(pair.value)|, path + [pair.text], above + [KeyEntry(path, pair)],
              k - before - 1);
        }
      }
    }
  }

  // ---------- the open keys of a block ----------

  lemma {:induction false} OpenAppend(stack: seq<Entry>, a: seq<Entry>, b: seq<Entry>)
    ensures Open(stack, a + b) == Open(Open(stack, a), b)
  {
    hide Push;
    if b == [] {
      assert a + b == a;
    } else {
      OpenAppend(stack, a, b[..|b| - 1]);
      assert (a + b)[..|a + b| - 1] == a + b[..|b| - 1];
    }
  }

  lemma {:induction false} PopTo(stack: seq<Entry>, open: seq<Entry>, column: nat)
    requires stack <= open && forall i | |stack| <= i < |open| :: open[i].at.column >= column
    requires forall i | 0 <= i < |stack| :: stack[i].at.column < column
    ensures Pop(open, column) == stack
  {
    if |open| > |stack| { PopTo(stack, open[..|open| - 1], column); }
  }

  ghost predicate LeftOf(stack: seq<Entry>, limit: nat) {
    forall i | 0 <= i < |stack| :: stack[i].at.column <= limit
  }

  /** Nothing of the stack has been closed, and all that is open beyond it is right of a limit. */
  ghost predicate Grown(stack: seq<Entry>, open: seq<Entry>, limit: nat) {
    stack <= open && forall i | |stack| <= i < |open| :: open[i].at.column > limit
  }

  /** A key of a mapping closes what its elder siblings left open. */
  lemma NextSibling(stack: seq<Entry>, open: seq<Entry>, e: Entry, indent: nat)
    requires LeftOf(stack, indent) && indent < e.at.column && Grown(stack, open, e.at.column - 1)
    ensures Open(open, [e]) == stack + [e]
  {
    PopTo(stack, open, e.at.column);
    assert Open(open, []) == open && [e][..0] == [];
  }

  /** What is right of this is open within a mapping only: its keys' column less one. */
  function Margin(node: Node, indent: nat): nat {
    if Pairs(node) != [] && Placed(Pairs(node)[0]).column > indent then Placed(Pairs(node)[0]).column - 1 else indent
  }

  lemma {:induction false} BlockGrows(node: Node, n: nat, path: Path, stack: seq<Entry>, indent: nat)
    requires Laid(node, indent) && LeftOf(stack, indent) && n <= |Pairs(node)|
    ensures Grown(stack, Open(stack, KeysUpTo(node, n, path)), Margin(node, indent))
    decreases node, n
  {
    hide KeysUpTo, ChainsUpTo, Laid, Open, KeyEntry, Grown, LeftOf;
    if n == 0 {
      NoneGrows(node, path, stack, Margin(node, indent));
    } else {
      var pair := Pairs(node)[n - 1];
      var e := KeyEntry(path, pair);
      KeyEntryColumn(path, pair);
      LaidPair(node, n, indent);
      BlockGrows(node, n - 1, path, stack, indent);
      LeftOfLonger(stack, e, indent);
      BlockGrows(pair.value, |Pairs(pair.value)|, path + [pair.text], stack + [e], e.at.column);
      PairGrows(node, n, path, stack, indent);
    }
  }

  lemma KeyEntryColumn(path: Path, pair: Pair)
    ensures KeyEntry(path, pair).at == Placed(pair)
  {
  }

  lemma PairGrows(node: Node, n: nat, path: Path, stack: seq<Entry>, indent: nat)
    requires Laid(node, indent) && LeftOf(stack, indent) && 0 < n <= |Pairs(node)|
    requires Grown(stack, Open(stack, KeysUpTo(node, n - 1, path)), Margin(node, indent))
    requires
      var pair := Pairs(node)[n - 1];
      var e := KeyEntry(path, pair);
      Grown(stack + [e], Open(stack + [e], KeysUpTo(pair.value, |Pairs(pair.value)|, path + [pair.text])),
          Margin(pair.value, e.at.column))
    ensures Grown(stack, Open(stack, KeysUpTo(node, n, path)), Margin(node, indent))
  {
    hide KeysUpTo, ChainsUpTo, Laid, Open, KeyEntry, Grown, LeftOf;
    var pair := Pairs(node)[n - 1];
    var e := KeyEntry(path, pair);
    KeyEntryColumn(path, pair);
    LaidPair(node, n, indent);
    var inner := KeysUpTo(pair.value, |Pairs(pair.value)|, path + [pair.text]);
    OpenPair(stack, KeysUpTo(node, n - 1, path), e, inner, indent);
    LastKeys(node, n, path);
    GrownShorter(stack, e, Open(stack + [e], inner), Margin(pair.value, e.at.column));
  }

  lemma NoneGrows(node: Node, path: Path, stack: seq<Entry>, limit: nat)
    ensures Grown(stack, Open(stack, KeysUpTo(node, 0, path)), limit)
  {
  }

  lemma LeftOfLonger(stack: seq<Entry>, e: Entry, indent: nat)
    requires LeftOf(stack, indent) && indent < e.at.column
    ensures LeftOf(stack + [e], e.at.column)
  {
  }

  lemma GrownShorter(stack: seq<Entry>, e: Entry, open: seq<Entry>, limit: nat)
    requires Grown(stack + [e], open, limit) && e.at.column <= limit && e.at.column > 0
    ensures Grown(stack, open, e.at.column - 1)
  {
    assert open[|stack|] == (stack + [e])[|stack|];
    assert stack == (stack + [e])[..|stack|];
  }

  lemma OpenNone(stack: seq<Entry>)
    ensures Open(stack, []) == stack
  {
  }

  /** A key of a mapping and what is below it leave open what they would without its elder siblings. */
  lemma OpenPair(stack: seq<Entry>, before: seq<Entry>, e: Entry, inner: seq<Entry>, indent: nat)
    requires LeftOf(stack, indent) && indent < e.at.column && Grown(stack, Open(stack, before), e.at.column - 1)
    ensures Open(stack, before + [e] + inner) == Open(stack + [e], inner)
  {
    NextSibling(stack, Open(stack, before), e, indent);
    OpenAppend(stack, before, [e]);
    OpenAppend(stack, before + [e], inner);
  }

  /** After each key of a block, the open keys are that key's chain. */
  lemma {:induction false} BlockOpen(node: Node, n: nat, path: Path, stack: seq<Entry>, indent: nat, m: nat)
    requires Laid(node, indent) && LeftOf(stack, indent) && n <= |Pairs(node)| && 0 < m <= |KeysUpTo(node, n, path)|
    ensures Open(stack, KeysUpTo(node, n, path)[..m]) == ChainsUpTo(node, n, path, stack)[m - 1]
    decreases node, n
  {
    hide KeysUpTo, ChainsUpTo, Laid, Placed, Open, Grown;
    if n == 0 {
      NoPair(node, path, stack);
    } else {
      var pair := Pairs(node)[n - 1];
      var e := KeyEntry(path, pair);
      var before, inner := KeysUpTo(node, n - 1, path), KeysUpTo(pair.value, |Pairs(pair.value)|, path + [pair.text]);
      LastPair(node, n, path, stack);
      LaidPair(node, n, indent);
      if m <= |before| {
        assert (before + [e] + inner)[..m] == before[..m];
        BlockOpen(node, n - 1, path, stack, indent, m);
      } else {
        var rest := m - |before| - 1;
        assert (before + [e] + inner)[..m] == before + [e] + inner[..rest];
        ElderSiblings(node, n, path, stack, indent);
        OpenPair(stack, before, e, inner[..rest], indent);
        if rest == 0 {
          OpenNone(stack + [e]);
        } else {
          BlockOpen(pair.value, |Pairs(pair.value)|, path + [pair.text], stack + [e], e.at.column, rest);
        }
      }
    }
  }

  lemma ElderSiblings(node: Node, n: nat, path: Path, stack: seq<Entry>, indent: nat)
    requires Laid(node, indent) && LeftOf(stack, indent) && 0 < n <= |Pairs(node)|
    ensures Grown(stack, Open(stack, KeysUpTo(node, n - 1, path)), KeyEntry(path, Pairs(node)[n - 1]).at.column - 1)
  {
    hide KeysUpTo, Open, Grown, LeftOf, Laid;
    LaidPair(node, n, indent);
    BlockGrows(node, n - 1, path, stack, indent);
  }

  // ---------- the keys are the entries of the index ----------

  lemma ChildOfPair(node: Node, i: nat)
    requires DistinctKeys(node) && i < |Pairs(node)|
    ensures
      var pair := Pairs(node)[i];
      Child(node, pair.text) == Some(Item(pair.at, pair.value)) && DistinctKeys(pair.value)
  {
  }

  lemma PositionBelow(node: Node, i: nat, q: Path)
    requires DistinctKeys(node) && i < |Pairs(node)|
    ensures
      var pair := Pairs(node)[i];
      PositionIndex.PositionAt(node, [pair.text] + q) ==
      if q == [] then pair.at else PositionIndex.PositionAt(pair.value, q)
  {
    ChildOfPair(node, i);
    assert ([Pairs(node)[i].text] + q)[1..] == q;
  }

  /** The entry a path has in the index. */
  ghost predicate IsEntry(e: Entry, node: Node, path: Path, q: Path) {
    var at := PositionIndex.PositionAt(node, q);
    at.Some? && e == Entry(Pointer(path + q), at.value, |path| + |q|)
  }

  lemma {:induction false} KeyIsThere(node: Node, n: nat, path: Path, indent: nat, k: nat) returns (q: Path)
    requires DistinctKeys(node) && Laid(node, indent) && n <= |Pairs(node)| && k < |KeysUpTo(node, n, path)|
    ensures IsEntry(KeysUpTo(node, n, path)[k], node, path, q)
    decreases node, n
  {
    hide KeysUpTo, ChainsUpTo, Laid, DistinctKeys, Pointer, IsEntry, KeyEntry;
    if n == 0 {
      NoPair(node, path, []);
      q := [];
    } else {
      var pair := Pairs(node)[n - 1];
      LastPair(node, n, path, []);
      LaidPair(node, n, indent);
      var before := |KeysUpTo(node, n - 1, path)|;
      if k < before {
        q := KeyIsThere(node, n - 1, path, indent, k);
      } else if k == before {
        q := [pair.text];
        OwnEntry(node, n - 1, path);
      } else {
        ChildOfPair(node, n - 1);
        var below := KeyIsThere(pair.value, |Pairs(pair.value)|, path + [pair.text], Placed(pair).column,
            k - before - 1);
        q := [pair.text] + below;
        EntryBelow(node, n - 1, path, below, KeysUpTo(node, n, path)[k]);
      }
    }
  }

  lemma OwnEntry(node: Node, i: nat, path: Path)
    requires DistinctKeys(node) && i < |Pairs(node)| && Pairs(node)[i].at.Some?
    ensures IsEntry(KeyEntry(path, Pairs(node)[i]), node, path, [Pairs(node)[i].text])
  {
    hide DistinctKeys, Pointer;
    PositionBelow(node, i, []);
    assert [Pairs(node)[i].text] + [] == [Pairs(node)[i].text];
  }

  lemma EntryBelow(node: Node, i: nat, path: Path, below: Path, e: Entry)
    requires DistinctKeys(node) && i < |Pairs(node)|
    requires IsEntry(e, Pairs(node)[i].value, path + [Pairs(node)[i].text], below)
    ensures IsEntry(e, node, path, [Pairs(node)[i].text] + below)
  {
    hide DistinctKeys, Pointer;
    PositionBelow(node, i, below);
    assert path + [Pairs(node)[i].text] + below == path + ([Pairs(node)[i].text] + below);
  }

  lemma {:induction false} PairListed(node: Node, n: nat, path: Path, i: nat, e: Entry)
    requires i < n <= |Pairs(node)|
    requires
      var pair := Pairs(node)[i];
      e == KeyEntry(path, pair) || e in Keys(pair.value, path + [pair.text])
    ensures e in KeysUpTo(node, n, path)
  {
    hide KeyEntry;
    if i < n - 1 { PairListed(node, n - 1, path, i, e); }
  }

  lemma {:induction false} EntryIsListed(node: Node, path: Path, q: Path, indent: nat, e: Entry)
    requires DistinctKeys(node) && Laid(node, indent) && IsEntry(e, node, path, q)
    ensures e in Keys(node, path)
    decreases |q|
  {
    hide DistinctKeys, Pointer, Keys, KeyEntry;
    var i := EntryPair(node, path, q, e);
    hide IsEntry;
    LaidPair(node, i + 1, indent);
    var pair := Pairs(node)[i];
    if |q| > 1 {
      ChildOfPair(node, i);
      EntryIsListed(pair.value, path + [pair.text], q[1..], Placed(pair).column, e);
    }
    hide Laid, Placed;
    PairListed(node, |Pairs(node)|, path, i, e);
    AllKeys(node, path);
  }

  lemma AllKeys(node: Node, path: Path)
    ensures Keys(node, path) == KeysUpTo(node, |Pairs(node)|, path)
  {
  }

  /** The pair an entry belongs to: it is that pair's own, or one below it. */
  lemma EntryPair(node: Node, path: Path, q: Path, e: Entry) returns (i: nat)
    requires DistinctKeys(node) && !node.Sequence? && IsEntry(e, node, path, q)
    ensures i < |Pairs(node)| && q != []
    ensures
      var pair := Pairs(node)[i];
      if |q| == 1 then e == KeyEntry(path, pair) else IsEntry(e, pair.value, path + [pair.text], q[1..])
  {
    i := PairOf(node, q[0]);
    var pair := Pairs(node)[i];
    assert q == [pair.text] + q[1..];
    PositionBelow(node, i, q[1..]);
    hide DistinctKeys, Pointer, PositionIndex.PositionAt;
    assert path + q == path + [pair.text] + q[1..];
    if |q| == 1 { assert path + q == path + [pair.text]; }
  }

  lemma PairOf(node: Node, segment: string) returns (i: nat)
    requires !node.Sequence? && Child(node, segment).Some?
    ensures i < |Pairs(node)| && Pairs(node)[i].text == segment
  {
    i := if node.Single? then 0 else FindPair(node.pairs, segment);
  }

  /** A document laid out in block mappings. */
  ghost predicate BlockDocument(body: Node, nodes: Index) {
    DistinctKeys(body) && Laid(body, 0) && OneKeyPerLine(Keys(body, [])) && IsImage(Walk(body, [], map[]), nodes)
  }

  /** Its sorted entries are its keys in the order of the text. */
  lemma BlockArranged(body: Node, nodes: Index, entries: seq<Entry>)
    requires BlockDocument(body, nodes) && Arranged(nodes, entries)
    ensures entries == Keys(body, [])
  {
    hide Depth, Keys, Laid, DistinctKeys, IsImage, Walk, OneKeyPerLine, BlockDocument;
    var keys := Keys(body, []);
    LinesSort(body, nodes);
    forall e ensures e in keys <==> e in entries {
      BlockEntry(body, nodes, e);
    }
    hide Arranged;
    BeforeIsPreorder();
    SameElements(keys, entries);
    SortedUnique(Before, keys, entries);
  }

  lemma LinesSort(body: Node, nodes: Index)
    requires BlockDocument(body, nodes)
    ensures Sorted(Before, Keys(body, [])) && Distinct(Keys(body, [])) && NoTies(Before, Keys(body, []))
  {
    hide Keys, Laid, DistinctKeys, IsImage, Walk;
  }

  lemma BlockEntry(body: Node, nodes: Index, e: Entry)
    requires BlockDocument(body, nodes)
    ensures e in Keys(body, []) <==> e.pointer in nodes && e == EntryOf(nodes, e.pointer)
  {
    hide Keys, EntryOf, BlockDocument;
    if e in Keys(body, []) { KeyInIndex(body, nodes, e); }
    if e.pointer in nodes && e == EntryOf(nodes, e.pointer) { IndexInKeys(body, nodes, e); }
  }

  lemma KeyInIndex(body: Node, nodes: Index, e: Entry)
    requires BlockDocument(body, nodes) && e in Keys(body, [])
    ensures e.pointer in nodes && e == EntryOf(nodes, e.pointer)
  {
    hide IsImage, Walk, Laid, DistinctKeys, Depth, Segments, OneKeyPerLine, KeysUpTo, Pointer;
    var k :| 0 <= k < |Keys(body, [])| && Keys(body, [])[k] == e;
    var q := KeyIsThere(body, |Pairs(body)|, [], 0, k);
    hide PositionIndex.PositionAt;
    assert [] + q == q;
    IndexExact(body, nodes, q);
    DepthOfPointer(q);
  }

  lemma IndexInKeys(body: Node, nodes: Index, e: Entry)
    requires BlockDocument(body, nodes) && e.pointer in nodes && e == EntryOf(nodes, e.pointer)
    ensures e in Keys(body, [])
  {
    hide IsImage, Walk, Laid, DistinctKeys, Depth, Segments, OneKeyPerLine, Keys, Pointer, PositionIndex.PositionAt;
    var q := Segments(e.pointer);
    IndexExact(body, nodes, q);
    DepthOfPointer(q);
    assert [] + q == q;
    EntryIsListed(body, [], q, 0, e);
  }

  // ---------- the theorem ----------

  lemma {:induction false} AbovePrefix(entries: seq<Entry>, line: nat)
    ensures Above(entries, line) <= entries
  {
    if entries != [] { AbovePrefix(entries[1..], line); }
  }

  /** On a line without a key, the open keys are the ancestors, by pointer, of the last key above,
      ending in that key itself. */
  lemma OpenKeysAreAncestors(body: Node, nodes: Index, entries: seq<Entry>, line: nat)
    requires BlockDocument(body, nodes) && Arranged(nodes, entries)
    ensures
      var above := Above(entries, line);
      var open := Open([], above);
      Ancestry(open) && if above == [] then open == [] else open != [] && open[|open| - 1] == above[|above| - 1]
  {
    OpenNone([]);
    BlockArranged(body, nodes, entries);
    AbovePrefix(entries, line);
    hide Above, Open, Keys, Laid, DistinctKeys, IsImage, Walk, OneKeyPerLine, Arranged, Ancestry;
    var above := Above(entries, line);
    if above == [] {
      NoAncestry();
    } else {
      assert above == entries[..|above|];
      ChainIsOpen(body, |above|);
    }
  }

  lemma NoAncestry()
    ensures Ancestry([])
  {
  }

  lemma ChainIsOpen(body: Node, m: nat)
    requires Laid(body, 0) && 0 < m <= |Keys(body, [])|
    ensures
      var open := Open([], Keys(body, [])[..m]);
      Ancestry(open) && open != [] && open[|open| - 1] == Keys(body, [])[m - 1]
  {
    hide Open, KeysUpTo, ChainsUpTo, Laid, ParentPointer;
    var n := |Pairs(body)|;
    BlockOpen(body, n, [], [], 0, m);
    ChainsAreAncestry(body, n, [], [], m - 1);
  }

  /** So the cursor belongs to the nearest of these, the last key above and its ancestors, that is
      indented less than the cursor; to the document itself if there is none. */
  lemma CursorInBlocks(body: Node, nodes: Index, entries: seq<Entry>, line: nat, column: nat)
    requires BlockDocument(body, nodes) && Arranged(nodes, entries) && FirstOn(entries, line).None? && column >= 1
    ensures
      var nearest := LastAtMost(Open([], Above(entries, line)), column - 1);
      ContextAt(entries, line, column) == Context("", if nearest.Some? then nearest.value.pointer else "", true)
  {
    OpenKeysAreAncestors(body, nodes, entries, line);
    OpenExact(Above(entries, line), column);
    hide BlockDocument, Arranged, Above, Open, FirstOn;
    BesideOrInside(Open([], Above(entries, line)), column);
  }

  lemma BesideOrInside(open: seq<Entry>, column: nat)
    requires Ancestry(open) && Increasing(open) && column >= 1
    ensures
      var nearest := LastAtMost(open, column - 1);
      match LastAtMost(open, column)
      case None => nearest == None
      case Some(k) =>
        (if k.at.column == column then ParentPointer(k.pointer) else k.pointer) ==
        (if nearest.Some? then nearest.value.pointer else "")
  {
    hide ParentPointer;
    if open != [] {
      var n := |open| - 1;
      if open[n].at.column > column {
        BesideOrInside(open[..n], column);
      } else if open[n].at.column == column && n > 0 {
        LastAtMostIs(open[..n], column - 1, n - 1);
      }
    }
  }
}
