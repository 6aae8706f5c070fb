/** The index from pointers to source positions (internal/yamldoc/parser.go), and its lookup by the validator. */
module PositionIndex {
  import opened Json
  import opened Pointers

  datatype Position = Position(line: nat, column: nat)

  /** text is the key as it stands in the source, name its decoded value, None for a merge key; at is
      None if the parser gave the token no position. */
  datatype Pair = Pair(text: string, name: Option<string>, at: Option<Position>, value: Node)

  datatype Item = Item(at: Option<Position>, value: Node)

  /** A mapping of one pair may be Single; a sequence in flow style may leave entries empty and give
      values. Enclosed is a node of the syntax tree around a value that the walk does not enter: an
      anchor, a tag, or an alias, whose value is that of its anchor. */
  datatype Node =
    | Scalar
    | Single(pair: Pair)
    | Mapping(pairs: seq<Pair>)
    | Sequence(entries: seq<Item>, values: seq<Item>)
    | Enclosed(value: Node)

  function Items(node: Node): seq<Item>
    requires node.Sequence?
    ensures forall i | 0 <= i < |Items(node)| :: Items(node)[i] < node
  {
    if node.entries != [] then node.entries else node.values
  }

  type Path = seq<string>

  // ---------- what there is at a path ----------

  function FindPair(pairs: seq<Pair>, text: string): (i: nat)
    ensures i <= |pairs| && (i < |pairs| ==> pairs[i].text == text)
    ensures forall k | 0 <= k < i :: pairs[k].text != text
  {
    if pairs == [] || pairs[0].text == text then 0 else 1 + FindPair(pairs[1..], text)
  }

  /** The index a segment denotes among n items, or n. */
  function FindItem(n: nat, segment: string): (i: nat)
    ensures i <= n && (i < n ==> segment == Decimal(i))
    ensures i == n ==> forall k | 0 <= k < n :: segment != Decimal(k)
  {
    if n == 0 then 0
    else
      var i := FindItem(n - 1, segment);
      if i < n - 1 then i else if segment == Decimal(n - 1) then n - 1 else n
  }

  /** The key or item one segment leads to, with its position. */
  function Child(node: Node, segment: string): Option<Item>
    ensures Child(node, segment).Some? ==> Child(node, segment).value.value < node
  {
    match node
    case Scalar | Enclosed(_) => None
    case Single(pair) => if pair.text == segment then Some(Item(pair.at, pair.value)) else None
    case Mapping(pairs) =>
      var i := FindPair(pairs, segment);
      if i < |pairs| then Some(Item(pairs[i].at, pairs[i].value)) else None
    case Sequence(_, _) =>
      var i := FindItem(|Items(node)|, segment);
      if i < |Items(node)| then Some(Items(node)[i]) else None
  }

  function At(node: Node, path: Path): Option<Item>
    requires path != []
    decreases |path|
  {
    match Child(node, path[0])
    case None => None
    case Some(item) => if |path| == 1 then Some(item) else At(item.value, path[1..])
  }

  /** The position the index should give for a path. */
  function PositionAt(node: Node, path: Path): Option<Position> {
    if path == [] then None else match At(node, path) case Some(item) => item.at case None => None
  }

  /** The position of a key or item, or of what is below it. */
  function Below(at: Option<Position>, value: Node, rest: Path): Option<Position> {
    if rest == [] then at else PositionAt(value, rest)
  }

  /** The segments of a path are the texts of keys, and the indices of the entries of a sequence or,
      where it has none, of its values; nothing is inside a scalar or an enclosed node. */
  lemma PositionAtExact(node: Node, segment: string, rest: Path)
    requires DistinctKeys(node)
    ensures
      var found := PositionAt(node, [segment] + rest);
      match node
      case Scalar | Enclosed(_) => found.None?
      case Single(pair) => found == if pair.text == segment then Below(pair.at, pair.value, rest) else None
      case Mapping(pairs) =>
        && (forall i | 0 <= i < |pairs| && pairs[i].text == segment ::
              found == Below(pairs[i].at, pairs[i].value, rest))
        && (found.Some? ==> exists i | 0 <= i < |pairs| :: pairs[i].text == segment)
      case Sequence(entries, values) =>
        var items := if entries != [] then entries else values;
        && (forall i | 0 <= i < |items| && Decimal(i) == segment :: found == Below(items[i].at, items[i].value, rest))
        && (found.Some? ==> exists i | 0 <= i < |items| :: Decimal(i) == segment)
  {
    assert ([segment] + rest)[1..] == rest;
    if node.Sequence? {
      forall i | 0 <= i < |Items(node)| && Decimal(i) == segment
        ensures FindItem(|Items(node)|, segment) == i
      {
        var k := FindItem(|Items(node)|, segment);
        if k < |Items(node)| { DecimalInjective(i, k); }
      }
    }
  }

  ghost predicate DistinctKeys(node: Node)
    decreases node
  {
    match node
    case Scalar | Enclosed(_) => true
    case Single(pair) => DistinctKeys(pair.value)
    case Mapping(pairs) =>
      && (forall i, j | 0 <= i < j < |pairs| :: pairs[i].text != pairs[j].text)
      && (forall i | 0 <= i < |pairs| :: DistinctKeys(pairs[i].value))
    case Sequence(_, _) => forall i | 0 <= i < |Items(node)| :: DistinctKeys(Items(node)[i].value)
  }

  // ---------- the walk, by paths ----------

  type Positions = map<Path, Position>

  function Record(found: Positions, path: Path, at: Option<Position>): Positions {
    if at.Some? then found[path := at.value] else found
  }

  function Walk(node: Node, path: Path, found: Positions): Positions
    decreases node, 1, 0
  {
    match node
    case Scalar | Enclosed(_) => found
    case Single(pair) => Walk(pair.value, path + [pair.text], Record(found, path + [pair.text], pair.at))
    case Mapping(pairs) => WalkPairs(node, |pairs|, path, found)
    case Sequence(_, _) => WalkItems(node, |Items(node)|, path, found)
  }

  /** The first n pairs. */
  function WalkPairs(node: Node, n: nat, path: Path, found: Positions): Positions
    requires node.Mapping? && n <= |node.pairs|
    decreases node, 0, n
  {
    if n == 0 then found
    else
      var pair := node.pairs[n - 1];
      var before := WalkPairs(node, n - 1, path, found);
      Walk(pair.value, path + [pair.text], Record(before, path + [pair.text], pair.at))
  }

  function WalkItems(node: Node, n: nat, path: Path, found: Positions): Positions
    requires node.Sequence? && n <= |Items(node)|
    decreases node, 0, n
  {
    if n == 0 then found
    else
      var item := Items(node)[n - 1];
      var before := WalkItems(node, n - 1, path, found);
      Walk(item.value, path + [Decimal(n - 1)], Record(before, path + [Decimal(n - 1)], item.at))
  }

  function Get(found: Positions, path: Path): Option<Position> {
    if path in found then Some(found[path]) else None
  }

  /** The first of two positions that is there. */
  function Or(a: Option<Position>, b: Option<Position>): Option<Position> {
    if a.Some? then a else b
  }

  /** The position a node below a prefix contributes to a path. */
  function Contribution(node: Node, prefix: Path, q: Path): Option<Position> {
    if prefix <= q then PositionAt(node, q[|prefix|..]) else None
  }

  /** What one key or item contributes: its own position, or one below it. */
  function ChildContribution(segment: string, item: Item, prefix: Path, q: Path): Option<Position> {
    if prefix + [segment] == q then item.at else Contribution(item.value, prefix + [segment], q)
  }

  lemma ContributionOfChild(node: Node, prefix: Path, q: Path)
    ensures
      Contribution(node, prefix, q) ==
      if !(prefix <= q) || |q| == |prefix| then None
      else match Child(node, q[|prefix|])
        case None => None
        case Some(item) => ChildContribution(q[|prefix|], item, prefix, q)
  {
    if prefix <= q && |q| > |prefix| {
      var r, segment := q[|prefix|..], q[|prefix|];
      assert r[0] == segment && r[1..] == q[|prefix| + 1..];
      assert prefix + [segment] == q[..|prefix| + 1];
      assert prefix + [segment] <= q;
      if |q| == |prefix| + 1 { assert prefix + [segment] == q; }
    }
  }

  lemma LongerPrefix(prefix: Path, segment: string, q: Path)
    requires prefix + [segment] <= q
    ensures prefix <= q && |prefix| < |q| && q[|prefix|] == segment
  {
    var longer := prefix + [segment];
    assert longer[..|prefix|] == prefix == q[..|prefix|] && longer[|prefix|] == segment;
  }

  lemma NoContribution(segment: string, item: Item, prefix: Path, q: Path)
    requires !(prefix <= q) || |q| == |prefix| || q[|prefix|] != segment
    ensures ChildContribution(segment, item, prefix, q) == None
  {
    if prefix + [segment] <= q { LongerPrefix(prefix, segment, q); }
  }

  lemma RecordThenWalk(segment: string, item: Item, prefix: Path, before: Positions, q: Path)
    requires
      var path := prefix + [segment];
      Get(Walk(item.value, path, Record(before, path, item.at)), q) ==
      Or(Contribution(item.value, path, q), Get(Record(before, path, item.at), q))
    ensures
      var path := prefix + [segment];
      Get(Walk(item.value, path, Record(before, path, item.at)), q) ==
      Or(ChildContribution(segment, item, prefix, q), Get(before, q))
  {
    var path := prefix + [segment];
    if path == q {
      assert q[|path|..] == [];
    }
  }

  /** What the first n pairs contribute to a path. */
  function PairsContribution(node: Node, n: nat, prefix: Path, q: Path): Option<Position>
    requires node.Mapping? && n <= |node.pairs|
  {
    if prefix <= q && |prefix| < |q| then
      var i := FindPair(node.pairs, q[|prefix|]);
      if i < n then ChildContribution(q[|prefix|], Item(node.pairs[i].at, node.pairs[i].value), prefix, q) else None
    else None
  }

  function ItemsContribution(node: Node, n: nat, prefix: Path, q: Path): Option<Position>
    requires node.Sequence? && n <= |Items(node)|
  {
    if prefix <= q && |prefix| < |q| then
      var i := FindItem(|Items(node)|, q[|prefix|]);
      if i < n then ChildContribution(q[|prefix|], Items(node)[i], prefix, q) else None
    else None
  }

  lemma PairsContributionStep(node: Node, n: nat, prefix: Path, q: Path)
    requires node.Mapping? && n < |node.pairs| && forall i, j | 0 <= i < j < |node.pairs| ::
        node.pairs[i].text != node.pairs[j].text
    ensures
      PairsContribution(node, n + 1, prefix, q) ==
      Or(ChildContribution(node.pairs[n].text, Item(node.pairs[n].at, node.pairs[n].value), prefix, q),
          PairsContribution(node, n, prefix, q))
  {
    if !(prefix <= q) || |q| == |prefix| || q[|prefix|] != node.pairs[n].text {
      NoContribution(node.pairs[n].text, Item(node.pairs[n].at, node.pairs[n].value), prefix, q);
    }
  }

  lemma ItemsContributionStep(node: Node, n: nat, prefix: Path, q: Path)
    requires node.Sequence? && n < |Items(node)|
    ensures
      ItemsContribution(node, n + 1, prefix, q) ==
      Or(ChildContribution(Decimal(n), Items(node)[n], prefix, q), ItemsContribution(node, n, prefix, q))
  {
    if !(prefix <= q) || |q| == |prefix| || q[|prefix|] != Decimal(n) {
      NoContribution(Decimal(n), Items(node)[n], prefix, q);
    } else {
      var i := FindItem(|Items(node)|, q[|prefix|]);
      if i < |Items(node)| { DecimalInjective(i, n); }
    }
  }

  /** With distinct keys, the walk finds for each path what the node has there, and keeps the rest. */
  lemma {:induction false} WalkFinds(node: Node, prefix: Path, found: Positions, q: Path)
    requires DistinctKeys(node)
    ensures Get(Walk(node, prefix, found), q) == Or(Contribution(node, prefix, q), Get(found, q))
    decreases node, 1, 0
  {
    ContributionOfChild(node, prefix, q);
    match node
    case Scalar | Enclosed(_) =>
    case Single(pair) =>
      var path := prefix + [pair.text];
      WalkFinds(pair.value, path, Record(found, path, pair.at), q);
      hide Contribution, Get, Walk;
      SingleFinds(node, prefix, found, q);
    case Mapping(pairs) => WalkPairsFind(node, |pairs|, prefix, found, q);
    case Sequence(_, _) => WalkItemsFind(node, |Items(node)|, prefix, found, q);
  }

  lemma SingleFinds(node: Node, prefix: Path, found: Positions, q: Path)
    requires node.Single?
    requires
      var path := prefix + [node.pair.text];
      Get(Walk(node.pair.value, path, Record(found, path, node.pair.at)), q) ==
      Or(Contribution(node.pair.value, path, q), Get(Record(found, path, node.pair.at), q))
    ensures Get(Walk(node, prefix, found), q) == Or(Contribution(node, prefix, q), Get(found, q))
  {
    ContributionOfChild(node, prefix, q);
    var item := Item(node.pair.at, node.pair.value);
    RecordThenWalk(node.pair.text, item, prefix, found, q);
    if !(prefix <= q) || |q| == |prefix| || q[|prefix|] != node.pair.text {
      NoContribution(node.pair.text, item, prefix, q);
    }
  }

  lemma {:induction false} WalkPairsFind(node: Node, n: nat, prefix: Path, found: Positions, q: Path)
    requires DistinctKeys(node) && node.Mapping? && n <= |node.pairs|
    ensures Get(WalkPairs(node, n, prefix, found), q) == Or(PairsContribution(node, n, prefix, q), Get(found, q))
    decreases node, 0, n
  {
    if n > 0 {
      var pair := node.pairs[n - 1];
      var path := prefix + [pair.text];
      var before := WalkPairs(node, n - 1, prefix, found);
      WalkPairsFind(node, n - 1, prefix, found, q);
      WalkFinds(pair.value, path, Record(before, path, pair.at), q);
      hide Contribution, Get, Walk, ChildContribution, Record, PairsContribution;
      RecordThenWalk(pair.text, Item(pair.at, pair.value), prefix, before, q);
      PairsContributionStep(node, n - 1, prefix, q);
    }
  }

  lemma {:induction false} WalkItemsFind(node: Node, n: nat, prefix: Path, found: Positions, q: Path)
    requires DistinctKeys(node) && node.Sequence? && n <= |Items(node)|
    ensures Get(WalkItems(node, n, prefix, found), q) == Or(ItemsContribution(node, n, prefix, q), Get(found, q))
    decreases node, 0, n
  {
    if n > 0 {
      var item := Items(node)[n - 1];
      var path := prefix + [Decimal(n - 1)];
      var before := WalkItems(node, n - 1, prefix, found);
      WalkItemsFind(node, n - 1, prefix, found, q);
      WalkFinds(item.value, path, Record(before, path, item.at), q);
      hide Contribution, Get, Walk, ChildContribution, Record, ItemsContribution;
      RecordThenWalk(Decimal(n - 1), item, prefix, before, q);
      ItemsContributionStep(node, n - 1, prefix, q);
    }
  }

  // ---------- the index ----------

  type Index = map<string, Position>

  /** The same positions, by pointer. */
  ghost predicate IsImage(found: Positions, nodes: Index) {
    && (forall path | path in found :: Pointer(path) in nodes && nodes[Pointer(path)] == found[path])
    && (forall key | key in nodes :: Segments(key) in found && Pointer(Segments(key)) == key)
  }

  lemma RecordImage(found: Positions, nodes: Index, path: Path, at: Position)
    requires IsImage(found, nodes)
    ensures IsImage(found[path := at], nodes[Pointer(path) := at])
  {
    hide Pointer, Segments;
    SegmentsOfPointer(path);
    var found', nodes' := found[path := at], nodes[Pointer(path) := at];
    forall p | p in found' ensures Pointer(p) in nodes' && nodes'[Pointer(p)] == found'[p] {
      if Pointer(p) == Pointer(path) { PointerInjective(p, path); }
    }
  }

  class Walker {
    var nodes: Index

    constructor ()
      ensures nodes == map[]
    {
      nodes := map[];
    }

    method Note(pointer: string, at: Option<Position>, ghost path: Path, ghost found: Positions)
      requires pointer == Pointer(path) && IsImage(found, nodes)
      modifies this
      ensures IsImage(Record(found, path, at), nodes)
    {
      if at.Some? {
        RecordImage(found, nodes, path, at.value);
        nodes := nodes[pointer := at.value];
      }
    }

    /** walkNode: found is what has been recorded so far, by paths. */
    method WalkNode(node: Node, pointer: string, ghost path: Path, ghost found: Positions)
      requires pointer == Pointer(path) && IsImage(found, nodes)
      modifies this
      ensures IsImage(Walk(node, path, found), nodes)
      decreases node, 1
    {
      hide IsImage, Pointer, Record;
      match node
      case Scalar | Enclosed(_) =>
      case Single(pair) => WalkPair(pair, pointer, path, found);
      case Mapping(pairs) =>
        for n := 0 to |pairs|
          invariant IsImage(WalkPairs(node, n, path, found), nodes)
        {
          WalkPair(pairs[n], pointer, path, WalkPairs(node, n, path, found));
        }
      case Sequence(_, _) =>
        var items := Items(node);
        for n := 0 to |items|
          invariant IsImage(WalkItems(node, n, path, found), nodes)
        {
          WalkItem(items[n], n, pointer, path, WalkItems(node, n, path, found));
        }
    }

    method WalkPair(pair: Pair, pointer: string, ghost path: Path, ghost found: Positions)
      requires pointer == Pointer(path) && IsImage(found, nodes)
      modifies this
      ensures IsImage(Walk(pair.value, path + [pair.text], Record(found, path + [pair.text], pair.at)), nodes)
      decreases pair.value, 2
    {
      PointerLonger(path, pair.text);
      hide IsImage, Pointer, Record, Walk;
      var childPointer := pointer + "/" + Escape(pair.text);
      Note(childPointer, pair.at, path + [pair.text], found);
      WalkNode(pair.value, childPointer, path + [pair.text], Record(found, path + [pair.text], pair.at));
    }

    method WalkItem(item: Item, n: nat, pointer: string, ghost path: Path, ghost found: Positions)
      requires pointer == Pointer(path) && IsImage(found, nodes)
      modifies this
      ensures IsImage(Walk(item.value, path + [Decimal(n)], Record(found, path + [Decimal(n)], item.at)), nodes)
      decreases item.value, 2
    {
      DecimalEscapes(n);
      PointerLonger(path, Decimal(n));
      hide IsImage, Pointer, Record, Walk;
      var childPointer := pointer + "/" + Decimal(n);
      Note(childPointer, item.at, path + [Decimal(n)], found);
      WalkNode(item.value, childPointer, path + [Decimal(n)], Record(found, path + [Decimal(n)], item.at));
    }
  }

  lemma PointerLonger(path: Path, segment: string)
    ensures Pointer(path + [segment]) == Pointer(path) + "/" + Escape(segment)
  {
    assert (path + [segment])[..|path|] == path;
  }

  /** Indices are not escaped in the index, but are by the validator. */
  lemma DecimalEscapes(n: nat)
    ensures Escape(Decimal(n)) == Decimal(n)
  {
    DecimalCanonical(n);
    EscapeIsEach(Decimal(n));
    assert forall c | c in Decimal(n) :: IsDigit(c);
    hide Decimal;
    PlainEscape(Decimal(n));
  }

  lemma {:induction false} PlainEscape(s: string)
    requires forall c | c in s :: c != '~' && c != '/'
    ensures EscapeEach(s) == s
  {
    if s != "" {
      assert s[0] in s && forall c | c in s[1..] :: c in s;
      PlainEscape(s[1..]);
      assert s == [s[0]] + s[1..];
    }
  }

  method BuildIndex(body: Node) returns (nodes: Index)
    ensures IsImage(Walk(body, [], map[]), nodes)
  {
    var walker := new Walker();
    walker.WalkNode(body, "", [], map[]);
    nodes := walker.nodes;
  }

  // ---------- the theorems ----------

  /** The index has an entry for a path exactly when a positioned key or item is there, and it is
      that one's position; there is no other entry. */
  lemma IndexExact(body: Node, nodes: Index, path: Path)
    requires DistinctKeys(body) && IsImage(Walk(body, [], map[]), nodes)
    ensures Pointer(path) in nodes <==> PositionAt(body, path).Some?
    ensures Pointer(path) in nodes ==> nodes[Pointer(path)] == PositionAt(body, path).value
    ensures forall key | key in nodes :: key == Pointer(Segments(key)) && PositionAt(body, Segments(key)).Some?
  {
    var found := Walk(body, [], map[]);
    forall q ensures Get(found, q) == PositionAt(body, q) {
      WalkFinds(body, [], map[], q);
      assert [] <= q && q[0..] == q;
    }
    SegmentsOfPointer(path);
    hide Walk, PositionAt, Pointer, Segments;
    assert Get(found, path) == PositionAt(body, path);
    forall key | key in nodes ensures PositionAt(body, Segments(key)).Some? {
      assert Get(found, Segments(key)) == PositionAt(body, Segments(key));
    }
  }

  const START := Position(1, 1)

  function LookupPosition(nodes: Index, pointer: string): Position {
    if pointer in nodes then nodes[pointer] else START
  }
}
