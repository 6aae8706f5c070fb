/**
 How the nodes of a document are written, and what that means for looking them up by their values: the
 index goes by the source text of keys and does not enter every node, the validator goes by decoded
 values (internal/yamldoc/parser.go, internal/validator/validate.go).
 */
module KeySpelling {
  import opened Json
  import opened Pointers
  import opened PositionIndex

  // ---------- what the instance has ----------

  /** What the instance has under a name. A pair gives it if it is the pair's key, or if the key merges
      a mapping that has it; the last pair that gives it counts. */
  function InstanceChild(node: Node, name: string): (item: Option<Item>)
    ensures item.Some? ==> item.value.value < node
    decreases node, 1, 0
  {
    match node
    case Scalar => None
    case Single(pair) => Given(pair, name)
    case Mapping(pairs) => GivenBy(node, |pairs|, name)
    case Sequence(_, _) =>
      var i := FindItem(|Items(node)|, name);
      if i < |Items(node)| then Some(Items(node)[i]) else None
    case Enclosed(value) => InstanceChild(value, name)
  }

  function Given(pair: Pair, name: string): (item: Option<Item>)
    ensures item.Some? ==> item.value.value < pair
    decreases pair, 0, 0
  {
    match pair.name
    case Some(key) => if key == name then Some(Item(pair.at, pair.value)) else None
    case None => InstanceChild(pair.value, name)
  }

  /** By the first n pairs. */
  function GivenBy(node: Node, n: nat, name: string): (item: Option<Item>)
    requires node.Mapping? && n <= |node.pairs|
    ensures item.Some? ==> item.value.value < node
    decreases node, 0, n
  {
    if n == 0 then None
    else if Given(node.pairs[n - 1], name).Some? then Given(node.pairs[n - 1], name)
    else GivenBy(node, n - 1, name)
  }

  function InstanceAt(node: Node, path: Path): Option<Item>
    requires path != []
    decreases |path|
  {
    match InstanceChild(node, path[0])
    case None => None
    case Some(item) => if |path| == 1 then Some(item) else InstanceAt(item.value, path[1..])
  }

  /** Where the key or item of an instance path stands in the source. */
  function InstancePosition(node: Node, path: Path): Option<Position> {
    if path == [] then None else match InstanceAt(node, path) case Some(item) => item.at case None => None
  }

  // ---------- how it is written ----------

  /** How what the instance has under a name is written, and whether the walk gets there. */
  datatype Writing = Writing(text: Path, exposed: bool)

  /** Under a name that the instance has. */
  function ChildWriting(node: Node, name: string): (w: Writing)
    requires InstanceChild(node, name).Some?
    ensures w.text != []
    decreases node, 1, 0
  {
    match node
    case Single(pair) => GivenWriting(pair, name)
    case Mapping(pairs) => GivenByWriting(node, |pairs|, name)
    case Sequence(_, _) => Writing([name], true)
    case Enclosed(value) => ChildWriting(value, name).(exposed := false)
  }

  function GivenWriting(pair: Pair, name: string): (w: Writing)
    requires Given(pair, name).Some?
    ensures w.text != []
    decreases pair, 0, 0
  {
    if pair.name.Some? then Writing([pair.text], true)
    else
      var w := ChildWriting(pair.value, name);
      Writing([pair.text] + w.text, w.exposed)
  }

  function GivenByWriting(node: Node, n: nat, name: string): (w: Writing)
    requires node.Mapping? && n <= |node.pairs| && GivenBy(node, n, name).Some?
    ensures w.text != []
    decreases node, 0, n
  {
    if Given(node.pairs[n - 1], name).Some? then GivenWriting(node.pairs[n - 1], name)
    else GivenByWriting(node, n - 1, name)
  }

  /** How the source writes an instance path: the texts of its keys, those of merge keys among them. */
  function Spelling(node: Node, path: Path): Option<Path>
    decreases |path|
  {
    if path == [] then Some([])
    else
      match InstanceChild(node, path[0])
      case None => None
      case Some(item) =>
        match Spelling(item.value, path[1..])
        case Some(rest) => Some(ChildWriting(node, path[0]).text + rest)
        case None => None
  }

  /** The walk gets there: no anchor, tag or alias stands around any node on the way. */
  predicate Exposed(node: Node, path: Path)
    decreases |path|
  {
    path == [] ||
    match InstanceChild(node, path[0])
    case None => false
    case Some(item) => ChildWriting(node, path[0]).exposed && Exposed(item.value, path[1..])
  }

  // ---------- what is written is what the walk finds ----------

  /** One child after another, possibly through merged mappings. */
  lemma {:induction false} AtFirst(node: Node, segment: string, rest: Path)
    ensures At(node, [segment] + rest) ==
            match Child(node, segment)
            case None => None
            case Some(item) => if rest == [] then Some(item) else At(item.value, rest)
  {
    assert ([segment] + rest)[1..] == rest;
  }

  /** An exposed child is at its text; at the text of one that is not there is nothing. */
  lemma {:induction false} ChildWritten(node: Node, name: string)
    requires DistinctKeys(node) && InstanceChild(node, name).Some?
    ensures
      var w := ChildWriting(node, name);
      && At(node, w.text) == (if w.exposed then InstanceChild(node, name) else None)
      && (w.exposed ==> DistinctKeys(InstanceChild(node, name).value.value))
    decreases node, 1, 0
  {
    match node
    case Single(pair) =>
      GivenWritten(node, pair, name);
    case Mapping(pairs) => GivenByWritten(node, |pairs|, name);
    case Sequence(_, _) => AtFirst(node, name, []);
    case Enclosed(value) =>
  }

  lemma {:induction false} GivenWritten(node: Node, pair: Pair, name: string)
    requires DistinctKeys(pair.value) && Given(pair, name).Some?
    requires Child(node, pair.text) == Some(Item(pair.at, pair.value))
    ensures
      var w := GivenWriting(pair, name);
      && At(node, w.text) == (if w.exposed then Given(pair, name) else None)
      && (w.exposed ==> DistinctKeys(Given(pair, name).value.value))
    decreases pair, 0, 0
  {
    if pair.name.Some? {
      AtFirst(node, pair.text, []);
      assert [pair.text] + [] == [pair.text];
    } else {
      ChildWritten(pair.value, name);
      AtFirst(node, pair.text, ChildWriting(pair.value, name).text);
    }
  }

  lemma {:induction false} GivenByWritten(node: Node, n: nat, name: string)
    requires DistinctKeys(node) && node.Mapping? && n <= |node.pairs| && GivenBy(node, n, name).Some?
    ensures
      var w := GivenByWriting(node, n, name);
      && At(node, w.text) == (if w.exposed then GivenBy(node, n, name) else None)
      && (w.exposed ==> DistinctKeys(GivenBy(node, n, name).value.value))
    decreases node, 0, n
  {
    var pair := node.pairs[n - 1];
    if Given(pair, name).Some? {
      assert FindPair(node.pairs, pair.text) == n - 1;
      GivenWritten(node, pair, name);
    } else {
      GivenByWritten(node, n - 1, name);
    }
  }

  lemma {:induction false} AtAppend(node: Node, a: Path, b: Path)
    requires a != []
    ensures At(node, a + b) ==
            match At(node, a)
            case None => None
            case Some(item) => if b == [] then Some(item) else At(item.value, b)
    decreases |a|
  {
    AtFirst(node, a[0], a[1..] + b);
    assert [a[0]] + (a[1..] + b) == a + b;
    match Child(node, a[0])
    case None =>
    case Some(item) =>
      if |a| == 1 {
        assert a[1..] + b == b;
      } else {
        AtAppend(item.value, a[1..], b);
      }
  }

  /** What the instance has at a path is, if the path is exposed, what the source has at its spelling;
      otherwise the source has nothing there that the walk would find. */
  lemma {:induction false} SpellingFinds(node: Node, path: Path)
    requires DistinctKeys(node) && path != []
    ensures Spelling(node, path).Some? <==> InstanceAt(node, path).Some?
    ensures
      match Spelling(node, path)
      case None => !Exposed(node, path)
      case Some(text) => text != [] && At(node, text) == (if Exposed(node, path) then InstanceAt(node, path) else None)
    decreases |path|
  {
    match InstanceChild(node, path[0])
    case None =>
    case Some(item) =>
      ChildWritten(node, path[0]);
      hide DistinctKeys, At, ChildWriting, InstanceChild;
      var w := ChildWriting(node, path[0]);
      if |path| == 1 {
        assert path[1..] == [] && w.text + [] == w.text;
      } else {
        if w.exposed { SpellingFinds(item.value, path[1..]); }
        SpelledIff(item.value, path[1..]);
        if Spelling(item.value, path[1..]).Some? {
          AtAppend(node, w.text, Spelling(item.value, path[1..]).value);
          SpellingLength(item.value, path[1..]);
        }
      }
  }

  lemma {:induction false} SpelledIff(node: Node, path: Path)
    requires path != []
    ensures Spelling(node, path).Some? <==> InstanceAt(node, path).Some?
    decreases |path|
  {
    if InstanceChild(node, path[0]).Some? && |path| > 1 {
      SpelledIff(InstanceChild(node, path[0]).value.value, path[1..]);
    }
  }

  lemma {:induction false} SpellingLength(node: Node, path: Path)
    requires Spelling(node, path).Some?
    ensures |Spelling(node, path).value| >= |path|
    decreases |path|
  {
    if path != [] {
      SpellingLength(InstanceChild(node, path[0]).value.value, path[1..]);
    }
  }

  lemma SpelledPosition(node: Node, path: Path)
    requires DistinctKeys(node)
    ensures Exposed(node, path) && path != [] ==>
              Spelling(node, path).Some? && InstancePosition(node, path) == PositionAt(node, Spelling(node, path).value)
    ensures !Exposed(node, path) && Spelling(node, path).Some? ==> PositionAt(node, Spelling(node, path).value) == None
  {
    if path != [] { SpellingFinds(node, path); }
  }

  // ---------- the validator's lookup ----------

  /** No two keys or items the walk finds stand at one position. */
  ghost predicate DistinctPositions(node: Node) {
    forall p, q | PositionAt(node, p).Some? && PositionAt(node, p) == PositionAt(node, q) :: p == q
  }

  /** Nor does one it does not get to stand where one it finds does. */
  ghost predicate HiddenApart(node: Node) {
    forall p, q | !Exposed(node, p) && InstancePosition(node, p).Some? ::
        InstancePosition(node, p) != PositionAt(node, q)
  }

  /** A source path has the position of a positioned node of the instance exactly if it is how that node
      is written, in the open. */
  lemma HasItsPosition(body: Node, path: Path, q: Path)
    requires DistinctKeys(body) && DistinctPositions(body) && HiddenApart(body) && InstancePosition(body, path).Some?
    ensures PositionAt(body, q) == InstancePosition(body, path) <==>
            Spelling(body, path) == Some(q) && Exposed(body, path)
  {
    SpelledPosition(body, path);
    SpelledIff(body, path);
    hide PositionAt, InstancePosition, DistinctKeys, Spelling, Exposed;
    assert Exposed(body, path) ==> PositionAt(body, Spelling(body, path).value) == InstancePosition(body, path);
    assert !Exposed(body, path) ==> InstancePosition(body, path) != PositionAt(body, q);
  }

  /** What the instance has at a path is written so, in the open; or it has nothing there, and nothing
      is written so either. */
  predicate Plain(body: Node, path: Path) {
    match Spelling(body, path)
    case Some(text) => text == path && Exposed(body, path)
    case None => PositionAt(body, path).None?
  }

  /** The pointer the validator builds from an instance path finds exactly the node of that path, if
      that is written as its values and in the open, however others are; where there is no positioned
      node the lookup gives the start of the document. */
  lemma ValidatorFindsNode(body: Node, nodes: Index, path: Path)
    requires DistinctKeys(body) && Plain(body, path) && IsImage(Walk(body, [], map[]), nodes)
    ensures LookupPosition(nodes, Pointer(path)) ==
            match InstancePosition(body, path) case Some(at) => at case None => START
  {
    IndexExact(body, nodes, path);
    SpelledPosition(body, path);
    if path != [] { SpelledIff(body, path); }
  }

  /** For a positioned node of the instance, the index has its position under the validator's pointer
      if and only if the path is its own spelling and no anchor, tag or alias stands around a node on
      it; the lookup gives that position then, and otherwise only where it is the start and nothing is
      written so. */
  lemma ValidatorFindsNodeIff(body: Node, nodes: Index, path: Path)
    requires DistinctKeys(body) && DistinctPositions(body) && HiddenApart(body)
    requires IsImage(Walk(body, [], map[]), nodes) && InstancePosition(body, path).Some?
    ensures
      var at := InstancePosition(body, path).value;
      var found := Spelling(body, path) == Some(path) && Exposed(body, path);
      && (Pointer(path) in nodes && nodes[Pointer(path)] == at <==> found)
      && (LookupPosition(nodes, Pointer(path)) == at <==> found || (at == START && PositionAt(body, path).None?))
  {
    IndexExact(body, nodes, path);
    HasItsPosition(body, path, path);
    hide PositionAt, Walk, IsImage, DistinctKeys, Pointer, Spelling, Exposed;
  }

  // ---------- the inputs that are missed ----------

  /** A document of one key with a value. */
  function Field(text: string, name: Option<string>, at: Position, value: Node): Node {
    Single(Pair(text, name, Some(at), value))
  }

  lemma FieldChild(text: string, name: string, at: Position, value: Node)
    ensures
      var node := Field(text, Some(name), at, value);
      && InstanceChild(node, name) == Some(Item(Some(at), value)) && ChildWriting(node, name) == Writing([text], true)
  {
  }

  lemma MergedChild(text: string, at: Position, value: Node, name: string)
    requires InstanceChild(value, name).Some?
    ensures
      var node, w := Field(text, None, at, value), ChildWriting(value, name);
      && InstanceChild(node, name) == InstanceChild(value, name)
      && ChildWriting(node, name) == Writing([text] + w.text, w.exposed)
  {
    var pair := Pair(text, None, Some(at), value);
    assert Given(pair, name) == InstanceChild(value, name);
    var w := ChildWriting(value, name);
    assert GivenWriting(pair, name) == Writing([text] + w.text, w.exposed);
  }

  lemma OneStep(node: Node, name: string)
    requires InstanceChild(node, name).Some?
    ensures
      var w := ChildWriting(node, name);
      && InstanceAt(node, [name]) == InstanceChild(node, name) && Spelling(node, [name]) == Some(w.text)
      && Exposed(node, [name]) == w.exposed
  {
    assert [name][1..] == [];
    var item := InstanceChild(node, name).value;
    assert Spelling(item.value, []) == Some([]) && Exposed(item.value, []);
    assert ChildWriting(node, name).text + [] == ChildWriting(node, name).text;
  }

  lemma TwoSteps(text: string, name: string, at: Position, value: Node, key: string)
    requires InstanceChild(value, key).Some?
    ensures
      var node, w := Field(text, Some(name), at, value), ChildWriting(value, key);
      && InstanceAt(node, [name, key]) == InstanceChild(value, key)
      && Spelling(node, [name, key]) == Some([text] + w.text)
      && Exposed(node, [name, key]) == w.exposed
  {
    FieldChild(text, name, at, value);
    OneStep(value, key);
    assert [name, key][1..] == [key];
    hide InstanceChild, ChildWriting;
  }

  /** A quoted key is indexed with its quotes, so the validator does not find it. */
  lemma QuotedKeyIsMissed(at: Position)
    ensures
      var body := Field("\"a\"", Some("a"), at, Scalar);
      && DistinctKeys(body) && InstancePosition(body, ["a"]) == Some(at)
      && forall nodes | IsImage(Walk(body, [], map[]), nodes) :: Pointer(["a"]) !in nodes
  {
    var body := Field("\"a\"", Some("a"), at, Scalar);
    FieldChild("\"a\"", "a", at, Scalar);
    OneStep(body, "a");
    assert PositionAt(body, ["a"]) == None;
    forall nodes | IsImage(Walk(body, [], map[]), nodes) ensures Pointer(["a"]) !in nodes {
      IndexExact(body, nodes, ["a"]);
    }
  }

  /** A mapping behind an anchor: spec: &s {foo: 1}. */
  function AnchoredFoo(at: Position, inner: Position): Node {
    Field("spec", Some("spec"), at, Enclosed(Field("foo", Some("foo"), inner, Scalar)))
  }

  /** Its key is not indexed, though it is written as its name. */
  lemma AnchoredKeyIsMissed(at: Position, inner: Position)
    ensures
      var body, path := AnchoredFoo(at, inner), ["spec", "foo"];
      && DistinctKeys(body) && Spelling(body, path) == Some(path) && InstancePosition(body, path) == Some(inner)
      && !Exposed(body, path)
      && forall nodes | IsImage(Walk(body, [], map[]), nodes) :: Pointer(path) !in nodes
  {
    var body, inside, path := AnchoredFoo(at, inner), Field("foo", Some("foo"), inner, Scalar), ["spec", "foo"];
    FieldChild("foo", "foo", inner, Scalar);
    TwoSteps("spec", "spec", at, Enclosed(inside), "foo");
    assert ["spec"] + ["foo"] == path;
    SpelledPosition(body, path);
    forall nodes | IsImage(Walk(body, [], map[]), nodes) ensures Pointer(path) !in nodes {
      IndexExact(body, nodes, path);
    }
  }

  /** A key merged from an alias: spec: {<<: *s}. */
  function MergedFoo(at: Position, merge: Position, inner: Position): Node {
    Field("spec", Some("spec"), at, Field("<<", None, merge, Enclosed(Field("foo", Some("foo"), inner, Scalar))))
  }

  /** It is not indexed where the instance has it. */
  lemma MergedKeyIsMissed(at: Position, merge: Position, inner: Position)
    ensures
      var body, path := MergedFoo(at, merge, inner), ["spec", "foo"];
      && DistinctKeys(body) && Spelling(body, path) == Some(["spec", "<<", "foo"])
      && InstancePosition(body, path) == Some(inner)
      && forall nodes | IsImage(Walk(body, [], map[]), nodes) :: Pointer(path) !in nodes
  {
    var body, inside, path := MergedFoo(at, merge, inner), Field("foo", Some("foo"), inner, Scalar), ["spec", "foo"];
    FieldChild("foo", "foo", inner, Scalar);
    MergedChild("<<", merge, Enclosed(inside), "foo");
    TwoSteps("spec", "spec", at, Field("<<", None, merge, Enclosed(inside)), "foo");
    assert ["spec"] + (["<<"] + ["foo"]) == ["spec", "<<", "foo"];
    assert path[0] == "spec" && path[1..] == ["foo"];
    assert PositionAt(body, path) == None;
    assert DistinctKeys(Field("<<", None, merge, Enclosed(inside)));
    forall nodes | IsImage(Walk(body, [], map[]), nodes) ensures Pointer(path) !in nodes {
      IndexExact(body, nodes, path);
    }
  }
}
