/**
 The properties and required names a schema has through $ref and allOf, and the way from a pointer
 to a schema (effectiveProperties, collectRequired, schemaAtPointer in internal/lsp/schema_walker.go).
 Compiled schemas form a graph that may be cyclic.
 */
module EffectiveSchema {
  import opened Json
  import opened KeySpelling
  import opened Pointers
  import opened PositionIndex

  type Id = nat

  datatype Schema = Schema(
    ref: Option<Id>, allOf: seq<Id>, properties: map<string, Id>, required: seq<string>,
    prefixItems: seq<Id>, items2020: Option<Id>, items: Option<Id>)

  type Graph = Id -> Schema

  const MAX_DEPTH: nat := 16

  // ---------- what the walks compute ----------

  function Properties(g: Graph, id: Id, depth: nat): map<string, Id>
    decreases MAX_DEPTH + 1 - depth, 1, 0
  {
    if depth > MAX_DEPTH then map[]
    else AllOfProperties(g, id, |g(id).allOf|, depth) + g(id).properties
  }

  /** Through the $ref and the first n entries of allOf. */
  function AllOfProperties(g: Graph, id: Id, n: nat, depth: nat): map<string, Id>
    requires n <= |g(id).allOf| && depth <= MAX_DEPTH
    decreases MAX_DEPTH + 1 - depth, 0, n
  {
    if n == 0 then
      if g(id).ref.Some? then Properties(g, g(id).ref.value, depth + 1) else map[]
    else AllOfProperties(g, id, n - 1, depth) + Properties(g, g(id).allOf[n - 1], depth + 1)
  }

  method EffectiveProperties(g: Graph, id: Id, depth: nat) returns (out: map<string, Id>)
    ensures out == Properties(g, id, depth)
    decreases MAX_DEPTH + 1 - depth
  {
    out := map[];
    if depth > MAX_DEPTH {
      return;
    }
    var schema := g(id);
    if schema.ref.Some? {
      out := EffectiveProperties(g, schema.ref.value, depth + 1);
    }
    for n := 0 to |schema.allOf|
      invariant out == AllOfProperties(g, id, n, depth)
    {
      var sub := EffectiveProperties(g, schema.allOf[n], depth + 1);
      out := out + sub;
    }
    out := out + schema.properties;
  }

  function Required(g: Graph, id: Id, depth: nat): set<string>
    decreases MAX_DEPTH + 1 - depth, 1, 0
  {
    if depth > MAX_DEPTH then {}
    else (set name | name in g(id).required) + AllOfRequired(g, id, |g(id).allOf|, depth)
  }

  function AllOfRequired(g: Graph, id: Id, n: nat, depth: nat): set<string>
    requires n <= |g(id).allOf| && depth <= MAX_DEPTH
    decreases MAX_DEPTH + 1 - depth, 0, n
  {
    if n == 0 then
      if g(id).ref.Some? then Required(g, g(id).ref.value, depth + 1) else {}
    else AllOfRequired(g, id, n - 1, depth) + Required(g, g(id).allOf[n - 1], depth + 1)
  }

  /** Adds to the names collected so far. */
  method CollectRequired(g: Graph, id: Id, collected: set<string>, depth: nat) returns (out: set<string>)
    ensures out == collected + Required(g, id, depth)
    decreases MAX_DEPTH + 1 - depth
  {
    out := collected;
    if depth > MAX_DEPTH {
      return;
    }
    var schema := g(id);
    for i := 0 to |schema.required|
      invariant out == collected + set name | name in schema.required[..i]
    {
      OneMoreName(schema.required, i);
      out := out + {schema.required[i]};
    }
    assert schema.required[..|schema.required|] == schema.required;
    ghost var own := collected + set name | name in schema.required;
    if schema.ref.Some? {
      out := CollectRequired(g, schema.ref.value, out, depth + 1);
    }
    for n := 0 to |schema.allOf|
      invariant out == own + AllOfRequired(g, id, n, depth)
    {
      out := CollectRequired(g, schema.allOf[n], out, depth + 1);
    }
  }

  lemma OneMoreName(names: seq<string>, i: nat)
    requires i < |names|
    ensures forall name :: name in names[..i + 1] <==> name in names[..i] || name == names[i]
  {
    assert names[..i + 1] == names[..i] + [names[i]];
  }

  // ---------- what they mean ----------

  datatype Edge = Ref | AllOf(i: nat)

  function Follow(g: Graph, id: Id, edge: Edge): Option<Id> {
    match edge
    case Ref => g(id).ref
    case AllOf(i) => if i < |g(id).allOf| then Some(g(id).allOf[i]) else None
  }

  /** The schema at the end of a path of $ref and allOf edges. */
  function End(g: Graph, id: Id, path: seq<Edge>): Option<Id>
    decreases |path|
  {
    if path == [] then Some(id)
    else match Follow(g, id, path[0])
      case Some(next) => End(g, next, path[1..])
      case None => None
  }

  /** A path with few enough edges whose end declares a property. */
  predicate Declares(g: Graph, id: Id, limit: int, path: seq<Edge>, name: string) {
    |path| <= limit && End(g, id, path).Some? && name in g(End(g, id, path).value).properties
  }

  predicate Requires(g: Graph, id: Id, limit: int, path: seq<Edge>, name: string) {
    |path| <= limit && End(g, id, path).Some? && name in g(End(g, id, path).value).required
  }

  function Rank(edge: Edge): nat {
    match edge case Ref => 0 case AllOf(i) => i + 1
  }

  /** What is declared nearer wins; otherwise a later allOf over an earlier one, and allOf over $ref,
      at the first edge where two paths part. */
  predicate Beats(p: seq<Edge>, q: seq<Edge>) {
    q != [] && (p == [] || Rank(p[0]) > Rank(q[0]) || (p[0] == q[0] && Beats(p[1..], q[1..])))
  }

  /** A path of at most 16 edges declares the property, and beats every other that does. */
  ghost predicate Declared(g: Graph, id: Id, path: seq<Edge>, name: string, property: Id) {
    && Declares(g, id, 16, path, name) && property == g(End(g, id, path).value).properties[name]
    && forall q | Declares(g, id, 16, q, name) && q != path :: Beats(path, q)
  }

  lemma EndFirst(g: Graph, id: Id, edge: Edge, path: seq<Edge>)
    ensures End(g, id, [edge] + path) ==
            match Follow(g, id, edge) case Some(next) => End(g, next, path) case None => None
  {
    assert ([edge] + path)[1..] == path;
  }

  /** A property is found exactly if some path of at most as many edges as the depth leaves declares it. */
  lemma {:induction false} DeclaredIsFound(g: Graph, id: Id, depth: nat, path: seq<Edge>, name: string)
    requires Declares(g, id, MAX_DEPTH - depth, path, name)
    ensures name in Properties(g, id, depth)
    decreases |path|
  {
    if path != [] {
      var next := Follow(g, id, path[0]).value;
      DeclaredIsFound(g, next, depth + 1, path[1..], name);
      match path[0]
      case Ref => LaterKeep(g, id, 0, |g(id).allOf|, depth, name);
      case AllOf(i) => LaterKeep(g, id, i + 1, |g(id).allOf|, depth, name);
    }
  }

  lemma {:induction false} LaterKeep(g: Graph, id: Id, i: nat, n: nat, depth: nat, name: string)
    requires i <= n <= |g(id).allOf| && depth <= MAX_DEPTH && name in AllOfProperties(g, id, i, depth)
    ensures name in AllOfProperties(g, id, n, depth)
  {
    if i < n { LaterKeep(g, id, i, n - 1, depth, name); }
  }

  /** The path whose declaration wins. */
  lemma {:induction false} Winner(g: Graph, id: Id, depth: nat, name: string) returns (path: seq<Edge>)
    requires name in Properties(g, id, depth)
    ensures Declares(g, id, MAX_DEPTH - depth, path, name)
    ensures Properties(g, id, depth)[name] == g(End(g, id, path).value).properties[name]
    ensures forall q | Declares(g, id, MAX_DEPTH - depth, q, name) && q != path :: Beats(path, q)
    decreases MAX_DEPTH + 1 - depth
  {
    NearestDeclares(g, id, depth, name);
    hide Properties, AllOfProperties, Beats, End;
    if name in g(id).properties {
      path := [];
    } else {
      var edge, next := WinningEdge(g, id, |g(id).allOf|, depth, name);
      var rest := Winner(g, next, depth + 1, name);
      path := [edge] + rest;
      WinsFirst(g, id, depth, name, edge, next, rest);
    }
  }

  /** The schema's own declaration beats every other. */
  lemma NearestDeclares(g: Graph, id: Id, depth: nat, name: string)
    requires name in Properties(g, id, depth)
    ensures depth <= MAX_DEPTH && End(g, id, []) == Some(id)
    ensures name in g(id).properties ==> Properties(g, id, depth)[name] == g(id).properties[name]
    ensures name !in g(id).properties ==>
              var n := |g(id).allOf|;
              name in AllOfProperties(g, id, n, depth) &&
                  Properties(g, id, depth)[name] == AllOfProperties(g, id, n, depth)[name]
    ensures forall q: seq<Edge> | q != [] :: Beats([], q)
  {
  }

  lemma WinsFirst(g: Graph, id: Id, depth: nat, name: string, edge: Edge, next: Id, rest: seq<Edge>)
    requires depth <= MAX_DEPTH && name !in g(id).properties && Follow(g, id, edge) == Some(next)
    requires forall i | Rank(edge) <= i < |g(id).allOf| :: name !in Properties(g, g(id).allOf[i], depth + 1)
    requires Declares(g, next, MAX_DEPTH - depth - 1, rest, name)
    requires forall r | Declares(g, next, MAX_DEPTH - depth - 1, r, name) && r != rest :: Beats(rest, r)
    ensures Declares(g, id, MAX_DEPTH - depth, [edge] + rest, name) && End(g, id, [edge] + rest) == End(g, next, rest)
    ensures forall q | Declares(g, id, MAX_DEPTH - depth, q, name) && q != [edge] + rest :: Beats([edge] + rest, q)
  {
    EndFirst(g, id, edge, rest);
    forall q | Declares(g, id, MAX_DEPTH - depth, q, name) && q != [edge] + rest ensures Beats([edge] + rest, q) {
      LoserIsBeaten(g, id, depth, name, edge, next, rest, q);
    }
  }

  /** The edge from which a name not declared by the schema itself comes: nothing ranked higher leads to it. */
  lemma {:induction false} WinningEdge(g: Graph, id: Id, n: nat, depth: nat, name: string)
    returns (edge: Edge, next: Id)
    requires n <= |g(id).allOf| && depth <= MAX_DEPTH && name in AllOfProperties(g, id, n, depth)
    ensures Follow(g, id, edge) == Some(next) && name in Properties(g, next, depth + 1)
    ensures AllOfProperties(g, id, n, depth)[name] == Properties(g, next, depth + 1)[name]
    ensures forall i | Rank(edge) <= i < n :: name !in Properties(g, g(id).allOf[i], depth + 1)
    ensures Rank(edge) <= n
  {
    hide Properties;
    if n == 0 {
      edge, next := Ref, g(id).ref.value;
    } else if name in Properties(g, g(id).allOf[n - 1], depth + 1) {
      edge, next := AllOf(n - 1), g(id).allOf[n - 1];
    } else {
      edge, next := WinningEdge(g, id, n - 1, depth, name);
    }
  }

  lemma LoserIsBeaten(g: Graph, id: Id, depth: nat, name: string, edge: Edge, next: Id, rest: seq<Edge>, q: seq<Edge>)
    requires depth <= MAX_DEPTH && name !in g(id).properties && Follow(g, id, edge) == Some(next)
    requires forall i | Rank(edge) <= i < |g(id).allOf| :: name !in Properties(g, g(id).allOf[i], depth + 1)
    requires forall r | Declares(g, next, MAX_DEPTH - depth - 1, r, name) && r != rest :: Beats(rest, r)
    requires Declares(g, id, MAX_DEPTH - depth, q, name) && q != [edge] + rest
    ensures Beats([edge] + rest, q)
  {
    assert ([edge] + rest)[1..] == rest;
    var other := Follow(g, id, q[0]).value;
    assert Declares(g, other, MAX_DEPTH - depth - 1, q[1..], name);
    DeclaredIsFound(g, other, depth + 1, q[1..], name);
    hide Properties, AllOfProperties, End;
    if q[0] == edge {
      assert q == [q[0]] + q[1..];
    }
  }

  /** Over every schema graph, cyclic or not: the effective properties are those declared on some path
      of at most 16 edges, each with the declaration of the path that beats all others. */
  lemma PropertiesExact(g: Graph, id: Id, name: string)
    ensures name in Properties(g, id, 0) <==> exists path :: Declares(g, id, 16, path, name)
    ensures name in Properties(g, id, 0) ==> exists path :: Declared(g, id, path, name, Properties(g, id, 0)[name])
  {
    if name in Properties(g, id, 0) {
      var path := Winner(g, id, 0, name);
      assert Declared(g, id, path, name, Properties(g, id, 0)[name]);
    }
    if path :| Declares(g, id, MAX_DEPTH, path, name) {
      DeclaredIsFound(g, id, 0, path, name);
    }
  }

  lemma {:induction false} RequiredIsFound(g: Graph, id: Id, depth: nat, path: seq<Edge>, name: string)
    requires Requires(g, id, MAX_DEPTH - depth, path, name)
    ensures name in Required(g, id, depth)
    decreases |path|
  {
    if path != [] {
      var next := Follow(g, id, path[0]).value;
      RequiredIsFound(g, next, depth + 1, path[1..], name);
      match path[0]
      case Ref => LaterRequire(g, id, 0, |g(id).allOf|, depth, name);
      case AllOf(i) => LaterRequire(g, id, i + 1, |g(id).allOf|, depth, name);
    }
  }

  lemma {:induction false} LaterRequire(g: Graph, id: Id, i: nat, n: nat, depth: nat, name: string)
    requires i <= n <= |g(id).allOf| && depth <= MAX_DEPTH && name in AllOfRequired(g, id, i, depth)
    ensures name in AllOfRequired(g, id, n, depth)
  {
    if i < n { LaterRequire(g, id, i, n - 1, depth, name); }
  }

  lemma {:induction false} RequiredFrom(g: Graph, id: Id, depth: nat, name: string) returns (path: seq<Edge>)
    requires name in Required(g, id, depth)
    ensures Requires(g, id, MAX_DEPTH - depth, path, name)
    decreases MAX_DEPTH + 1 - depth
  {
    if name in g(id).required {
      path := [];
    } else {
      var edge, next := RequiringEdge(g, id, |g(id).allOf|, depth, name);
      var rest := RequiredFrom(g, next, depth + 1, name);
      path := [edge] + rest;
      assert path[1..] == rest;
    }
  }

  lemma {:induction false} RequiringEdge(g: Graph, id: Id, n: nat, depth: nat, name: string) returns (edge: Edge,
          next: Id)
    requires n <= |g(id).allOf| && depth <= MAX_DEPTH && name in AllOfRequired(g, id, n, depth)
    ensures Follow(g, id, edge) == Some(next) && name in Required(g, next, depth + 1)
  {
    if n == 0 {
      edge, next := Ref, g(id).ref.value;
    } else if name in Required(g, g(id).allOf[n - 1], depth + 1) {
      edge, next := AllOf(n - 1), g(id).allOf[n - 1];
    } else {
      edge, next := RequiringEdge(g, id, n - 1, depth, name);
    }
  }

  /** The required names are those required on some path of at most 16 edges. */
  lemma RequiredExact(g: Graph, id: Id, name: string)
    ensures name in Required(g, id, 0) <==> exists path :: Requires(g, id, 16, path, name)
  {
    if name in Required(g, id, 0) {
      var path := RequiredFrom(g, id, 0, name);
    }
    if path :| Requires(g, id, MAX_DEPTH, path, name) {
      RequiredIsFound(g, id, 0, path, name);
    }
  }

  // ---------- from a pointer to a schema ----------

  /** OutOfRange is an access to an element that a list does not have. */
  datatype Outcome = Reached(id: Id) | Nowhere | OutOfRange

  function OrNowhere(id: Option<Id>): Outcome {
    if id.Some? then Reached(id.value) else Nowhere
  }

  /** arrayItemSchema: the index is compared with the length only, so a negative one is taken for an
      element. */
  function ItemSchema(schema: Schema, index: int): Outcome {
    if index < |schema.prefixItems| then
      if index < 0 then OutOfRange else Reached(schema.prefixItems[index])
    else if schema.items2020.Some? then OrNowhere(schema.items2020)
    else OrNowhere(schema.items)
  }

  /** The schema of a child: a property of that name, or else an array item, by its index as a
      64-bit integer holds it. */
  function ChildSchema(g: Graph, id: Id, segment: string): Outcome {
    var properties := Properties(g, id, 0);
    if segment in properties then Reached(properties[segment])
    else if Canonical(segment) then ItemSchema(g(id), Wrapped(ValueOf(segment)))
    else Nowhere
  }

  /** The schema of a child is that of the property, where one is declared; otherwise an index below 2^63
      leads to that element of the prefix or, beyond it, to the items of the newer keyword before those of
      the older; and any other segment leads nowhere. */
  lemma ChildExact(g: Graph, id: Id, segment: string)
    ensures (exists path :: Declares(g, id, 16, path, segment)) ==>
              ChildSchema(g, id, segment).Reached? &&
              exists path :: Declared(g, id, path, segment, ChildSchema(g, id, segment).id)
    ensures !(exists path :: Declares(g, id, 16, path, segment)) ==>
              && (forall n: nat | segment == Decimal(n) && n < TWO_63 ::
                    ChildSchema(g, id, segment) ==
                    if n < |g(id).prefixItems| then Reached(g(id).prefixItems[n])
                    else if g(id).items2020.Some? then Reached(g(id).items2020.value)
                    else if g(id).items.Some? then Reached(g(id).items.value)
                    else Nowhere)
              && ((forall n: nat :: segment != Decimal(n)) ==> ChildSchema(g, id, segment) == Nowhere)
  {
    PropertiesExact(g, id, segment);
    hide Properties, Declares, Declared;
    forall n: nat | segment == Decimal(n) ensures Canonical(segment) && ValueOf(segment) == n {
      DecimalCanonical(n);
    }
    if Canonical(segment) {
      CanonicalIsDecimal(segment);
      IndexExactIff(segment);
    }
  }

  function SchemaAlong(g: Graph, id: Id, path: seq<string>): Outcome
    decreases |path|
  {
    if path == [] then Reached(id)
    else
      var child := ChildSchema(g, id, path[0]);
      if child.Reached? then SchemaAlong(g, child.id, path[1..]) else child
  }

  /** Empty segments are skipped. */
  function NonEmpty(path: seq<string>): seq<string> {
    if path == [] then [] else (if path[0] == "" then [] else [path[0]]) + NonEmpty(path[1..])
  }

  method FindChild(g: Graph, id: Id, segment: string) returns (r: Outcome)
    ensures r == ChildSchema(g, id, segment)
  {
    var properties := EffectiveProperties(g, id, 0);
    if segment in properties {
      return Reached(properties[segment]);
    }
    var index := ParseArrayIndex(segment);
    if index.Some? {
      return ItemSchema(g(id), index.value);
    }
    return Nowhere;
  }

  lemma NonEmptyFirst(path: seq<string>, i: nat)
    requires i < |path|
    ensures NonEmpty(path[i..]) ==
            if path[i] == "" then NonEmpty(path[i + 1..]) else [path[i]] + NonEmpty(path[i + 1..])
  {
    assert path[i..][0] == path[i] && path[i..][1..] == path[i + 1..];
    assert [] + NonEmpty(path[i + 1..]) == NonEmpty(path[i + 1..]);
  }

  lemma AlongFirst(g: Graph, id: Id, segment: string, rest: seq<string>)
    ensures
      var child := ChildSchema(g, id, segment);
      SchemaAlong(g, id, [segment] + rest) == if child.Reached? then SchemaAlong(g, child.id, rest) else child
  {
    assert ([segment] + rest)[1..] == rest;
  }

  /** schemaAtPointer, for every pointer. */
  method SchemaAtPointer(g: Graph, root: Id, pointer: string) returns (r: Outcome)
    ensures r == SchemaAlong(g, root, NonEmpty(Segments(pointer)))
  {
    hide ChildSchema;
    if pointer == "" {
      return Reached(root);
    }
    var segments := Segments(pointer);
    var current := root;
    assert segments[0..] == segments;
    for i := 0 to |segments|
      invariant SchemaAlong(g, root, NonEmpty(segments)) == SchemaAlong(g, current, NonEmpty(segments[i..]))
    {
      var segment := segments[i];
      NonEmptyFirst(segments, i);
      if segment == "" {
        continue;
      }
      AlongFirst(g, current, segment, NonEmpty(segments[i + 1..]));
      var next := FindChild(g, current, segment);
      if !next.Reached? {
        return next;
      }
      current := next.id;
    }
    r := Reached(current);
  }

  // ---------- large indices ----------

  /** An index is out of range exactly where no property has the name and the numeral's value, taken
      modulo 2^64, is at least 2^63; the value itself does not matter. */
  lemma OutOfRangeIff(g: Graph, id: Id, segment: string)
    ensures ChildSchema(g, id, segment) == OutOfRange <==>
            segment !in Properties(g, id, 0) && Canonical(segment) && ValueOf(segment) % TWO_64 >= TWO_63
    ensures Canonical(segment) ==> (Wrapped(ValueOf(segment)) < 0 <==> ValueOf(segment) % TWO_64 >= TWO_63)
  {
    hide Properties;
    if Canonical(segment) { WrappedSign(ValueOf(segment)); }
  }

  lemma WrappedSign(v: nat)
    ensures if v % TWO_64 < TWO_63 then Wrapped(v) == v % TWO_64 else Wrapped(v) == v % TWO_64 - TWO_64
  {
    var q, r := v / TWO_64, v % TWO_64;
    assert v == q * TWO_64 + r;
    if r < TWO_63 {
      ModShift(r + TWO_63, q);
    } else {
      ModShift(r + TWO_63 - TWO_64, q + 1);
    }
  }

  /** The walk comes to the n-th segment, and that one is out of range. */
  ghost predicate OutAt(g: Graph, root: Id, path: seq<string>, n: nat)
    requires n < |path|
  {
    var before := SchemaAlong(g, root, path[..n]);
    before.Reached? && ChildSchema(g, before.id, path[n]) == OutOfRange
  }

  lemma OutAtNext(g: Graph, root: Id, path: seq<string>, n: nat)
    requires n < |path|
    ensures
      if n == 0 then OutAt(g, root, path, n) <==> ChildSchema(g, root, path[0]) == OutOfRange
      else OutAt(g, root, path, n) <==>
           ChildSchema(g, root, path[0]).Reached? && OutAt(g, ChildSchema(g, root, path[0]).id, path[1..], n - 1)
  {
    hide ChildSchema;
    if n == 0 {
      assert path[..0] == [];
    } else {
      assert path[..n] == [path[0]] + path[1..][..n - 1];
      AlongFirst(g, root, path[0], path[1..][..n - 1]);
    }
  }

  /** The walk goes out of range exactly if some segment it comes to does. */
  lemma {:induction false} WalkOutOfRangeIff(g: Graph, root: Id, path: seq<string>)
    ensures SchemaAlong(g, root, path) == OutOfRange <==> exists n | 0 <= n < |path| :: OutAt(g, root, path, n)
    decreases |path|
  {
    hide ChildSchema, OutAt;
    if path != [] {
      var first := ChildSchema(g, root, path[0]);
      OutAtNext(g, root, path, 0);
      if first.Reached? { WalkOutOfRangeIff(g, first.id, path[1..]); }
      forall n | 0 < n < |path|
        ensures OutAt(g, root, path, n) <==> first.Reached? && OutAt(g, first.id, path[1..], n - 1)
      {
        OutAtNext(g, root, path, n);
      }
      if first.Reached? {
        if m :| 0 <= m < |path[1..]| && OutAt(g, first.id, path[1..], m) {
          assert OutAt(g, root, path, m + 1);
        }
      }
    }
  }

  /** The item a numeral means, whatever its size. */
  function MeantItem(schema: Schema, value: nat): Outcome {
    if value < |schema.prefixItems| then Reached(schema.prefixItems[value])
    else OrNowhere(if schema.items2020.Some? then schema.items2020 else schema.items)
  }

  /** The item followed is the one meant if and only if the value modulo 2^64 is below 2^63 and, for a
      value of 2^63 or more, is beyond the prefix or an element of it that is the one meant. */
  lemma RightItemIff(schema: Schema, value: nat)
    requires |schema.prefixItems| < TWO_63
    ensures ItemSchema(schema, Wrapped(value)) == MeantItem(schema, value) <==>
            var low := value % TWO_64;
            low < TWO_63 &&
            (value < TWO_63 || low >= |schema.prefixItems|
             || Reached(schema.prefixItems[low]) == MeantItem(schema, value))
  {
    WrappedSign(value);
    SmallIsItself(value);
  }

  lemma SmallIsItself(value: nat)
    ensures value < TWO_63 ==> value % TWO_64 == value
  {
  }

  // ---------- the path a pointer leads along ----------

  lemma {:induction false} NonEmptyPath(path: seq<string>)
    requires forall i | 0 <= i < |path| :: path[i] != ""
    ensures NonEmpty(path) == path
  {
    if path != [] {
      NonEmptyPath(path[1..]);
      assert path == [path[0]] + path[1..];
    }
  }

  /** The pointer built for a path without empty segments leads along exactly that path. */
  lemma PointerLeadsAlong(g: Graph, root: Id, path: seq<string>)
    requires forall i | 0 <= i < |path| :: path[i] != ""
    ensures SchemaAlong(g, root, NonEmpty(Segments(Pointer(path)))) == SchemaAlong(g, root, path)
  {
    SegmentsOfPointer(path);
    NonEmptyPath(path);
  }

  function Quoted(name: string): string { "\"" + name + "\"" }

  lemma FieldIndexed(text: string, name: string, at: Position, value: Node, nodes: Index)
    requires DistinctKeys(value) && IsImage(Walk(Field(text, Some(name), at, value), [], map[]), nodes)
    ensures Pointer([text]) in nodes
  {
    var body := Field(text, Some(name), at, value);
    assert PositionAt(body, [text]) == Some(at);
    assert DistinctKeys(body);
    hide Walk, IsImage, DistinctKeys, Pointer, PositionAt;
    IndexExact(body, nodes, [text]);
  }

  /** A quoted key, the empty one included, is indexed with its quotes, and its pointer leads to the
      property whose name has the quotes, not to that of the key's value. */
  lemma QuotedKeyIsFollowedAsWritten(g: Graph, root: Id, nodes: Index, name: string, at: Position, value: Node)
    requires DistinctKeys(value) && IsImage(Walk(Field(Quoted(name), Some(name), at, value), [], map[]), nodes)
    ensures Pointer([Quoted(name)]) in nodes
    ensures SchemaAlong(g, root, NonEmpty(Segments(Pointer([Quoted(name)])))) ==
            if Quoted(name) in Properties(g, root, 0) then Reached(Properties(g, root, 0)[Quoted(name)]) else Nowhere
  {
    var text := Quoted(name);
    QuotedIsText(name);
    hide Quoted, Properties, Walk, IsImage, DistinctKeys, Segments, Pointer, NonEmpty, Field;
    FieldIndexed(text, name, at, value, nodes);
    PointerLeadsAlong(g, root, [text]);
    AlongFirst(g, root, text, []);
    assert [text] == [text] + [];
  }

  lemma QuotedIsText(name: string)
    ensures Quoted(name) != "" && !Canonical(Quoted(name))
  {
    assert Quoted(name)[0] in Quoted(name) && !IsDigit(Quoted(name)[0]);
  }
}
