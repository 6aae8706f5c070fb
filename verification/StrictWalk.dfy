/**
 internal/validator/strict.go as it runs: decoded JSON objects are shared mutable maps,
 `defs` aliases sub-trees of the document being rewritten, and a set of visited names
 breaks reference cycles.
 */
module StrictWalk {
  import opened Json
  import opened StrictRewrite

  class JsonObject {
    var fields: map<string, Node>

    constructor (fields: map<string, Node>)
      ensures this.fields == fields
    {
      this.fields := fields;
    }
  }

  datatype Node =
    | NullNode
    | BoolNode(b: bool)
    | NumberNode(n: real)
    | StrNode(s: string)
    | ArrNode(elems: seq<Node>)
    | ObjNode(obj: JsonObject)

  type Heap = map<JsonObject, map<string, Node>>

  ghost function Snapshot(objs: set<JsonObject>): Heap
    reads objs
  {
    map o | o in objs :: o.fields
  }

  // ---------- heaps that hold a document ----------

  /** Under heap h, node is the tree t, and each object in it stands at positions of one
      role only, the one `roles` gives. Decoded documents share nothing, so theirs do. */
  ghost predicate Holds(h: Heap, roles: map<JsonObject, Role>, role: Role, node: Node, t: Value)
    decreases t
  {
    match t
    case Null => node == NullNode
    case Bool(b) => node == BoolNode(b)
    case Number(n) => node == NumberNode(n)
    case Str(s) => node == StrNode(s)
    case Arr(es) =>
      && node.ArrNode? && |node.elems| == |es|
      && forall k | 0 <= k < |es| :: Holds(h, roles, ElemRole(role), node.elems[k], es[k])
    case Obj(m) =>
      && node.ObjNode? && node.obj in h && node.obj in roles && roles[node.obj] == role
      && h[node.obj].Keys == m.Keys
      && forall k | k in m :: Holds(h, roles, KeyRole(role, k), h[node.obj][k], m[k])
  }

  lemma {:induction false} HoldsExtends(h: Heap, roles: map<JsonObject, Role>, h': Heap, roles': map<JsonObject,
          Role>, role: Role, node: Node, t: Value)
    requires Holds(h, roles, role, node, t)
    requires forall o | o in h :: o in h' && h'[o] == h[o]
    requires forall o | o in roles :: o in roles' && roles'[o] == roles[o]
    ensures Holds(h', roles', role, node, t)
    decreases t
  {
    match t
    case Arr(es) =>
      forall k | 0 <= k < |es| ensures Holds(h', roles', ElemRole(role), node.elems[k], es[k]) {
        HoldsExtends(h, roles, h', roles', ElemRole(role), node.elems[k], es[k]);
      }
    case Obj(m) =>
      forall k | k in m ensures Holds(h', roles', KeyRole(role, k), h'[node.obj][k], m[k]) {
        HoldsExtends(h, roles, h', roles', KeyRole(role, k), h[node.obj][k], m[k]);
      }
    case _ =>
  }

  // ---------- heaps during the walk ----------

  predicate OpenFields(fields: map<string, Node>) {
    "properties" in fields && fields["properties"].ObjNode? && "additionalProperties" !in fields
  }

  /** The heap the document started from, with some of its objects closed. */
  ghost function ClosedHeap(h: Heap, closed: set<JsonObject>): Heap {
    map o | o in h :: if o in closed then h[o]["additionalProperties" := BoolNode(false)] else h[o]
  }

  ghost predicate Closable(h: Heap, roles: map<JsonObject, Role>, o: JsonObject) {
    o in h && o in roles && roles[o].IsSchema() && OpenFields(h[o])
  }

  /** The objects that a pass over the tree, blind to references, closes. */
  ghost function ToClose(h: Heap, role: Role, node: Node, t: Value): set<JsonObject>
    decreases t
  {
    match t
    case Arr(es) =>
      if node.ArrNode? && |node.elems| == |es| then
        set k, o | 0 <= k < |es| && o in ToClose(h, ElemRole(role), node.elems[k], es[k]) :: o
      else {}
    case Obj(m) =>
      if node.ObjNode? && node.obj in h && h[node.obj].Keys == m.Keys then
        (if role.IsSchema() && NeedsClose(m) then {node.obj} else {}) +
        (set k, o | k in m && o in ToClose(h, KeyRole(role, k), h[node.obj][k], m[k]) :: o)
      else {}
    case _ => {}
  }

  lemma {:induction false} PlainClosesNothing(h: Heap, node: Node, t: Value)
    ensures ToClose(h, Plain, node, t) == {}
    decreases t
  {
    match t
    case Arr(es) =>
      if node.ArrNode? && |node.elems| == |es| {
        forall k | 0 <= k < |es| ensures ToClose(h, Plain, node.elems[k], es[k]) == {} {
          PlainClosesNothing(h, node.elems[k], es[k]);
        }
      }
    case Obj(m) =>
      if node.ObjNode? && node.obj in h && h[node.obj].Keys == m.Keys {
        forall k | k in m ensures ToClose(h, Plain, h[node.obj][k], m[k]) == {} {
          PlainClosesNothing(h, h[node.obj][k], m[k]);
        }
      }
    case _ =>
  }

  /** When everything to close is closed, and only sub-schemas that need it are, the heap
      holds exactly the rewritten tree. */
  lemma {:induction false} ClosedHolds(h: Heap, roles: map<JsonObject, Role>, closed: set<JsonObject>, role: Role,
          node: Node, t: Value)
    requires Holds(h, roles, role, node, t)
    requires forall o | o in closed :: Closable(h, roles, o)
    requires ToClose(h, role, node, t) <= closed
    ensures Holds(ClosedHeap(h, closed), roles, role, node, Close(role, t))
    decreases t
  {
    var h' := ClosedHeap(h, closed);
    match t
    case Arr(es) =>
      forall k | 0 <= k < |es| ensures Holds(h', roles, ElemRole(role), node.elems[k], Close(ElemRole(role), es[k])) {
        assert ToClose(h, ElemRole(role), node.elems[k], es[k]) <= closed;
        ClosedHolds(h, roles, closed, ElemRole(role), node.elems[k], es[k]);
      }
    case Obj(m) =>
      var o := node.obj;
      forall k | k in m ensures Holds(h', roles, KeyRole(role, k), h[o][k], Close(KeyRole(role, k), m[k])) {
        assert ToClose(h, KeyRole(role, k), h[o][k], m[k]) <= closed;
        ClosedHolds(h, roles, closed, KeyRole(role, k), h[o][k], m[k]);
      }
      ClosedHoldsObject(h, roles, closed, role, o, m);
    case _ =>
  }

  lemma SameOpenness(h: Heap, roles: map<JsonObject, Role>, role: Role, node: Node, m: map<string, Value>)
    requires Holds(h, roles, role, node, Obj(m))
    ensures OpenFields(h[node.obj]) <==> NeedsClose(m)
  {
    if "properties" in m {
      assert Holds(h, roles, KeyRole(role, "properties"), h[node.obj]["properties"], m["properties"]);
    }
  }

  lemma ClosedHoldsObject(h: Heap, roles: map<JsonObject, Role>, closed: set<JsonObject>, role: Role, o: JsonObject,
          m: map<string, Value>)
    requires Holds(h, roles, role, ObjNode(o), Obj(m))
    requires forall o' | o' in closed :: Closable(h, roles, o')
    requires role.IsSchema() && NeedsClose(m) ==> o in closed
    requires forall k | k in m ::
        Holds(ClosedHeap(h, closed), roles, KeyRole(role, k), h[o][k], Close(KeyRole(role, k), m[k]))
    ensures Holds(ClosedHeap(h, closed), roles, role, ObjNode(o), Close(role, Obj(m)))
  {
    SameOpenness(h, roles, role, ObjNode(o), m);
    var m' := Close(role, Obj(m)).fields;
    var h' := ClosedHeap(h, closed);
    assert h'[o].Keys == m'.Keys;
    forall k | k in m' ensures Holds(h', roles, KeyRole(role, k), h'[o][k], m'[k]) {
      if k !in m {
        assert m'[k] == Bool(false) && h'[o][k] == BoolNode(false);
      } else {
        assert h'[o][k] == h[o][k];
      }
    }
  }

  /** Where the rewrite does not look, there is nothing to close. */
  lemma NotWalked(h: Heap, role: Role, node: Node, t: Value)
    requires
      || role.Plain?
      || (role.SchemaMap? && !t.Obj?)
      || (role.SchemaSeq? && !t.Arr?)
      || (role.Schema? && !t.Obj?)
      || (role.Items? && !t.Obj? && !t.Arr?)
    ensures ToClose(h, role, node, t) == {}
  {
    match t
    case Arr(es) =>
      forall k | node.ArrNode? && |node.elems| == |es| && 0 <= k < |es|
        ensures ToClose(h, Plain, node.elems[k], es[k]) == {}
      {
        PlainClosesNothing(h, node.elems[k], es[k]);
      }
    case Obj(m) =>
      forall k | node.ObjNode? && node.obj in h && h[node.obj].Keys == m.Keys && k in m
        ensures ToClose(h, Plain, h[node.obj][k], m[k]) == {}
      {
        PlainClosesNothing(h, h[node.obj][k], m[k]);
      }
    case _ =>
  }

  lemma SchemaKeys(role: Role)
    requires role.IsSchema()
    ensures forall k | k in MAP_KEYWORDS :: KeyRole(role, k) == SchemaMap
    ensures forall k | k in LIST_KEYWORDS :: KeyRole(role, k) == SchemaSeq
    ensures forall k | k in SINGLE_KEYWORDS :: KeyRole(role, k) == Schema
    ensures KeyRole(role, "items") == Items
    ensures forall k | k !in MAP_KEYWORDS && k !in LIST_KEYWORDS && k !in SINGLE_KEYWORDS && k != "items" ::
        KeyRole(role, k) == Plain
  {
  }

  lemma CollectFields(h: Heap, role: Role, obj: JsonObject, m: map<string, Value>, closed: set<JsonObject>)
    requires obj in h && h[obj].Keys == m.Keys
    requires role.IsSchema() && NeedsClose(m) ==> obj in closed
    requires forall k | k in m :: ToClose(h, KeyRole(role, k), h[obj][k], m[k]) <= closed
    ensures ToClose(h, role, ObjNode(obj), Obj(m)) <= closed
  {
  }

  lemma CollectElems(h: Heap, role: Role, elems: seq<Node>, es: seq<Value>, closed: set<JsonObject>)
    requires |elems| == |es|
    requires forall k | 0 <= k < |es| :: ToClose(h, ElemRole(role), elems[k], es[k]) <= closed
    ensures ToClose(h, role, ArrNode(elems), Arr(es)) <= closed
  {
  }

  // ---------- the walk ----------

  /** The name a reference of the form #/$defs/<name> or #/definitions/<name> gives. */
  function LocalDefName(ref: string): Option<string> {
    if |ref| > |"#/$defs/"| && "#/$defs/" <= ref then Simple(ref[|"#/$defs/"|..])
    else if |ref| > |"#/definitions/"| && "#/definitions/" <= ref then Simple(ref[|"#/definitions/"|..])
    else None
  }

  function Simple(name: string): Option<string> {
    if '/' in name then None else Some(name)
  }

  lemma LocalDefNameExact(ref: string, name: string)
    ensures LocalDefName(ref) == Some(name) <==>
            name != "" && '/' !in name && (ref == "#/$defs/" + name || ref == "#/definitions/" + name)
  {
    var a, b := "#/$defs/", "#/definitions/";
    assert ref == a + name ==> ref[|a|..] == name && a <= ref;
    assert ref == b + name ==> ref[|b|..] == name && b <= ref && !(a <= ref) by {
      if ref == b + name { assert ref[2] == 'd' && a[2] == '$'; }
    }
    assert a <= ref ==> ref == a + ref[|a|..];
    assert b <= ref ==> ref == b + ref[|b|..];
  }

  class Walker {
    const defs: map<string, Node>
    var visited: set<string>

    ghost const heap: Heap
    ghost const roles: map<JsonObject, Role>
    ghost const defTrees: map<string, Value>
    ghost var closed: set<JsonObject>
    /** The definitions references have led into, in order. */
    ghost var entered: seq<string>

    /** The document differs from the one that was decoded by the closed objects only,
        each a sub-schema that lists properties and had no additionalProperties; the
        definitions are sub-schemas of it. */
    ghost predicate Valid()
      reads this, heap.Keys
    {
      && (forall o | o in heap ::
          o.fields == if o in closed then heap[o]["additionalProperties" := BoolNode(false)] else heap[o])
      && (forall o | o in closed :: Closable(heap, roles, o))
      && defTrees.Keys == defs.Keys
      && (forall name | name in defs :: Holds(heap, roles, Schema, defs[name], defTrees[name]))
    }

    constructor (defs: map<string, Node>, ghost heap: Heap, ghost roles: map<JsonObject, Role>,
        ghost defTrees: map<string, Value>)
      requires forall o | o in heap :: o.fields == heap[o]
      requires defTrees.Keys == defs.Keys
      requires forall name | name in defs :: Holds(heap, roles, Schema, defs[name], defTrees[name])
      ensures Valid() && closed == {} && visited == {} && entered == []
      ensures this.defs == defs && this.heap == heap && this.roles == roles && this.defTrees == defTrees
    {
      this.defs, this.visited := defs, {};
      this.heap, this.roles, this.defTrees, this.closed, this.entered := heap, roles, defTrees, {}, [];
    }

    /** No definition has been entered twice, and those entered are marked as visited. */
    ghost predicate EnteredOnce()
      reads this
    {
      && (forall i, j | 0 <= i < j < |entered| :: entered[i] != entered[j])
      && (forall name | name in entered :: name in visited)
    }

    /** Ready to walk, with at most n definition names not yet visited: each name is
        followed once, so n bounds the nesting of references. */
    ghost predicate Ready(n: nat)
      reads this, heap.Keys
    {
      Valid() && EnteredOnce() && |defs.Keys - visited| <= n
    }

    /** Once a node leaves nothing to close, the document holds its rewrite there. */
    lemma Finished(node: Node, role: Role, t: Value, n: nat)
      requires Ready(n) && Holds(heap, roles, role, node, t) && ToClose(heap, role, node, t) <= closed
      ensures Holds(Snapshot(heap.Keys), roles, role, node, Close(role, t))
    {
      ClosedHolds(heap, roles, closed, role, node, t);
      assert Snapshot(heap.Keys) == ClosedHeap(heap, closed);
    }

    /** A field of a sub-schema is the field it was decoded with. */
    lemma Field(obj: JsonObject, key: string, role: Role, t: Value)
      requires Valid() && role.IsSchema() && Holds(heap, roles, role, ObjNode(obj), t) && key != "additionalProperties"
      ensures t.Obj? && obj in heap && heap[obj].Keys == t.fields.Keys
      ensures key in obj.fields <==> key in t.fields
      ensures key in t.fields ==> obj.fields[key] == heap[obj][key]
      ensures key in t.fields ==> Holds(heap, roles, KeyRole(role, key), heap[obj][key], t.fields[key])
    {
    }

    /** walkStrict: whatever the reference graph and the order of the maps, the walk
        closes everything a pass blind to references would close below the node. */
    method Walk(node: Node, ghost role: Role, ghost t: Value, ghost n: nat)
      requires Ready(n) && role.IsSchema() && (role.Items? ==> t.Obj?)
      requires Holds(heap, roles, role, node, t)
      modifies this`visited, this`entered, this`closed, heap.Keys
      ensures Ready(n) && old(closed) <= closed && old(entered) <= entered
      ensures ToClose(heap, role, node, t) <= closed
      decreases n, t, 5
    {
      if !node.ObjNode? {
        NotWalked(heap, role, node, t);
        return;
      }
      hide ToClose, Valid;
      CloseObject(node.obj, role, t.fields);
      WalkKeys(node.obj, role, t, n);
      CollectFields(heap, role, node.obj, t.fields, closed);
    }

    /** Add additionalProperties: false if the object lists properties and has none. */
    method CloseObject(obj: JsonObject, ghost role: Role, ghost m: map<string, Value>)
      requires Valid() && role.IsSchema() && Holds(heap, roles, role, ObjNode(obj), Obj(m))
      modifies this`closed, obj
      ensures Valid() && old(closed) <= closed
      ensures NeedsClose(m) ==> obj in closed
    {
      SameOpenness(heap, roles, role, ObjNode(obj), m);
      if "properties" in obj.fields && obj.fields["properties"].ObjNode? {
        if "additionalProperties" !in obj.fields {
          obj.fields := obj.fields["additionalProperties" := BoolNode(false)];
          closed := closed + {obj};
        }
      }
    }

    /** The positions that can hold sub-schemas, one after the other, then the reference. */
    method WalkKeys(obj: JsonObject, ghost role: Role, ghost t: Value, ghost n: nat)
      requires Ready(n) && role.IsSchema() && Holds(heap, roles, role, ObjNode(obj), t)
      modifies this`visited, this`entered, this`closed, heap.Keys
      ensures Ready(n) && old(closed) <= closed && old(entered) <= entered
      ensures forall k | k in t.fields :: Pending(obj, k, role, t) <= closed
      decreases n, t, 4
    {
      hide Ready, Holds, Pending, KeyRole;
      WalkProperties(obj, role, t, n);
      WalkItems(obj, role, t, n);
      WalkLists(obj, role, t, n);
      WalkSingles(obj, role, t, n);
      WalkDefinitions(obj, role, t, n);
      WalkReference(obj, role, t, n);
      NothingElsePending(obj, role, t, closed);
    }

    lemma NothingElsePending(obj: JsonObject, role: Role, t: Value, s: set<JsonObject>)
      requires role.IsSchema() && Holds(heap, roles, role, ObjNode(obj), t)
      requires forall k | k in MAP_KEYWORDS || k in LIST_KEYWORDS || k in SINGLE_KEYWORDS || k == "items" ::
          Pending(obj, k, role, t) <= s
      ensures forall k | k in t.fields :: Pending(obj, k, role, t) <= s
    {
      hide Pending, KeyRole;
      SchemaKeys(role);
      forall k | k in t.fields && KeyRole(role, k).Plain? ensures Pending(obj, k, role, t) == {} {
        PlainPending(obj, k, role, t);
      }
    }

    method WalkProperties(obj: JsonObject, ghost role: Role, ghost t: Value, ghost n: nat)
      requires Ready(n) && role.IsSchema() && Holds(heap, roles, role, ObjNode(obj), t)
      modifies this`visited, this`entered, this`closed, heap.Keys
      ensures Ready(n) && old(closed) <= closed && old(entered) <= entered
      ensures forall k | k in {"properties", "patternProperties", "additionalProperties"} ::
          Pending(obj, k, role, t) <= closed
      decreases n, t, 3
    {
      hide Ready, Holds, Pending, KeyRole;
      WalkMap(obj, "properties", role, t, n);
      WalkMap(obj, "patternProperties", role, t, n);
      WalkAdditional(obj, role, t, n);
    }

    method WalkDefinitions(obj: JsonObject, ghost role: Role, ghost t: Value, ghost n: nat)
      requires Ready(n) && role.IsSchema() && Holds(heap, roles, role, ObjNode(obj), t)
      modifies this`visited, this`entered, this`closed, heap.Keys
      ensures Ready(n) && old(closed) <= closed && old(entered) <= entered
      ensures forall k | k in {"$defs", "definitions"} :: Pending(obj, k, role, t) <= closed
      decreases n, t, 3
    {
      hide Ready, Holds, Pending, KeyRole;
      WalkMap(obj, "$defs", role, t, n);
      WalkMap(obj, "definitions", role, t, n);
    }

    /** What there is to close below a field. */
    ghost function Pending(obj: JsonObject, key: string, role: Role, t: Value): set<JsonObject>
      requires Holds(heap, roles, role, ObjNode(obj), t)
    {
      if t.Obj? && key in t.fields then ToClose(heap, KeyRole(role, key), heap[obj][key], t.fields[key]) else {}
    }

    lemma PlainPending(obj: JsonObject, key: string, role: Role, t: Value)
      requires Holds(heap, roles, role, ObjNode(obj), t) && KeyRole(role, key).Plain?
      ensures Pending(obj, key, role, t) == {}
    {
      if key in t.fields { NotWalked(heap, Plain, heap[obj][key], t.fields[key]); }
    }

    method WalkLists(obj: JsonObject, ghost role: Role, ghost t: Value, ghost n: nat)
      requires Ready(n) && role.IsSchema() && Holds(heap, roles, role, ObjNode(obj), t)
      modifies this`visited, this`entered, this`closed, heap.Keys
      ensures Ready(n) && old(closed) <= closed && old(entered) <= entered
      ensures forall k | k in LIST_KEYWORDS :: Pending(obj, k, role, t) <= closed
      decreases n, t, 2
    {
      hide Ready, Pending, KeyRole, Holds;
      WalkList(obj, "allOf", role, t, n);
      WalkList(obj, "anyOf", role, t, n);
      WalkList(obj, "oneOf", role, t, n);
    }

    method WalkSingles(obj: JsonObject, ghost role: Role, ghost t: Value, ghost n: nat)
      requires Ready(n) && role.IsSchema() && Holds(heap, roles, role, ObjNode(obj), t)
      modifies this`visited, this`entered, this`closed, heap.Keys
      ensures Ready(n) && old(closed) <= closed && old(entered) <= entered
      ensures forall k | k in {"if", "then", "else", "not"} :: Pending(obj, k, role, t) <= closed
      decreases n, t, 2
    {
      hide Ready, Pending, KeyRole, Holds;
      WalkSingle(obj, "if", role, t, n);
      WalkSingle(obj, "then", role, t, n);
      WalkSingle(obj, "else", role, t, n);
      WalkSingle(obj, "not", role, t, n);
    }

    /** A map of sub-schemas, in any order. */
    method WalkMap(obj: JsonObject, key: string, ghost role: Role, ghost t: Value, ghost n: nat)
      requires Ready(n) && role.IsSchema() && Holds(heap, roles, role, ObjNode(obj), t) && key in MAP_KEYWORDS
      modifies this`visited, this`entered, this`closed, heap.Keys
      ensures Ready(n) && old(closed) <= closed && old(entered) <= entered
      ensures Pending(obj, key, role, t) <= closed
      decreases n, t, 2
    {
      SchemaKeys(role);
      Field(obj, key, role, t);
      hide Valid, ToClose, KeyRole;
      if key !in obj.fields || !obj.fields[key].ObjNode? {
        if key in t.fields { NotWalked(heap, SchemaMap, heap[obj][key], t.fields[key]); }
        return;
      }
      WalkValues(obj.fields[key].obj, t.fields[key], t, n);
    }

    method WalkValues(container: JsonObject, ghost tree: Value, ghost t: Value, ghost n: nat)
      requires Ready(n) && tree.Obj? && tree < t && Holds(heap, roles, SchemaMap, ObjNode(container), tree)
      modifies this`visited, this`entered, this`closed, heap.Keys
      ensures Ready(n) && old(closed) <= closed && old(entered) <= entered
      ensures ToClose(heap, SchemaMap, ObjNode(container), tree) <= closed
      decreases n, t, 1
    {
      ContainerKeys(container, tree);
      hide Ready, Valid, Holds, ToClose, Walked;
      var todo := container.fields.Keys;
      ghost var done: set<string> := {};
      NoneWalked(container, tree);
      while todo != {}
        invariant Ready(n) && old(closed) <= closed && old(entered) <= entered
        invariant done + todo == tree.fields.Keys && Walked(heap[container], tree.fields, done, closed)
        decreases todo
      {
        var k :| k in todo;
        ghost var before := closed;
        WalkValue(container, k, tree, t, n);
        WalkedMore(heap[container], tree.fields, done, k, before, closed);
        todo, done := todo - {k}, done + {k};
      }
      AllWalked(container, tree, done);
    }

    /** Nothing is left to close below some of the sub-schemas of a map. */
    ghost predicate Walked(fields: map<string, Node>, trees: map<string, Value>, done: set<string>,
            closed: set<JsonObject>)
      requires fields.Keys == trees.Keys
    {
      forall k | k in done && k in trees :: ToClose(heap, Schema, fields[k], trees[k]) <= closed
    }

    lemma NoneWalked(container: JsonObject, tree: Value)
      requires tree.Obj? && container in heap && heap[container].Keys == tree.fields.Keys
      ensures Walked(heap[container], tree.fields, {}, closed)
    {
    }

    lemma WalkedMore(fields: map<string, Node>, trees: map<string, Value>, done: set<string>, k: string,
                     before: set<JsonObject>, after: set<JsonObject>)
      requires fields.Keys == trees.Keys && k in trees && before <= after
      requires Walked(fields, trees, done, before) && ToClose(heap, Schema, fields[k], trees[k]) <= after
      ensures Walked(fields, trees, done + {k}, after)
    {
      hide ToClose;
    }

    lemma AllWalked(container: JsonObject, tree: Value, done: set<string>)
      requires tree.Obj? && container in heap && heap[container].Keys == tree.fields.Keys == done
      requires Walked(heap[container], tree.fields, done, closed)
      ensures ToClose(heap, SchemaMap, ObjNode(container), tree) <= closed
    {
      hide ToClose;
      CollectFields(heap, SchemaMap, container, tree.fields, closed);
    }

    lemma ContainerKeys(container: JsonObject, tree: Value)
      requires Valid() && Holds(heap, roles, SchemaMap, ObjNode(container), tree) && tree.Obj?
      ensures container in heap && container.fields == heap[container] && heap[container].Keys == tree.fields.Keys
      ensures forall k | k in tree.fields :: Holds(heap, roles, Schema, heap[container][k], tree.fields[k])
    {
    }

    method WalkValue(container: JsonObject, key: string, ghost tree: Value, ghost t: Value, ghost n: nat)
      requires Ready(n) && tree.Obj? && key in tree.fields && tree < t
      requires Holds(heap, roles, SchemaMap, ObjNode(container), tree)
      modifies this`visited, this`entered, this`closed, heap.Keys
      ensures Ready(n) && old(closed) <= closed && old(entered) <= entered
      ensures ToClose(heap, Schema, heap[container][key], tree.fields[key]) <= closed
      decreases n, t, 0
    {
      ContainerKeys(container, tree);
      hide ToClose, Holds, Valid;
      Walk(container.fields[key], Schema, tree.fields[key], n);
    }

    /** A list of sub-schemas. */
    method WalkList(obj: JsonObject, key: string, ghost role: Role, ghost t: Value, ghost n: nat)
      requires Ready(n) && role.IsSchema() && Holds(heap, roles, role, ObjNode(obj), t) && key in LIST_KEYWORDS
      modifies this`visited, this`entered, this`closed, heap.Keys
      ensures Ready(n) && old(closed) <= closed && old(entered) <= entered
      ensures Pending(obj, key, role, t) <= closed
      decreases n, t, 1
    {
      SchemaKeys(role);
      Field(obj, key, role, t);
      hide Valid, ToClose, KeyRole;
      if key !in obj.fields || !obj.fields[key].ArrNode? {
        if key in t.fields { NotWalked(heap, SchemaSeq, heap[obj][key], t.fields[key]); }
        return;
      }
      WalkElems(obj.fields[key].elems, SchemaSeq, t.fields[key], t, n);
    }

    method WalkElems(elems: seq<Node>, ghost role: Role, ghost tree: Value, ghost t: Value, ghost n: nat)
      requires Ready(n) && (role.SchemaSeq? || role.Items?) && tree.Arr? && tree < t
      requires Holds(heap, roles, role, ArrNode(elems), tree)
      modifies this`visited, this`entered, this`closed, heap.Keys
      ensures Ready(n) && old(closed) <= closed && old(entered) <= entered
      ensures ToClose(heap, role, ArrNode(elems), tree) <= closed
      decreases n, t, 0
    {
      hide Ready, ToClose;
      for k := 0 to |elems|
        invariant Ready(n) && old(closed) <= closed && old(entered) <= entered
        invariant forall l | 0 <= l < k :: ToClose(heap, Schema, elems[l], tree.elems[l]) <= closed
      {
        Walk(elems[k], Schema, tree.elems[k], n);
      }
      CollectElems(heap, role, elems, tree.elems, closed);
    }

    /** items: one sub-schema, or a list of them. */
    method WalkItems(obj: JsonObject, ghost role: Role, ghost t: Value, ghost n: nat)
      requires Ready(n) && role.IsSchema() && Holds(heap, roles, role, ObjNode(obj), t)
      modifies this`visited, this`entered, this`closed, heap.Keys
      ensures Ready(n) && old(closed) <= closed && old(entered) <= entered
      ensures Pending(obj, "items", role, t) <= closed
      decreases n, t, 1
    {
      SchemaKeys(role);
      Field(obj, "items", role, t);
      hide Valid, ToClose, KeyRole;
      if "items" in obj.fields {
        match obj.fields["items"]
        case ObjNode(_) => Walk(obj.fields["items"], Items, t.fields["items"], n);
        case ArrNode(elems) => WalkElems(elems, Items, t.fields["items"], t, n);
        case _ => NotWalked(heap, Items, heap[obj]["items"], t.fields["items"]);
      }
    }

    /** additionalProperties, when it is itself a sub-schema object. */
    method WalkAdditional(obj: JsonObject, ghost role: Role, ghost t: Value, ghost n: nat)
      requires Ready(n) && role.IsSchema() && Holds(heap, roles, role, ObjNode(obj), t)
      modifies this`visited, this`entered, this`closed, heap.Keys
      ensures Ready(n) && old(closed) <= closed && old(entered) <= entered
      ensures Pending(obj, "additionalProperties", role, t) <= closed
      decreases n, t, 1
    {
      if "additionalProperties" in obj.fields && obj.fields["additionalProperties"].ObjNode? {
        Walk(obj.fields["additionalProperties"], Schema, t.fields["additionalProperties"], n);
      } else if "additionalProperties" in t.fields {
        NotWalked(heap, Schema, heap[obj]["additionalProperties"], t.fields["additionalProperties"]);
      }
    }

    /** if, then, else and not. */
    method WalkSingle(obj: JsonObject, key: string, ghost role: Role, ghost t: Value, ghost n: nat)
      requires Ready(n) && role.IsSchema() && Holds(heap, roles, role, ObjNode(obj), t) &&
          key in {"if", "then", "else", "not"}
      modifies this`visited, this`entered, this`closed, heap.Keys
      ensures Ready(n) && old(closed) <= closed && old(entered) <= entered
      ensures Pending(obj, key, role, t) <= closed
      decreases n, t, 1
    {
      SchemaKeys(role);
      Field(obj, key, role, t);
      hide Valid, ToClose, KeyRole, Holds;
      if key in obj.fields {
        Walk(obj.fields[key], Schema, t.fields[key], n);
      }
    }

    /** The definition a reference in an object names. */
    function Referred(obj: JsonObject): Option<string>
      reads obj
    {
      if "$ref" in obj.fields && obj.fields["$ref"].StrNode? then LocalDefName(obj.fields["$ref"].s) else None
    }

    /** A local reference to a definition leads the walk there, unless its name was visited before: then
        nothing changes. */
    method WalkReference(obj: JsonObject, ghost role: Role, ghost t: Value, ghost n: nat)
      requires Ready(n) && role.IsSchema() && Holds(heap, roles, role, ObjNode(obj), t)
      modifies this`visited, this`entered, this`closed, heap.Keys
      ensures Ready(n) && old(closed) <= closed && old(entered) <= entered
      ensures
        match old(Referred(obj))
        case None => visited == old(visited) && entered == old(entered) && closed == old(closed)
        case Some(name) =>
          if name in old(visited) then visited == old(visited) && entered == old(entered) && closed == old(closed)
          else if name in defs then old(entered) + [name] <= entered
          else visited == old(visited) + {name} && entered == old(entered) && closed == old(closed)
      decreases n, t, 1
    {
      hide Holds, ToClose, LocalDefName;
      if "$ref" in obj.fields && obj.fields["$ref"].StrNode? {
        match LocalDefName(obj.fields["$ref"].s)
        case None =>
        case Some(name) =>
          if name !in visited {
            visited := visited + {name};
            SubsetSize(defs.Keys - visited, old(defs.Keys - visited));
            if name in defs {
              assert name in old(defs.Keys - visited);
              ProperSubsetSize(defs.Keys - visited, old(defs.Keys - visited));
              entered := entered + [name];
              Walk(defs[name], Schema, defTrees[name], n - 1);
            }
          }
      }
    }
  }

  // ---------- WrapStrict ----------

  /** Decode: a fresh object for every object of the tree. */
  method Decode(t: Value, ghost role: Role) returns (node: Node, ghost roles: map<JsonObject, Role>)
    ensures fresh(roles.Keys)
    ensures Holds(Snapshot(roles.Keys), roles, role, node, t)
    decreases t
  {
    match t
    case Null => node, roles := NullNode, map[];
    case Bool(b) => node, roles := BoolNode(b), map[];
    case Number(x) => node, roles := NumberNode(x), map[];
    case Str(s) => node, roles := StrNode(s), map[];
    case Arr(es) =>
      var elems: seq<Node> := [];
      roles := map[];
      for k := 0 to |es|
        invariant fresh(roles.Keys) && |elems| == k
        invariant forall l | 0 <= l < k :: Holds(Snapshot(roles.Keys), roles, ElemRole(role), elems[l], es[l])
      {
        var elem, more := Decode(es[k], ElemRole(role));
        Extend(roles, more);
        elems, roles := elems + [elem], roles + more;
      }
      node := ArrNode(elems);
    case Obj(m) =>
      var fields: map<string, Node> := map[];
      var todo := m.Keys;
      roles := map[];
      while todo != {}
        invariant fresh(roles.Keys) && todo <= m.Keys && fields.Keys == m.Keys - todo
        invariant forall k | k in fields :: Holds(Snapshot(roles.Keys), roles, KeyRole(role, k), fields[k], m[k])
        decreases todo
      {
        var k :| k in todo;
        var value, more := Decode(m[k], KeyRole(role, k));
        Extend(roles, more);
        fields, roles, todo := fields[k := value], roles + more, todo - {k};
      }
      var obj := new JsonObject(fields);
      Extend(roles, map[obj := role]);
      node, roles := ObjNode(obj), roles + map[obj := role];
      assert Snapshot(roles.Keys)[obj] == fields;
  }

  /** What two disjoint parts of the heap hold, they still hold put together. */
  lemma Extend(roles: map<JsonObject, Role>, more: map<JsonObject, Role>)
    requires roles.Keys !! more.Keys
    ensures forall role, node, t | Holds(Snapshot(roles.Keys), roles, role, node, t) ::
              Holds(Snapshot((roles + more).Keys), roles + more, role, node, t)
    ensures forall role, node, t | Holds(Snapshot(more.Keys), more, role, node, t) ::
              Holds(Snapshot((roles + more).Keys), roles + more, role, node, t)
  {
    forall role, node, t | Holds(Snapshot(roles.Keys), roles, role, node, t)
      ensures Holds(Snapshot((roles + more).Keys), roles + more, role, node, t)
    {
      HoldsExtends(Snapshot(roles.Keys), roles, Snapshot((roles + more).Keys), roles + more, role, node, t);
    }
    forall role, node, t | Holds(Snapshot(more.Keys), more, role, node, t)
      ensures Holds(Snapshot((roles + more).Keys), roles + more, role, node, t)
    {
      HoldsExtends(Snapshot(more.Keys), more, Snapshot((roles + more).Keys), roles + more, role, node, t);
    }
  }

  /** Encode: the tree the heap holds. */
  method Encode(node: Node, ghost roles: map<JsonObject, Role>, ghost role: Role, ghost t: Value) returns (v: Value)
    requires Holds(Snapshot(roles.Keys), roles, role, node, t)
    ensures v == t
    decreases t
  {
    match node
    case NullNode => v := Null;
    case BoolNode(b) => v := Bool(b);
    case NumberNode(x) => v := Number(x);
    case StrNode(s) => v := Str(s);
    case ArrNode(elems) =>
      var es: seq<Value> := [];
      for k := 0 to |elems|
        invariant |es| == k && es == t.elems[..k]
      {
        var e := Encode(elems[k], roles, ElemRole(role), t.elems[k]);
        es := es + [e];
      }
      v := Arr(es);
    case ObjNode(obj) =>
      var m: map<string, Value> := map[];
      var todo := obj.fields.Keys;
      while todo != {}
        invariant todo <= t.fields.Keys == obj.fields.Keys && m.Keys == t.fields.Keys - todo
        invariant forall k | k in m :: m[k] == t.fields[k]
        decreases todo
      {
        var k :| k in todo;
        var value := Encode(obj.fields[k], roles, KeyRole(role, k), t.fields[k]);
        m, todo := m[k := value], todo - {k};
      }
      assert m == t.fields;
      v := Obj(m);
  }

  /** WrapStrict, between decoding and encoding of the text: the in-place walk over shared
      objects, started at the root with the root's definitions, leaves the rewritten tree. */
  method WrapStrict(schema: Value) returns (out: Value)
    ensures out == Strict(schema)
  {
    if !schema.Obj? {
      StrictNonObject(schema);
      return schema;
    }
    var root, roles := Decode(schema, Schema);
    RewriteInPlace(root, roles, schema);
    out := Encode(root, roles, Schema, Close(Schema, schema));
  }

  /** The walk from the root, on the objects of the document themselves. */
  method RewriteInPlace(root: Node, ghost roles: map<JsonObject, Role>, ghost schema: Value)
    requires schema.Obj? && Holds(Snapshot(roles.Keys), roles, Schema, root, schema)
    modifies roles.Keys
    ensures Holds(Snapshot(roles.Keys), roles, Schema, root, Close(Schema, schema))
  {
    hide ToClose, Close;
    ghost var heap := Snapshot(roles.Keys);
    var defs, trees := Definitions(root, roles, schema);
    var walker := new Walker(defs, heap, roles, trees);
    assert defs.Keys - walker.visited == defs.Keys && heap.Keys == roles.Keys;
    assert walker.Ready(|defs|);
    hide Holds, Snapshot, Walker.Ready;
    walker.Walk(root, Schema, schema, |defs|);
    walker.Finished(root, Schema, schema, |defs|);
  }

  /** The fields of the object a field holds, if it holds one. */
  ghost function FieldsOf(fields: map<string, Node>, key: string): map<string, Node>
    reads if key in fields && fields[key].ObjNode? then {fields[key].obj} else {}
  {
    if key in fields && fields[key].ObjNode? then fields[key].obj.fields else map[]
  }

  /** The root's definitions by name, those under "definitions" before those under "$defs". */
  method Definitions(root: Node, ghost roles: map<JsonObject, Role>, ghost schema: Value)
    returns (defs: map<string, Node>, ghost trees: map<string, Value>)
    requires schema.Obj? && Holds(Snapshot(roles.Keys), roles, Schema, root, schema)
    ensures defs == FieldsOf(root.obj.fields, "$defs") + FieldsOf(root.obj.fields, "definitions")
    ensures trees.Keys == defs.Keys
    ensures forall name | name in defs :: Holds(Snapshot(roles.Keys), roles, Schema, defs[name], trees[name])
  {
    defs, trees := map[], map[];
    ghost var heap := Snapshot(roles.Keys);
    var fields := root.obj.fields;
    if "$defs" in fields && fields["$defs"].ObjNode? {
      DefinitionsHeld(heap, roles, root, schema, "$defs");
      defs := fields["$defs"].obj.fields;
      trees := schema.fields["$defs"].fields;
    }
    if "definitions" in fields && fields["definitions"].ObjNode? {
      DefinitionsHeld(heap, roles, root, schema, "definitions");
      defs := defs + fields["definitions"].obj.fields;
      trees := trees + schema.fields["definitions"].fields;
    }
  }

  lemma DefinitionsHeld(h: Heap, roles: map<JsonObject, Role>, root: Node, schema: Value, key: string)
    requires Holds(h, roles, Schema, root, schema) && schema.Obj? && key in {"$defs", "definitions"}
    requires key in h[root.obj] && h[root.obj][key].ObjNode?
    ensures key in schema.fields && schema.fields[key].Obj?
    ensures h[root.obj][key].obj in h && h[h[root.obj][key].obj].Keys == schema.fields[key].fields.Keys
    ensures forall k | k in schema.fields[key].fields ::
        Holds(h, roles, Schema, h[h[root.obj][key].obj][k], schema.fields[key].fields[k])
  {
    assert Holds(h, roles, SchemaMap, h[root.obj][key], schema.fields[key]);
  }

  lemma {:induction false} SubsetSize<T>(a: set<T>, b: set<T>)
    requires a <= b
    ensures |a| <= |b|
  {
    if a != {} {
      var x :| x in a;
      SubsetSize(a - {x}, b - {x});
    }
  }

  lemma ProperSubsetSize<T>(a: set<T>, b: set<T>)
    requires a < b
    ensures |a| < |b|
  {
    var x :| x in b && x !in a;
    SubsetSize(a, b - {x});
  }
}
