/**
 The strict rewrite of a schema as a plain structural pass over a JSON tree
 (what internal/validator/strict.go leaves behind), with its tree-level laws.
 */
module StrictRewrite {
  import opened Json

  /** How the rewrite treats a position of the document.
      - Schema: a sub-schema
      - SchemaMap: an object whose values are sub-schemas
      - SchemaSeq: an array whose elements are sub-schemas
      - Items: the value of "items", a sub-schema or an array of them
      - Plain: anything else, never looked into */
  datatype Role = Schema | SchemaMap | SchemaSeq | Items | Plain {
    predicate IsSchema() { Schema? || Items? }

    /** What stands here can be read as a schema; SchemaMap and SchemaSeq hold several. */
    predicate Readable() { IsSchema() || Plain? }
  }

  const MAP_KEYWORDS := {"properties", "patternProperties", "$defs", "definitions"}
  const LIST_KEYWORDS := {"allOf", "anyOf", "oneOf"}
  const SINGLE_KEYWORDS := {"additionalProperties", "if", "then", "else", "not"}

  function KeyRole(role: Role, key: string): Role {
    if role.SchemaMap? then Schema
    else if !role.IsSchema() then Plain
    else if key in MAP_KEYWORDS then SchemaMap
    else if key in LIST_KEYWORDS then SchemaSeq
    else if key in SINGLE_KEYWORDS then Schema
    else if key == "items" then Items
    else Plain
  }

  function ElemRole(role: Role): Role {
    if role.SchemaSeq? || role.Items? then Schema else Plain
  }

  /** A schema object that lists properties and leaves unknown ones open. */
  predicate NeedsClose(m: map<string, Value>) {
    && "properties" in m && m["properties"].Obj?
    && "additionalProperties" !in m
  }

  /** The rewrite: every sub-schema that needs closing gets additionalProperties: false. */
  function Close(role: Role, v: Value): Value
    decreases v
  {
    match v
    case Arr(es) => Arr(seq(|es|, i requires 0 <= i < |es| => Close(ElemRole(role), es[i])))
    case Obj(m) =>
      var closed := map k | k in m :: Close(KeyRole(role, k), m[k]);
      Obj(if role.IsSchema() && NeedsClose(m) then closed["additionalProperties" := Bool(false)] else closed)
    case _ => v
  }

  function Strict(schema: Value): Value {
    Close(Schema, schema)
  }

  lemma {:induction false} ClosePlain(v: Value)
    ensures Close(Plain, v) == v
  {
    match v
    case Arr(es) =>
      forall i | 0 <= i < |es| ensures Close(Plain, es[i]) == es[i] { ClosePlain(es[i]); }
      assert Close(Plain, v).elems == es;
    case Obj(m) =>
      forall k | k in m ensures Close(Plain, m[k]) == m[k] { ClosePlain(m[k]); }
      assert Close(Plain, v).fields == m;
    case _ =>
  }

  /** A document that is not an object (a boolean schema) is returned as it is. */
  lemma StrictNonObject(v: Value)
    requires !v.Obj?
    ensures Strict(v) == v
  {
    if v.Arr? {
      forall i | 0 <= i < |v.elems| ensures Close(Plain, v.elems[i]) == v.elems[i] { ClosePlain(v.elems[i]); }
      assert Strict(v).elems == v.elems;
    }
  }

  lemma {:induction false} CloseIdempotent(role: Role, v: Value)
    ensures Close(role, Close(role, v)) == Close(role, v)
    decreases v
  {
    match v
    case Arr(es) =>
      var c := Close(role, v).elems;
      forall i | 0 <= i < |es| ensures Close(ElemRole(role), c[i]) == c[i] { CloseIdempotent(ElemRole(role), es[i]); }
      assert Close(role, Arr(c)).elems == c;
    case Obj(m) =>
      var c := Close(role, v).fields;
      forall k | k in m
        ensures Close(KeyRole(role, k), Close(KeyRole(role, k), m[k])) == Close(KeyRole(role, k), m[k])
      {
        CloseIdempotent(KeyRole(role, k), m[k]);
      }
      assert !(role.IsSchema() && NeedsClose(c));
      assert Close(role, Obj(c)).fields == c;
    case _ =>
  }

  // ---------- locations ----------

  /** The value at a JSON Pointer, with the role of the place it stands in. In the closed
      reading, the missing additionalProperties of a schema object that lists properties
      is there, and false. */
  function Resolve(index: string -> Option<nat>, closed: bool, role: Role, v: Value,
          path: seq<string>): Option<(Value, Role)>
    decreases |path|
  {
    if path == [] then Some((v, role)) else
    match v
    case Obj(m) =>
      if path[0] in m then Resolve(index, closed, KeyRole(role, path[0]), m[path[0]], path[1..])
      else if closed && path == ["additionalProperties"] && role.IsSchema() &&
              "properties" in m && m["properties"].Obj? then
        Some((Bool(false), Schema))
      else None
    case Arr(es) =>
      (match index(path[0])
       case Some(i) => if i < |es| then Resolve(index, closed, ElemRole(role), es[i], path[1..]) else None
       case None => None)
    case _ => None
  }

  /** Every location of the rewritten tree is a location of the original and holds the
      rewrite of what stood there, or is the additionalProperties: false added to a sub-schema
      that lists properties without it. No location disappears. */
  lemma {:induction false} CloseLocations(index: string -> Option<nat>, role: Role, v: Value, path: seq<string>)
    ensures Resolve(index, false, role, Close(role, v), path) ==
            match Resolve(index, true, role, v, path)
            case Some((t, r)) => Some((Close(r, t), r))
            case None => None
    decreases |path|
  {
    if path != [] {
      match v
      case Obj(m) =>
        if path[0] in m { CloseLocations(index, KeyRole(role, path[0]), m[path[0]], path[1..]); }
      case Arr(es) =>
        match index(path[0]) {
          case Some(i) => if i < |es| { CloseLocations(index, ElemRole(role), es[i], path[1..]); }
          case None =>
        }
      case _ =>
    }
  }

  /** Data is untouched: what stands at a Plain location is there in the rewritten tree, as it was. */
  lemma CloseKeepsData(index: string -> Option<nat>, v: Value, path: seq<string>, data: Value)
    requires Resolve(index, false, Schema, v, path) == Some((data, Plain))
    ensures Resolve(index, false, Schema, Strict(v), path) == Some((data, Plain))
  {
    ClosedReadingExtends(index, Schema, v, path);
    CloseLocations(index, Schema, v, path);
    ClosePlain(data);
  }

  /** A map of sub-schemas is not itself closed, even with a name "properties" in it: in the rewritten
      tree it stands where it stood, with the same names, each holding the rewrite of its sub-schema. */
  lemma MapsKeepTheirNames(index: string -> Option<nat>, v: Value, path: seq<string>, m: map<string, Value>)
    requires Resolve(index, false, Schema, v, path) == Some((Obj(m), SchemaMap))
    ensures Resolve(index, false, Schema, Strict(v), path) == Some((Obj(map k | k in m :: Strict(m[k])), SchemaMap))
  {
    ClosedReadingExtends(index, Schema, v, path);
    CloseLocations(index, Schema, v, path);
    assert Close(SchemaMap, Obj(m)).fields == map k | k in m :: Strict(m[k]);
  }

  lemma {:induction false} ClosedReadingExtends(index: string -> Option<nat>, role: Role, v: Value, path: seq<string>)
    ensures Resolve(index, false, role, v, path).Some? ==>
        Resolve(index, true, role, v, path) == Resolve(index, false, role, v, path)
    decreases |path|
  {
    if path != [] {
      match v
      case Obj(m) =>
        if path[0] in m { ClosedReadingExtends(index, KeyRole(role, path[0]), m[path[0]], path[1..]); }
      case Arr(es) =>
        match index(path[0]) {
          case Some(i) => if i < |es| { ClosedReadingExtends(index, ElemRole(role), es[i], path[1..]); }
          case None =>
        }
      case _ =>
    }
  }
}
