/**
 What the strict rewrite does to a document, place by place, in terms of the keywords of JSON Schema and
 of nothing else: no role, no rewrite and no reading of a schema enters the statement.
 */
module StrictShape {
  import opened Json
  import opened StrictRewrite

  /** The value at a JSON Pointer; index reads array indices. */
  function At(index: string -> Option<nat>, v: Value, path: seq<string>): Option<Value>
    decreases |path|
  {
    if path == [] then Some(v)
    else
      match v
      case Obj(m) => if path[0] in m then At(index, m[path[0]], path[1..]) else None
      case Arr(es) =>
        (match index(path[0])
         case Some(i) => if i < |es| then At(index, es[i], path[1..]) else None
         case None => None)
      case _ => None
  }

  /** The element of a list at an index. */
  function Element(index: string -> Option<nat>, v: Value, segment: string): Option<Value> {
    match (v, index(segment))
    case (Arr(es), Some(i)) => if i < |es| then Some(es[i]) else None
    case _ => None
  }

  /** The places of sub-schemas. */
  predicate IsSubSchema(index: string -> Option<nat>, v: Value, path: seq<string>)
    decreases |path|
  {
    if path == [] then true
    else if !v.Obj? || path[0] !in v.fields then false
    else
      var c := v.fields[path[0]];
      if path[0] in {"additionalProperties", "if", "then", "else", "not"} then IsSubSchema(index, c, path[1..])
      else if path[0] == "items" && !c.Arr? then IsSubSchema(index, c, path[1..])
      else if |path| == 1 then false
      else if path[0] in {"properties", "patternProperties", "$defs", "definitions"} then
        c.Obj? && path[1] in c.fields && IsSubSchema(index, c.fields[path[1]], path[2..])
      else if path[0] in {"items", "allOf", "anyOf", "oneOf"} then
        Element(index, c, path[1]).Some? && IsSubSchema(index, Element(index, c, path[1]).value, path[2..])
      else false
  }

  // ---------- the places of sub-schemas by role ----------

  lemma {:induction false} ResolveIsAt(index: string -> Option<nat>, role: Role, v: Value, path: seq<string>)
    ensures At(index, v, path) ==
            match Resolve(index, false, role, v, path) case Some((t, _)) => Some(t) case None => None
    decreases |path|
  {
    if path != [] {
      match v
      case Obj(m) => if path[0] in m { ResolveIsAt(index, KeyRole(role, path[0]), m[path[0]], path[1..]); }
      case Arr(es) =>
        match index(path[0]) {
          case Some(i) => if i < |es| { ResolveIsAt(index, ElemRole(role), es[i], path[1..]); }
          case None =>
        }
      case _ =>
    }
  }

  lemma {:induction false} PlainBelow(index: string -> Option<nat>, v: Value, path: seq<string>)
    ensures
      match Resolve(index, false, Plain, v, path) case Some((_, r)) => r == Plain case None => true
    decreases |path|
  {
    if path != [] {
      match v
      case Obj(m) => if path[0] in m { PlainBelow(index, m[path[0]], path[1..]); }
      case Arr(es) =>
        match index(path[0]) {
          case Some(i) => if i < |es| { PlainBelow(index, es[i], path[1..]); }
          case None =>
        }
      case _ =>
    }
  }

  /** An object stands in the role of a schema exactly at the places of sub-schemas. */
  ghost predicate Agrees(index: string -> Option<nat>, role: Role, v: Value, path: seq<string>) {
    match Resolve(index, false, role, v, path)
    case Some((Obj(_), r)) => r.IsSchema() <==> IsSubSchema(index, v, path)
    case _ => true
  }

  lemma {:induction false} RolesAgree(index: string -> Option<nat>, role: Role, v: Value, path: seq<string>)
    requires role.IsSchema() && (role.Items? ==> !v.Arr?)
    ensures Agrees(index, role, v, path)
    decreases |path|
  {
    if path != [] && v.Obj? && path[0] in v.fields {
      var c, next := v.fields[path[0]], KeyRole(role, path[0]);
      if next.Schema? || (next.Items? && !c.Arr?) {
        RolesAgree(index, next, c, path[1..]);
      } else if next.Plain? {
        PlainBelow(index, c, path[1..]);
      } else if |path| > 1 {
        assert path[1..][1..] == path[2..] && path[1..][0] == path[1];
        StepBelow(index, next, c, path[1..]);
      }
    } else if path != [] && v.Arr? {
      match index(path[0])
      case Some(i) => if i < |v.elems| { PlainBelow(index, v.elems[i], path[1..]); }
      case None =>
    }
  }

  /** Below a map or a list of sub-schemas. */
  lemma {:induction false} StepBelow(index: string -> Option<nat>, role: Role, v: Value, path: seq<string>)
    requires path != [] && (role.SchemaMap? || role.SchemaSeq? || (role.Items? && v.Arr?))
    ensures
      var child := if role.SchemaMap? then (if v.Obj? && path[0] in v.fields then Some(v.fields[path[0]]) else None)
                   else Element(index, v, path[0]);
      match Resolve(index, false, role, v, path)
      case Some((Obj(_), r)) => r.IsSchema() <==> child.Some? && IsSubSchema(index, child.value, path[1..])
      case _ => true
    decreases |path|
  {
    match v
    case Obj(m) =>
      if path[0] in m {
        if role.SchemaMap? {
          RolesAgree(index, Schema, m[path[0]], path[1..]);
        } else {
          PlainBelow(index, m[path[0]], path[1..]);
        }
      }
    case Arr(es) =>
      match index(path[0]) {
        case Some(i) =>
          if i < |es| {
            if role.SchemaMap? {
              PlainBelow(index, es[i], path[1..]);
            } else {
              RolesAgree(index, Schema, es[i], path[1..]);
            }
          }
        case None =>
      }
    case _ =>
  }

  /** What the closed reading has that the written one has not. */
  lemma {:induction false} ClosedAdds(index: string -> Option<nat>, role: Role, v: Value, path: seq<string>)
    ensures
      Resolve(index, true, role, v, path) ==
      if Resolve(index, false, role, v, path).Some? then Resolve(index, false, role, v, path)
      else if path != [] && path[|path| - 1] == "additionalProperties" &&
              OpenSchema(Resolve(index, false, role, v, path[..|path| - 1])) then Some((Bool(false), Schema))
      else None
    decreases |path|
  {
    if path != [] {
      var up := path[..|path| - 1];
      if |path| == 1 {
        assert up == [];
        assert path[0] == "additionalProperties" ==> path == ["additionalProperties"];
      } else {
        assert up[0] == path[0] && up[1..] == path[1..][..|path| - 2];
        match v
        case Obj(m) => if path[0] in m { ClosedAdds(index, KeyRole(role, path[0]), m[path[0]], path[1..]); }
        case Arr(es) =>
          match index(path[0]) {
            case Some(i) => if i < |es| { ClosedAdds(index, ElemRole(role), es[i], path[1..]); }
            case None =>
          }
        case _ =>
      }
    }
  }

  predicate OpenSchema(at: Option<(Value, Role)>) {
    match at
    case Some((Obj(m), r)) => r.IsSchema() && "properties" in m && m["properties"].Obj? && "additionalProperties" !in m
    case _ => false
  }

  // ---------- the theorem ----------

  /** A sub-schema that lists properties and says nothing about others. */
  predicate Opens(index: string -> Option<nat>, v: Value, path: seq<string>) {
    match At(index, v, path)
    case Some(Obj(m)) =>
      IsSubSchema(index, v, path) && "properties" in m && m["properties"].Obj? && "additionalProperties" !in m
    case _ => false
  }

  /** The rewritten document at every path: objects have the keys they had, and additionalProperties
      besides exactly if they are sub-schemas that list properties without it; lists have their length,
      and anything else is itself. Nothing else is there but that additionalProperties, which is false. */
  lemma StrictExactly(index: string -> Option<nat>, v: Value, path: seq<string>)
    ensures
      var now := At(index, Strict(v), path);
      match At(index, v, path)
      case Some(Obj(m)) =>
        && now.Some? && now.value.Obj?
        && now.value.fields.Keys == m.Keys + if Opens(index, v, path) then {"additionalProperties"} else {}
      case Some(Arr(es)) => now.Some? && now.value.Arr? && |now.value.elems| == |es|
      case Some(other) => now == Some(other)
      case None =>
        now ==
        if path != [] && path[|path| - 1] == "additionalProperties" && Opens(index, v, path[..|path| - 1]) then
          Some(Bool(false))
        else None
  {
    ResolveIsAt(index, Schema, v, path);
    ResolveIsAt(index, Schema, Strict(v), path);
    CloseLocations(index, Schema, v, path);
    ClosedAdds(index, Schema, v, path);
    RolesAgree(index, Schema, v, path);
    if path != [] {
      var up := path[..|path| - 1];
      ResolveIsAt(index, Schema, v, up);
      RolesAgree(index, Schema, v, up);
    }
    hide Resolve, At, IsSubSchema;
  }
}
