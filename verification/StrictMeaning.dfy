/**
 What a schema accepts, and what its closed reading accepts.

 Local references can be cyclic, so judging is bounded by the number of references
 followed, and gives three answers: accepted for certain, rejected for certain, or
 undecided within the bound. `Judge(.., true, ..)` is the first, `Judge(.., false, ..)`
 the second.
 */
module StrictMeaning {
  import opened Json
  import opened StrictRewrite

  /** What the schema language leaves to the outside: the path of a reference into the
      same document, array indices in such paths, references to anything but a place of this
      document that can be a schema, regular expressions, and the keywords without sub-schemas. */
  datatype World = World(
    fragment: string -> Option<seq<string>>,
    index: string -> Option<nat>,
    external: (string, Value) -> bool,
    matches: (string, string) -> bool,
    keyword: (string, Value, Value) -> bool)

  /** A schema document and how it is read. In the closed reading, a sub-schema that
      lists properties and has no additionalProperties rejects unknown keys. */
  datatype Reading = Reading(world: World, root: Value, closed: bool)

  predicate Interpreted(key: string) {
    key in MAP_KEYWORDS || key in LIST_KEYWORDS || key in SINGLE_KEYWORDS || key == "items" || key == "$ref"
  }

  function Fields(m: map<string, Value>, key: string): map<string, Value> {
    if key in m && m[key].Obj? then m[key].fields else map[]
  }

  predicate HasList(m: map<string, Value>, key: string) {
    key in m && m[key].Arr?
  }

  /** A key of an instance that neither properties nor patternProperties speaks of. */
  predicate Unknown(w: World, m: map<string, Value>, key: string) {
    && key !in Fields(m, "properties")
    && forall p | p in Fields(m, "patternProperties") :: !w.matches(p, key)
  }

  ghost predicate Judge(d: Reading, n: nat, want: bool, role: Role, s: Value, i: Value)
    requires role.Readable()
    decreases n, s, 2
  {
    match s
    case Bool(b) => b == want
    case Obj(m) =>
      if want then
        && JudgeKeywords(d, want, m, i)
        && JudgeObject(d, n, want, role, s, i)
        && JudgeItems(d, n, want, role, s, i)
        && JudgeLists(d, n, want, role, s, i)
        && JudgeNot(d, n, want, role, s, i)
        && JudgeIf(d, n, want, role, s, i)
        && JudgeReference(d, n, want, s, i)
      else
        || JudgeKeywords(d, want, m, i)
        || JudgeObject(d, n, want, role, s, i)
        || JudgeItems(d, n, want, role, s, i)
        || JudgeLists(d, n, want, role, s, i)
        || JudgeNot(d, n, want, role, s, i)
        || JudgeIf(d, n, want, role, s, i)
        || JudgeReference(d, n, want, s, i)
    case _ => want
  }

  ghost predicate JudgeKeywords(d: Reading, want: bool, m: map<string, Value>, i: Value) {
    if want then forall k | k in m && !Interpreted(k) :: d.world.keyword(k, m[k], i)
    else exists k | k in m && !Interpreted(k) :: !d.world.keyword(k, m[k], i)
  }

  /** properties, patternProperties and additionalProperties. */
  ghost predicate JudgeObject(d: Reading, n: nat, want: bool, role: Role, s: Value, i: Value)
    requires role.Readable() && s.Obj?
    decreases n, s, 1
  {
    if !i.Obj? then want else
    var m := s.fields;
    var props, pats := Fields(m, "properties"), Fields(m, "patternProperties");
    if want then
      && (forall k | k in props && k in i.fields :: JudgeEntry(d, n, want, role, s, "properties", k, i.fields[k]))
      && (forall p, k | p in pats && k in i.fields && d.world.matches(p, k) ::
            JudgeEntry(d, n, want, role, s, "patternProperties", p, i.fields[k]))
      && (forall k | k in i.fields && Unknown(d.world, m, k) :: JudgeUnknown(d, n, want, role, s, i.fields[k]))
    else
      || (exists k | k in props && k in i.fields :: JudgeEntry(d, n, want, role, s, "properties", k, i.fields[k]))
      || (exists p, k | p in pats && k in i.fields && d.world.matches(p, k) ::
            JudgeEntry(d, n, want, role, s, "patternProperties", p, i.fields[k]))
      || (exists k | k in i.fields && Unknown(d.world, m, k) :: JudgeUnknown(d, n, want, role, s, i.fields[k]))
  }

  ghost predicate JudgeEntry(d: Reading, n: nat, want: bool, role: Role, s: Value, key: string, k: string, x: Value)
    requires role.Readable() && s.Obj? && key in {"properties", "patternProperties"} && k in Fields(s.fields, key)
    decreases n, s, 0
  {
    assert s.fields[key] < s;
    Judge(d, n, want, KeyRole(KeyRole(role, key), k), Fields(s.fields, key)[k], x)
  }

  /** The value of an unknown key: here, and only here, the closed reading differs. */
  ghost predicate JudgeUnknown(d: Reading, n: nat, want: bool, role: Role, s: Value, x: Value)
    requires role.Readable() && s.Obj?
    decreases n, s, 0
  {
    if "additionalProperties" in s.fields then
      Judge(d, n, want, KeyRole(role, "additionalProperties"), s.fields["additionalProperties"], x)
    else if d.closed && role.IsSchema() && "properties" in s.fields && s.fields["properties"].Obj? then !want
    else want
  }

  /** items: one sub-schema for every element, or one per position. */
  ghost predicate JudgeItems(d: Reading, n: nat, want: bool, role: Role, s: Value, i: Value)
    requires role.Readable() && s.Obj?
    decreases n, s, 0
  {
    if !i.Arr? || "items" !in s.fields then want else
    var items := s.fields["items"];
    var r := KeyRole(role, "items");
    if items.Arr? then
      if want then
        forall k | 0 <= k < |items.elems| && k < |i.elems| :: Judge(d, n, want, ElemRole(r), items.elems[k], i.elems[k])
      else
        exists k | 0 <= k < |items.elems| && k < |i.elems| :: Judge(d, n, want, ElemRole(r), items.elems[k], i.elems[k])
    else
      if want then forall k | 0 <= k < |i.elems| :: Judge(d, n, want, r, items, i.elems[k])
      else exists k | 0 <= k < |i.elems| :: Judge(d, n, want, r, items, i.elems[k])
  }

  /** allOf, anyOf and oneOf. */
  ghost predicate JudgeLists(d: Reading, n: nat, want: bool, role: Role, s: Value, i: Value)
    requires role.Readable() && s.Obj?
    decreases n, s, 1
  {
    if want then
      && (HasList(s.fields, "allOf") ==> Each(Verdicts(d, n, true, role, s, "allOf", i)))
      && (HasList(s.fields, "anyOf") ==> Any(Verdicts(d, n, true, role, s, "anyOf", i)))
      && (HasList(s.fields, "oneOf") ==>
          Single(Verdicts(d, n, true, role, s, "oneOf", i), Verdicts(d, n, false, role, s, "oneOf", i)))
    else
      || (HasList(s.fields, "allOf") && Any(Verdicts(d, n, false, role, s, "allOf", i)))
      || (HasList(s.fields, "anyOf") && Each(Verdicts(d, n, false, role, s, "anyOf", i)))
      || (HasList(s.fields, "oneOf") &&
            (Each(Verdicts(d, n, false, role, s, "oneOf", i)) || Several(Verdicts(d, n, true, role, s, "oneOf", i))))
  }

  ghost function Verdicts(d: Reading, n: nat, want: bool, role: Role, s: Value, key: string, i: Value): (vs: seq<bool>)
    requires role.Readable() && s.Obj? && HasList(s.fields, key) && key in LIST_KEYWORDS
    ensures |vs| == |s.fields[key].elems|
    decreases n, s, 0
  {
    var es, r := s.fields[key].elems, ElemRole(KeyRole(role, key));
    seq(|es|, k requires 0 <= k < |es| => Judge(d, n, want, r, es[k], i))
  }

  predicate Each(vs: seq<bool>) {
    forall k | 0 <= k < |vs| :: vs[k]
  }

  predicate Any(vs: seq<bool>) {
    exists k | 0 <= k < |vs| :: vs[k]
  }

  predicate Single(yes: seq<bool>, no: seq<bool>)
    requires |yes| == |no|
  {
    exists k | 0 <= k < |yes| :: yes[k] && forall l | 0 <= l < |no| && l != k :: no[l]
  }

  predicate Several(vs: seq<bool>) {
    exists k, l | 0 <= k < l < |vs| :: vs[k] && vs[l]
  }

  ghost predicate JudgeNot(d: Reading, n: nat, want: bool, role: Role, s: Value, i: Value)
    requires role.Readable() && s.Obj?
    decreases n, s, 0
  {
    if "not" in s.fields then Judge(d, n, !want, KeyRole(role, "not"), s.fields["not"], i) else want
  }

  /** if with then and else. */
  ghost predicate JudgeIf(d: Reading, n: nat, want: bool, role: Role, s: Value, i: Value)
    requires role.Readable() && s.Obj?
    decreases n, s, 1
  {
    if "if" !in s.fields then want else
    || (JudgeBranch(d, n, true, role, s, "if", i) && JudgeBranch(d, n, want, role, s, "then", i))
    || (JudgeBranch(d, n, false, role, s, "if", i) && JudgeBranch(d, n, want, role, s, "else", i))
  }

  ghost predicate JudgeBranch(d: Reading, n: nat, want: bool, role: Role, s: Value, key: string, i: Value)
    requires role.Readable() && s.Obj? && key in {"if", "then", "else"}
    decreases n, s, 0
  {
    if key in s.fields then Judge(d, n, want, KeyRole(role, key), s.fields[key], i) else want
  }

  /** The schema a reference points at, if it is a place of this document that can be one. */
  function Target(d: Reading, ref: string): (t: Option<(Value, Role)>)
    ensures t.Some? ==> t.value.1.Readable()
  {
    match d.world.fragment(ref)
    case None => None
    case Some(path) =>
      (match Resolve(d.world.index, d.closed, Schema, d.root, path)
       case Some((t, r)) => if r.Readable() then Some((t, r)) else None
       case None => None)
  }

  ghost predicate JudgeReference(d: Reading, n: nat, want: bool, s: Value, i: Value)
    requires s.Obj?
    decreases n, s, 0
  {
    if "$ref" !in s.fields || !s.fields["$ref"].Str? then want else
    var ref := s.fields["$ref"].s;
    match Target(d, ref)
    case None => d.world.external(ref, i) == want
    case Some((t, r)) => n > 0 && Judge(d, n - 1, want, r, t, i)
  }

  /** Accepted, within some number of references followed. */
  ghost predicate Accepts(d: Reading, i: Value) {
    exists n: nat :: Judge(d, n, true, Schema, d.root, i)
  }

  ghost predicate Rejects(d: Reading, i: Value) {
    exists n: nat :: Judge(d, n, false, Schema, d.root, i)
  }
}
