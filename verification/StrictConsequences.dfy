/** Laws of judging, and what closing does to the set of accepted instances. */
module StrictConsequences {
  import opened Json
  import opened StrictRewrite
  import opened StrictMeaning
  import opened StrictTheorems

  // ---------- the fragment on which a verdict of the closed reading is one of the written reading ----------

  /** Rejections can come from closing a sub-schema, so only acceptances carry over from one that needs
      it. Polarity turns under not; oneOf and if look at both verdicts. References are followed n times;
      one that only the closed reading resolves rejects, so there a rejection does not carry over. */
  ghost predicate Keeps(d: Reading, n: nat, want: bool, role: Role, v: Value)
    requires role.Readable()
    decreases n, v, 2
  {
    v.Obj? ==>
      && (want || !role.IsSchema() || "properties" !in v.fields || !v.fields["properties"].Obj? ||
          "additionalProperties" in v.fields)
      && (forall key | key in {"properties", "patternProperties"} :: KeepsMap(d, n, want, role, v, key))
      && KeepsOne(d, n, want, role, v, "additionalProperties") && KeepsItems(d, n, want, role, v)
      && (forall key | key in {"allOf", "anyOf"} :: KeepsList(d, n, want, role, v, key))
      && (forall verdict :: KeepsList(d, n, verdict, role, v, "oneOf")) && KeepsOne(d, n, !want, role, v, "not")
      && ("if" in v.fields ==>
            && (forall verdict :: KeepsOne(d, n, verdict, role, v, "if"))
            && KeepsOne(d, n, want, role, v, "then") && KeepsOne(d, n, want, role, v, "else"))
      && KeepsReference(d, n, want, v)
  }

  ghost predicate KeepsMap(d: Reading, n: nat, want: bool, role: Role, v: Value, key: string)
    requires role.Readable() && v.Obj? && key in {"properties", "patternProperties"}
    decreases n, v, 1
  {
    forall k | k in Fields(v.fields, key) :: KeepsEntry(d, n, want, role, v, key, k)
  }

  ghost predicate KeepsEntry(d: Reading, n: nat, want: bool, role: Role, v: Value, key: string, k: string)
    requires role.Readable() && v.Obj? && key in {"properties", "patternProperties"} && k in Fields(v.fields, key)
    decreases n, v, 0
  {
    assert v.fields[key] < v;
    Keeps(d, n, want, KeyRole(KeyRole(role, key), k), Fields(v.fields, key)[k])
  }

  ghost predicate KeepsOne(d: Reading, n: nat, want: bool, role: Role, v: Value, key: string)
    requires role.Readable() && v.Obj? && key in SINGLE_KEYWORDS
    decreases n, v, 1
  {
    key in v.fields ==> Keeps(d, n, want, KeyRole(role, key), v.fields[key])
  }

  ghost predicate KeepsItems(d: Reading, n: nat, want: bool, role: Role, v: Value)
    requires role.Readable() && v.Obj?
    decreases n, v, 1
  {
    "items" in v.fields ==>
      var items, r := v.fields["items"], KeyRole(role, "items");
      if items.Arr? then forall k | 0 <= k < |items.elems| :: Keeps(d, n, want, ElemRole(r), items.elems[k])
      else Keeps(d, n, want, r, items)
  }

  ghost predicate KeepsList(d: Reading, n: nat, want: bool, role: Role, v: Value, key: string)
    requires role.Readable() && v.Obj? && key in LIST_KEYWORDS
    decreases n, v, 1
  {
    HasList(v.fields, key) ==>
      var es, r := v.fields[key].elems, ElemRole(KeyRole(role, key));
      forall k | 0 <= k < |es| :: Keeps(d, n, want, r, es[k])
  }

  ghost predicate KeepsReference(d: Reading, n: nat, want: bool, v: Value)
    requires v.Obj?
    decreases n, v, 1
  {
    "$ref" in v.fields && v.fields["$ref"].Str? && n > 0 ==>
      match Target(d, v.fields["$ref"].s)
      case Some((t, r)) =>
        (want || Target(AsWritten(d.world, d.root), v.fields["$ref"].s).Some?) && Keeps(d, n - 1, want, r, t)
      case None => true
  }

  /** No not, oneOf or if in any sub-schema of v, taken in the given role, nor in any schema it leads to
      by n references. */
  ghost predicate Positive(d: Reading, n: nat, role: Role, v: Value)
    decreases n, v
  {
    match v
    case Obj(m) =>
      && (role.IsSchema() ==>
            && "not" !in m && "oneOf" !in m && "if" !in m
            && ("$ref" in m && m["$ref"].Str? && n > 0 ==>
                  match Target(d, m["$ref"].s)
                  case Some((t, _)) => Positive(d, n - 1, Schema, t)
                  case None => true))
      && forall k | k in m :: Positive(d, n, KeyRole(role, k), m[k])
    case Arr(es) => forall k | 0 <= k < |es| :: Positive(d, n, ElemRole(role), es[k])
    case _ => true
  }

  /** Every acceptance carries over there. */
  lemma {:induction false} PositiveKeeps(d: Reading, n: nat, place: Role, role: Role, v: Value)
    requires place.IsSchema() && role.Readable() && Positive(d, n, place, v)
    ensures Keeps(d, n, true, role, v)
    decreases n, v
  {
    if v.Obj? {
      forall key, k | key in {"properties", "patternProperties"} && k in Fields(v.fields, key)
        ensures KeepsEntry(d, n, true, role, v, key, k)
      {
        assert v.fields[key] < v && Positive(d, n, SchemaMap, v.fields[key]);
        assert KeyRole(SchemaMap, k) == Schema;
        PositiveKeeps(d, n, Schema, KeyRole(KeyRole(role, key), k), Fields(v.fields, key)[k]);
      }
      assert KeepsOne(d, n, true, role, v, "additionalProperties") by {
        if "additionalProperties" in v.fields {
          SingleRole(role, "additionalProperties");
          PositiveKeeps(d, n, Schema, KeyRole(role, "additionalProperties"), v.fields["additionalProperties"]);
        }
      }
      hide Keeps;
      PositiveItems(d, n, place, role, v);
      forall key | key in {"allOf", "anyOf"} ensures KeepsList(d, n, true, role, v, key) {
        PositiveList(d, n, place, role, v, key);
      }
      PositiveReference(d, n, place, v);
    }
  }

  lemma {:induction false} PositiveItems(d: Reading, n: nat, place: Role, role: Role, v: Value)
    requires place.IsSchema() && role.Readable() && v.Obj? && Positive(d, n, place, v)
    ensures KeepsItems(d, n, true, role, v)
    decreases n, v, 0
  {
    if "items" in v.fields {
      var items, r := v.fields["items"], KeyRole(role, "items");
      assert Positive(d, n, Items, items);
      if items.Arr? {
        forall k | 0 <= k < |items.elems| ensures Keeps(d, n, true, ElemRole(r), items.elems[k]) {
          PositiveKeeps(d, n, Schema, ElemRole(r), items.elems[k]);
        }
      } else {
        PositiveKeeps(d, n, Items, r, items);
      }
    }
  }

  lemma {:induction false} PositiveList(d: Reading, n: nat, place: Role, role: Role, v: Value, key: string)
    requires place.IsSchema() && role.Readable() && v.Obj? && Positive(d, n, place, v) && key in LIST_KEYWORDS
    ensures KeepsList(d, n, true, role, v, key)
    decreases n, v, 0
  {
    if HasList(v.fields, key) {
      var es, r := v.fields[key].elems, ElemRole(KeyRole(role, key));
      assert Positive(d, n, SchemaSeq, v.fields[key]);
      forall k | 0 <= k < |es| ensures Keeps(d, n, true, r, es[k]) {
        assert v.fields[key] < v;
        PositiveKeeps(d, n, Schema, r, es[k]);
      }
    }
  }

  lemma {:induction false} PositiveReference(d: Reading, n: nat, place: Role, v: Value)
    requires place.IsSchema() && v.Obj? && Positive(d, n, place, v)
    ensures KeepsReference(d, n, true, v)
    decreases n, v, 0
  {
    if "$ref" in v.fields && v.fields["$ref"].Str? && n > 0 {
      match Target(d, v.fields["$ref"].s)
      case Some((t, r)) => PositiveKeeps(d, n - 1, Schema, r, t);
      case None =>
    }
  }

  /** When a verdict within n references in one reading carries over to another reading:
      always to the same one, and on the fragment from the closed reading to the written one. */
  ghost predicate Carries(w: World, root: Value, closed: bool, closed': bool, n: nat, want: bool, role: Role, s: Value)
    requires role.Readable()
  {
    closed' == closed || (closed && Keeps(AsClosed(w, root), n, want, role, s))
  }

  lemma SingleRole(role: Role, key: string)
    requires role.Readable() && key in SINGLE_KEYWORDS
    ensures KeyRole(role, key).Readable()
  {
  }

  lemma {:induction false} Carry(w: World, root: Value, closed: bool, closed': bool, n: nat, m: nat, want: bool,
                                 role: Role, s: Value, i: Value)
    requires role.Readable() && n <= m && Carries(w, root, closed, closed', n, want, role, s)
    ensures Judge(Reading(w, root, closed), n, want, role, s, i) ==>
        Judge(Reading(w, root, closed'), m, want, role, s, i)
    decreases n, s, 3
  {
    hide JudgeObject, JudgeItems, JudgeLists, JudgeNot, JudgeIf, JudgeReference, Keeps;
    match s
    case Obj(_) =>
      CarryObject(w, root, closed, closed', n, m, want, role, s, i);
      CarryItems(w, root, closed, closed', n, m, want, role, s, i);
      CarryLists(w, root, closed, closed', n, m, want, role, s, i);
      CarryNot(w, root, closed, closed', n, m, want, role, s, i);
      CarryIf(w, root, closed, closed', n, m, want, role, s, i);
      CarryReference(w, root, closed, closed', n, m, want, role, s, i);
    case _ =>
  }

  lemma {:induction false} CarryObject(w: World, root: Value, closed: bool, closed': bool, n: nat, m: nat,
                                       want: bool, role: Role, s: Value, i: Value)
    requires role.Readable() && n <= m && s.Obj? && Carries(w, root, closed, closed', n, want, role, s)
    ensures JudgeObject(Reading(w, root, closed), n, want, role, s, i) ==>
        JudgeObject(Reading(w, root, closed'), m, want, role, s, i)
    decreases n, s, 1
  {
    hide Judge, JudgeEntry, JudgeUnknown, Keeps, Carries;
    if i.Obj? {
      var d, d' := Reading(w, root, closed), Reading(w, root, closed');
      forall key, k, x | key in {"properties", "patternProperties"} && k in Fields(s.fields, key) && x in i.fields
        ensures JudgeEntry(d, n, want, role, s, key, k, i.fields[x]) ==>
            JudgeEntry(d', m, want, role, s, key, k, i.fields[x])
      {
        CarryEntry(w, root, closed, closed', n, m, want, role, s, key, k, i.fields[x]);
      }
      forall k | k in i.fields
        ensures JudgeUnknown(d, n, want, role, s, i.fields[k]) ==> JudgeUnknown(d', m, want, role, s, i.fields[k])
      {
        CarryUnknown(w, root, closed, closed', n, m, want, role, s, i.fields[k]);
      }
    }
  }

  lemma {:induction false} CarryEntry(w: World, root: Value, closed: bool, closed': bool, n: nat, m: nat, want: bool,
                                      role: Role, s: Value, key: string, k: string, x: Value)
    requires role.Readable() && n <= m && s.Obj? && Carries(w, root, closed, closed', n, want, role, s)
    requires key in {"properties", "patternProperties"} && k in Fields(s.fields, key)
    ensures JudgeEntry(Reading(w, root, closed), n, want, role, s, key, k, x) ==>
        JudgeEntry(Reading(w, root, closed'), m, want, role, s, key, k, x)
    decreases n, s, 0
  {
    assert KeyRole(KeyRole(role, key), k).Readable();
    hide Judge, KeyRole;
    assert closed != closed' ==> KeepsMap(AsClosed(w, root), n, want, role, s, key);
    assert closed != closed' ==> KeepsEntry(AsClosed(w, root), n, want, role, s, key, k);
    hide Keeps;
    assert s.fields[key] < s;
    Carry(w, root, closed, closed', n, m, want, KeyRole(KeyRole(role, key), k), Fields(s.fields, key)[k], x);
  }

  lemma {:induction false} CarryUnknown(w: World, root: Value, closed: bool, closed': bool, n: nat, m: nat,
                                        want: bool, role: Role, s: Value, x: Value)
    requires role.Readable() && n <= m && s.Obj? && Carries(w, root, closed, closed', n, want, role, s)
    ensures JudgeUnknown(Reading(w, root, closed), n, want, role, s, x) ==>
        JudgeUnknown(Reading(w, root, closed'), m, want, role, s, x)
    decreases n, s, 0
  {
    hide Judge, KeyRole, KeepsList, KeepsReference, KeepsItems, KeepsMap;
    SingleRole(role, "additionalProperties");
    assert closed != closed' ==> KeepsOne(AsClosed(w, root), n, want, role, s, "additionalProperties");
    hide Keeps;
    if "additionalProperties" in s.fields {
      Carry(w, root, closed, closed', n, m, want, KeyRole(role, "additionalProperties"),
          s.fields["additionalProperties"], x);
    }
  }

  lemma {:induction false} CarryItems(w: World, root: Value, closed: bool, closed': bool, n: nat, m: nat, want: bool,
                                      role: Role, s: Value, i: Value)
    requires role.Readable() && n <= m && s.Obj? && Carries(w, root, closed, closed', n, want, role, s)
    ensures JudgeItems(Reading(w, root, closed), n, want, role, s, i) ==>
        JudgeItems(Reading(w, root, closed'), m, want, role, s, i)
    decreases n, s, 0
  {
    hide Judge;
    assert closed != closed' ==> KeepsItems(AsClosed(w, root), n, want, role, s);
    hide Keeps, KeyRole;
    if i.Arr? && "items" in s.fields {
      var d, d' := Reading(w, root, closed), Reading(w, root, closed');
      var items, r := s.fields["items"], KeyRole(role, "items");
      if items.Arr? {
        forall k | 0 <= k < |items.elems| && k < |i.elems|
          ensures Judge(d, n, want, ElemRole(r), items.elems[k], i.elems[k]) ==>
              Judge(d', m, want, ElemRole(r), items.elems[k], i.elems[k])
        {
          Carry(w, root, closed, closed', n, m, want, ElemRole(r), items.elems[k], i.elems[k]);
        }
      } else {
        forall k | 0 <= k < |i.elems|
          ensures Judge(d, n, want, r, items, i.elems[k]) ==> Judge(d', m, want, r, items, i.elems[k])
        {
          Carry(w, root, closed, closed', n, m, want, r, items, i.elems[k]);
        }
      }
    }
  }

  predicate Implies(a: seq<bool>, b: seq<bool>) {
    |a| == |b| && forall k | 0 <= k < |a| :: a[k] ==> b[k]
  }

  lemma {:induction false} CarryVerdicts(w: World, root: Value, closed: bool, closed': bool, n: nat, m: nat,
                                         want: bool, role: Role, s: Value, key: string, i: Value)
    requires role.Readable() && n <= m && s.Obj? && key in LIST_KEYWORDS && HasList(s.fields, key)
    requires closed' == closed || (closed && KeepsList(AsClosed(w, root), n, want, role, s, key))
    ensures Implies(Verdicts(Reading(w, root, closed), n, want, role, s, key, i),
                    Verdicts(Reading(w, root, closed'), m, want, role, s, key, i))
    decreases n, s, 0
  {
    hide Judge, Keeps, KeyRole;
    var es, r := s.fields[key].elems, ElemRole(KeyRole(role, key));
    forall k | 0 <= k < |es|
      ensures Judge(Reading(w, root, closed), n, want, r, es[k], i) ==>
          Judge(Reading(w, root, closed'), m, want, r, es[k], i)
    {
      assert s.fields[key] < s;
      Carry(w, root, closed, closed', n, m, want, r, es[k], i);
    }
  }

  lemma ImpliesMonotone(yes: seq<bool>, yes': seq<bool>, no: seq<bool>, no': seq<bool>)
    requires Implies(yes, yes') && Implies(no, no') && |yes| == |no|
    ensures Each(yes) ==> Each(yes')
    ensures Any(yes) ==> Any(yes')
    ensures Several(yes) ==> Several(yes')
    ensures Single(yes, no) ==> Single(yes', no')
  {
  }

  lemma {:induction false} CarryLists(w: World, root: Value, closed: bool, closed': bool, n: nat, m: nat, want: bool,
                                      role: Role, s: Value, i: Value)
    requires role.Readable() && n <= m && s.Obj? && Carries(w, root, closed, closed', n, want, role, s)
    ensures JudgeLists(Reading(w, root, closed), n, want, role, s, i) ==>
        JudgeLists(Reading(w, root, closed'), m, want, role, s, i)
    decreases n, s, 2
  {
    hide Verdicts, Each, Any, Single, Several, Implies, KeepsList, KeepsReference, KeepsItems, KeepsOne, KeepsMap;
    var d, d' := Reading(w, root, closed), Reading(w, root, closed');
    forall key | key in {"allOf", "anyOf"} && HasList(s.fields, key)
      ensures Each(Verdicts(d, n, want, role, s, key, i)) ==> Each(Verdicts(d', m, want, role, s, key, i))
      ensures Any(Verdicts(d, n, want, role, s, key, i)) ==> Any(Verdicts(d', m, want, role, s, key, i))
    {
      CarryVerdicts(w, root, closed, closed', n, m, want, role, s, key, i);
      var a, b := Verdicts(d, n, want, role, s, key, i), Verdicts(d', m, want, role, s, key, i);
      ImpliesMonotone(a, b, a, b);
    }
    hide Keeps;
    if HasList(s.fields, "oneOf") { CarryOneOf(w, root, closed, closed', n, m, want, role, s, i); }
  }

  lemma {:induction false} CarryOneOf(w: World, root: Value, closed: bool, closed': bool, n: nat, m: nat, want: bool,
                                      role: Role, s: Value, i: Value)
    requires role.Readable() && n <= m && s.Obj? && Carries(w, root, closed, closed', n, want, role, s)
    requires HasList(s.fields, "oneOf")
    ensures
      var y := Verdicts(Reading(w, root, closed), n, true, role, s, "oneOf", i);
      var y' := Verdicts(Reading(w, root, closed'), m, true, role, s, "oneOf", i);
      var x := Verdicts(Reading(w, root, closed), n, false, role, s, "oneOf", i);
      var x' := Verdicts(Reading(w, root, closed'), m, false, role, s, "oneOf", i);
      (Single(y, x) ==> Single(y', x')) && (Each(x) ==> Each(x')) && (Several(y) ==> Several(y'))
    decreases n, s, 1
  {
    hide Verdicts, Each, Any, Single, Several, Implies, KeepsList, KeepsReference, KeepsItems, KeepsOne, KeepsMap;
    var d, d' := Reading(w, root, closed), Reading(w, root, closed');
    CarryVerdicts(w, root, closed, closed', n, m, true, role, s, "oneOf", i);
    CarryVerdicts(w, root, closed, closed', n, m, false, role, s, "oneOf", i);
    var y, y' := Verdicts(d, n, true, role, s, "oneOf", i), Verdicts(d', m, true, role, s, "oneOf", i);
    var x, x' := Verdicts(d, n, false, role, s, "oneOf", i), Verdicts(d', m, false, role, s, "oneOf", i);
    ImpliesMonotone(y, y', x, x');
    ImpliesMonotone(x, x', y, y');
  }

  lemma {:induction false} CarryNot(w: World, root: Value, closed: bool, closed': bool, n: nat, m: nat, want: bool,
                                    role: Role, s: Value, i: Value)
    requires role.Readable() && n <= m && s.Obj? && Carries(w, root, closed, closed', n, want, role, s)
    ensures JudgeNot(Reading(w, root, closed), n, want, role, s, i) ==>
        JudgeNot(Reading(w, root, closed'), m, want, role, s, i)
    decreases n, s, 1
  {
    hide Judge, KeyRole, KeepsList, KeepsReference, KeepsItems, KeepsMap;
    SingleRole(role, "not");
    assert closed != closed' ==> KeepsOne(AsClosed(w, root), n, !want, role, s, "not");
    hide Keeps;
    if "not" in s.fields {
      Carry(w, root, closed, closed', n, m, !want, KeyRole(role, "not"), s.fields["not"], i);
    }
  }

  lemma {:induction false} CarryIf(w: World, root: Value, closed: bool, closed': bool, n: nat, m: nat, want: bool,
                                   role: Role, s: Value, i: Value)
    requires role.Readable() && n <= m && s.Obj? && Carries(w, root, closed, closed', n, want, role, s)
    ensures JudgeIf(Reading(w, root, closed), n, want, role, s, i) ==>
        JudgeIf(Reading(w, root, closed'), m, want, role, s, i)
    decreases n, s, 1
  {
    hide Judge, JudgeBranch, KeepsList, KeepsReference, KeepsItems, KeepsOne, KeepsMap;
    if "if" in s.fields {
      CarryBranch(w, root, closed, closed', n, m, true, role, s, "if", i);
      CarryBranch(w, root, closed, closed', n, m, false, role, s, "if", i);
      CarryBranch(w, root, closed, closed', n, m, want, role, s, "then", i);
      CarryBranch(w, root, closed, closed', n, m, want, role, s, "else", i);
    }
  }

  lemma {:induction false} CarryBranch(w: World, root: Value, closed: bool, closed': bool, n: nat, m: nat, want: bool,
                                       role: Role, s: Value, key: string, i: Value)
    requires role.Readable() && n <= m && s.Obj? && key in {"if", "then", "else"}
    requires closed' == closed || (closed && KeepsOne(AsClosed(w, root), n, want, role, s, key))
    ensures JudgeBranch(Reading(w, root, closed), n, want, role, s, key, i) ==>
        JudgeBranch(Reading(w, root, closed'), m, want, role, s, key, i)
    decreases n, s, 0
  {
    hide Judge, Keeps, KeyRole;
    SingleRole(role, key);
    if key in s.fields { Carry(w, root, closed, closed', n, m, want, KeyRole(role, key), s.fields[key], i); }
  }

  /** The two readings resolve a reference alike, except for one to an additionalProperties
      that only the closed reading has. */
  lemma TargetReadings(w: World, root: Value, ref: string)
    ensures Target(AsClosed(w, root), ref) == Target(AsWritten(w, root), ref)
        || (Target(AsClosed(w, root), ref) == Option.Some((Bool(false), Schema)) &&
            Target(AsWritten(w, root), ref).None?)
  {
    match w.fragment(ref)
    case None =>
    case Some(path) => ResolveReadings(w.index, Schema, root, path);
  }

  lemma {:induction false} ResolveReadings(index: string -> Option<nat>, role: Role, v: Value, path: seq<string>)
    ensures Resolve(index, true, role, v, path) == Resolve(index, false, role, v, path)
        || (Resolve(index, true, role, v, path) == Option.Some((Bool(false), Schema)) &&
            Resolve(index, false, role, v, path).None?)
    decreases |path|
  {
    if path != [] {
      match v
      case Obj(m) =>
        if path[0] in m { ResolveReadings(index, KeyRole(role, path[0]), m[path[0]], path[1..]); }
      case Arr(es) =>
        match index(path[0]) {
          case Some(k) => if k < |es| { ResolveReadings(index, ElemRole(role), es[k], path[1..]); }
          case None =>
        }
      case _ =>
    }
  }

  lemma {:induction false} CarryReference(w: World, root: Value, closed: bool, closed': bool, n: nat, m: nat,
                                          want: bool, role: Role, s: Value, i: Value)
    requires role.Readable() && n <= m && s.Obj? && Carries(w, root, closed, closed', n, want, role, s)
    ensures JudgeReference(Reading(w, root, closed), n, want, s, i) ==>
        JudgeReference(Reading(w, root, closed'), m, want, s, i)
    decreases n, s, 0
  {
    hide Judge, Target;
    assert closed != closed' ==> KeepsReference(AsClosed(w, root), n, want, s);
    hide Keeps;
    if "$ref" in s.fields && s.fields["$ref"].Str? {
      var ref := s.fields["$ref"].s;
      TargetReadings(w, root, ref);
      match Target(Reading(w, root, closed), ref)
      case None =>
      case Some((t, r)) =>
        if n > 0 {
          Carry(w, root, closed, closed', n - 1, m - 1, want, r, t, i);
          FalseRejects(Reading(w, root, closed), n - 1, want, Schema, i);
        }
    }
  }

  // ---------- a schema never both accepts and rejects ----------

  lemma {:induction false} Exclusive(d: Reading, n: nat, role: Role, s: Value, i: Value)
    requires role.Readable()
    ensures !(Judge(d, n, true, role, s, i) && Judge(d, n, false, role, s, i))
    decreases n, s, 2
  {
    hide JudgeObject, JudgeItems, JudgeLists, JudgeNot, JudgeIf, JudgeReference;
    match s
    case Obj(_) =>
      ExclusiveObject(d, n, role, s, i);
      ExclusiveItems(d, n, role, s, i);
      ExclusiveLists(d, n, role, s, i);
      ExclusiveBranches(d, n, role, s, i);
      ExclusiveReference(d, n, role, s, i);
    case _ =>
  }

  lemma {:induction false} ExclusiveObject(d: Reading, n: nat, role: Role, s: Value, i: Value)
    requires role.Readable() && s.Obj?
    ensures !(JudgeObject(d, n, true, role, s, i) && JudgeObject(d, n, false, role, s, i))
    decreases n, s, 1
  {
    hide Judge, JudgeEntry, JudgeUnknown;
    if i.Obj? {
      forall key, k, x | key in {"properties", "patternProperties"} && k in Fields(s.fields, key) && x in i.fields
        ensures !(JudgeEntry(d, n, true, role, s, key, k, i.fields[x]) &&
            JudgeEntry(d, n, false, role, s, key, k, i.fields[x]))
      {
        ExclusiveEntry(d, n, role, s, key, k, i.fields[x]);
      }
      forall k | k in i.fields
        ensures !(JudgeUnknown(d, n, true, role, s, i.fields[k]) && JudgeUnknown(d, n, false, role, s, i.fields[k]))
      {
        ExclusiveUnknown(d, n, role, s, i.fields[k]);
      }
    }
  }

  lemma {:induction false} ExclusiveEntry(d: Reading, n: nat, role: Role, s: Value, key: string, k: string, x: Value)
    requires role.Readable() && s.Obj? && key in {"properties", "patternProperties"} && k in Fields(s.fields, key)
    ensures !(JudgeEntry(d, n, true, role, s, key, k, x) && JudgeEntry(d, n, false, role, s, key, k, x))
    decreases n, s, 0
  {
    hide Judge;
    assert s.fields[key] < s;
    Exclusive(d, n, KeyRole(KeyRole(role, key), k), Fields(s.fields, key)[k], x);
  }

  lemma {:induction false} ExclusiveUnknown(d: Reading, n: nat, role: Role, s: Value, x: Value)
    requires role.Readable() && s.Obj?
    ensures !(JudgeUnknown(d, n, true, role, s, x) && JudgeUnknown(d, n, false, role, s, x))
    decreases n, s, 0
  {
    hide Judge;
    if "additionalProperties" in s.fields {
      Exclusive(d, n, KeyRole(role, "additionalProperties"), s.fields["additionalProperties"], x);
    }
  }

  lemma {:induction false} ExclusiveItems(d: Reading, n: nat, role: Role, s: Value, i: Value)
    requires role.Readable() && s.Obj?
    ensures !(JudgeItems(d, n, true, role, s, i) && JudgeItems(d, n, false, role, s, i))
    decreases n, s, 0
  {
    hide Judge;
    if i.Arr? && "items" in s.fields {
      var items, r := s.fields["items"], KeyRole(role, "items");
      if items.Arr? {
        forall k | 0 <= k < |items.elems| && k < |i.elems|
          ensures !(Judge(d, n, true, ElemRole(r), items.elems[k], i.elems[k]) &&
              Judge(d, n, false, ElemRole(r), items.elems[k], i.elems[k]))
        {
          Exclusive(d, n, ElemRole(r), items.elems[k], i.elems[k]);
        }
      } else {
        forall k | 0 <= k < |i.elems|
          ensures !(Judge(d, n, true, r, items, i.elems[k]) && Judge(d, n, false, r, items, i.elems[k]))
        {
          Exclusive(d, n, r, items, i.elems[k]);
        }
      }
    }
  }

  lemma DisjointVerdicts(yes: seq<bool>, no: seq<bool>)
    requires |yes| == |no| && forall k | 0 <= k < |yes| :: !(yes[k] && no[k])
    ensures !(Each(yes) && Any(no)) && !(Any(yes) && Each(no))
    ensures !(Single(yes, no) && (Each(no) || Several(yes)))
  {
    if Single(yes, no) {
      var k :| 0 <= k < |yes| && yes[k] && forall l | 0 <= l < |no| && l != k :: no[l];
      assert !no[k];
    }
  }

  lemma {:induction false} ExclusiveVerdicts(d: Reading, n: nat, role: Role, s: Value, key: string, i: Value)
    requires role.Readable() && s.Obj? && key in LIST_KEYWORDS && HasList(s.fields, key)
    ensures
      var yes, no := Verdicts(d, n, true, role, s, key, i), Verdicts(d, n, false, role, s, key, i);
      && !(Each(yes) && Any(no)) && !(Any(yes) && Each(no))
      && !(Single(yes, no) && (Each(no) || Several(yes)))
    decreases n, s, 0
  {
    hide Judge;
    var es, r := s.fields[key].elems, ElemRole(KeyRole(role, key));
    forall k | 0 <= k < |es| ensures !(Judge(d, n, true, r, es[k], i) && Judge(d, n, false, r, es[k], i)) {
      assert s.fields[key] < s;
      Exclusive(d, n, r, es[k], i);
    }
    DisjointVerdicts(Verdicts(d, n, true, role, s, key, i), Verdicts(d, n, false, role, s, key, i));
  }

  lemma {:induction false} ExclusiveLists(d: Reading, n: nat, role: Role, s: Value, i: Value)
    requires role.Readable() && s.Obj?
    ensures !(JudgeLists(d, n, true, role, s, i) && JudgeLists(d, n, false, role, s, i))
    decreases n, s, 1
  {
    hide Verdicts, Each, Any, Single, Several;
    if HasList(s.fields, "allOf") { ExclusiveVerdicts(d, n, role, s, "allOf", i); }
    if HasList(s.fields, "anyOf") { ExclusiveVerdicts(d, n, role, s, "anyOf", i); }
    if HasList(s.fields, "oneOf") { ExclusiveVerdicts(d, n, role, s, "oneOf", i); }
  }

  lemma {:induction false} ExclusiveBranches(d: Reading, n: nat, role: Role, s: Value, i: Value)
    requires role.Readable() && s.Obj?
    ensures !(JudgeNot(d, n, true, role, s, i) && JudgeNot(d, n, false, role, s, i))
    ensures !(JudgeIf(d, n, true, role, s, i) && JudgeIf(d, n, false, role, s, i))
    decreases n, s, 1
  {
    hide Judge, JudgeBranch;
    if "not" in s.fields { Exclusive(d, n, KeyRole(role, "not"), s.fields["not"], i); }
    ExclusiveBranch(d, n, role, s, "if", i);
    ExclusiveBranch(d, n, role, s, "then", i);
    ExclusiveBranch(d, n, role, s, "else", i);
  }

  lemma {:induction false} ExclusiveBranch(d: Reading, n: nat, role: Role, s: Value, key: string, i: Value)
    requires role.Readable() && s.Obj? && key in {"if", "then", "else"}
    ensures !(JudgeBranch(d, n, true, role, s, key, i) && JudgeBranch(d, n, false, role, s, key, i))
    decreases n, s, 0
  {
    hide Judge;
    if key in s.fields { Exclusive(d, n, KeyRole(role, key), s.fields[key], i); }
  }

  lemma {:induction false} ExclusiveReference(d: Reading, n: nat, role: Role, s: Value, i: Value)
    requires role.Readable() && s.Obj?
    ensures !(JudgeReference(d, n, true, s, i) && JudgeReference(d, n, false, s, i))
    decreases n, s, 0
  {
    hide Judge, Target;
    if "$ref" in s.fields && s.fields["$ref"].Str? {
      match Target(d, s.fields["$ref"].s)
      case None =>
      case Some((t, r)) => if n > 0 { Exclusive(d, n - 1, r, t, i); }
    }
  }

  // ---------- main results ----------

  /** No instance is both accepted and rejected, however many references either takes. */
  lemma AcceptsOrRejects(d: Reading, i: Value)
    ensures !(Accepts(d, i) && Rejects(d, i))
  {
    hide Judge;
    if Accepts(d, i) && Rejects(d, i) {
      var n: nat :| Judge(d, n, true, Schema, d.root, i);
      var m: nat :| Judge(d, m, false, Schema, d.root, i);
      var top := if n <= m then m else n;
      Carry(d.world, d.root, d.closed, d.closed, n, top, true, Schema, d.root, i);
      Carry(d.world, d.root, d.closed, d.closed, m, top, false, Schema, d.root, i);
      assert d == Reading(d.world, d.root, d.closed);
      Exclusive(d, top, Schema, d.root, i);
    }
  }

  /** Where acceptance carries over, as without not, oneOf and if, or under an even number of nots, the
      strict schema only takes instances away. */
  lemma StrictNarrows(w: World, schema: Value, i: Value)
    requires forall n: nat :: Keeps(AsClosed(w, schema), n, true, Schema, schema)
    ensures Accepts(AsWritten(w, Strict(schema)), i) ==> Accepts(AsWritten(w, schema), i)
  {
    StrictCarries(w, schema, true, i);
  }

  /** Where rejection carries over, as when what needs closing stands under an odd number of nots, it
      only adds some. */
  lemma StrictWidens(w: World, schema: Value, i: Value)
    requires forall n: nat :: Keeps(AsClosed(w, schema), n, false, Schema, schema)
    ensures Rejects(AsWritten(w, Strict(schema)), i) ==> Rejects(AsWritten(w, schema), i)
  {
    StrictCarries(w, schema, false, i);
  }

  lemma StrictCarries(w: World, schema: Value, want: bool, i: Value)
    requires forall n: nat :: Keeps(AsClosed(w, schema), n, want, Schema, schema)
    ensures want && Accepts(AsWritten(w, Strict(schema)), i) ==> Accepts(AsWritten(w, schema), i)
    ensures !want && Rejects(AsWritten(w, Strict(schema)), i) ==> Rejects(AsWritten(w, schema), i)
  {
    hide Judge, Keeps;
    StrictIsClosedReading(w, schema, i);
    if n: nat :| Judge(AsClosed(w, schema), n, want, Schema, schema, i) {
      Carry(w, schema, true, false, n, n, want, Schema, schema, i);
    }
  }

  /** A sub-schema with an empty list of properties, and an object with an unknown key. */
  const NO_PROPERTIES := Obj(map["properties" := Obj(map[])])
  const UNKNOWN_KEY := Obj(map["a" := Null])

  lemma OpenOrClosed(d: Reading)
    ensures Judge(d, 0, !d.closed, Schema, NO_PROPERTIES, UNKNOWN_KEY)
  {
    if d.closed {
      assert JudgeUnknown(d, 0, false, Schema, NO_PROPERTIES, UNKNOWN_KEY.fields["a"]);
      assert Unknown(d.world, NO_PROPERTIES.fields, "a");
      assert JudgeObject(d, 0, false, Schema, NO_PROPERTIES, UNKNOWN_KEY);
    }
  }

  lemma JudgeOnlyNot(d: Reading, want: bool, x: Value, i: Value)
    requires Judge(d, 0, !want, Schema, x, i)
    ensures Judge(d, 0, want, Schema, Obj(map["not" := x]), i)
  {
  }

  /** With not, it can do the opposite: {"not": {"properties": {}}} accepts no object, and
      its strict form accepts {"a": null}. */
  lemma StrictWidensUnderNot(w: World)
    ensures
      var schema := Obj(map["not" := NO_PROPERTIES]);
      Rejects(AsWritten(w, schema), UNKNOWN_KEY) && Accepts(AsWritten(w, Strict(schema)), UNKNOWN_KEY)
  {
    var schema := Obj(map["not" := NO_PROPERTIES]);
    OpenOrClosed(AsWritten(w, schema));
    OpenOrClosed(AsClosed(w, schema));
    hide Judge;
    JudgeOnlyNot(AsWritten(w, schema), false, NO_PROPERTIES, UNKNOWN_KEY);
    JudgeOnlyNot(AsClosed(w, schema), true, NO_PROPERTIES, UNKNOWN_KEY);
    StrictIsClosedReading(w, schema, UNKNOWN_KEY);
  }

  /** A schema with none but these keywords leaves the verdict to them. */
  lemma OtherKeywordsAccept(d: Reading, s: Value, i: Value)
    requires s.Obj? && s.fields.Keys <= {"oneOf", "if", "then"}
    ensures JudgeKeywords(d, true, s.fields, i) && JudgeObject(d, 0, true, Schema, s, i) &&
        JudgeItems(d, 0, true, Schema, s, i)
    ensures JudgeNot(d, 0, true, Schema, s, i) && JudgeReference(d, 0, true, s, i)
    ensures "oneOf" !in s.fields ==> JudgeLists(d, 0, true, Schema, s, i)
    ensures "if" !in s.fields ==> JudgeIf(d, 0, true, Schema, s, i)
  {
  }

  /** One of a sub-schema and true: accepted exactly if the sub-schema rejects. */
  lemma JudgeThisOrTrue(d: Reading, want: bool, x: Value, i: Value)
    requires Judge(d, 0, !want, Schema, x, i)
    ensures Judge(d, 0, want, Schema, Obj(map["oneOf" := Arr([x, Bool(true)])]), i)
  {
    var s := Obj(map["oneOf" := Arr([x, Bool(true)])]);
    OtherKeywordsAccept(d, s, i);
    var yes, no := Verdicts(d, 0, true, Schema, s, "oneOf", i), Verdicts(d, 0, false, Schema, s, "oneOf", i);
    assert ElemRole(KeyRole(Schema, "oneOf")) == Schema;
    assert s.fields["oneOf"].elems == [x, Bool(true)];
    assert yes[0] == Judge(d, 0, true, Schema, x, i) && no[0] == Judge(d, 0, false, Schema, x, i);
    assert yes[1] == Judge(d, 0, true, Schema, Bool(true), i);
    assert if want then Single(yes, no) else Several(yes);
    hide Verdicts, Single, Several, JudgeKeywords, JudgeObject, JudgeItems, JudgeNot, JudgeIf, JudgeReference;
  }

  /** So it can with oneOf: {"oneOf": [{"properties": {}}, true]}. */
  lemma StrictWidensUnderOneOf(w: World)
    ensures
      var schema := Obj(map["oneOf" := Arr([NO_PROPERTIES, Bool(true)])]);
      Rejects(AsWritten(w, schema), UNKNOWN_KEY) && Accepts(AsWritten(w, Strict(schema)), UNKNOWN_KEY)
  {
    var schema := Obj(map["oneOf" := Arr([NO_PROPERTIES, Bool(true)])]);
    OpenOrClosed(AsWritten(w, schema));
    OpenOrClosed(AsClosed(w, schema));
    hide Judge;
    JudgeThisOrTrue(AsWritten(w, schema), false, NO_PROPERTIES, UNKNOWN_KEY);
    JudgeThisOrTrue(AsClosed(w, schema), true, NO_PROPERTIES, UNKNOWN_KEY);
    StrictIsClosedReading(w, schema, UNKNOWN_KEY);
  }

  /** Nothing more to accept if a sub-schema does: accepted exactly if it rejects. */
  lemma JudgeIfThen(d: Reading, want: bool, x: Value, i: Value)
    requires Judge(d, 0, !want, Schema, x, i)
    ensures Judge(d, 0, want, Schema, Obj(map["if" := x, "then" := Bool(false)]), i)
  {
    var s := Obj(map["if" := x, "then" := Bool(false)]);
    OtherKeywordsAccept(d, s, i);
    assert KeyRole(Schema, "if") == KeyRole(Schema, "then") == Schema;
    assert JudgeBranch(d, 0, !want, Schema, s, "if", i);
    assert JudgeBranch(d, 0, want, Schema, s, if want then "else" else "then", i);
    assert JudgeIf(d, 0, want, Schema, s, i);
    hide JudgeKeywords, JudgeObject, JudgeItems, JudgeLists, JudgeNot, JudgeIf, JudgeReference;
  }

  /** And with if: {"if": {"properties": {}}, "then": false}. */
  lemma StrictWidensUnderIf(w: World)
    ensures
      var schema := Obj(map["if" := NO_PROPERTIES, "then" := Bool(false)]);
      Rejects(AsWritten(w, schema), UNKNOWN_KEY) && Accepts(AsWritten(w, Strict(schema)), UNKNOWN_KEY)
  {
    var schema := Obj(map["if" := NO_PROPERTIES, "then" := Bool(false)]);
    OpenOrClosed(AsWritten(w, schema));
    OpenOrClosed(AsClosed(w, schema));
    hide Judge;
    JudgeIfThen(AsWritten(w, schema), false, NO_PROPERTIES, UNKNOWN_KEY);
    JudgeIfThen(AsClosed(w, schema), true, NO_PROPERTIES, UNKNOWN_KEY);
    StrictIsClosedReading(w, schema, UNKNOWN_KEY);
  }
}
