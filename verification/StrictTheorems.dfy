/** The strict rewrite gives a schema exactly its closed reading. */
module StrictTheorems {
  import opened Json
  import opened StrictRewrite
  import opened StrictMeaning

  function AsWritten(w: World, schema: Value): Reading { Reading(w, schema, false) }

  function AsClosed(w: World, schema: Value): Reading { Reading(w, schema, true) }

  // ---------- the rewritten schema means the closed reading ----------

  /** What the strict schema accepts and rejects, taken at its word, is what the original accepts
      and rejects in the closed reading: for every schema, cyclic references included, and every instance. */
  lemma StrictIsClosedReading(w: World, schema: Value, i: Value)
    ensures Accepts(AsWritten(w, Strict(schema)), i) <==> Accepts(AsClosed(w, schema), i)
    ensures Rejects(AsWritten(w, Strict(schema)), i) <==> Rejects(AsClosed(w, schema), i)
  {
    forall n: nat, want
      ensures Judge(AsWritten(w, Strict(schema)), n, want, Schema, Strict(schema), i)
              <==> Judge(AsClosed(w, schema), n, want, Schema, schema, i)
    {
      SameVerdict(w, schema, n, want, Schema, schema, i);
    }
  }

  /** The verdicts agree at every bound and at every place of the document. */
  lemma {:induction false} SameVerdict(w: World, root: Value, n: nat, want: bool, role: Role, s: Value, i: Value)
    requires role.Readable()
    ensures Judge(AsWritten(w, Strict(root)), n, want, role, Close(role, s), i) <==>
        Judge(AsClosed(w, root), n, want, role, s, i)
    decreases n, s, 2
  {
    hide JudgeObject, JudgeItems, JudgeLists, JudgeNot, JudgeIf, JudgeReference;
    match s
    case Obj(m) =>
      SameKeywords(w, root, want, role, s, i);
      SameObject(w, root, n, want, role, s, i);
      SameItems(w, root, n, want, role, s, i);
      SameLists(w, root, n, want, role, s, i);
      SameBranches(w, root, n, want, role, s, i);
      SameReference(w, root, n, want, role, s, i);
    case _ =>
  }

  lemma CloseField(role: Role, s: Value, key: string)
    requires s.Obj?
    ensures Close(role, s).Obj?
    ensures key != "additionalProperties" ==> (key in Close(role, s).fields <==> key in s.fields)
    ensures key in s.fields ==>
              key in Close(role, s).fields && Close(role, s).fields[key] == Close(KeyRole(role, key), s.fields[key])
  {
  }

  lemma CloseOther(role: Role, s: Value, key: string)
    requires role.Readable() && s.Obj? && (!Interpreted(key) || key == "$ref")
    ensures Close(role, s).Obj?
    ensures key in s.fields <==> key in Close(role, s).fields
    ensures key in s.fields ==> Close(role, s).fields[key] == s.fields[key]
  {
    hide Close;
    CloseField(role, s, key);
    if key in s.fields { ClosePlain(s.fields[key]); }
  }

  lemma CloseMap(role: Role, s: Value, key: string)
    requires role.Readable() && s.Obj? && key in {"properties", "patternProperties"}
    ensures Close(role, s).Obj?
    ensures Fields(Close(role, s).fields, key).Keys == Fields(s.fields, key).Keys
  {
  }

  lemma FalseRejects(d: Reading, n: nat, want: bool, role: Role, i: Value)
    requires role.Readable()
    ensures Judge(d, n, want, role, Bool(false), i) <==> !want
  {
  }

  lemma SameKeywords(w: World, root: Value, want: bool, role: Role, s: Value, i: Value)
    requires role.Readable() && s.Obj?
    ensures Close(role, s).Obj?
    ensures JudgeKeywords(AsWritten(w, Strict(root)), want, Close(role, s).fields, i) <==>
        JudgeKeywords(AsClosed(w, root), want, s.fields, i)
  {
    hide Close, Interpreted;
    CloseField(role, s, "");
    forall k | !Interpreted(k)
      ensures k in s.fields <==> k in Close(role, s).fields
      ensures k in s.fields ==> Close(role, s).fields[k] == s.fields[k]
    {
      CloseOther(role, s, k);
    }
  }

  lemma {:induction false} SameEntry(w: World, root: Value, n: nat, want: bool, role: Role, s: Value, key: string,
          k: string, x: Value)
    requires role.Readable() && s.Obj? && key in {"properties", "patternProperties"} && k in Fields(s.fields, key)
    ensures k in Fields(Close(role, s).fields, key)
    ensures JudgeEntry(AsWritten(w, Strict(root)), n, want, role, Close(role, s), key, k, x)
            <==> JudgeEntry(AsClosed(w, root), n, want, role, s, key, k, x)
    decreases n, s, 0
  {
    hide Judge;
    CloseField(role, s, key);
    assert s.fields[key] < s;
    SameVerdict(w, root, n, want, KeyRole(KeyRole(role, key), k), Fields(s.fields, key)[k], x);
  }

  lemma {:induction false} SameUnknown(w: World, root: Value, n: nat, want: bool, role: Role, s: Value, x: Value)
    requires role.Readable() && s.Obj?
    ensures JudgeUnknown(AsWritten(w, Strict(root)), n, want, role, Close(role, s), x) <==>
        JudgeUnknown(AsClosed(w, root), n, want, role, s, x)
    decreases n, s, 0
  {
    hide Judge;
    CloseField(role, s, "additionalProperties");
    FalseRejects(AsWritten(w, Strict(root)), n, want, Schema, x);
    if "additionalProperties" in s.fields {
      SameVerdict(w, root, n, want, KeyRole(role, "additionalProperties"), s.fields["additionalProperties"], x);
    }
  }

  lemma {:induction false} SameObject(w: World, root: Value, n: nat, want: bool, role: Role, s: Value, i: Value)
    requires role.Readable() && s.Obj?
    ensures JudgeObject(AsWritten(w, Strict(root)), n, want, role, Close(role, s), i) <==>
        JudgeObject(AsClosed(w, root), n, want, role, s, i)
    decreases n, s, 1
  {
    hide Judge, JudgeEntry, JudgeUnknown, Close, Fields;
    if i.Obj? {
      var d', d, c := AsWritten(w, Strict(root)), AsClosed(w, root), Close(role, s);
      CloseMap(role, s, "properties");
      CloseMap(role, s, "patternProperties");
      forall k, x | k in Fields(s.fields, "properties") && x in i.fields
        ensures JudgeEntry(d', n, want, role, c, "properties", k, i.fields[x]) <==>
            JudgeEntry(d, n, want, role, s, "properties", k, i.fields[x])
      {
        SameEntry(w, root, n, want, role, s, "properties", k, i.fields[x]);
      }
      forall k, x | k in Fields(s.fields, "patternProperties") && x in i.fields
        ensures JudgeEntry(d', n, want, role, c, "patternProperties", k, i.fields[x]) <==>
            JudgeEntry(d, n, want, role, s, "patternProperties", k, i.fields[x])
      {
        SameEntry(w, root, n, want, role, s, "patternProperties", k, i.fields[x]);
      }
      forall k | k in i.fields
        ensures Unknown(w, c.fields, k) <==> Unknown(w, s.fields, k)
        ensures JudgeUnknown(d', n, want, role, c, i.fields[k]) <==> JudgeUnknown(d, n, want, role, s, i.fields[k])
      {
        SameUnknown(w, root, n, want, role, s, i.fields[k]);
      }
    }
  }

  lemma {:induction false} SameItems(w: World, root: Value, n: nat, want: bool, role: Role, s: Value, i: Value)
    requires role.Readable() && s.Obj?
    ensures JudgeItems(AsWritten(w, Strict(root)), n, want, role, Close(role, s), i) <==>
        JudgeItems(AsClosed(w, root), n, want, role, s, i)
    decreases n, s, 0
  {
    hide Judge;
    CloseField(role, s, "items");
    if i.Arr? && "items" in s.fields {
      var d', d, items, r := AsWritten(w, Strict(root)), AsClosed(w, root), s.fields["items"], KeyRole(role, "items");
      if items.Arr? {
        forall k | 0 <= k < |items.elems| && k < |i.elems|
          ensures Judge(d', n, want, ElemRole(r), Close(r, items).elems[k], i.elems[k])
                  <==> Judge(d, n, want, ElemRole(r), items.elems[k], i.elems[k])
        {
          SameVerdict(w, root, n, want, ElemRole(r), items.elems[k], i.elems[k]);
        }
      } else {
        forall k | 0 <= k < |i.elems|
          ensures Judge(d', n, want, r, Close(r, items), i.elems[k]) <==> Judge(d, n, want, r, items, i.elems[k])
        {
          SameVerdict(w, root, n, want, r, items, i.elems[k]);
        }
      }
    }
  }

  lemma {:induction false} SameVerdicts(w: World, root: Value, n: nat, want: bool, role: Role, s: Value, key: string,
          i: Value)
    requires role.Readable() && s.Obj? && key in LIST_KEYWORDS && HasList(s.fields, key)
    ensures HasList(Close(role, s).fields, key)
    ensures Verdicts(AsWritten(w, Strict(root)), n, want, role, Close(role, s), key, i) ==
        Verdicts(AsClosed(w, root), n, want, role, s, key, i)
    decreases n, s, 0
  {
    hide Judge;
    CloseField(role, s, key);
    var es, r := s.fields[key].elems, ElemRole(KeyRole(role, key));
    var es' := Close(role, s).fields[key].elems;
    forall k | 0 <= k < |es|
      ensures Judge(AsWritten(w, Strict(root)), n, want, r, es'[k], i) <==>
          Judge(AsClosed(w, root), n, want, r, es[k], i)
    {
      assert s.fields[key] < s;
      SameVerdict(w, root, n, want, r, es[k], i);
    }
  }

  lemma {:induction false} SameLists(w: World, root: Value, n: nat, want: bool, role: Role, s: Value, i: Value)
    requires role.Readable() && s.Obj?
    ensures JudgeLists(AsWritten(w, Strict(root)), n, want, role, Close(role, s), i) <==>
        JudgeLists(AsClosed(w, root), n, want, role, s, i)
    decreases n, s, 1
  {
    hide Verdicts, Each, Any, Single, Several, Close;
    CloseField(role, s, "allOf");
    CloseField(role, s, "anyOf");
    CloseField(role, s, "oneOf");
    SameListKind(role, s);
    if HasList(s.fields, "allOf") { SameVerdicts(w, root, n, want, role, s, "allOf", i); }
    if HasList(s.fields, "anyOf") { SameVerdicts(w, root, n, want, role, s, "anyOf", i); }
    if HasList(s.fields, "oneOf") {
      SameVerdicts(w, root, n, true, role, s, "oneOf", i);
      SameVerdicts(w, root, n, false, role, s, "oneOf", i);
    }
  }

  lemma SameListKind(role: Role, s: Value)
    requires s.Obj?
    ensures Close(role, s).Obj?
    ensures forall key | key in LIST_KEYWORDS :: HasList(Close(role, s).fields, key) <==> HasList(s.fields, key)
  {
  }

  lemma {:induction false} SameBranches(w: World, root: Value, n: nat, want: bool, role: Role, s: Value, i: Value)
    requires role.Readable() && s.Obj?
    ensures JudgeNot(AsWritten(w, Strict(root)), n, want, role, Close(role, s), i) <==>
        JudgeNot(AsClosed(w, root), n, want, role, s, i)
    ensures JudgeIf(AsWritten(w, Strict(root)), n, want, role, Close(role, s), i) <==>
        JudgeIf(AsClosed(w, root), n, want, role, s, i)
    decreases n, s, 1
  {
    hide Judge, JudgeBranch;
    CloseField(role, s, "not");
    CloseField(role, s, "if");
    if "not" in s.fields { SameVerdict(w, root, n, !want, KeyRole(role, "not"), s.fields["not"], i); }
    SameBranch(w, root, n, true, role, s, "if", i);
    SameBranch(w, root, n, false, role, s, "if", i);
    SameBranch(w, root, n, want, role, s, "then", i);
    SameBranch(w, root, n, want, role, s, "else", i);
  }

  lemma {:induction false} SameBranch(w: World, root: Value, n: nat, want: bool, role: Role, s: Value, key: string,
          i: Value)
    requires role.Readable() && s.Obj? && key in {"if", "then", "else"}
    ensures JudgeBranch(AsWritten(w, Strict(root)), n, want, role, Close(role, s), key, i) <==>
        JudgeBranch(AsClosed(w, root), n, want, role, s, key, i)
    decreases n, s, 0
  {
    hide Judge;
    CloseField(role, s, key);
    if key in s.fields { SameVerdict(w, root, n, want, KeyRole(role, key), s.fields[key], i); }
  }

  lemma SameTarget(w: World, root: Value, ref: string)
    ensures Target(AsWritten(w, Strict(root)), ref) ==
            match Target(AsClosed(w, root), ref)
            case Some((t, r)) => Some((Close(r, t), r))
            case None => None
  {
    match w.fragment(ref)
    case None =>
    case Some(path) => CloseLocations(w.index, Schema, root, path);
  }

  lemma {:induction false} SameReference(w: World, root: Value, n: nat, want: bool, role: Role, s: Value, i: Value)
    requires role.Readable() && s.Obj?
    ensures Close(role, s).Obj?
    ensures JudgeReference(AsWritten(w, Strict(root)), n, want, Close(role, s), i) <==>
        JudgeReference(AsClosed(w, root), n, want, s, i)
    decreases n, s, 0
  {
    hide Judge, Target, Close, Strict;
    CloseOther(role, s, "$ref");
    if "$ref" in s.fields && s.fields["$ref"].Str? {
      var ref := s.fields["$ref"].s;
      SameTarget(w, root, ref);
      match Target(AsClosed(w, root), ref)
      case None =>
      case Some((t, r)) => if n > 0 { SameVerdict(w, root, n - 1, want, r, t, i); }
    }
  }
}
