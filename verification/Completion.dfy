/** The property names offered at a cursor (completionItemsForProperties in internal/lsp/schema_walker.go). */
module Completion {
  import opened Cursor
  import opened EffectiveSchema
  import opened Json
  import opened KeySpelling
  import opened Pointers
  import opened PositionIndex
  import opened Sorting

  datatype Offer = Offer(name: string, sortText: string, preselect: bool)

  function SortText(required: set<string>, name: string): string {
    (if name in required then "0_" else "1_") + name
  }

  predicate OfferBefore(a: Offer, b: Offer) {
    if a.sortText != b.sortText then StringLeq(a.sortText, b.sortText) else StringLeq(a.name, b.name)
  }

  lemma OfferBeforeIsPreorder()
    ensures TotalPreorder(OfferBefore)
  {
    forall a, b ensures OfferBefore(a, b) || OfferBefore(b, a) {
      StringLeqTotal(a.sortText, b.sortText);
      StringLeqTotal(a.name, b.name);
    }
    forall a, b, c | OfferBefore(a, b) && OfferBefore(b, c) ensures OfferBefore(a, c) {
      OfferBeforeTransitive(a, b, c);
    }
  }

  lemma OfferBeforeTransitive(a: Offer, b: Offer, c: Offer)
    requires OfferBefore(a, b) && OfferBefore(b, c)
    ensures OfferBefore(a, c)
  {
    if StringLeq(a.sortText, b.sortText) && StringLeq(b.sortText, c.sortText) {
      StringLeqTransitive(a.sortText, b.sortText, c.sortText);
    }
    if StringLeq(a.name, b.name) && StringLeq(b.name, c.name) { StringLeqTransitive(a.name, b.name, c.name); }
    StringLeqTotal(a.sortText, b.sortText);
    StringLeqTotal(b.sortText, c.sortText);
  }

  lemma {:induction false} StringLeqPrefix(prefix: string, a: string, b: string)
    ensures StringLeq(prefix + a, prefix + b) == StringLeq(a, b)
  {
    if prefix == "" {
      assert prefix + a == a && prefix + b == b;
    } else {
      StringLeqPrefix(prefix[1..], a, b);
      assert (prefix + a)[0] == (prefix + b)[0];
      assert (prefix + a)[1..] == prefix[1..] + a && (prefix + b)[1..] == prefix[1..] + b;
    }
  }

  /** Required names come before the others, each group in alphabetical order. */
  predicate Ranked(required: set<string>, a: string, b: string) {
    if a in required then b in required ==> StringLeq(a, b) else b !in required && StringLeq(a, b)
  }

  lemma SortTextRanks(required: set<string>, a: string, b: string)
    requires OfferBefore(Offer(a, SortText(required, a), false), Offer(b, SortText(required, b), false))
    ensures Ranked(required, a, b)
  {
    StringLeqPrefix("0_", a, b);
    StringLeqPrefix("1_", a, b);
    StringLeqTotal(a, b);
    if a !in required && b in required {
      assert false;
    }
    if (a in required) == (b in required) && SortText(required, a) == SortText(required, b) {
      assert a == SortText(required, a)[2..] && b == SortText(required, b)[2..];
    }
  }

  ghost predicate Offered(offers: seq<Offer>, name: string) {
    exists i | 0 <= i < |offers| :: offers[i].name == name
  }

  /** The names offered are exactly the given names, each once, ranked; the first is preselected,
      and only if it is required. */
  ghost predicate Offers(offers: seq<Offer>, names: set<string>, required: set<string>) {
    && (forall name :: name in names <==> Offered(offers, name))
    && (forall i, j | 0 <= i < j < |offers| ::
        offers[i].name != offers[j].name && Ranked(required, offers[i].name, offers[j].name))
    && (forall i | 0 <= i < |offers| ::
          offers[i].sortText == (if offers[i].name in required then "0_" else "1_") + offers[i].name)
    && (forall i | 0 <= i < |offers| :: offers[i].preselect <==> i == 0 && offers[i].name in required)
  }

  function Missing(g: Graph, id: Id, existing: seq<string>): set<string> {
    Properties(g, id, 0).Keys - (set name | name in existing)
  }

  /** Nothing is offered where the schema has no properties. */
  method CompleteProperties(g: Graph, id: Id, existing: seq<string>) returns (offers: seq<Offer>)
    ensures Offers(offers, Missing(g, id, existing), Required(g, id, 0))
  {
    hide StringLeq, SortText, Offers, Each, SortedEach, OfferBefore, Required, Properties;
    var properties := EffectiveProperties(g, id, 0);
    if properties == map[] {
      assert Missing(g, id, existing) == {};
      NoOffers(Required(g, id, 0));
      return [];
    }
    var required := CollectRequired(g, id, {}, 0);
    var names := properties.Keys - (set name | name in existing);
    assert required == Required(g, id, 0) && names == Missing(g, id, existing);
    var list := OfferEach(names, required);
    OfferBeforeIsPreorder();
    SortCorrect(OfferBefore, list);
    offers := Sort(OfferBefore, list);
    SortedOffers(list, offers, names, required);
    offers := Preselect(offers, names, required);
  }

  lemma NoOffers(required: set<string>)
    ensures Offers([], {}, required)
  {
  }

  function Unmarked(name: string, required: set<string>): Offer { Offer(name, SortText(required, name), false) }

  /** One offer a name, in any order. */
  ghost predicate Each(list: seq<Offer>, names: set<string>, required: set<string>) {
    && Distinct(list)
    && forall offer :: offer in list <==> offer.name in names && offer == Unmarked(offer.name, required)
  }

  method OfferEach(names: set<string>, required: set<string>) returns (list: seq<Offer>)
    ensures Each(list, names, required)
  {
    hide SortText;
    var order := AnyOrder(names);
    list := [];
    for i := 0 to |order|
      invariant |list| == i && forall k | 0 <= k < i :: list[k] == Offer(order[k], SortText(required, order[k]), false)
    {
      list := list + [Offer(order[i], SortText(required, order[i]), false)];
    }
    forall offer ensures offer in list <==> offer.name in names && offer == Unmarked(offer.name, required) {
      if offer.name in names && offer == Unmarked(offer.name, required) {
        var k :| 0 <= k < |order| && order[k] == offer.name;
        assert list[k] == offer;
      }
    }
  }

  /** As Offers, before any is preselected. */
  ghost predicate SortedEach(offers: seq<Offer>, names: set<string>, required: set<string>) {
    && (forall name :: name in names <==> Offered(offers, name))
    && (forall i, j | 0 <= i < j < |offers| ::
        offers[i].name != offers[j].name && Ranked(required, offers[i].name, offers[j].name))
    && (forall i | 0 <= i < |offers| :: offers[i] == Offer(offers[i].name, SortText(required, offers[i].name), false))
  }

  lemma SortedOffers(list: seq<Offer>, offers: seq<Offer>, names: set<string>, required: set<string>)
    requires Each(list, names, required) && Sorted(OfferBefore, offers) && multiset(list) == multiset(offers)
    ensures SortedEach(offers, names, required)
  {
    hide SortText, Ranked, OfferBefore;
    DistinctPermutes(list, offers);
    assert forall i | 0 <= i < |offers| :: offers[i] in offers;
    forall name ensures name in names <==> Offered(offers, name) {
      if name in names {
        var offer := Offer(name, SortText(required, name), false);
        assert offer in offers;
      }
    }
    forall i, j | 0 <= i < j < |offers|
        ensures offers[i].name != offers[j].name && Ranked(required, offers[i].name, offers[j].name) {
      assert offers[i] in list && offers[j] in list;
      SortTextRanks(required, offers[i].name, offers[j].name);
    }
  }

  /** Mark the first offer of a required name. */
  method Preselect(sorted: seq<Offer>, names: set<string>, required: set<string>) returns (offers: seq<Offer>)
    requires SortedEach(sorted, names, required)
    ensures Offers(offers, names, required)
  {
    offers := sorted;
    for i := 0 to |offers|
      invariant offers == sorted && forall k | 0 <= k < i :: sorted[k].name !in required
    {
      if offers[i].name in required {
        assert i > 0 ==> Ranked(required, sorted[0].name, sorted[i].name);
        assert i == 0;
        offers := offers[i := offers[i].(preselect := true)];
        SameLabels(sorted, offers, names);
        return;
      }
    }
  }

  lemma SameLabels(a: seq<Offer>, b: seq<Offer>, names: set<string>)
    requires |a| == |b| && forall i | 0 <= i < |a| :: a[i].name == b[i].name
    requires forall name :: name in names <==> Offered(a, name)
    ensures forall name :: name in names <==> Offered(b, name)
  {
    forall name ensures Offered(a, name) == Offered(b, name) {
      if i :| 0 <= i < |a| && a[i].name == name { assert b[i].name == name; }
    }
  }

  // ---------- what is offered in a document ----------

  ghost predicate Declared(g: Graph, id: Id, name: string) {
    exists path :: Declares(g, id, 16, path, name)
  }

  /** For every name: it is offered exactly if the schema has it and no positioned key of the mapping
      is written so that its escaped text is the name. */
  lemma OffersExactly(g: Graph, id: Id, body: Node, nodes: Index, path: Path,
          existing: seq<string>, offers: seq<Offer>, name: string)
    requires DistinctKeys(body) && IsImage(Walk(body, [], map[]), nodes) &&
        ListsChildren(nodes, Pointer(path), existing)
    requires Offers(offers, Missing(g, id, existing), Required(g, id, 0))
    ensures Offered(offers, name) <==>
            Declared(g, id, name) &&
            !exists text :: Escape(text) == name && PositionIndex.PositionAt(body, path + [text]).Some?
    ensures Offered(offers, name) <==> Declared(g, id, name) && !ListedAs(body, path, name)
  {
    ExistingKeysExact(body, nodes, path, existing, name);
    PropertiesExact(g, id, name);
    hide Properties, Declares, Ranked, SortText, Walk, IsImage, ListsChildren, DistinctKeys, Offered,
        PositionIndex.PositionAt;
    assert name in Missing(g, id, existing) <==> Offered(offers, name);
  }

  /** The mapping of the instance at a path has a key of this name. */
  predicate HasKey(body: Node, instance: Path, name: string) {
    InstanceAt(body, instance + [name]).Some?
  }

  /** The offer of a declared name is right, made if and only if the key is missing, exactly when the
      key is there if and only if some positioned key the walk finds there is written as the unescaped
      name. */
  lemma OffersMissingIff(g: Graph, id: Id, body: Node, nodes: Index, instance: Path, path: Path,
                         existing: seq<string>, offers: seq<Offer>, name: string)
    requires DistinctKeys(body) && IsImage(Walk(body, [], map[]), nodes) &&
        ListsChildren(nodes, Pointer(path), existing)
    requires Offers(offers, Missing(g, id, existing), Required(g, id, 0)) && Spelling(body, instance) == Some(path)
    ensures (Offered(offers, name) <==> Declared(g, id, name) && !HasKey(body, instance, name)) <==>
            (Declared(g, id, name) ==> (HasKey(body, instance, name) <==> ListedAs(body, path, name)))
  {
    OffersExactly(g, id, body, nodes, path, existing, offers, name);
    hide Offers, Declared, ListedAs, Walk, IsImage, ListsChildren;
  }

  /** For a declared name without "~" and "/" the offer is right exactly when the mapping has the key if
      and only if the walk finds a positioned key written so there. */
  lemma OffersPlainKeys(g: Graph, id: Id, body: Node, nodes: Index, instance: Path, path: Path,
                        existing: seq<string>, offers: seq<Offer>, name: string)
    requires DistinctKeys(body) && IsImage(Walk(body, [], map[]), nodes) &&
        ListsChildren(nodes, Pointer(path), existing)
    requires Offers(offers, Missing(g, id, existing), Required(g, id, 0)) && Spelling(body, instance) == Some(path)
    requires '~' !in name && '/' !in name
    ensures (Offered(offers, name) <==> Declared(g, id, name) && !HasKey(body, instance, name)) <==>
            (Declared(g, id, name) ==>
               (HasKey(body, instance, name) <==> PositionIndex.PositionAt(body, path + [name]).Some?))
  {
    OffersMissingIff(g, id, body, nodes, instance, path, existing, offers, name);
    PlainListed(body, path, name);
    hide Offers, Declared, Walk, IsImage, ListsChildren, DistinctKeys, Spelling, HasKey, ListedAs,
        PositionIndex.PositionAt;
  }

  lemma PlainListed(body: Node, path: Path, name: string)
    requires '~' !in name && '/' !in name
    ensures ListedAs(body, path, name) <==> PositionIndex.PositionAt(body, path + [name]).Some?
  {
    EscapeIsEach(name);
    PlainEscape(name);
    UnescapeEscape(name);
    hide Escape, EscapeEach, Unescape, PositionIndex.PositionAt;
  }

  /** A key that is there, written as its name without "~" and "/", is offered again if and only if an
      anchor, a tag or an alias stands around a node on the way to it, or it has no position. */
  lemma PlainKeyIsOfferedAgainIff(g: Graph, id: Id, body: Node, nodes: Index, instance: Path, path: Path,
                                  existing: seq<string>, offers: seq<Offer>, name: string)
    requires DistinctKeys(body) && IsImage(Walk(body, [], map[]), nodes) &&
        ListsChildren(nodes, Pointer(path), existing)
    requires Offers(offers, Missing(g, id, existing), Required(g, id, 0)) && Declared(g, id, name)
    requires '~' !in name && '/' !in name && Spelling(body, instance + [name]) == Some(path + [name])
    ensures HasKey(body, instance, name)
    ensures Offered(offers, name) <==>
            !Exposed(body, instance + [name]) || InstancePosition(body, instance + [name]).None?
  {
    OffersExactly(g, id, body, nodes, path, existing, offers, name);
    PlainListed(body, path, name);
    SpelledPosition(body, instance + [name]);
    SpelledIff(body, instance + [name]);
    hide Offers, Declared, Walk, IsImage, ListsChildren, DistinctKeys, Spelling, ListedAs, PositionIndex.PositionAt;
    hide InstancePosition, Exposed;
  }

  lemma OneKey(text: string, name: string, at: Position, other: string)
    ensures
      var body := Field(text, Some(name), at, Scalar);
      && DistinctKeys(body) && (PositionIndex.PositionAt(body, [] + [other]).Some? <==> other == text)
      && (HasKey(body, [], other) <==> other == name)
  {
    assert [] + [other] == [other];
    assert Given(Pair(text, Some(name), Some(at), Scalar), other).Some? <==> other == name;
  }

  /** The input on which a key that is there is offered again: it is quoted. */
  lemma QuotedKeyIsOfferedAgain(g: Graph, id: Id, at: Position, nodes: Index, existing: seq<string>, offers: seq<Offer>)
    requires Declared(g, id, "a")
    requires IsImage(Walk(Field("\"a\"", Some("a"), at, Scalar), [], map[]), nodes)
    requires ListsChildren(nodes, Pointer([]), existing) && Offers(offers, Missing(g, id, existing), Required(g, id, 0))
    ensures Offered(offers, "a") && HasKey(Field("\"a\"", Some("a"), at, Scalar), [], "a")
  {
    var body := Field("\"a\"", Some("a"), at, Scalar);
    OneKey("\"a\"", "a", at, "a");
    PlainListed(body, [], "a");
    hide Declared, Offers, ListsChildren, Walk, IsImage, ListedAs, HasKey, PositionIndex.PositionAt, Offered;
    OffersExactly(g, id, body, nodes, [], existing, offers, "a");
  }

  /** Another: it is written as its name, in a mapping with an anchor. */
  lemma AnchoredKeyIsOfferedAgain(g: Graph, id: Id, at: Position, inner: Position, nodes: Index, existing: seq<string>,
                                  offers: seq<Offer>)
    requires Declared(g, id, "foo") && IsImage(Walk(AnchoredFoo(at, inner), [], map[]), nodes)
    requires ListsChildren(nodes, Pointer(["spec"]), existing)
    requires Offers(offers, Missing(g, id, existing), Required(g, id, 0))
    ensures Offered(offers, "foo") && HasKey(AnchoredFoo(at, inner), ["spec"], "foo")
  {
    AnchoredKeyIsMissed(at, inner);
    assert ["spec"] + ["foo"] == ["spec", "foo"];
    hide Declared, Offers, ListsChildren, Walk, IsImage, Exposed, Spelling, AnchoredFoo;
    PlainKeyIsOfferedAgainIff(g, id, AnchoredFoo(at, inner), nodes, ["spec"], ["spec"], existing, offers, "foo");
  }

  /** The input on which a missing key is not offered: another is written as the name unescaped. */
  lemma TildeNameIsWithheld(g: Graph, id: Id, at: Position, nodes: Index, existing: seq<string>, offers: seq<Offer>)
    requires Declared(g, id, "a~0b")
    requires IsImage(Walk(Field("a~b", Some("a~b"), at, Scalar), [], map[]), nodes)
    requires ListsChildren(nodes, Pointer([]), existing) && Offers(offers, Missing(g, id, existing), Required(g, id, 0))
    ensures !Offered(offers, "a~0b") && !HasKey(Field("a~b", Some("a~b"), at, Scalar), [], "a~0b")
  {
    var body := Field("a~b", Some("a~b"), at, Scalar);
    OneKey("a~b", "a~b", at, "a~b");
    OneKey("a~b", "a~b", at, "a~0b");
    EscapeTilde();
    hide Declared, Offers, ListsChildren, Walk, IsImage, Unescape, Escape, HasKey, PositionIndex.PositionAt, Offered;
    OffersExactly(g, id, body, nodes, [], existing, offers, "a~0b");
  }

  lemma EscapeTilde()
    ensures Escape("a~b") == "a~0b"
  {
    EscapeIsEach("a~b");
    assert "a~b"[1..] == "~b" && "~b"[1..] == "b" && "b"[1..] == "";
    assert EscapeEach("b") == "b" + EscapeEach("");
    assert EscapeEach("~b") == "~0" + EscapeEach("b");
    assert EscapeEach("a~b") == "a" + EscapeEach("~b");
  }

  /** A property with a "/" in its name is offered whether it is there or not. */
  lemma SlashNameIsOfferedAgain(g: Graph, id: Id, nodes: Index, path: Path,
          existing: seq<string>, offers: seq<Offer>, name: string)
    requires ListsChildren(nodes, Pointer(path), existing) && '/' in name
    requires Offers(offers, Missing(g, id, existing), Required(g, id, 0))
    ensures Offered(offers, name) <==> Declared(g, id, name)
  {
    PropertiesExact(g, id, name);
    assert name !in existing;
    hide Properties, Declares, Ranked, SortText, ListsChildren, Offered;
    assert name in Missing(g, id, existing) <==> Offered(offers, name);
  }
}
