/**
 Compiling a schema once per key (internal/validator/compiler.go), with the keys the worker and the
 completion handlers use (internal/lsp/workers.go). Parsing, the library's compilation, the strict
 rewrite of bytes and the hash are functions.
 */
module CompileCache {
  import opened Json
  import opened Registry

  /** The library: Doc is a parsed schema, Schema a compiled one. */
  datatype Library<!Doc, !Schema> = Library(
    parse: Bytes -> Option<Doc>, build: Doc -> Option<Schema>, wrap: Bytes -> Option<Bytes>, hash: Bytes -> string)

  // ---------- compiling without a cache ----------

  function CompileBytes<Doc, Schema>(lib: Library<Doc, Schema>, body: Bytes): Option<Schema> {
    match lib.parse(body) case Some(doc) => lib.build(doc) case None => None
  }

  /** A use of a schema: its bytes, and whether strict mode is on. */
  datatype Use = Use(body: Bytes, strict: bool)

  /** The strict rewrite applies where it succeeds. */
  predicate Rewritten<Doc, Schema>(lib: Library<Doc, Schema>, use: Use) {
    use.strict && lib.wrap(use.body).Some?
  }

  function BytesOf<Doc, Schema>(lib: Library<Doc, Schema>, use: Use): Bytes {
    if Rewritten(lib, use) then lib.wrap(use.body).value else use.body
  }

  const STRICT := ":strict"

  function KeyOf<Doc, Schema>(lib: Library<Doc, Schema>, use: Use): string {
    lib.hash(use.body) + if Rewritten(lib, use) then STRICT else ""
  }

  function Direct<Doc, Schema>(lib: Library<Doc, Schema>, use: Use): Option<Schema> {
    CompileBytes(lib, BytesOf(lib, use))
  }

  /** With strict mode on and a rewrite that succeeds, the rewritten bytes are parsed and built; otherwise
      the bytes themselves. */
  ghost predicate IsCompiled<Doc, Schema>(lib: Library<Doc, Schema>, use: Use, r: Option<Schema>) {
    match (use.strict, lib.wrap(use.body))
    case (true, Some(rewritten)) =>
      (match lib.parse(rewritten) case Some(doc) => r == lib.build(doc) case None => r == None)
    case _ => (match lib.parse(use.body) case Some(doc) => r == lib.build(doc) case None => r == None)
  }

  /** No two of these byte strings have the same hash, and no hash contains a colon. */
  ghost predicate HashFits<Doc, Schema>(lib: Library<Doc, Schema>, known: set<Bytes>) {
    && (forall a, b | a in known && b in known && lib.hash(a) == lib.hash(b) :: a == b)
    && (forall a | a in known :: ':' !in lib.hash(a))
  }

  /** Uses share a key exactly when they compile the same bytes of the same schema: plain and strict
      keys never meet. */
  lemma KeysApart<Doc, Schema>(lib: Library<Doc, Schema>, known: set<Bytes>, a: Use, b: Use)
    requires HashFits(lib, known) && a.body in known && b.body in known
    ensures KeyOf(lib, a) == KeyOf(lib, b) <==> a.body == b.body && Rewritten(lib, a) == Rewritten(lib, b)
  {
    var x, y := lib.hash(a.body), lib.hash(b.body);
    if KeyOf(lib, a) == KeyOf(lib, b) {
      ColonAt(x, Rewritten(lib, a), y, Rewritten(lib, b));
    }
  }

  lemma ColonAt(x: string, s: bool, y: string, t: bool)
    requires ':' !in x && ':' !in y && x + (if s then STRICT else "") == y + (if t then STRICT else "")
    ensures x == y && s == t
  {
    var k := x + if s then STRICT else "";
    assert forall i | 0 <= i < |x| :: k[i] == x[i] && k[i] != ':';
    assert forall i | 0 <= i < |y| :: k[i] == y[i] && k[i] != ':';
    assert s ==> k[|x|] == ':';
    assert t ==> k[|y|] == ':';
    assert x == k[..|x|] && y == k[..|y|];
  }

  // ---------- the compiler ----------

  class Compiler<!Doc, !Schema> {
    const lib: Library<Doc, Schema>
    var cache: map<string, Schema>
    /** The resources added to the library's compiler, by URL. */
    var resources: map<string, Doc>

    constructor (lib: Library<Doc, Schema>)
      ensures this.lib == lib && cache == map[] && resources == map[]
    {
      this.lib, cache, resources := lib, map[], map[];
    }

    function Url(key: string): string { "schemalock://cache/" + key }

    /** What is cached for a use is what compiling it directly gives; a resource without a compiled
        schema is one whose compilation fails. */
    ghost predicate Agrees(bodies: set<Bytes>)
      reads this
    {
      forall use: Use | use.body in bodies ::
        var key := KeyOf(lib, use);
        && (key in cache ==> Direct(lib, use) == Some(cache[key]))
        && (key !in cache && Url(key) in resources ==> Direct(lib, use).None?)
    }

    method Compile(key: string, body: Bytes) returns (r: Option<Schema>)
      modifies this`cache, this`resources
      ensures r == if key in old(cache) then Some(old(cache)[key])
                   else if Url(key) in old(resources) then None
                   else CompileBytes(lib, body)
      ensures cache == if r.Some? then old(cache)[key := r.value] else old(cache)
      ensures resources ==
          if key in old(cache) || Url(key) in old(resources) || lib.parse(body).None? then old(resources)
                           else old(resources)[Url(key) := lib.parse(body).value]
    {
      if key in cache {
        assert cache == cache[key := cache[key]];
        return Some(cache[key]);
      }
      var doc := lib.parse(body);
      if doc.None? {
        return None;
      }
      if Url(key) in resources {
        return None;
      }
      resources := resources[Url(key) := doc.value];
      r := lib.build(resources[Url(key)]);
      if r.Some? {
        cache := cache[key := r.value];
      }
    }

    /** What the worker does with verified bytes; completion and hover do the same without strict mode. */
    method CompileUse(use: Use, ghost bodies: set<Bytes>) returns (r: Option<Schema>)
      requires Agrees(bodies) && use.body in bodies && HashFits(lib, bodies)
      modifies this`cache, this`resources
      ensures Agrees(bodies) && r == Direct(lib, use) && IsCompiled(lib, use, r)
    {
      var body, key := use.body, lib.hash(use.body);
      if use.strict {
        var wrapped := lib.wrap(use.body);
        if wrapped.Some? {
          body, key := wrapped.value, key + STRICT;
        }
      }
      assert key == KeyOf(lib, use) && body == BytesOf(lib, use);
      r := Compile(key, body);
      forall other: Use | other.body in bodies
        ensures
          var k := KeyOf(lib, other);
          && (k in cache ==> Direct(lib, other) == Some(cache[k]))
          && (k !in cache && Url(k) in resources ==> Direct(lib, other).None?)
      {
        KeysApart(lib, bodies, use, other);
        UrlApart(key, KeyOf(lib, other));
      }
    }

    lemma UrlApart(a: string, b: string)
      ensures Url(a) == Url(b) ==> a == b
    {
      if Url(a) == Url(b) {
        assert a == Url(a)[|Url("")|..] && b == Url(b)[|Url("")|..];
      }
    }

    /** Over every sequence of strict and plain uses, each gets what compiling directly would give:
        the same schema, or a failure. */
    method Serve(uses: seq<Use>) returns (results: seq<Option<Schema>>)
      requires cache == map[] && resources == map[]
      requires HashFits(lib, set i | 0 <= i < |uses| :: uses[i].body)
      modifies this`cache, this`resources
      ensures |results| == |uses|
      ensures forall i | 0 <= i < |uses| :: results[i] == Direct(lib, uses[i]) && IsCompiled(lib, uses[i], results[i])
    {
      ghost var bodies := set i | 0 <= i < |uses| :: uses[i].body;
      results := [];
      for n := 0 to |uses|
        invariant Agrees(bodies) && |results| == n
        invariant forall i | 0 <= i < n :: results[i] == Direct(lib, uses[i]) && IsCompiled(lib, uses[i], results[i])
      {
        var r := CompileUse(uses[n], bodies);
        results := results + [r];
      }
    }
  }
}
