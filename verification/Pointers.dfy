/**
 JSON Pointers as built and read in three places (internal/yamldoc/parser.go,
 internal/validator/validate.go, internal/lsp/schema_walker.go); RFC 6901 sections 3 and 4.
 */
module Pointers {
  import opened Json

  // ---------- escaping ----------

  /** Replace every non-overlapping occurrence, from the left. */
  function ReplaceAll(s: string, was: string, with: string): string
    requires was != ""
  {
    if |s| < |was| then s
    else if s[..|was|] == was then with + ReplaceAll(s[|was|..], was, with)
    else [s[0]] + ReplaceAll(s[1..], was, with)
  }

  function Escape(segment: string): string {
    ReplaceAll(ReplaceAll(segment, "~", "~0"), "/", "~1")
  }

  function Unescape(segment: string): string {
    ReplaceAll(ReplaceAll(segment, "~1", "/"), "~0", "~")
  }

  /** What a character becomes. */
  function EscapeChar(c: char): string {
    if c == '~' then "~0" else if c == '/' then "~1" else [c]
  }

  function EscapeEach(s: string): string {
    if s == "" then "" else EscapeChar(s[0]) + EscapeEach(s[1..])
  }

  function TildeEach(s: string): string {
    if s == "" then "" else (if s[0] == '~' then "~0" else [s[0]]) + TildeEach(s[1..])
  }

  lemma ReplaceFirst(c: char, rest: string, was: char, with: string)
    ensures ReplaceAll([c] + rest, [was], with) == (if c == was then with else [c]) + ReplaceAll(rest, [was], with)
  {
    var s := [c] + rest;
    assert s[..1] == [c] && s[1..] == rest;
  }

  lemma {:induction false} ReplaceTilde(s: string)
    ensures ReplaceAll(s, "~", "~0") == TildeEach(s)
  {
    if s != "" {
      ReplaceTilde(s[1..]);
      ReplaceFirst(s[0], s[1..], '~', "~0");
      assert s == [s[0]] + s[1..];
    }
  }

  lemma {:induction false} ReplaceSlash(s: string)
    ensures ReplaceAll(TildeEach(s), "/", "~1") == EscapeEach(s)
  {
    if s != "" {
      ReplaceSlash(s[1..]);
      ReplaceSlashFirst(s[0], TildeEach(s[1..]));
    }
  }

  lemma ReplaceSlashFirst(c: char, rest: string)
    ensures ReplaceAll((if c == '~' then "~0" else [c]) + rest, "/", "~1") ==
            EscapeChar(c) + ReplaceAll(rest, "/", "~1")
  {
    hide ReplaceAll;
    var after := ReplaceAll(rest, "/", "~1");
    if c == '~' {
      ReplaceFirst('~', ['0'] + rest, '/', "~1");
      ReplaceFirst('0', rest, '/', "~1");
      assert "~0" + rest == ['~'] + (['0'] + rest);
      assert ['~'] + (['0'] + after) == "~0" + after;
    } else {
      ReplaceFirst(c, rest, '/', "~1");
    }
  }

  /** Replacing first "~" and then "/" escapes each character on its own. */
  lemma EscapeIsEach(s: string)
    ensures Escape(s) == EscapeEach(s)
  {
    ReplaceTilde(s);
    ReplaceSlash(s);
  }

  /** A two-character pattern matches at the start, or not. */
  lemma ReplacePair(s: string, c: char, d: char, with: string)
    requires s != ""
    ensures ReplaceAll(s, [c, d], with) ==
            if |s| >= 2 && s[0] == c && s[1] == d then with + ReplaceAll(s[2..], [c, d], with)
            else [s[0]] + ReplaceAll(s[1..], [c, d], with)
  {
    if |s| >= 2 {
      assert s[..2] == [s[0], s[1]];
    } else {
      assert s == [s[0]] && s[1..] == "";
    }
  }

  lemma {:induction false} UnescapeSlash(s: string)
    ensures ReplaceAll(EscapeEach(s), "~1", "/") == TildeEach(s)
  {
    if s != "" {
      UnescapeSlash(s[1..]);
      UnescapeSlashFirst(s[0], EscapeEach(s[1..]));
    }
  }

  lemma UnescapeSlashFirst(c: char, rest: string)
    ensures ReplaceAll(EscapeChar(c) + rest, "~1", "/") ==
            (if c == '~' then "~0" else [c]) + ReplaceAll(rest, "~1", "/")
  {
    hide ReplaceAll;
    if c == '/' {
      var e := "~1" + rest;
      ReplacePair(e, '~', '1', "/");
      assert e[2..] == rest;
    } else if c == '~' {
      TildeStays(rest);
    } else {
      OtherStays(c, rest);
    }
  }

  lemma TildeStays(rest: string)
    ensures ReplaceAll("~0" + rest, "~1", "/") == "~0" + ReplaceAll(rest, "~1", "/")
  {
    hide ReplaceAll;
    OtherStays('0', rest);
    var e := "~0" + rest;
    ReplacePair(e, '~', '1', "/");
    assert e[1..] == ['0'] + rest;
    assert "~0" + ReplaceAll(rest, "~1", "/") == ['~'] + (['0'] + ReplaceAll(rest, "~1", "/"));
  }

  lemma OtherStays(c: char, rest: string)
    requires c != '~'
    ensures ReplaceAll([c] + rest, "~1", "/") == [c] + ReplaceAll(rest, "~1", "/")
  {
    hide ReplaceAll;
    ReplacePair([c] + rest, '~', '1', "/");
    assert ([c] + rest)[1..] == rest;
  }

  lemma {:induction false} UnescapeTilde(s: string)
    ensures ReplaceAll(TildeEach(s), "~0", "~") == s
  {
    if s != "" {
      UnescapeTilde(s[1..]);
      UnescapeTildeFirst(s[0], TildeEach(s[1..]));
      assert s == [s[0]] + s[1..];
    }
  }

  lemma UnescapeTildeFirst(c: char, rest: string)
    ensures ReplaceAll((if c == '~' then "~0" else [c]) + rest, "~0", "~") == [c] + ReplaceAll(rest, "~0", "~")
  {
    hide ReplaceAll;
    var e := (if c == '~' then "~0" else [c]) + rest;
    ReplacePair(e, '~', '0', "~");
    assert c == '~' ==> e[2..] == rest;
    assert c != '~' ==> e[1..] == rest;
  }

  /** Two replacements in sequence undo two replacements in sequence, for every string. */
  lemma UnescapeEscape(s: string)
    ensures Unescape(Escape(s)) == s
  {
    EscapeIsEach(s);
    UnescapeSlash(s);
    UnescapeTilde(s);
  }

  lemma {:induction false} EscapedHasNoSlash(s: string)
    ensures '/' !in EscapeEach(s)
  {
    if s != "" { EscapedHasNoSlash(s[1..]); }
  }

  // ---------- pointers ----------

  function Pointer(path: seq<string>): string {
    if path == [] then "" else Pointer(path[..|path| - 1]) + "/" + Escape(path[|path| - 1])
  }

  /** instanceLocationToPointer. */
  method BuildPointer(path: seq<string>) returns (pointer: string)
    ensures pointer == Pointer(path)
  {
    pointer := "";
    for n := 0 to |path|
      invariant pointer == Pointer(path[..n])
    {
      assert path[..n + 1][..n] == path[..n];
      pointer := pointer + "/" + Escape(path[n]);
    }
    assert path[..|path|] == path;
  }

  lemma {:induction false} PointerAppend(p: seq<string>, q: seq<string>)
    ensures Pointer(p + q) == Pointer(p) + Pointer(q)
  {
    hide Escape;
    if q == [] {
      assert p + q == p && Pointer(p) + "" == Pointer(p);
    } else {
      PointerAppend(p, q[..|q| - 1]);
      assert (p + q)[..|p + q| - 1] == p + q[..|q| - 1];
    }
  }

  lemma PointerFirst(path: seq<string>)
    requires path != []
    ensures Pointer(path) == "/" + Escape(path[0]) + Pointer(path[1..])
  {
    PointerAppend([path[0]], path[1..]);
    assert path == [path[0]] + path[1..];
    assert Pointer([path[0]]) == "/" + Escape(path[0]);
  }

  /** RFC 6901 section 3: "~" becomes "~0", "/" becomes "~1", and any other character stays. */
  lemma EscapeByRule(a: string, b: string, c: char)
    ensures Escape("") == "" && Escape(a + b) == Escape(a) + Escape(b)
    ensures Escape("~") == "~0" && Escape("/") == "~1" && (c != '~' && c != '/' ==> Escape([c]) == [c])
  {
    EscapeIsEach("");
    EscapeIsEach(a);
    EscapeIsEach(b);
    EscapeIsEach(a + b);
    EscapeEachAppend(a, b);
    EscapeIsEach("~");
    EscapeIsEach("/");
    EscapeIsEach([c]);
    hide Escape;
    assert "~"[1..] == "" && "/"[1..] == "" && [c][1..] == "";
  }

  lemma Associates(a: string, b: string, c: string)
    ensures a + (b + c) == a + b + c
  {
  }

  lemma EscapeEachFirst(s: string)
    requires s != ""
    ensures EscapeEach(s) == EscapeEach([s[0]]) + EscapeEach(s[1..])
  {
    assert [s[0]][1..] == "";
  }

  lemma {:induction false} EscapeEachAppend(a: string, b: string)
    ensures EscapeEach(a + b) == EscapeEach(a) + EscapeEach(b)
  {
    if a == "" {
      assert a + b == b;
    } else {
      hide EscapeEach;
      var tail := a[1..];
      EscapeEachAppend(tail, b);
      EscapeEachFirst(a);
      EscapeEachFirst(a + b);
      assert (a + b)[1..] == tail + b && (a + b)[0] == a[0];
      Associates(EscapeEach([a[0]]), EscapeEach(tail), EscapeEach(b));
    }
  }

  /** Where the first "/" is, or the length. */
  function SlashAt(s: string): (at: nat)
    ensures at <= |s| && (at < |s| ==> s[at] == '/') && forall i | 0 <= i < at :: s[i] != '/'
  {
    if s == "" || s[0] == '/' then 0 else 1 + SlashAt(s[1..])
  }

  function Split(s: string): seq<string>
    decreases |s|
  {
    var at := SlashAt(s);
    if at == |s| then [s] else [s[..at]] + Split(s[at + 1..])
  }

  function UnescapeAll(segments: seq<string>): seq<string> {
    if segments == [] then [] else [Unescape(segments[0])] + UnescapeAll(segments[1..])
  }

  /** The segments a pointer is read as: the text after the first "/" split at "/", unescaped. */
  function Segments(pointer: string): seq<string> {
    if pointer == "" then []
    else UnescapeAll(Split(if pointer[0] == '/' then pointer[1..] else pointer))
  }

  lemma SplitFirst(first: string, rest: string)
    requires '/' !in first
    ensures Split(first) == [first]
    ensures Split(first + "/" + rest) == [first] + Split(rest)
  {
    var s := first + "/" + rest;
    assert forall i | 0 <= i < |first| :: first[i] != '/';
    assert s[|first|] == '/';
    assert forall i | 0 <= i < |first| :: s[i] == first[i] && s[i] != '/';
    assert SlashAt(s) == |first|;
    assert s[..|first|] == first && s[|first| + 1..] == rest;
  }

  /** Reading a built pointer gives back the path, whatever characters its segments contain. */
  lemma {:induction false} SegmentsOfPointer(path: seq<string>)
    ensures Segments(Pointer(path)) == path
    ensures path != [] ==> Pointer(path) != "" && Pointer(path)[0] == '/'
    decreases |path|
  {
    if path != [] {
      SegmentsOfPointer(path[1..]);
      PointerFirst(path);
      EscapeIsEach(path[0]);
      EscapedHasNoSlash(path[0]);
      UnescapeEscape(path[0]);
      hide Escape, EscapeEach, Unescape, Segments;
      SegmentsFirst(Escape(path[0]), Pointer(path[1..]));
    }
  }

  lemma SegmentsFirst(first: string, rest: string)
    requires '/' !in first && (rest == "" || rest[0] == '/')
    ensures Segments("/" + first + rest) == [Unescape(first)] + Segments(rest)
  {
    hide Unescape, Split;
    var tail := ("/" + first + rest)[1..];
    if rest == "" {
      assert tail == first;
      SplitFirst(first, "");
      assert [first][1..] == [];
      assert UnescapeAll([first]) == [Unescape(first)] + [];
    } else {
      assert tail == first + "/" + rest[1..];
      SplitFirst(first, rest[1..]);
      var segments := [first] + Split(rest[1..]);
      assert segments[1..] == Split(rest[1..]);
      assert UnescapeAll(segments) == [Unescape(first)] + UnescapeAll(Split(rest[1..]));
    }
  }

  lemma PointerInjective(p: seq<string>, q: seq<string>)
    requires Pointer(p) == Pointer(q)
    ensures p == q
  {
    SegmentsOfPointer(p);
    SegmentsOfPointer(q);
  }

  // ---------- the parent of a pointer ----------

  /** strings.LastIndex for "/". */
  function LastSlash(s: string): (at: int)
    ensures -1 <= at < |s| && (at >= 0 ==> s[at] == '/') && forall i | at < i < |s| :: s[i] != '/'
  {
    if s == "" then -1 else if s[|s| - 1] == '/' then |s| - 1 else LastSlash(s[..|s| - 1])
  }

  function ParentPointer(pointer: string): string {
    var at := LastSlash(pointer);
    if at <= 0 then "" else pointer[..at]
  }

  function LastSegment(pointer: string): string {
    if pointer == "" then "" else Unescape(pointer[LastSlash(pointer) + 1..])
  }

  /** strings.Count for "/". */
  function Depth(pointer: string): nat {
    if pointer == "" then 0 else Depth(pointer[1..]) + if pointer[0] == '/' then 1 else 0
  }

  lemma LastSlashOf(before: string, last: string)
    requires '/' !in last
    ensures LastSlash(before + "/" + last) == |before|
  {
    var s := before + "/" + last;
    assert s[|before|] == '/' && s[|before| + 1..] == last;
    LastSlashIs(s, |before|);
  }

  lemma LastSlashIs(s: string, at: nat)
    requires at < |s| && s[at] == '/' && '/' !in s[at + 1..]
    ensures LastSlash(s) == at
  {
    hide LastSlash;
    assert forall i | at < i < |s| :: s[i] == s[at + 1..][i - at - 1];
  }

  /** Dropping the text from the last "/" drops the last segment; the text after it is that segment. */
  lemma ParentOfPointer(path: seq<string>)
    requires path != []
    ensures ParentPointer(Pointer(path)) == Pointer(path[..|path| - 1])
    ensures LastSegment(Pointer(path)) == path[|path| - 1]
  {
    var before, last := Pointer(path[..|path| - 1]), path[|path| - 1];
    EscapeIsEach(last);
    EscapedHasNoSlash(last);
    UnescapeEscape(last);
    assert Pointer(path) == before + "/" + Escape(last);
    hide Pointer, Escape, EscapeEach, Unescape, LastSlash;
    CutBehind(before, Escape(last));
  }

  lemma CutBehind(before: string, last: string)
    requires '/' !in last
    ensures
      var s := before + "/" + last;
      ParentPointer(s) == before && s[LastSlash(s) + 1..] == last
  {
    hide LastSlash;
    LastSlashOf(before, last);
    var s := before + "/" + last;
    assert s[..|before|] == before && s[|before| + 1..] == last;
  }

  lemma {:induction false} DepthAppend(a: string, b: string)
    ensures Depth(a + b) == Depth(a) + Depth(b)
  {
    if a == "" {
      assert a + b == b;
    } else {
      DepthAppend(a[1..], b);
      assert (a + b)[1..] == a[1..] + b;
    }
  }

  lemma {:induction false} NoSlashDepth(s: string)
    requires '/' !in s
    ensures Depth(s) == 0
  {
    if s != "" { NoSlashDepth(s[1..]); }
  }

  /** The slashes of a pointer count its segments. */
  lemma {:induction false} DepthOfPointer(path: seq<string>)
    ensures Depth(Pointer(path)) == |path|
  {
    if path != [] {
      var last := path[|path| - 1];
      DepthOfPointer(path[..|path| - 1]);
      EscapeIsEach(last);
      EscapedHasNoSlash(last);
      NoSlashDepth(Escape(last));
      DepthAppend(Pointer(path[..|path| - 1]) + "/", Escape(last));
      DepthAppend(Pointer(path[..|path| - 1]), "/");
    }
  }

  // ---------- array indices ----------

  function Digit(d: nat): char
    requires d < 10
  {
    '0' + d as char
  }

  predicate IsDigit(c: char) { '0' <= c <= '9' }

  /** fmt.Sprintf("%d"). */
  function Decimal(n: nat): (s: string)
    ensures s != ""
  {
    if n < 10 then [Digit(n)] else Decimal(n / 10) + [Digit(n % 10)]
  }

  function ValueOf(digits: string): nat
    requires forall c | c in digits :: IsDigit(c)
  {
    if digits == "" then 0
    else
      var n := |digits| - 1;
      assert IsDigit(digits[n]);
      10 * ValueOf(digits[..n]) + (digits[n] - '0') as nat
  }

  const TWO_63: int := 0x8000_0000_0000_0000
  const TWO_64: int := 0x1_0000_0000_0000_0000

  /** A sum or product as a 64-bit integer of the source holds it. */
  function Wrapped(n: int): int {
    (n + TWO_63) % TWO_64 - TWO_63
  }

  /** Digits only, and no leading zero but in "0" itself. */
  predicate Canonical(s: string) {
    s != "" && (|s| > 1 ==> s[0] != '0') && forall c | c in s :: IsDigit(c)
  }

  /** parseArrayIndex: it accepts exactly the canonical numerals, and without a guard against
      overflow gives what a 64-bit integer keeps of their value. */
  method ParseArrayIndex(s: string) returns (r: Option<int>)
    ensures r.Some? <==> Canonical(s)
    ensures r.Some? ==> r.value == Wrapped(ValueOf(s))
  {
    if s == "" {
      return None;
    }
    if |s| > 1 && s[0] == '0' {
      return None;
    }
    var n: int := 0;
    for i := 0 to |s|
      invariant forall c | c in s[..i] :: IsDigit(c)
      invariant n == Wrapped(ValueOf(s[..i]))
    {
      if !IsDigit(s[i]) {
        assert s[i] in s;
        return None;
      }
      assert s[..i + 1][..i] == s[..i];
      assert s[..i + 1] == s[..i] + [s[i]];
      var d := (s[i] - '0') as int;
      WrappedStep(ValueOf(s[..i]), d);
      n := Wrapped(n * 10 + d);
    }
    assert s[..|s|] == s;
    r := Some(n);
  }

  lemma WrappedStep(v: int, d: int)
    ensures Wrapped(Wrapped(v) * 10 + d) == Wrapped(v * 10 + d)
  {
    var k := (v + TWO_63) / TWO_64;
    assert Wrapped(v) == v - k * TWO_64;
    var x := v * 10 + d + TWO_63;
    assert Wrapped(v) * 10 + d + TWO_63 == x - 10 * k * TWO_64;
    ModShift(x, -10 * k);
  }

  lemma ModShift(x: int, k: int)
    ensures (x + k * TWO_64) % TWO_64 == x % TWO_64
  {
  }

  /** The index read is the numeral's value exactly when it is below 2^63. */
  lemma IndexExactIff(s: string)
    requires Canonical(s)
    ensures Wrapped(ValueOf(s)) == ValueOf(s) <==> ValueOf(s) < TWO_63
  {
  }

  lemma {:induction false} DecimalCanonical(n: nat)
    ensures Canonical(Decimal(n)) && ValueOf(Decimal(n)) == n && (n > 0 ==> Decimal(n)[0] != '0')
  {
    if n >= 10 {
      DecimalCanonical(n / 10);
      var s := Decimal(n);
      assert s[..|s| - 1] == Decimal(n / 10);
    } else {
      assert Decimal(n) == [Digit(n)];
      assert [Digit(n)][..0] == "";
    }
  }

  /** The canonical numerals are the formatted numbers. */
  lemma {:induction false} CanonicalIsDecimal(s: string)
    requires Canonical(s)
    ensures Decimal(ValueOf(s)) == s && (s[0] != '0' ==> ValueOf(s) > 0)
    decreases |s|
  {
    var n := |s| - 1;
    assert s[n] in s && IsDigit(s[n]);
    var init, d := s[..n], (s[n] - '0') as nat;
    assert s == init + [s[n]];
    assert ValueOf(s) == 10 * ValueOf(init) + d && Digit(d) == s[n];
    BaseTen(ValueOf(init), d);
    if n == 0 {
      assert ValueOf(init) == 0;
    } else {
      assert forall c | c in init :: c in s;
      assert init[0] == s[0];
      hide Decimal, ValueOf;
      CanonicalIsDecimal(init);
    }
  }

  /** They are written in base ten. */
  lemma BaseTen(n: nat, d: nat)
    requires d < 10
    ensures Decimal(d) == ["0123456789"[d]]
    ensures n > 0 ==> Decimal(10 * n + d) == Decimal(n) + ["0123456789"[d]]
  {
    assert Digit(d) == "0123456789"[d];
    assert (10 * n + d) / 10 == n && (10 * n + d) % 10 == d;
  }

  lemma DecimalInjective(m: nat, n: nat)
    requires Decimal(m) == Decimal(n)
    ensures m == n
  {
    DecimalCanonical(m);
    DecimalCanonical(n);
  }
}
