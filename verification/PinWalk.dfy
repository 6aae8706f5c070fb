/**
 Discovery of the pin files that apply to a directory (internal/intent/walker.go) and the
 per-directory cache of merged sets (internal/intent/lookup.go).
 */
module PinWalk {
  import opened Json
  import opened PinMerge

  /** An absolute directory: its path components from the filesystem root. */
  type Dir = seq<string>

  /** What there is at <dir>/schemalock.yaml. */
  datatype Entry = Absent | Directory | Unreadable | File(doc: Doc)

  /** A decoded file; strict says whether the strict decoder takes it (no unknown fields). */
  datatype Doc = Malformed | Doc(version: int, root: bool, strict: bool, ecosystems: map<string, seq<string>>)

  type FileSystem = Dir -> Entry

  predicate HasFile(fs: FileSystem, dir: Dir) {
    fs(dir).Unreadable? || fs(dir).File?
  }

  /** The permissive look at a file that decides where the walk halts; None is an error. */
  function LooksLikeRoot(e: Entry): Option<bool> {
    match e
    case File(Doc(version, root, _, _)) => Some(root || version > 0)
    case _ => None
  }

  function DecodeRoot(e: Entry): Option<IntentFile> {
    match e
    case File(Doc(version, root, strict, ecosystems)) =>
      if strict && version != 0 then Some(IntentFile(version, root, ecosystems)) else None
    case _ => None
  }

  function DecodeOverlay(e: Entry): Option<IntentFile> {
    match e
    case File(Doc(version, root, strict, ecosystems)) =>
      if strict && version == 0 && !root then Some(IntentFile(0, false, ecosystems)) else None
    case _ => None
  }

  function Parent(dir: Dir): Dir
    requires dir != []
  {
    dir[..|dir| - 1]
  }

  // ---------- the reference definition ----------

  predicate NoFileAbove(fs: FileSystem, dir: Dir) {
    dir == [] || (!HasFile(fs, Parent(dir)) && NoFileAbove(fs, Parent(dir)))
  }

  /** The pins that apply to a directory: its own if its file declares itself a root or has
      none above it, otherwise its parent's overridden by its own. */
  function Effective(fs: FileSystem, dir: Dir): Option<PinSet>
    decreases |dir|
  {
    if !HasFile(fs, dir) then
      if dir == [] then Some(map[]) else Effective(fs, Parent(dir))
    else
      match LooksLikeRoot(fs(dir))
      case None => None
      case Some(isRoot) =>
        if isRoot || NoFileAbove(fs, dir) then
          (match DecodeRoot(fs(dir)) case Some(f) => Override(Some(map[]), f) case None => None)
        else
          (match DecodeOverlay(fs(dir)) case Some(f) => Override(Effective(fs, Parent(dir)), f) case None => None)
  }

  // ---------- the walk ----------

  function Before(candidates: seq<Dir>, above: Option<seq<Dir>>): Option<seq<Dir>> {
    match above case Some(rest) => Some(candidates + rest) case None => None
  }

  lemma BeforeBefore(a: seq<Dir>, b: seq<Dir>, above: Option<seq<Dir>>)
    ensures Before(a, Before(b, above)) == Before(a + b, above)
    ensures Before([], above) == above
  {
    if above.Some? {
      assert a + (b + above.value) == a + b + above.value;
      assert [] + above.value == above.value;
    }
  }

  /** The directories of the files that apply, nearest first; None if a look at one of them fails. */
  function Candidates(fs: FileSystem, dir: Dir): Option<seq<Dir>>
    decreases |dir|
  {
    if HasFile(fs, dir) && LooksLikeRoot(fs(dir)) == None then None
    else if HasFile(fs, dir) && LooksLikeRoot(fs(dir)) == Some(true) then Some([dir])
    else
      var own := if HasFile(fs, dir) then [dir] else [];
      if dir == [] then Some(own) else Before(own, Candidates(fs, Parent(dir)))
  }

  /** Decode the candidates as the walk does: the topmost as a root, the others as overlays. */
  function Decoded(fs: FileSystem, candidates: seq<Dir>): Option<seq<IntentFile>> {
    if candidates == [] then Some([])
    else
      var top := fs(candidates[0]);
      match (Decoded(fs, candidates[1..]), if |candidates| == 1 then DecodeRoot(top) else DecodeOverlay(top))
      case (Some(chain), Some(f)) => Some(chain + [f])
      case _ => None
  }

  function Chain(fs: FileSystem, dir: Dir): Option<seq<IntentFile>> {
    match Candidates(fs, dir)
    case Some(candidates) => Decoded(fs, candidates)
    case None => None
  }

  /** WalkUp: collect leaf to root, then decode root to leaf. */
  method WalkUp(fs: FileSystem, start: Dir) returns (r: Option<seq<IntentFile>>)
    ensures r == Chain(fs, start)
  {
    var candidates := Collect(fs, start);
    if candidates.None? {
      return None;
    }
    r := Decode(fs, candidates.value);
  }

  method Collect(fs: FileSystem, start: Dir) returns (r: Option<seq<Dir>>)
    ensures r == Candidates(fs, start)
  {
    var candidates: seq<Dir> := [];
    var dir := start;
    BeforeBefore([], [], Candidates(fs, dir));
    while true
      invariant Candidates(fs, start) == Before(candidates, Candidates(fs, dir))
      decreases |dir|
    {
      if dir != [] {
        BeforeBefore(candidates, if HasFile(fs, dir) then [dir] else [], Candidates(fs, Parent(dir)));
        assert candidates + [] == candidates;
      }
      if HasFile(fs, dir) {
        var isRoot := LooksLikeRoot(fs(dir));
        if isRoot.None? {
          return None;
        }
        candidates := candidates + [dir];
        if isRoot.value {
          return Some(candidates);
        }
      }
      if dir == [] {
        assert candidates + [] == candidates;
        return Some(candidates);
      }
      dir := Parent(dir);
    }
  }

  method Decode(fs: FileSystem, candidates: seq<Dir>) returns (r: Option<seq<IntentFile>>)
    ensures r == Decoded(fs, candidates)
  {
    var out: seq<IntentFile> := [];
    var i := |candidates|;
    while i > 0
      invariant 0 <= i <= |candidates|
      invariant Decoded(fs, candidates[i..]) == Some(out)
    {
      i := i - 1;
      var f := if i == |candidates| - 1 then DecodeRoot(fs(candidates[i])) else DecodeOverlay(fs(candidates[i]));
      assert candidates[i..][1..] == candidates[i + 1..];
      if f.None? {
        DecodedFails(fs, candidates, i);
        return None;
      }
      out := out + [f.value];
    }
    assert candidates[0..] == candidates;
    r := Some(out);
  }

  lemma {:induction false} DecodedFails(fs: FileSystem, candidates: seq<Dir>, i: nat)
    requires i <= |candidates| && Decoded(fs, candidates[i..]).None?
    ensures Decoded(fs, candidates).None?
    decreases i
  {
    if i > 0 {
      assert candidates[i - 1..][1..] == candidates[i..];
      DecodedFails(fs, candidates, i - 1);
    }
  }

  lemma {:induction false} NoCandidates(fs: FileSystem, dir: Dir)
    ensures Candidates(fs, dir) == Some([]) <==> !HasFile(fs, dir) && NoFileAbove(fs, dir)
    decreases |dir|
  {
    if dir != [] { NoCandidates(fs, Parent(dir)); }
  }

  function MergedChain(chain: Option<seq<IntentFile>>): Option<PinSet> {
    match chain case Some(files) => Merged(files) case None => None
  }

  /** Walking up and merging gives the effective pins, for every file system and directory;
      it fails exactly where they are undefined. */
  lemma {:induction false} WalkThenMerge(fs: FileSystem, dir: Dir)
    ensures MergedChain(Chain(fs, dir)) == Effective(fs, dir)
    decreases |dir|
  {
    if dir != [] {
      WalkThenMerge(fs, Parent(dir));
      NoCandidates(fs, Parent(dir));
      BeforeBefore([], [], Candidates(fs, Parent(dir)));
    }
    if HasFile(fs, dir) {
      match LooksLikeRoot(fs(dir)) {
        case None =>
        case Some(isRoot) => if isRoot || NoFileAbove(fs, dir) { TopFile(fs, dir); } else { OverlayFile(fs, dir); }
      }
    } else {
      hide Merged, Decoded;
      assert dir == [] ==> Candidates(fs, dir) == Some([]);
      NoFiles(fs);
    }
  }

  lemma NoFiles(fs: FileSystem)
    ensures Decoded(fs, []) == Some([]) && Merged([]) == Some(map[])
  {
  }

  lemma TopFile(fs: FileSystem, dir: Dir)
    requires HasFile(fs, dir) && LooksLikeRoot(fs(dir)).Some? && (LooksLikeRoot(fs(dir)).value || NoFileAbove(fs, dir))
    ensures MergedChain(Chain(fs, dir)) == Effective(fs, dir)
  {
    if dir != [] { NoCandidates(fs, Parent(dir)); }
    assert [dir] + [] == [dir];
    assert Candidates(fs, dir) == Some([dir]);
    hide Candidates;
    assert [dir][1..] == [];
    NoFiles(fs);
    var own := DecodeRoot(fs(dir));
    if own.Some? {
      assert Decoded(fs, [dir]) == Some([] + [own.value]);
      MergedAppend([], own.value);
    }
  }

  lemma MergedAppend(chain: seq<IntentFile>, f: IntentFile)
    ensures Merged(chain + [f]) == Override(Merged(chain), f)
  {
    assert (chain + [f])[..|chain|] == chain;
  }

  lemma OverlayFile(fs: FileSystem, dir: Dir)
    requires dir != [] && HasFile(fs, dir) && LooksLikeRoot(fs(dir)) == Some(false) && !NoFileAbove(fs, dir)
    requires MergedChain(Chain(fs, Parent(dir))) == Effective(fs, Parent(dir))
    ensures MergedChain(Chain(fs, dir)) == Effective(fs, dir)
  {
    NoCandidates(fs, Parent(dir));
    match Candidates(fs, Parent(dir))
    case None =>
    case Some(above) =>
      assert Candidates(fs, dir) == Some([dir] + above);
      assert Effective(fs, dir) ==
        match DecodeOverlay(fs(dir)) case Some(f) => Override(Effective(fs, Parent(dir)), f) case None => None;
      hide Candidates, Effective;
      assert ([dir] + above)[1..] == above;
      match (Decoded(fs, above), DecodeOverlay(fs(dir)))
      case (Some(chain), Some(own)) => MergedAppend(chain, own);
      case _ => assert Decoded(fs, [dir] + above).None?;
  }

  predicate IsRootFile(fs: FileSystem, dir: Dir) {
    HasFile(fs, dir) && LooksLikeRoot(fs(dir)) == Some(true)
  }

  /** The files that apply are those of the directory and its ancestors, down from the nearest one
      that declares itself a root. */
  lemma {:induction false} CandidatesExact(fs: FileSystem, dir: Dir, d: Dir)
    requires Candidates(fs, dir).Some?
    ensures d in Candidates(fs, dir).value <==>
            d <= dir && HasFile(fs, d) && forall n | |d| < n <= |dir| :: !IsRootFile(fs, dir[..n])
    decreases |dir|
  {
    assert dir[..|dir|] == dir;
    if dir != [] {
      var up := Parent(dir);
      assert d != dir ==> (d <= dir <==> d <= up) by {
        if d <= dir && |d| <= |up| { assert d == up[..|d|]; }
        if d <= up { assert d == dir[..|d|]; }
      }
      assert forall n | 0 <= n <= |up| :: dir[..n] == up[..n];
      if Candidates(fs, up).Some? { CandidatesExact(fs, up, d); }
    }
  }

  /** They come nearest first. */
  lemma {:induction false} CandidatesOrder(fs: FileSystem, dir: Dir)
    requires Candidates(fs, dir).Some?
    ensures forall i, j | 0 <= i < j < |Candidates(fs, dir).value| ::
        |Candidates(fs, dir).value[j]| < |Candidates(fs, dir).value[i]|
    ensures forall i | 0 <= i < |Candidates(fs, dir).value| :: |Candidates(fs, dir).value[i]| <= |dir|
    decreases |dir|
  {
    if dir != [] && Candidates(fs, Parent(dir)).Some? { CandidatesOrder(fs, Parent(dir)); }
  }

  // ---------- the cache ----------

  datatype Event = Edit(fs: FileSystem) | Query(dir: Dir, ecosystem: string, name: string)

  datatype Answer = Failed | Pinned(version: string) | NotPinned

  function PinIn(pins: Option<PinSet>, ecosystem: string, name: string): Answer {
    if pins.None? then Failed
    else if name in Pins(pins.value, ecosystem) then Pinned(Pins(pins.value, ecosystem)[name])
    else NotPinned
  }

  /** What a lookup without a cache answers, query by query. */
  function Answers(fs: FileSystem, events: seq<Event>): seq<Answer> {
    if events == [] then []
    else match events[0]
      case Edit(fs') => Answers(fs', events[1..])
      case Query(dir, ecosystem, name) => [PinIn(Effective(fs, dir), ecosystem, name)] + Answers(fs, events[1..])
  }

  class Lookup {
    var cache: map<Dir, PinSet>

    /** Each cached set is the effective set of its directory. */
    ghost predicate Fresh(fs: FileSystem)
      reads this
    {
      forall dir | dir in cache :: Effective(fs, dir) == Some(cache[dir])
    }

    constructor ()
      ensures cache == map[]
    {
      cache := map[];
    }

    method SetFor(fs: FileSystem, dir: Dir) returns (r: Option<PinSet>)
      requires Fresh(fs)
      modifies this
      ensures Fresh(fs) && r == Effective(fs, dir)
      ensures cache == if r.Some? then old(cache)[dir := r.value] else old(cache)
    {
      if dir in cache {
        assert cache == cache[dir := cache[dir]];
        return Some(cache[dir]);
      }
      WalkThenMerge(fs, dir);
      var chain := WalkUp(fs, dir);
      if chain.None? {
        return None;
      }
      var merged := Merge(chain.value);
      if merged.None? {
        return None;
      }
      cache := cache[dir := merged.value];
      r := merged;
    }

    method PinFor(fs: FileSystem, dir: Dir, ecosystem: string, name: string) returns (r: Answer)
      requires Fresh(fs)
      modifies this
      ensures Fresh(fs) && r == PinIn(Effective(fs, dir), ecosystem, name)
    {
      var pins := SetFor(fs, dir);
      if pins.None? {
        return Failed;
      }
      if ecosystem in pins.value && name in pins.value[ecosystem] {
        return Pinned(pins.value[ecosystem][name]);
      }
      r := NotPinned;
    }

    method Invalidate()
      modifies this
      ensures cache == map[]
    {
      cache := map[];
    }

    /** A serial run in which each edit of the files is followed by Invalidate answers
        as if there were no cache. */
    method Serve(fs: FileSystem, events: seq<Event>) returns (answers: seq<Answer>)
      requires Fresh(fs)
      modifies this
      ensures answers == Answers(fs, events)
    {
      answers := [];
      var now := fs;
      for i := 0 to |events|
        invariant Fresh(now)
        invariant Answers(fs, events) == answers + Answers(now, events[i..])
      {
        match events[i]
        case Edit(fs') =>
          now := fs';
          Invalidate();
        case Query(dir, ecosystem, name) =>
          var answer := PinFor(now, dir, ecosystem, name);
          answers := answers + [answer];
      }
    }
  }
}
