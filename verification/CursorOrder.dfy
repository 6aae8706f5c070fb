/**
 When the place of a cursor depends on the order in which a map gives its entries. Sorting by line
 and depth leaves keys of one line and depth in any order; whether that shows is settled by the keys
 on the cursor's line, or else by those on the last line above that has a key not right of it.
 */
module CursorOrder {
  import opened Cursor
  import opened Json
  import opened KeySpelling
  import opened Pointers
  import opened PositionIndex
  import opened Sorting

  /** What an index is: pointers of paths below the root, no two at one position. */
  ghost predicate Indexed(nodes: Index) {
    && (forall p | p in nodes :: p == Pointer(Segments(p)) && Segments(p) != [])
    && (forall p, q | p in nodes && q in nodes && nodes[p] == nodes[q] :: p == q)
  }

  lemma DocumentIndexed(body: Node, nodes: Index)
    requires DistinctKeys(body) && DistinctPositions(body) && IsImage(Walk(body, [], map[]), nodes)
    ensures Indexed(nodes)
  {
    hide Walk, IsImage, DistinctKeys, Segments, Pointer;
    IndexExact(body, nodes, []);
    assert PositionIndex.PositionAt(body, []) == None;
    forall p, q | p in nodes && q in nodes && nodes[p] == nodes[q] ensures p == q {
      IndexExact(body, nodes, Segments(p));
      IndexExact(body, nodes, Segments(q));
    }
  }

  // ---------- ties ----------

  predicate OnLine(nodes: Index, p: string, line: nat) {
    p in nodes && nodes[p].line == line
  }

  /** A key above the line and not right of the column. */
  predicate Candidate(nodes: Index, p: string, line: nat, column: nat) {
    p in nodes && nodes[p].line < line && nodes[p].column <= column
  }

  /** One of the keys of greatest depth on the line. */
  ghost predicate Deepest(nodes: Index, p: string, line: nat) {
    OnLine(nodes, p, line) && forall r | OnLine(nodes, r, line) :: Depth(r) <= Depth(p)
  }

  /** One of the candidates of least depth on the last line that has candidates. */
  ghost predicate Nearest(nodes: Index, p: string, line: nat, column: nat) {
    && Candidate(nodes, p, line, column)
    && forall r | Candidate(nodes, r, line, column) ::
      nodes[r].line < nodes[p].line || (nodes[r].line == nodes[p].line && Depth(r) >= Depth(p))
  }

  /** The keys between which the answer is decided. */
  ghost predicate Decides(nodes: Index, p: string, line: nat, column: nat) {
    if exists r :: OnLine(nodes, r, line) then Deepest(nodes, p, line) else Nearest(nodes, p, line, column)
  }

  /** There is more than one. */
  ghost predicate Undecided(nodes: Index, line: nat, column: nat) {
    exists p, q :: p != q && Decides(nodes, p, line, column) && Decides(nodes, q, line, column)
  }

  // ---------- the key an arrangement decides for ----------

  predicate First(entries: seq<Entry>, line: nat, i: nat) {
    i < |entries| && entries[i].at.line == line && forall j | 0 <= j < i :: entries[j].at.line != line
  }

  predicate Fits(e: Entry, line: nat, column: nat) {
    e.at.line < line && e.at.column <= column
  }

  predicate Last(entries: seq<Entry>, line: nat, column: nat, i: nat) {
    i < |entries| && Fits(entries[i], line, column) && forall j | i < j < |entries| :: !Fits(entries[j], line, column)
  }

  lemma {:induction false} FirstOnIs(entries: seq<Entry>, line: nat, i: nat)
    requires First(entries, line, i)
    ensures FirstOn(entries, line) == Some(entries[i])
  {
    if i > 0 {
      assert entries[0].at.line != line;
      assert forall j | 0 <= j < |entries| - 1 :: entries[1..][j] == entries[j + 1];
      FirstOnIs(entries[1..], line, i - 1);
    }
  }

  lemma {:induction false} FirstOnNone(entries: seq<Entry>, line: nat)
    ensures FirstOn(entries, line).None? <==> forall i | 0 <= i < |entries| :: entries[i].at.line != line
  {
    if entries != [] {
      FirstOnNone(entries[1..], line);
      assert forall j | 1 <= j < |entries| :: entries[j] == entries[1..][j - 1];
    }
  }

  lemma {:induction false} FirstIndex(entries: seq<Entry>, line: nat, k: nat) returns (i: nat)
    requires k < |entries| && entries[k].at.line == line
    ensures First(entries, line, i)
  {
    if j :| 0 <= j < k && entries[j].at.line == line {
      i := FirstIndex(entries, line, j);
    } else {
      i := k;
    }
  }

  lemma {:induction false} LastIndex(entries: seq<Entry>, line: nat, column: nat, k: nat) returns (i: nat)
    requires k < |entries| && Fits(entries[k], line, column)
    ensures Last(entries, line, column, i)
    decreases |entries| - k
  {
    if j :| k < j < |entries| && Fits(entries[j], line, column) {
      i := LastIndex(entries, line, column, j);
    } else {
      i := k;
    }
  }

  /** In sorted entries those above a line come first. */
  lemma {:induction false} AboveSorted(entries: seq<Entry>, line: nat)
    requires Sorted(Before, entries)
    ensures Above(entries, line) <= entries
    ensures forall i | 0 <= i < |entries| :: i < |Above(entries, line)| <==> entries[i].at.line < line
  {
    if entries != [] && entries[0].at.line < line {
      var rest := entries[1..];
      assert forall i | 0 <= i < |rest| :: rest[i] == entries[i + 1];
      AboveSorted(rest, line);
      assert entries == [entries[0]] + rest;
      assert forall i | 1 <= i < |entries| :: entries[i] == rest[i - 1];
    } else if entries != [] {
      assert forall i | 0 < i < |entries| :: Before(entries[0], entries[i]);
    }
  }

  lemma LastIs(entries: seq<Entry>, line: nat, column: nat, i: nat)
    requires Sorted(Before, entries) && Last(entries, line, column, i)
    ensures LastAtMost(Above(entries, line), column) == Some(entries[i])
  {
    AboveSorted(entries, line);
    LastAtMostIs(Above(entries, line), column, i);
  }

  lemma LastNone(entries: seq<Entry>, line: nat, column: nat)
    requires Sorted(Before, entries) && forall i | 0 <= i < |entries| :: !Fits(entries[i], line, column)
    ensures LastAtMost(Above(entries, line), column) == None
  {
    AboveSorted(entries, line);
    LastAtMostNone(Above(entries, line), column);
  }

  /** The index of an entry in an arrangement. */
  lemma IndexOf(nodes: Index, entries: seq<Entry>, p: string) returns (i: nat)
    requires Arranged(nodes, entries) && p in nodes
    ensures i < |entries| && entries[i] == EntryOf(nodes, p)
  {
    hide Depth;
    assert EntryOf(nodes, p) in entries;
    i :| 0 <= i < |entries| && entries[i] == EntryOf(nodes, p);
  }

  lemma EntryAt(nodes: Index, entries: seq<Entry>, i: nat)
    requires Arranged(nodes, entries) && i < |entries|
    ensures entries[i].pointer in nodes && entries[i] == EntryOf(nodes, entries[i].pointer)
  {
    assert entries[i] in entries;
  }

  lemma FirstDeepest(nodes: Index, entries: seq<Entry>, line: nat, i: nat)
    requires Arranged(nodes, entries) && First(entries, line, i)
    ensures Deepest(nodes, entries[i].pointer, line)
  {
    hide Depth;
    EntryAt(nodes, entries, i);
    forall r | OnLine(nodes, r, line) ensures Depth(r) <= Depth(entries[i].pointer) {
      var j := IndexOf(nodes, entries, r);
      if j != i { assert Before(entries[i], entries[j]); }
    }
  }

  lemma LastNearest(nodes: Index, entries: seq<Entry>, line: nat, column: nat, i: nat)
    requires Arranged(nodes, entries) && Last(entries, line, column, i)
    ensures Nearest(nodes, entries[i].pointer, line, column)
  {
    hide Depth;
    EntryAt(nodes, entries, i);
    var p := entries[i].pointer;
    forall r | Candidate(nodes, r, line, column)
      ensures nodes[r].line < nodes[p].line || (nodes[r].line == nodes[p].line && Depth(r) >= Depth(p))
    {
      var j := IndexOf(nodes, entries, r);
      if j != i { assert Before(entries[j], entries[i]); }
    }
  }

  /** The answer, given the key it is decided by. */
  function Answer(nodes: Index, p: string, line: nat, column: nat): Context
    requires p in nodes
  {
    if nodes[p].line == line then OnKey(EntryOf(nodes, p), column)
    else Context("", if nodes[p].column == column then ParentPointer(p) else p, true)
  }

  lemma AnswerFirst(nodes: Index, entries: seq<Entry>, line: nat, column: nat, i: nat)
    requires Arranged(nodes, entries) && First(entries, line, i)
    ensures entries[i].pointer in nodes &&
        ContextAt(entries, line, column) == Answer(nodes, entries[i].pointer, line, column)
  {
    hide Depth, ParentPointer, RawLength;
    EntryAt(nodes, entries, i);
    FirstOnIs(entries, line, i);
  }

  lemma AnswerLast(nodes: Index, entries: seq<Entry>, line: nat, column: nat, i: nat)
    requires Arranged(nodes, entries) && Last(entries, line, column, i) && !exists r :: OnLine(nodes, r, line)
    ensures entries[i].pointer in nodes &&
        ContextAt(entries, line, column) == Answer(nodes, entries[i].pointer, line, column)
  {
    hide Depth, ParentPointer, RawLength, Before;
    EntryAt(nodes, entries, i);
    NoneOnLine(nodes, entries, line);
    LastIs(entries, line, column, i);
  }

  lemma NoneOnLine(nodes: Index, entries: seq<Entry>, line: nat)
    requires Arranged(nodes, entries) && !exists r :: OnLine(nodes, r, line)
    ensures FirstOn(entries, line).None?
  {
    hide Depth, Before;
    forall k | 0 <= k < |entries| ensures entries[k].at.line != line {
      EntryAt(nodes, entries, k);
      assert !OnLine(nodes, entries[k].pointer, line);
    }
    FirstOnNone(entries, line);
  }

  /** Each arrangement decides for one of the deciding keys, if there is any. */
  lemma Decision(nodes: Index, entries: seq<Entry>, line: nat, column: nat) returns (i: nat)
    requires Arranged(nodes, entries)
    ensures i < |entries| ==>
              && entries[i].pointer in nodes && Decides(nodes, entries[i].pointer, line, column)
              && ContextAt(entries, line, column) == Answer(nodes, entries[i].pointer, line, column)
    ensures i < |entries| ==>
              if exists r :: OnLine(nodes, r, line) then First(entries, line, i) else Last(entries, line, column, i)
    ensures i >= |entries| ==>
              ContextAt(entries, line, column) == Context("", "", true) && forall p :: !Decides(nodes, p, line, column)
  {
    hide Depth, Before, ParentPointer, RawLength;
    if r :| OnLine(nodes, r, line) {
      var k := IndexOf(nodes, entries, r);
      i := FirstIndex(entries, line, k);
      EntryAt(nodes, entries, i);
      FirstDeepest(nodes, entries, line, i);
      AnswerFirst(nodes, entries, line, column, i);
    } else {
      NoneOnLine(nodes, entries, line);
      if k :| 0 <= k < |entries| && Fits(entries[k], line, column) {
        i := LastIndex(entries, line, column, k);
        EntryAt(nodes, entries, i);
        LastNearest(nodes, entries, line, column, i);
        AnswerLast(nodes, entries, line, column, i);
      } else {
        i := |entries|;
        LastNone(entries, line, column);
        forall p ensures !Decides(nodes, p, line, column) {
          if Candidate(nodes, p, line, column) {
            var k := IndexOf(nodes, entries, p);
          }
        }
      }
    }
  }

  // ---------- swapping a tie ----------

  function Swap(entries: seq<Entry>, i: nat, j: nat): seq<Entry>
    requires i < |entries| && j < |entries|
  {
    entries[i := entries[j]][j := entries[i]]
  }

  lemma SwapArranged(nodes: Index, entries: seq<Entry>, i: nat, j: nat)
    requires Arranged(nodes, entries) && i < |entries| && j < |entries|
    requires entries[i].at.line == entries[j].at.line && entries[i].depth == entries[j].depth
    ensures Arranged(nodes, Swap(entries, i, j))
  {
    hide Depth;
    var swapped := Swap(entries, i, j);
    assert forall k | 0 <= k < |entries| ::
        swapped[k].at.line == entries[k].at.line && swapped[k].depth == entries[k].depth;
    assert Sorted(Before, swapped);
    SwapElements(entries, i, j);
  }

  lemma SwapElements(entries: seq<Entry>, i: nat, j: nat)
    requires Distinct(entries) && i < |entries| && j < |entries|
    ensures Distinct(Swap(entries, i, j)) && forall e :: e in Swap(entries, i, j) <==> e in entries
  {
    var swapped := Swap(entries, i, j);
    assert swapped[i] == entries[j] && swapped[j] == entries[i];
    forall e ensures e in swapped <==> e in entries {
      if e in entries {
        var k :| 0 <= k < |entries| && entries[k] == e;
        assert e == swapped[if k == i then j else if k == j then i else k];
      }
    }
  }

  /** Two deciding keys give different answers. */
  lemma AnswersDiffer(nodes: Index, p: string, q: string, line: nat, column: nat)
    requires Indexed(nodes) && p in nodes && q in nodes && p != q
    requires nodes[p].line == nodes[q].line && Depth(p) == Depth(q)
    ensures Answer(nodes, p, line, column) != Answer(nodes, q, line, column)
  {
    assert nodes[p] != nodes[q];
    ParentDepth(nodes, p);
    ParentDepth(nodes, q);
    hide Indexed, Depth, ParentPointer;
  }

  lemma ParentDepth(nodes: Index, p: string)
    requires Indexed(nodes) && p in nodes
    ensures Depth(ParentPointer(p)) == Depth(p) - 1
  {
    var path := Segments(p);
    hide Segments, Depth, ParentPointer, Pointer;
    ParentOfPointer(path);
    DepthOfPointer(path);
    DepthOfPointer(path[..|path| - 1]);
  }

  /** The deciding keys are of one line and depth. */
  lemma DecidersTied(nodes: Index, p: string, q: string, line: nat, column: nat)
    requires Decides(nodes, p, line, column) && Decides(nodes, q, line, column)
    ensures p in nodes && q in nodes && nodes[p].line == nodes[q].line && Depth(p) == Depth(q)
  {
    hide Depth;
  }

  /** If another key decides as well, some arrangement decides for it. */
  lemma OtherDecision(nodes: Index, entries: seq<Entry>, line: nat, column: nat, q: string) returns (other: seq<Entry>)
    requires Arranged(nodes, entries) && Decides(nodes, q, line, column)
    ensures Arranged(nodes, other) && q in nodes && ContextAt(other, line, column) == Answer(nodes, q, line, column)
  {
    hide Depth, Before, ContextAt, Answer, Arranged, Deepest, Nearest;
    var i := Decision(nodes, entries, line, column);
    var p := entries[i].pointer;
    DecidersTied(nodes, p, q, line, column);
    EntryAt(nodes, entries, i);
    var j := IndexOf(nodes, entries, q);
    SwapArranged(nodes, entries, i, j);
    other := Swap(entries, i, j);
    assert other[i] == entries[j];
    if exists r :: OnLine(nodes, r, line) {
      SwapFirst(entries, line, i, j);
      AnswerFirst(nodes, other, line, column, i);
    } else {
      NearestFits(nodes, q, line, column);
      SwapLast(entries, line, column, i, j);
      AnswerLast(nodes, other, line, column, i);
    }
  }

  lemma NearestFits(nodes: Index, q: string, line: nat, column: nat)
    requires Decides(nodes, q, line, column) && !exists r :: OnLine(nodes, r, line)
    ensures q in nodes && Fits(EntryOf(nodes, q), line, column)
  {
  }

  lemma SwapFirst(entries: seq<Entry>, line: nat, i: nat, j: nat)
    requires First(entries, line, i) && j < |entries| && entries[j].at.line == line
    ensures First(Swap(entries, i, j), line, i)
  {
  }

  lemma SwapLast(entries: seq<Entry>, line: nat, column: nat, i: nat, j: nat)
    requires Last(entries, line, column, i) && j < |entries| && Fits(entries[j], line, column)
    ensures Last(Swap(entries, i, j), line, column, i)
  {
  }

  // ---------- the theorem ----------

  /** Over every index and cursor: all arrangements give the answer that one gives if and only if at
      most one key decides it, the single deepest on the cursor's line, or else the single shallowest
      of those not right of the cursor on the last line above that has any. */
  lemma OrderMattersIff(nodes: Index, entries: seq<Entry>, line: nat, column: nat)
    requires Indexed(nodes) && Arranged(nodes, entries)
    ensures (forall other | Arranged(nodes, other) ::
        ContextAt(other, line, column) == ContextAt(entries, line, column)) <==>
            !Undecided(nodes, line, column)
  {
    hide Indexed, Depth, ContextAt, Answer, Arranged, Decides;
    var i := Decision(nodes, entries, line, column);
    if Undecided(nodes, line, column) {
      var p, q :| p != q && Decides(nodes, p, line, column) && Decides(nodes, q, line, column);
      DecidersTied(nodes, p, q, line, column);
      var a := OtherDecision(nodes, entries, line, column, p);
      var b := OtherDecision(nodes, entries, line, column, q);
      AnswersDiffer(nodes, p, q, line, column);
    } else {
      forall other | Arranged(nodes, other) ensures ContextAt(other, line, column) == ContextAt(entries, line, column) {
        var j := Decision(nodes, other, line, column);
      }
    }
  }
}
