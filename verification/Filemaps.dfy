/** The filemap of one master file (`filemap_t`): for every master block, the image blocks where it was found. */
module Filemaps {

  /** A block number of the image. A file offset is a signed 64-bit number and a block has at least
      four bytes, so neither `+ 1` nor `- 1` on the 64-bit types can wrap to another block number. */
  type BlockNumber = b: int | 0 <= b < 0x2000_0000_0000_0000

  type Blocklist = seq<BlockNumber>

  function Front(l: Blocklist): (block: int)
    requires |l| > 0
  {
    l[0]
  }

  /** Whether a blocklist contains a number, which need not be a block number (the wrapped `0 - 1` is not one). */
  predicate Contains(l: Blocklist, block: int) {
    exists i :: 0 <= i < |l| && l[i] == block
  }

  // ---------------------------------------------------------------- what the two passes compute

  /** One step of the forward pass applies at master block `b`. */
  ghost predicate ForwardApplies(m: seq<Blocklist>, b: int) {
    1 <= b < |m| && |m[b - 1]| == 1 && |m[b]| > 1 && Contains(m[b], Front(m[b - 1]) + 1)
  }

  /** One step of the backward pass applies at master block `b`. */
  ghost predicate BackwardApplies(m: seq<Blocklist>, b: int) {
    0 <= b < |m| - 1 && |m[b + 1]| == 1 && |m[b]| > 1 && Contains(m[b], Front(m[b + 1]) - 1)
  }

  /** Block `a` has one location, and that location continued upwards is one of several at every block of (a, b]. */
  ghost predicate AnchorBelow(m: seq<Blocklist>, a: int, b: int) {
    && 0 <= a < b < |m| && |m[a]| == 1
    && forall j | a < j <= b :: |m[j]| > 1 && Contains(m[j], Front(m[a]) + (j - a))
  }

  /** Block `c` has one location, and that location continued downwards is one of several at every block of [b, c). */
  ghost predicate AnchorAbove(m: seq<Blocklist>, b: int, c: int) {
    && 0 <= b < c < |m| && |m[c]| == 1
    && forall j | b <= j < c :: |m[j]| > 1 && Contains(m[j], Front(m[c]) - (c - j))
  }

  ghost predicate AnchoredBelow(m: seq<Blocklist>, b: int) {
    exists a :: AnchorBelow(m, a, b)
  }

  ghost predicate AnchoredAbove(m: seq<Blocklist>, b: int) {
    exists c :: AnchorAbove(m, b, c)
  }

  /** What the forward pass leaves at `b`, read off the map before the pass. */
  ghost function ForwardAt(m: seq<Blocklist>, b: int): Blocklist
    requires 0 <= b < |m|
  {
    if AnchoredBelow(m, b) then
      var a :| AnchorBelow(m, a, b);
      assert Contains(m[b], Front(m[a]) + (b - a));
      [Front(m[a]) + (b - a)]
    else m[b]
  }

  /** What both passes leave at `b`, read off the map before either: an anchor below wins over one above. */
  ghost function CleanedAt(m: seq<Blocklist>, b: int): Blocklist
    requires 0 <= b < |m|
  {
    if AnchoredBelow(m, b) then ForwardAt(m, b)
    else if AnchoredAbove(m, b) then
      var c :| AnchorAbove(m, b, c);
      assert Contains(m[b], Front(m[c]) - (c - b));
      [Front(m[c]) - (c - b)]
    else m[b]
  }

  ghost function Forward(m: seq<Blocklist>): (f: seq<Blocklist>)
    ensures |f| == |m|
  {
    seq(|m|, b requires 0 <= b < |m| => ForwardAt(m, b))
  }

  ghost function Cleaned(m: seq<Blocklist>): (c: seq<Blocklist>)
    ensures |c| == |m|
  {
    seq(|m|, b requires 0 <= b < |m| => CleanedAt(m, b))
  }

  lemma AnchorBelowUnique(m: seq<Blocklist>, a: int, a': int, b: int)
    requires AnchorBelow(m, a, b) && AnchorBelow(m, a', b)
    ensures a == a'
  {
  }

  lemma AnchorAboveUnique(m: seq<Blocklist>, b: int, c: int, c': int)
    requires AnchorAbove(m, b, c) && AnchorAbove(m, b, c')
    ensures c == c'
  {
  }

  /** A block below an anchored block, down to the anchor, is anchored by the same block. */
  lemma AnchorBelowShrinks(m: seq<Blocklist>, a: int, j: int, b: int)
    requires AnchorBelow(m, a, b) && a < j <= b
    ensures AnchorBelow(m, a, j) && ForwardAt(m, j) == [Front(m[a]) + (j - a)]
  {
    assert AnchorBelow(m, a, j);
    assert AnchoredBelow(m, j);
    forall a' | AnchorBelow(m, a', j) ensures a' == a { AnchorBelowUnique(m, a, a', j); }
  }

  lemma AnchorAboveShrinks(m: seq<Blocklist>, b: int, j: int, c: int)
    requires AnchorAbove(m, b, c) && b <= j < c
    ensures AnchorAbove(m, j, c)
    ensures forall c' | AnchorAbove(m, j, c') :: c' == c
  {
    assert AnchorAbove(m, j, c);
    forall c' | AnchorAbove(m, j, c') ensures c' == c { AnchorAboveUnique(m, j, c, c'); }
  }

  /** The forward recurrence: the value at `b` depends only on the finished value at `b - 1`. */
  lemma ForwardRecurrence(m: seq<Blocklist>, b: int)
    requires 1 <= b < |m|
    ensures
      var prev := ForwardAt(m, b - 1);
      var rewritten := |prev| == 1 && |m[b]| > 1 && Contains(m[b], Front(prev) + 1);
      ForwardAt(m, b) == if rewritten then [Front(prev) + 1] else m[b]
  {
    var prev := ForwardAt(m, b - 1);
    if AnchoredBelow(m, b) {
      var a :| AnchorBelow(m, a, b);
      AnchorBelowShrinks(m, a, b, b);
      if a < b - 1 { AnchorBelowShrinks(m, a, b - 1, b); }
    } else if |prev| == 1 && |m[b]| > 1 && Contains(m[b], Front(prev) + 1) {
      if AnchoredBelow(m, b - 1) {
        var a :| AnchorBelow(m, a, b - 1);
        AnchorBelowShrinks(m, a, b - 1, b - 1);
        assert AnchorBelow(m, a, b);
      } else {
        assert AnchorBelow(m, b - 1, b);
      }
    }
  }

  /** If `b` has several locations and no anchor below, neither has `b + 1`. */
  lemma NoAnchorBelowNext(m: seq<Blocklist>, b: int)
    requires 0 <= b < |m| - 1 && |m[b]| > 1 && !AnchoredBelow(m, b)
    ensures !AnchoredBelow(m, b + 1)
  {
    if AnchoredBelow(m, b + 1) {
      var a :| AnchorBelow(m, a, b + 1);
      AnchorBelowShrinks(m, a, b, b + 1);
    }
  }

  /** The first block has nothing below it and the last nothing above it. */
  lemma FirstAndLast(m: seq<Blocklist>)
    ensures |m| > 0 ==> ForwardAt(m, 0) == m[0] && CleanedAt(m, |m| - 1) == ForwardAt(m, |m| - 1)
  {
  }

  /** The backward recurrence, over the result of the forward pass. */
  lemma BackwardRecurrence(m: seq<Blocklist>, b: int)
    requires 0 <= b < |m| - 1
    ensures
      var next, cur := CleanedAt(m, b + 1), ForwardAt(m, b);
      CleanedAt(m, b) == if |next| == 1 && |cur| > 1 && Contains(cur, Front(next) - 1) then [Front(next) - 1] else cur
  {
    var next, cur := CleanedAt(m, b + 1), ForwardAt(m, b);
    if AnchoredBelow(m, b) {
      var a :| AnchorBelow(m, a, b);
      AnchorBelowShrinks(m, a, b, b);
    } else if |m[b]| > 1 {
      NoAnchorBelowNext(m, b);
      if AnchoredAbove(m, b) {
        var c :| AnchorAbove(m, b, c);
        AnchorAboveShrinks(m, b, b, c);
        if c > b + 1 { AnchorAboveShrinks(m, b, b + 1, c); }
      } else if |next| == 1 && Contains(cur, Front(next) - 1) {
        if AnchoredAbove(m, b + 1) {
          var c :| AnchorAbove(m, b + 1, c);
          AnchorAboveShrinks(m, b + 1, b + 1, c);
          assert AnchorAbove(m, b, c);
        } else {
          assert AnchorAbove(m, b, b + 1);
        }
      }
    } else {
      assert !AnchoredAbove(m, b);
    }
  }

  // ---------------------------------------------------------------- cleaning reaches a fixpoint

  /** After the forward pass no forward step applies. */
  lemma ForwardIsStable(m: seq<Blocklist>, b: int)
    ensures !ForwardApplies(Forward(m), b)
  {
    if 1 <= b < |m| { ForwardRecurrence(m, b); }
  }

  /** After both passes no step of either direction applies: the backward pass re-enables no forward step. */
  lemma CleanedIsStable(m: seq<Blocklist>, b: int)
    ensures !ForwardApplies(Cleaned(m), b) && !BackwardApplies(Cleaned(m), b)
  {
    FirstAndLast(m);
    hide CleanedAt, ForwardAt;
    if 0 <= b < |m| - 1 { BackwardRecurrence(m, b); }
    if 1 <= b < |m| {
      BackwardRecurrence(m, b - 1);
      ForwardRecurrence(m, b);
      if b < |m| - 1 { BackwardRecurrence(m, b); }
    }
  }

  /** A map is left alone by cleaning exactly when no step applies to it. */
  lemma CleanedFixesExactlyStable(m: seq<Blocklist>)
    ensures Cleaned(m) == m <==> forall b :: !ForwardApplies(m, b) && !BackwardApplies(m, b)
  {
    if Cleaned(m) == m {
      forall b ensures !ForwardApplies(m, b) && !BackwardApplies(m, b) { CleanedIsStable(m, b); }
    } else if forall b :: !ForwardApplies(m, b) && !BackwardApplies(m, b) {
      forall b | 0 <= b < |m| ensures Cleaned(m)[b] == m[b] {
        if AnchoredBelow(m, b) {
          var a :| AnchorBelow(m, a, b);
          assert ForwardApplies(m, a + 1);
        }
        if AnchoredAbove(m, b) {
          var c :| AnchorAbove(m, b, c);
          assert BackwardApplies(m, c - 1);
        }
      }
    }
  }

  /** Iterating the cleaning changes nothing. */
  lemma CleanIdempotent(m: seq<Blocklist>)
    ensures Cleaned(Cleaned(m)) == Cleaned(m)
  {
    forall b ensures !ForwardApplies(Cleaned(m), b) && !BackwardApplies(Cleaned(m), b) { CleanedIsStable(m, b); }
    CleanedFixesExactlyStable(Cleaned(m));
  }

  /** The closed form: an anchor below decides the block, else an anchor above does, else it keeps its list. */
  lemma CleanedClosedForm(m: seq<Blocklist>, a: int, b: int, c: int)
    requires 0 <= b < |m|
    ensures AnchorBelow(m, a, b) ==> Cleaned(m)[b] == [Front(m[a]) + (b - a)]
    ensures !AnchoredBelow(m, b) && AnchorAbove(m, b, c) ==> Cleaned(m)[b] == [Front(m[c]) - (c - b)]
    ensures !AnchoredBelow(m, b) && !AnchoredAbove(m, b) ==> Cleaned(m)[b] == m[b]
  {
    if AnchorBelow(m, a, b) {
      AnchorBelowShrinks(m, a, b, b);
    } else if !AnchoredBelow(m, b) && AnchorAbove(m, b, c) {
      AnchorAboveShrinks(m, b, b, c);
    }
  }

  /** Cleaning drops locations but invents none, and never empties a list. */
  lemma CleanedSelects(m: seq<Blocklist>, b: int)
    requires 0 <= b < |m|
    ensures Cleaned(m)[b] == m[b] || (|m[b]| > 1 && |Cleaned(m)[b]| == 1 && Contains(m[b], Front(Cleaned(m)[b])))
  {
  }

  // ---------------------------------------------------------------- runs

  /** Location `v` of block `i` is continued by the blocks up to, but not including, `i + len`. */
  ghost predicate Continues(m: seq<Blocklist>, i: nat, v: int, len: nat) {
    && 1 <= len && (i + len <= |m| || len == 1)
    && forall j | i < j < i + len :: Contains(m[j], v + (j - i))
  }

  /** `len` is what `runlen` returns: the run goes on for `len` blocks and no further. */
  ghost predicate IsRun(m: seq<Blocklist>, i: nat, v: int, len: nat) {
    Continues(m, i, v, len) && (i + len < |m| ==> !Contains(m[i + len], v + len))
  }

  /** The length of the run from location `v` of block `i`, of which `len` blocks are known. */
  ghost function RunLength(m: seq<Blocklist>, i: nat, v: int, len: nat): (n: nat)
    requires i < |m| && Continues(m, i, v, len)
    ensures IsRun(m, i, v, n)
    decreases |m| - (i + len)
  {
    if i + len < |m| && Contains(m[i + len], v + len) then RunLength(m, i, v, len + 1) else len
  }

  lemma RunIsUnique(m: seq<Blocklist>, i: nat, v: int, len: nat, len': nat)
    requires IsRun(m, i, v, len) && IsRun(m, i, v, len')
    ensures len == len'
  {
  }

  lemma {:induction false} RunFromUniqueBlock(m: seq<Blocklist>, a: nat, b: nat)
    requires a <= b < |m| && |m[a]| == 1 && Continues(m, a, Front(m[a]), b - a + 1)
    ensures ForwardAt(m, b) == [Front(m[a]) + (b - a)] && Cleaned(m)[b] == [Front(m[a]) + (b - a)]
  {
    assert |m[b]| == 1 ==> !AnchoredBelow(m, b) && !AnchoredAbove(m, b);
    if a < b {
      assert Contains(m[b], Front(m[a]) + (b - a));
      RunFromUniqueBlock(m, a, b - 1);
      ForwardRecurrence(m, b);
      if |m[b]| == 1 { assert m[b][0] == Front(m[a]) + (b - a); }
    }
  }

  /** A run that starts at a block with one location survives cleaning unchanged, and every block of it
      is left with its one aligned location. */
  lemma AnchoredRunSurvives(m: seq<Blocklist>, a: nat, len: nat)
    requires a < |m| && |m[a]| == 1 && IsRun(m, a, Front(m[a]), len)
    ensures IsRun(Cleaned(m), a, Front(m[a]), len)
    ensures forall j | a <= j < a + len :: Cleaned(m)[j] == [Front(m[a]) + (j - a)]
  {
    forall j | a <= j < a + len ensures Cleaned(m)[j] == [Front(m[a]) + (j - a)] {
      RunFromUniqueBlock(m, a, j);
    }
    forall j | a < j < a + len ensures Contains(Cleaned(m)[j], Front(m[a]) + (j - a)) {
      assert Cleaned(m)[j][0] == Front(m[a]) + (j - a);
    }
    if a + len < |m| { CleanedSelects(m, a + len); }
  }

  // ---------------------------------------------------------------- the master blocks that were found

  ghost function NonEmpty(m: seq<Blocklist>): set<int> {
    set b | 0 <= b < |m| && |m[b]| > 0
  }

  lemma CleanedKeepsFound(m: seq<Blocklist>)
    ensures NonEmpty(Cleaned(m)) == NonEmpty(m)
  {
    forall b | 0 <= b < |m| ensures |Cleaned(m)[b]| > 0 <==> |m[b]| > 0 { CleanedSelects(m, b); }
  }

  /** `blocklist_t::contains`. */
  method ContainsBlock(l: Blocklist, block: int) returns (found: bool)
    ensures found == Contains(l, block)
    ensures found ==> 0 <= block < 0x2000_0000_0000_0000
  {
    for i := 0 to |l|
      invariant forall j | 0 <= j < i :: l[j] != block
    {
      if l[i] == block { return true; }
    }
    return false;
  }

  class Filemap {
    var lists: seq<Blocklist>

    constructor (blocks: nat)
      ensures lists == seq(blocks, _ => [])
    {
      lists := seq(blocks, _ => []);
    }

    method PushBack(i: nat, block: BlockNumber)
      requires i < |lists|
      modifies this
      ensures lists == old(lists)[i := old(lists)[i] + [block]]
    {
      lists := lists[i := lists[i] + [block]];
    }

    method Clean()
      modifies this
      ensures lists == Cleaned(old(lists))
    {
      hide Forward, Cleaned;
      ghost var m := lists;
      ForwardPass();
      BackwardPass(m);
    }

    method ForwardPass()
      modifies this
      ensures lists == Forward(old(lists))
    {
      hide ForwardAt, Contains;
      ghost var m := lists;
      var n := |lists|;
      var b := 1;
      FirstAndLast(m);
      while b < n
        invariant |lists| == n && 1 <= b && (b <= n || n == 0)
        invariant forall j | 0 <= j < n :: lists[j] == if j < b then ForwardAt(m, j) else m[j]
      {
        ForwardRecurrence(m, b);
        if |lists[b - 1]| == 1 && |lists[b]| > 1 {
          var predicted: int := Front(lists[b - 1]) + 1;
          var hit := ContainsBlock(lists[b], predicted);
          if hit {
            lists := lists[b := [predicted]];
          }
        }
        b := b + 1;
      }
    }

    method BackwardPass(ghost m: seq<Blocklist>)
      requires lists == Forward(m)
      modifies this
      ensures lists == Cleaned(m)
    {
      hide ForwardAt, CleanedAt, Contains;
      var n := |lists|;
      FirstAndLast(m);
      var b := n - 2;
      while b >= 0
        invariant |lists| == n && -2 <= b <= n - 2
        invariant n > 0 ==> -1 <= b
        invariant forall j | 0 <= j < n :: lists[j] == if j <= b then ForwardAt(m, j) else CleanedAt(m, j)
        decreases b
      {
        BackwardRecurrence(m, b);
        if |lists[b + 1]| == 1 && |lists[b]| > 1 {
          var predicted: int := Front(lists[b + 1]) - 1;
          var hit := ContainsBlock(lists[b], predicted);
          if hit {
            lists := lists[b := [predicted]];
          }
        }
        b := b - 1;
      }
    }

    method RunLen(masterBlock: nat, imageBlock: BlockNumber) returns (len: nat)
      ensures IsRun(lists, masterBlock, imageBlock, len)
    {
      len := 1;
      while masterBlock + len < |lists|
        invariant Continues(lists, masterBlock, imageBlock, len)
      {
        var next: int := imageBlock + len;
        var hit := ContainsBlock(lists[masterBlock + len], next);
        if !hit { return; }
        len := len + 1;
      }
    }

    method FoundCount() returns (count: nat)
      ensures count == |NonEmpty(lists)|
    {
      count := 0;
      assert NonEmpty(lists[..0]) == {};
      for b := 0 to |lists|
        invariant count == |NonEmpty(lists[..b])|
      {
        assert NonEmpty(lists[..b + 1]) == NonEmpty(lists[..b]) + if |lists[b]| > 0 then {b} else {};
        if |lists[b]| > 0 { count := count + 1; }
      }
      assert lists[..|lists|] == lists;
    }
  }
}
