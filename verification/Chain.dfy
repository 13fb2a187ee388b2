/**
 * The block tree and the active chain (src/chain.cpp, src/chain.h). Blocks point to their parents and skip to
 * further ancestors; a walk along skips is proved to reach the same block as the walk along parents. A parent and
 * a height are fixed when a block is made; skips are set later and chains change in place.
 */
module Chain {
  import opened SkipHeights

  // ---------------------------------------------------------------------------------------
  // Blocks

  class BlockIndex {
    const pprev: BlockIndex?
    const nHeight: nat
    var pskip: BlockIndex?

    constructor (pprev: BlockIndex?)
      requires pprev != null ==> Tree(pprev)
      ensures this.pprev == pprev && pskip == null && Tree(this)
    {
      this.pprev := pprev;
      nHeight := if pprev == null then 0 else pprev.nHeight + 1;
      pskip := null;
    }

    /** The ancestor at a height, or null if there is none, and how many blocks the walk to it passes. */
    method GetAncestor(height: int) returns (r: BlockIndex?, ghost steps: nat)
      requires Tree(this) && SkipsOk(this)
      ensures r == AncestorAt(this, height)
      ensures SkipsSet(this) && 0 <= height <= nHeight ==> steps == Steps(nHeight, height)
    {
      hide Tree, Line, Back, GetSkipHeight, SkipsOk, SkipsSet;
      steps := 0;
      if height > nHeight || height < 0 {
        return null, 0;
      }
      Stands(this, 0);
      var walk: BlockIndex, heightWalk: nat := this, nHeight;
      while heightWalk > height
        invariant height <= heightWalk <= nHeight && walk == Back(this, nHeight - heightWalk) && SkipsOk(this)
        invariant SkipsSet(this) ==> steps + Steps(heightWalk, height) == Steps(nHeight, height)
        decreases heightWalk
      {
        var heightSkip := GetSkipHeight(heightWalk);
        var heightSkipPrev := GetSkipHeight(heightWalk - 1);
        Stands(this, nHeight - heightWalk);
        SkipOf(this, walk);
        steps := steps + 1;
        if walk.pskip != null &&
           (heightSkip == height ||
            (heightSkip > height && !(heightSkipPrev < heightSkip - 2 && heightSkipPrev >= height))) {
          BackTwice(this, nHeight - heightWalk, heightWalk - heightSkip);
          walk := walk.pskip;
          heightWalk := heightSkip;
        } else {
          BackTwice(this, nHeight - heightWalk, 1);
          walk := walk.pprev;
          heightWalk := heightWalk - 1;
        }
      }
      return walk, steps;
    }

    /** Sets the skip, once the skips of the ancestors are set. */
    method BuildSkip()
      requires Tree(this) && (pprev != null ==> SkipsOk(pprev)) && (pprev == null ==> pskip == null)
      modifies this`pskip
      ensures SkipsOk(this) && (pprev != null ==> pskip == AncestorAt(this, GetSkipHeight(nHeight)) != null)
      ensures pprev == null || old(SkipsSet(pprev)) ==> SkipsSet(this)
    {
      hide GetSkipHeight, AncestorAt, SkipsOk, SkipsSet, Line, Tree;
      if pprev == null {
        SkipsExtend(this);
        return;
      }
      TreeParent(this);
      LineAllocated(pprev);
      NotOwnAncestor(this);
      ParentAncestor(this, GetSkipHeight(nHeight));
      var skip, _ := pprev.GetAncestor(GetSkipHeight(nHeight));
      pskip := skip;
      SkipsExtend(this);
    }
  }

  /** Heights count the parents down to a block without one. */
  ghost predicate Tree(b: BlockIndex)
    decreases b.nHeight
  {
    if b.pprev == null then b.nHeight == 0
    else b.nHeight == b.pprev.nHeight + 1 && Tree(b.pprev)
  }

  /** The block reached by following the parents n times. */
  ghost function Back(b: BlockIndex, n: nat): BlockIndex?
  {
    if n == 0 then b else if b.pprev == null then null else Back(b.pprev, n - 1)
  }

  ghost function AncestorAt(b: BlockIndex, height: int): BlockIndex? {
    if 0 <= height <= b.nHeight then Back(b, b.nHeight - height) else null
  }

  /** A block and its ancestors. */
  ghost function Line(b: BlockIndex): set<BlockIndex>
    requires Tree(b)
    decreases b.nHeight
  {
    if b.pprev == null then {b} else {b} + Line(b.pprev)
  }

  /** Every skip on the way down, if set, leads to the ancestor at the skip height. */
  ghost predicate SkipsOk(b: BlockIndex)
    requires Tree(b)
    reads Line(b)
  {
    forall x | x in Line(b) :: x.pskip != null ==> x.pskip == AncestorAt(x, GetSkipHeight(x.nHeight))
  }

  /** Every block above the first has its skip. */
  ghost predicate SkipsSet(b: BlockIndex)
    requires Tree(b)
    reads Line(b)
  {
    forall x | x in Line(b) :: x.nHeight > 0 ==> x.pskip != null
  }

  lemma TreeParent(b: BlockIndex)
    requires Tree(b) && b.pprev != null
    ensures Tree(b.pprev) && b.nHeight == b.pprev.nHeight + 1
  {
  }

  lemma ParentAncestor(b: BlockIndex, height: nat)
    requires Tree(b) && b.pprev != null && height < b.nHeight
    ensures AncestorAt(b, height) == AncestorAt(b.pprev, height) != null
  {
    BackTwice(b, 1, b.nHeight - 1 - height);
    Stands(b, b.nHeight - height);
  }

  lemma SkipsExtend(b: BlockIndex)
    requires Tree(b) && (b.pprev != null ==> SkipsOk(b.pprev))
    requires b.pskip != null ==> b.pskip == AncestorAt(b, GetSkipHeight(b.nHeight))
    ensures SkipsOk(b)
    ensures (b.pprev != null ==> b.pskip != null && SkipsSet(b.pprev)) ==> SkipsSet(b)
  {
    hide GetSkipHeight, Back;
    forall x | x in Line(b) && x != b ensures b.pprev != null && x in Line(b.pprev) {
    }
  }

  lemma {:induction false} Stands(b: BlockIndex, n: nat)
    requires Tree(b) && n <= b.nHeight
    ensures var x := Back(b, n);
            && x != null && x in Line(b) && Tree(x) && x.nHeight == b.nHeight - n
            && (n == 0 ==> x == b)
            && (x.nHeight > 0 ==>
                  && x.pprev != null && Tree(x.pprev)
                  && Back(x, 1) == x.pprev && x.pprev.nHeight == x.nHeight - 1)
  {
    if n > 0 {
      Stands(b.pprev, n - 1);
    }
  }

  lemma {:induction false} LineAllocated(b: BlockIndex)
    requires Tree(b)
    ensures forall x | x in Line(b) :: allocated(x)
    decreases b.nHeight
  {
    if b.pprev != null {
      LineAllocated(b.pprev);
    }
  }

  lemma SkipOf(b: BlockIndex, x: BlockIndex)
    requires Tree(b) && SkipsOk(b) && x in Line(b)
    ensures x.pskip != null ==> x.pskip == AncestorAt(x, GetSkipHeight(x.nHeight))
    ensures SkipsSet(b) && x.nHeight > 0 ==> x.pskip != null
  {
  }

  lemma {:induction false} BackTwice(b: BlockIndex, m: nat, n: nat)
    requires Tree(b) && m + n <= b.nHeight
    ensures Back(b, m) != null && Back(Back(b, m), n) == Back(b, m + n)
  {
    if m > 0 {
      BackTwice(b.pprev, m - 1, n);
    }
  }

  /** What is in the line of a block is the ancestor at its height, and has its own line in it. */
  lemma {:induction false} InLine(b: BlockIndex, x: BlockIndex)
    requires Tree(b) && x in Line(b)
    ensures Tree(x) && x.nHeight <= b.nHeight && x == AncestorAt(b, x.nHeight) && Line(x) <= Line(b)
    decreases b.nHeight
  {
    if x != b {
      InLine(b.pprev, x);
    }
  }

  lemma NotOwnAncestor(b: BlockIndex)
    requires Tree(b) && b.pprev != null
    ensures b !in Line(b.pprev)
  {
    if b in Line(b.pprev) {
      InLine(b.pprev, b);
    }
  }

  /** The highest block that two blocks have in common, or null if they have none. */
  ghost predicate HighestCommon(r: BlockIndex?, a: set<BlockIndex>, b: set<BlockIndex>) {
    if r == null then a * b == {}
    else r in a && r in b && forall x | x in a && x in b :: x.nHeight <= r.nHeight
  }

  ghost function LineOf(b: BlockIndex?): set<BlockIndex>
    requires b != null ==> Tree(b)
  {
    if b == null then {} else Line(b)
  }

  /** The blocks of a line up to a height are the line of the ancestor there. */
  lemma LowerPart(b: BlockIndex, x: BlockIndex, height: nat)
    requires Tree(b) && x in Line(b) && x.nHeight <= height <= b.nHeight
    ensures AncestorAt(b, height) != null && Tree(AncestorAt(b, height)) && x in Line(AncestorAt(b, height))
  {
    InLine(b, x);
    Stands(b, b.nHeight - height);
    BackTwice(b, b.nHeight - height, height - x.nHeight);
    Stands(AncestorAt(b, height), height - x.nHeight);
  }

  /** Cutting the longer line down to the height of the other loses no common block. */
  lemma CutLoses(a: BlockIndex, b: BlockIndex)
    requires Tree(a) && Tree(b) && a.nHeight >= b.nHeight
    ensures var c := AncestorAt(a, b.nHeight);
            c != null && Tree(c) && c.nHeight == b.nHeight && Line(c) * Line(b) == Line(a) * Line(b)
  {
    Stands(a, a.nHeight - b.nHeight);
    var c := AncestorAt(a, b.nHeight);
    InLine(a, c);
    forall x | x in Line(a) && x in Line(b) ensures x in Line(c) {
      InLine(b, x);
      LowerPart(a, x, b.nHeight);
    }
  }

  /** Two different blocks of one height have in common what their parents have. */
  lemma ParentsShare(a: BlockIndex, b: BlockIndex)
    requires Tree(a) && Tree(b) && a != b && a.nHeight == b.nHeight
    ensures (a.pprev == null <==> b.pprev == null) && LineOf(a.pprev) * LineOf(b.pprev) == Line(a) * Line(b)
  {
    forall x | x in Line(a) && x in Line(b) ensures x != a && x != b {
      InLine(a, x);
      InLine(b, x);
    }
  }

  lemma OwnTop(a: BlockIndex)
    requires Tree(a)
    ensures a in Line(a) && forall x | x in Line(a) :: x.nHeight <= a.nHeight
  {
    forall x | x in Line(a) ensures x.nHeight <= a.nHeight {
      InLine(a, x);
    }
  }

  /** The last common ancestor of two blocks; null if their lines never meet. */
  method LastCommonAncestor(pa: BlockIndex, pb: BlockIndex) returns (r: BlockIndex?)
    requires Tree(pa) && Tree(pb) && SkipsOk(pa) && SkipsOk(pb)
    ensures HighestCommon(r, Line(pa), Line(pb))
  {
    hide Line, Back, SkipsOk;
    var a: BlockIndex?, b: BlockIndex? := pa, pb;
    ghost var steps := 0;
    if pa.nHeight > pb.nHeight {
      CutLoses(pa, pb);
      a, steps := pa.GetAncestor(pb.nHeight);
    } else if pb.nHeight > pa.nHeight {
      CutLoses(pb, pa);
      b, steps := pb.GetAncestor(pa.nHeight);
      assert Line(pa) * Line(b) == Line(b) * Line(pa) && Line(pb) * Line(pa) == Line(pa) * Line(pb);
    }
    while a != b && a != null && b != null
      invariant (a == null <==> b == null) && (a != null && b != null ==> Tree(a) && Tree(b) && a.nHeight == b.nHeight)
      invariant LineOf(a) * LineOf(b) == Line(pa) * Line(pb)
      decreases if a == null then 0 else a.nHeight + 1
    {
      ParentsShare(a, b);
      a, b := a.pprev, b.pprev;
    }
    assert a == b;
    if a != null {
      OwnTop(a);
      assert forall x | x in Line(pa) && x in Line(pb) :: x in Line(pa) * Line(pb);
      assert a in Line(pa) * Line(pb);
    }
    return a;
  }

  // ---------------------------------------------------------------------------------------
  // The active chain

  class ActiveChain {
    var vChain: seq<BlockIndex?>

    /** Every entry is the ancestor of the last one at its height. */
    ghost predicate Valid()
      reads this
    {
      vChain != [] ==>
        var tip := vChain[|vChain| - 1];
        && tip != null && Tree(tip) && tip.nHeight == |vChain| - 1
        && forall i | 0 <= i < |vChain| :: vChain[i] == AncestorAt(tip, i)
    }

    /** The blocks of the chain. */
    ghost function Blocks(): set<BlockIndex>
      requires Valid()
      reads this
    {
      if vChain == [] then {} else Line(vChain[|vChain| - 1])
    }

    constructor ()
      ensures Valid() && vChain == []
    {
      vChain := [];
    }

    predicate Contains(p: BlockIndex)
      reads this
    {
      p.nHeight < |vChain| && vChain[p.nHeight] == p
    }

    lemma ContainsBlocks(p: BlockIndex)
      requires Valid() && Tree(p)
      ensures Contains(p) <==> p in Blocks()
    {
      if vChain != [] {
        var tip := vChain[|vChain| - 1];
        if p in Line(tip) {
          InLine(tip, p);
        }
        if Contains(p) {
          Stands(tip, tip.nHeight - p.nHeight);
        }
      }
    }

    /** Makes the chain end in a block, writing entries only down to where it already agrees. */
    method SetTip(block: BlockIndex)
      requires Valid() && Tree(block)
      modifies this
      ensures Valid() && Blocks() == Line(block)
      ensures |vChain| == block.nHeight + 1 && vChain[block.nHeight] == block
    {
      hide Tree, Line, Back;
      ghost var was := vChain;
      var n := block.nHeight + 1;
      vChain := if |vChain| >= n then vChain[..n] else vChain + seq(n - |vChain|, _ => null);
      ghost var sized := vChain;
      Stands(block, 0);
      var p: BlockIndex? := block;
      while p != null && vChain[p.nHeight] != p
        invariant |vChain| == n && (p != null ==> p.nHeight < n && Tree(p) && p == AncestorAt(block, p.nHeight))
        invariant forall i | Top(p) <= i < n :: vChain[i] == AncestorAt(block, i)
        invariant forall i | 0 <= i < Top(p) :: vChain[i] == sized[i]
        decreases Top(p)
      {
        var h := p.nHeight;
        ParentIs(block, p);
        vChain := vChain[h := p];
        p := p.pprev;
      }
      if p != null {
        AgreesBelow(block, p, was, |was|);
      }
      assert forall i | 0 <= i < n :: vChain[i] == AncestorAt(block, i);
    }

    /** The highest block that the chain and the line of a block have in common. */
    method FindFork(pindex: BlockIndex?) returns (r: BlockIndex?)
      requires Valid() && (pindex != null ==> Tree(pindex) && SkipsOk(pindex))
      ensures HighestCommon(r, LineOf(pindex), Blocks())
    {
      hide Tree, Line, Back, SkipsOk;
      if pindex == null {
        return null;
      }
      var p: BlockIndex? := pindex;
      ghost var steps := 0;
      if pindex.nHeight > |vChain| - 1 {
        p, steps := pindex.GetAncestor(|vChain| - 1);
        CutToChain(pindex);
      }
      while p != null && !Contains(p)
        invariant p != null ==> Tree(p)
        invariant LineOf(p) * Blocks() == LineOf(pindex) * Blocks()
        decreases Top(p)
      {
        ContainsBlocks(p);
        ParentOnly(p);
        p := p.pprev;
      }
      if p != null {
        ContainsBlocks(p);
        OwnTop(p);
        assert p in LineOf(pindex) * Blocks();
        assert forall x | x in LineOf(pindex) && x in Blocks() :: x in LineOf(pindex) * Blocks();
      }
      return p;
    }

    lemma CutToChain(b: BlockIndex)
      requires Valid() && Tree(b) && b.nHeight > |vChain| - 1
      ensures var c := AncestorAt(b, |vChain| - 1);
              (c != null ==> Tree(c)) && LineOf(c) * Blocks() == Line(b) * Blocks()
    {
      if vChain != [] {
        CutLoses(b, vChain[|vChain| - 1]);
      }
    }
  }

  ghost function Top(p: BlockIndex?): nat {
    if p == null then 0 else p.nHeight + 1
  }

  lemma ParentIs(block: BlockIndex, p: BlockIndex)
    requires Tree(block) && Tree(p) && p == AncestorAt(block, p.nHeight)
    ensures p.pprev == null ==> p.nHeight == 0
    ensures p.pprev != null ==>
              && Tree(p.pprev) && p.nHeight == p.pprev.nHeight + 1
              && p.pprev == AncestorAt(block, p.pprev.nHeight)
  {
    if p.pprev != null {
      BackTwice(block, block.nHeight - p.nHeight, 1);
    }
  }

  lemma ParentOnly(p: BlockIndex)
    requires Tree(p)
    ensures (p.pprev != null ==> Tree(p.pprev) && p.pprev.nHeight < p.nHeight) && LineOf(p) == LineOf(p.pprev) + {p}
  {
  }

  /** Where the old chain holds a block, it holds that block's ancestors below. */
  lemma AgreesBelow(block: BlockIndex, p: BlockIndex, was: seq<BlockIndex?>, n: nat)
    requires Tree(block) && Tree(p) && p == AncestorAt(block, p.nHeight)
    requires n == |was| && p.nHeight < n && was[p.nHeight] == p
    requires var tip := was[n - 1];
             tip != null && Tree(tip) && tip.nHeight == n - 1 && forall i | 0 <= i < n :: was[i] == AncestorAt(tip, i)
    ensures forall i | 0 <= i <= p.nHeight :: was[i] == AncestorAt(block, i)
  {
    var tip := was[n - 1];
    forall i | 0 <= i <= p.nHeight ensures was[i] == AncestorAt(block, i) {
      BackTwice(tip, tip.nHeight - p.nHeight, p.nHeight - i);
      BackTwice(block, block.nHeight - p.nHeight, p.nHeight - i);
    }
  }
}
