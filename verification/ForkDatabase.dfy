/**
 The fork database: a tree of recent blocks, one of which is the head. Items hold weak links to
 their parents, so a parent that has been pruned from the index is no longer reachable.
 */
module ForkDatabases {
  import opened Words
  import opened BlockIds

  /** A block as far as the tree is concerned; `digest` stands for the hash of its header. */
  datatype Block = Block(previous: BlockId, digest: nat) {
    function Num(): Uint32 {
      Increment(previous.num)
    }

    function Id(): BlockId {
      BlockId(Num(), digest)
    }
  }

  class ForkItem {
    const num: Uint32
    const id: BlockId
    const data: Block
    const prev: ForkItem?
    var invalid: bool

    constructor (data: Block, prev: ForkItem?)
      ensures this.data == data && this.prev == prev && num == data.Num() && id == data.Id() && !invalid
    {
      this.data := data;
      this.prev := prev;
      num := data.Num();
      id := data.Id();
      invalid := false;
    }

    /** A link joins consecutive block numbers and follows the `previous` id. */
    ghost predicate Linked() {
      && num == data.Num() && id == data.Id()
      && (prev != null ==> prev.num + 1 == num && prev.id == data.previous)
    }
  }

  type Index = map<BlockId, ForkItem>

  ghost predicate Indexed(index: Index, x: ForkItem) {
    x.id in index && index[x.id] == x
  }

  /** Properly linked; a parent that is gone lies below the pruning cut; an item without a parent
      is a root or starts a chain. */
  ghost predicate Fits(index: Index, cut: nat, roots: set<ForkItem>, x: ForkItem) {
    && x.Linked()
    && (x.prev != null ==> Indexed(index, x.prev) || x.prev.num < cut)
    && (x.prev == null ==> x in roots || x.data.previous == NULL_ID)
  }

  ghost predicate IsTree(index: Index, cut: nat, roots: set<ForkItem>) {
    forall i :: i in index ==> index[i].id == i && Fits(index, cut, roots, index[i])
  }

  /** The head is a block of the tree, though possibly a second item for the same block. */
  ghost predicate HasHead(index: Index, cut: nat, roots: set<ForkItem>, head: ForkItem?) {
    if head == null then index == map[] else head.id in index && Fits(index, cut, roots, head)
  }

  ghost predicate Alive(index: Index, head: ForkItem?, x: ForkItem) {
    Indexed(index, x) || x == head
  }

  /** What locking the weak link gives. */
  ghost function Parent(index: Index, head: ForkItem?, x: ForkItem): ForkItem? {
    if x.prev != null && Alive(index, head, x.prev) then x.prev else null
  }

  ghost predicate WellLinked(index: Index, head: ForkItem?) {
    (forall i :: i in index ==> index[i].id == i && index[i].Linked()) && (head != null ==> head.Linked())
  }

  /** The item and its ancestors as far as they can still be reached. */
  ghost function Chain(index: Index, head: ForkItem?, x: ForkItem): seq<ForkItem>
    requires WellLinked(index, head) && Alive(index, head, x)
    decreases x.num
  {
    var p := Parent(index, head, x);
    if p == null then [x] else [x] + Chain(index, head, p)
  }

  /** Block numbers go down by one along a chain, and every member can still be reached. */
  lemma {:induction false} ChainShape(index: Index, head: ForkItem?, x: ForkItem, k: nat)
    requires WellLinked(index, head) && Alive(index, head, x) && k < |Chain(index, head, x)|
    ensures var c := Chain(index, head, x);
            && Alive(index, head, c[k]) && c[k].num + k == x.num && c[k..] == Chain(index, head, c[k])
            && (k == 0 ==> c[k] == x)
            && (if Parent(index, head, c[k]) == null then k + 1 == |c|
                else k + 1 < |c| && c[k + 1] == Parent(index, head, c[k]))
    decreases k
  {
    var c, p := Chain(index, head, x), Parent(index, head, x);
    if k == 0 {
      assert c[0..] == c;
    } else {
      assert p != null && c[1..] == Chain(index, head, p);
      ChainShape(index, head, p, k - 1);
      assert c[k..] == c[1..][k - 1..];
    }
  }

  lemma ChainNumbers(index: Index, head: ForkItem?, x: ForkItem)
    requires WellLinked(index, head) && Alive(index, head, x)
    ensures var c := Chain(index, head, x);
            |c| > 0 && forall k :: 0 <= k < |c| ==> Alive(index, head, c[k]) && c[k].num + k == x.num
  {
    forall k | 0 <= k < |Chain(index, head, x)|
      ensures Alive(index, head, Chain(index, head, x)[k]) && Chain(index, head, x)[k].num + k == x.num
    {
      ChainShape(index, head, x, k);
    }
  }

  /** The block with number `n` on the chain from the head, if it can still be reached. */
  ghost function MainBranchAt(index: Index, head: ForkItem, n: nat): (r: ForkItem?)
    requires WellLinked(index, head)
    ensures r != null ==> r.num == n && r in Chain(index, head, head)
    ensures r == null ==> forall k :: 0 <= k < |Chain(index, head, head)| ==> Chain(index, head, head)[k].num != n
  {
    ChainNumbers(index, head, head);
    var c := Chain(index, head, head);
    if n <= head.num < n + |c| then c[head.num - n] else null
  }

  ghost function Numbered(index: Index, n: nat): set<BlockId> {
    set i | i in index && index[i].num == n
  }

  /** Two items that stand for the same block, or two missing ones. */
  ghost predicate SameBlock(a: ForkItem?, b: ForkItem?) {
    (a == null <==> b == null) && (a != null ==> a.id == b.id)
  }

  /** A pair at equal height with the same parent id. */
  ghost predicate ForkPoint(a: seq<ForkItem>, b: seq<ForkItem>, i: nat, j: nat) {
    i < |a| && j < |b| && a[i].num == b[j].num && a[i].data.previous == b[j].data.previous
  }

  ghost predicate HasFork(a: seq<ForkItem>, b: seq<ForkItem>) {
    exists i: nat, j: nat :: ForkPoint(a, b, i, j)
  }

  ghost predicate IsHighestFork(a: seq<ForkItem>, b: seq<ForkItem>, i: nat, j: nat) {
    ForkPoint(a, b, i, j) && forall k: nat, l: nat :: ForkPoint(a, b, k, l) ==> i <= k && j <= l
  }

  /** Initial parts of the two chains that end at the highest fork point, if there is any. */
  ghost predicate AreBranches(a: seq<ForkItem>, b: seq<ForkItem>, ok: bool, r: seq<ForkItem>, s: seq<ForkItem>) {
    && (ok <==> HasFork(a, b))
    && (ok ==> r != [] && s != [] && r <= a && s <= b && IsHighestFork(a, b, |r| - 1, |s| - 1))
  }

  /** An item still fits after insertions, and after removals below a higher cut. */
  lemma StillFits(index: Index, cut: nat, roots: set<ForkItem>, index': Index, cut': nat, roots': set<ForkItem>, x: ForkItem)
    requires Fits(index, cut, roots, x) && cut <= cut' && roots <= roots'
    requires forall i :: i in index ==> (i in index' && index'[i] == index[i]) || index[i].num < cut'
    ensures Fits(index', cut', roots', x)
  {
    if x.prev != null && Indexed(index, x.prev) {
      assert x.prev.id in index;
    }
  }

  lemma InsertKeepsTree(index: Index, cut: nat, roots: set<ForkItem>, item: ForkItem, roots': set<ForkItem>)
    requires IsTree(index, cut, roots) && roots <= roots' && item.id !in index
    requires Fits(index, cut, roots', item)
    ensures IsTree(index[item.id := item], cut, roots')
  {
    var index' := index[item.id := item];
    forall i | i in index' ensures index'[i].id == i && Fits(index', cut, roots', index'[i]) {
      StillFits(index, cut, if i in index then roots else roots', index', cut, roots', index'[i]);
    }
  }

  lemma RootsKeepTree(index: Index, cut: nat, roots: set<ForkItem>, roots': set<ForkItem>)
    requires IsTree(index, cut, roots) && roots <= roots'
    ensures IsTree(index, cut, roots')
  {
  }

  lemma PruneKeepsTree(index: Index, cut: nat, roots: set<ForkItem>, index': Index, cut': nat)
    requires IsTree(index, cut, roots) && cut <= cut'
    requires forall i :: i in index' ==> i in index && index'[i] == index[i]
    requires forall i :: i in index && i !in index' ==> index[i].num < cut'
    ensures IsTree(index', cut', roots)
  {
    forall i | i in index' ensures index'[i].id == i && Fits(index', cut', roots, index'[i]) {
      StillFits(index, cut, roots, index', cut', roots, index'[i]);
    }
  }

  /** A new item fits. The number inside the id makes its link join consecutive numbers, since a
      number that wrapped around to zero is never linked. */
  lemma NewItemFits(index: Index, cut: nat, roots: set<ForkItem>, item: ForkItem)
    requires IsTree(index, cut, roots) && item.num == item.data.Num() && item.id == item.data.Id()
    requires item.prev != null ==> item.data.previous in index && item.prev == index[item.data.previous] && item.num > 0
    ensures item.prev != null || item.data.previous == NULL_ID ==> Fits(index, cut, roots, item)
    ensures Fits(index, cut, roots + {item}, item)
  {
    if item.prev != null {
      var i, prev := item.data.previous, item.prev;
      assert index[i] == prev && prev.id == i && prev.Linked();
      hide IsTree;
      LinksUp(i, prev.num, item.num);
      assert item.Linked() && Indexed(index, prev);
    } else {
      hide IsTree;
    }
  }

  lemma LinksUp(i: BlockId, below: Uint32, above: Uint32)
    requires i.num == below && above == Increment(below) && above > 0
    ensures below + 1 == above
  {
  }

  lemma HeadStillFits(index: Index, cut: nat, roots: set<ForkItem>, head: ForkItem, item: ForkItem, roots': set<ForkItem>)
    requires HasHead(index, cut, roots, head) && roots <= roots'
    ensures HasHead(index[item.id := item], cut, roots', head) || item.id in index
    ensures HasHead(index, cut, roots', head)
  {
    if item.id !in index {
      StillFits(index, cut, roots, index[item.id := item], cut, roots', head);
    }
  }

  lemma ItemIsHead(index: Index, cut: nat, roots: set<ForkItem>, index': Index, item: ForkItem)
    requires Fits(index, cut, roots, item) && item.id in index'
    requires index' == index || (item.id !in index && index' == index[item.id := item])
    ensures HasHead(index', cut, roots, item)
  {
    StillFits(index, cut, roots, index', cut, roots, item);
  }

  datatype PushError = TooOld | Unlinkable | InvalidParent

  datatype PushResult = Pushed(head: ForkItem) | Refused(error: PushError)

  class ForkDatabase {
    var index: Index
    var head: ForkItem?
    var maxSize: Uint32
    ghost var cut: nat                 // everything ever pruned had a smaller number
    ghost var roots: set<ForkItem>     // items inserted while nothing could be linked

    ghost predicate Valid()
      reads this
    {
      IsTree(index, cut, roots) && HasHead(index, cut, roots, head)
    }

    constructor ()
      ensures Valid() && index == map[] && head == null && maxSize == 1024
    {
      index, head, maxSize := map[], null, 1024;
      cut, roots := 0, {};
    }

    /** Puts an item into the index unless its block is already there. */
    method Insert(item: ForkItem, ghost before: set<ForkItem>)
      requires IsTree(index, cut, before) && before <= roots && Fits(index, cut, roots, item)
      modifies this`index
      ensures IsTree(index, cut, roots) && item.id in index
      ensures index == if item.id in old(index) then old(index) else old(index)[item.id := item]
    {
      if item.id in index {
        RootsKeepTree(index, cut, before, roots);
      } else {
        InsertKeepsTree(index, cut, before, item, roots);
        index := index[item.id := item];
      }
    }

    method StartBlock(b: Block)
      requires Valid()
      modifies this
      ensures Valid() && maxSize == old(maxSize) && cut == old(cut)
      ensures fresh(head) && head.data == b && head.prev == null && !head.invalid
      ensures index == if b.Id() in old(index) then old(index) else old(index)[b.Id() := head]
    {
      var item := new ForkItem(b, null);
      roots := roots + {item};
      Insert(item, old(roots));
      head := item;
    }

    /** Why a block would be refused, if it would be. */
    predicate TooOldFor(b: Block)
      reads this
    {
      head != null && b.Num() <= (if head.num > maxSize then head.num - maxSize else 0)
    }

    predicate MustLink(b: Block)
      reads this
    {
      head != null && b.previous != NULL_ID
    }

    /** The item a block is linked to, if it is linked. */
    ghost function ParentOf(b: Block): ForkItem?
      reads this
    {
      if MustLink(b) && b.previous in index then index[b.previous] else null
    }

    /** Adds a block. The head moves only to a strictly higher number; a refused block changes
        nothing. */
    method PushBlock(b: Block) returns (r: PushResult)
      requires Valid()
      modifies this
      ensures Valid() && maxSize == old(maxSize) && cut == old(cut)
      ensures r == Refused(TooOld) <==> old(head) != null && (b.Num() == 0 || b.Num() + old(maxSize) <= old(head).num)
      ensures r == Refused(Unlinkable) <==>
                r != Refused(TooOld) && old(head) != null && b.previous != BlockId(0, 0) && b.previous !in old(index)
      ensures r == Refused(InvalidParent) <==>
                && r != Refused(TooOld) && old(head) != null && b.previous != BlockId(0, 0)
                && b.previous in old(index) && old(index[b.previous].invalid)
      ensures r.Pushed? <==> r != Refused(TooOld) && r != Refused(Unlinkable) && r != Refused(InvalidParent)
      ensures r.Refused? ==> index == old(index) && head == old(head) && roots == old(roots)
      ensures r.Pushed? ==> r.head == head && b.Id() in index
      ensures r.Pushed? ==>
                if b.Id() in old(index) then index == old(index)
                else index == old(index)[b.Id() := index[b.Id()]] && fresh(index[b.Id()]) && index[b.Id()].data == b
                     && index[b.Id()].prev == (if old(head) != null && b.previous != BlockId(0, 0) then old(index)[b.previous] else null)
      ensures r.Pushed? ==> if old(head) != null && b.Num() <= old(head.num) then head == old(head)
                            else && head.data == b && fresh(head)
                                 && head.prev == if old(head) != null && b.previous != BlockId(0, 0) then old(index)[b.previous] else null
    {
      hide IsTree, Fits, HasHead;
      var refused, error, prev := FindParent(b);
      if refused {
        return Refused(error);
      }
      Attach(b, prev);
      return Pushed(head);
    }

    /** The checks made before anything changes, and the item to link to. */
    method FindParent(b: Block) returns (refused: bool, error: PushError, prev: ForkItem?)
      ensures !refused <==> !TooOldFor(b) && (MustLink(b) ==> b.previous in index && !index[b.previous].invalid)
      ensures refused && error == TooOld <==> TooOldFor(b)
      ensures refused && error == Unlinkable <==> !TooOldFor(b) && MustLink(b) && b.previous !in index
      ensures refused && error == InvalidParent <==>
                !TooOldFor(b) && MustLink(b) && b.previous in index && index[b.previous].invalid
      ensures !refused ==> (prev != null <==> MustLink(b)) && (head != null ==> b.Num() > 0)
      ensures !refused && prev != null ==> b.previous in index && prev == index[b.previous]
      ensures !refused ==> prev == ParentOf(b)
    {
      if TooOldFor(b) {
        return true, TooOld, null;
      }
      if MustLink(b) {
        if b.previous !in index {
          return true, Unlinkable, null;
        }
        prev := index[b.previous];
        if prev.invalid {
          return true, InvalidParent, null;
        }
        return false, TooOld, prev;
      }
      return false, TooOld, null;
    }

    method Attach(b: Block, prev: ForkItem?)
      requires Valid() && (prev != null <==> MustLink(b)) && (head != null ==> b.Num() > 0)
      requires prev != null ==> b.previous in index && prev == index[b.previous]
      modifies this
      ensures Valid() && maxSize == old(maxSize) && cut == old(cut)
      ensures head != null && b.Id() in index
      ensures if b.Id() in old(index) then index == old(index)
              else index == old(index)[b.Id() := index[b.Id()]] && fresh(index[b.Id()]) && index[b.Id()].data == b
                   && index[b.Id()].prev == prev
      ensures if old(head) != null && b.Num() <= old(head.num) then head == old(head)
              else head.data == b && head.prev == prev && fresh(head)
    {
      var item := new ForkItem(b, prev);
      NewItemFits(index, cut, roots, item);
      hide IsTree, Fits, HasHead;
      roots := if head == null then roots + {item} else roots;
      Insert(item, old(roots));
      if head == null || item.num > head.num {
        ItemIsHead(old(index), cut, roots, index, item);
        head := item;
      } else {
        HeadStillFits(old(index), cut, old(roots), head, item, roots);
      }
    }

    method Lock(x: ForkItem) returns (p: ForkItem?)
      ensures p == Parent(index, head, x)
    {
      var prev := x.prev;
      if prev != null && ((prev.id in index && index[prev.id] == prev) || prev == head) {
        return prev;
      }
      return null;
    }

    /** Moves the head back to its parent, if that is still there. */
    method PopBlock() returns (ok: bool)
      requires Valid()
      modifies this`head
      ensures Valid()
      ensures ok <==> old(head) != null && old(Parent(index, head, head)) != null
      ensures head == if ok then old(Parent(index, head, head)) else old(head)
      ensures ok ==> head.num + 1 == old(head.num)
    {
      if head == null {
        return false;
      }
      var prev := Lock(head);
      if prev == null {
        return false;
      }
      head := prev;
      return true;
    }

    /** Prunes everything more than `s` below the head, lowest number first. */
    method SetMaxSize(s: Uint32)
      requires Valid()
      modifies this`index, this`maxSize, this`cut
      ensures Valid() && maxSize == s
      ensures head == null ==> index == old(index) && cut == old(cut)
      ensures head != null ==> forall i :: i in index <==> i in old(index) && old(index[i]).num + s >= head.num
      ensures forall i :: i in index ==> index[i] == old(index[i])
      ensures forall b: Block :: TooOldFor(b) <==> head != null && (b.Num() == 0 || b.Num() + s <= head.num)
    {
      maxSize := s;
      if head == null {
        return;
      }
      var low := if head.num > s then head.num - s else 0;
      cut := if cut < low then low else cut;
      index := PruneBelow(index, low);
      PruneKeepsTree(old(index), old(cut), roots, index, cut);
      PruneKeepsHead(old(index), old(cut), roots, head, index, cut, low);
    }

    // ----- Queries -----

    lemma ValidIsLinked()
      requires Valid()
      ensures WellLinked(index, head)
    {
    }

    method FetchBlockByNumber(n: Uint32) returns (blocks: seq<ForkItem>)
      requires Valid()
      ensures |blocks| == |Numbered(index, n)|
      ensures forall x :: x in blocks ==> Indexed(index, x) && x.num == n
      ensures forall i :: i in Numbered(index, n) ==> index[i] in blocks
    {
      blocks := [];
      var rest := index.Keys;
      ghost var done: set<BlockId> := {};
      while rest != {}
        invariant rest <= index.Keys && done !! rest
        invariant done == set i | i in index && i !in rest && index[i].num == n
        invariant |blocks| == |done| && forall x :: x in blocks ==> Indexed(index, x) && x.num == n
        invariant forall i :: i in done ==> index[i] in blocks
        decreases rest
      {
        var i :| i in rest;
        if index[i].num == n {
          blocks, done := blocks + [index[i]], done + {i};
        }
        rest := rest - {i};
      }
      assert done == Numbered(index, n);
    }

    /** Walks down from the head; the answer is the main-branch block with that number. */
    method WalkMainBranchToNum(n: Uint32) returns (r: ForkItem?)
      requires Valid() && head != null
      ensures WellLinked(index, head) && r == MainBranchAt(index, head, n)
    {
      ValidIsLinked();
      ghost var c := Chain(index, head, head);
      ChainNumbers(index, head, head);
      if n > head.num {
        return null;
      }
      r := head;
      ghost var k := 0;
      while r != null && r.num > n
        invariant r != null ==> k < |c| && r == c[k] && r.num >= n
        invariant r == null ==> k == |c| && c[k - 1].num > n
        decreases if r == null then 0 else r.num + 1
      {
        ChainShape(index, head, head, k);
        r := Lock(r);
        k := k + 1;
      }
    }

    /** A lone block with the number is taken without walking. That agrees with the main branch
        exactly when it is not the case that a lone block exists and the main branch does not
        reach the number, because the head is below it or the branch is pruned above it. */
    method FetchBlockOnMainBranchByNumber(n: Uint32) returns (r: ForkItem?)
      requires Valid()
      ensures head == null ==> r == null
      ensures head != null ==>
                && WellLinked(index, head)
                && (SameBlock(r, MainBranchAt(index, head, n)) <==>
                    !(|Numbered(index, n)| == 1 && MainBranchAt(index, head, n) == null))
      ensures r != null ==> Alive(index, head, r) && r.num == n
    {
      if head != null {
        ValidIsLinked();
        MainBranchIsIndexed(n);
      }
      var blocks := FetchBlockByNumber(n);
      if |blocks| == 1 {
        r := blocks[0];
        assert r in blocks;
        assert r.id in Numbered(index, n);
        ghost var main := MainBranchAt(index, head, n);
        if main != null {
          SingletonSet(Numbered(index, n), r.id, main.id);
        }
        return;
      }
      if |blocks| == 0 {
        assert Numbered(index, n) == {};
        return null;
      }
      assert blocks[0] in blocks;
      r := WalkMainBranchToNum(n);
      ChainNumbers(index, head, head);
    }

    lemma MainBranchIsIndexed(n: Uint32)
      requires Valid() && head != null && WellLinked(index, head)
      ensures var main := MainBranchAt(index, head, n);
              main != null ==> main.id in Numbered(index, n) && Alive(index, head, main)
    {
      ChainNumbers(index, head, head);
    }

    /** The two branches back to the most recent common ancestor: initial parts of the two chains
        that end at the highest pair of blocks with the same parent. It fails exactly when an id
        is unknown or no such pair can be reached. */
    method FetchBranchFrom(first: BlockId, second: BlockId) returns (ok: bool, r: seq<ForkItem>, s: seq<ForkItem>)
      requires Valid()
      ensures WellLinked(index, head)
      ensures (first !in index || second !in index) ==> !ok
      ensures first in index && second in index ==>
                var a, b := Chain(index, head, index[first]), Chain(index, head, index[second]);
                AreBranches(a, b, ok, r, s)
    {
      ValidIsLinked();
      if first !in index || second !in index {
        return false, [], [];
      }
      hide *;
      var x, y := index[first], index[second];
      var above, beyond, p, q;
      ok, above, beyond, p, q := BranchesOf(x, y);
      return ok, above + p, beyond + q;
    }

    method BranchesOf(x0: ForkItem, y0: ForkItem)
      returns (ok: bool, above: seq<ForkItem>, beyond: seq<ForkItem>, p: seq<ForkItem>, q: seq<ForkItem>)
      requires WellLinked(index, head) && Alive(index, head, x0) && Alive(index, head, y0)
      ensures AreBranches(Chain(index, head, x0), Chain(index, head, y0), ok, above + p, beyond + q)
    {
      ghost var a, b := Chain(index, head, x0), Chain(index, head, y0);
      var x, y;
      above, beyond, x, y := AlignHeights(x0, y0);
      if x == null || y == null {
        return false, [], [], [], [];
      }
      ChainShape(index, head, x0, |above|);
      ChainShape(index, head, y0, |beyond|);
      ChainNumbers(index, head, x0);
      ChainNumbers(index, head, y0);
      hide *;
      ok, p, q := Meet(x, y);
      JoinBranches(a, b, above, beyond, ok, p, q);
    }

    /** Brings the higher of two items down to the height of the other. */
    method AlignHeights(x0: ForkItem, y0: ForkItem)
      returns (above: seq<ForkItem>, beyond: seq<ForkItem>, x: ForkItem?, y: ForkItem?)
      requires WellLinked(index, head) && Alive(index, head, x0) && Alive(index, head, y0)
      ensures var a, b := Chain(index, head, x0), Chain(index, head, y0);
              && (x == null || y == null ==> !HasFork(a, b))
              && (x != null && y != null ==> above < a && beyond < b && x == a[|above|] && y == b[|beyond|]
                                             && x.num == y.num && (above == [] || beyond == []))
    {
      ghost var a, b := Chain(index, head, x0), Chain(index, head, y0);
      ChainNumbers(index, head, x0);
      ChainNumbers(index, head, y0);
      assert a[0] == x0 && b[0] == y0;
      hide Chain, WellLinked, HasFork;
      above, x := DescendTo(x0, y0.num);
      if x == null {
        NoForkAbove(a, b, y0.num);
        return [], [], null, null;
      }
      beyond, y := DescendTo(y0, x.num);
      if y == null {
        assert above == [];
        NoForkAbove(b, a, x.num);
      }
    }

    /** From two items at the same height, both ways down to the first pair with the same parent. */
    method Meet(x0: ForkItem, y0: ForkItem) returns (ok: bool, p: seq<ForkItem>, q: seq<ForkItem>)
      requires WellLinked(index, head) && Alive(index, head, x0) && Alive(index, head, y0) && x0.num == y0.num
      ensures AreLevelBranches(Chain(index, head, x0), Chain(index, head, y0), ok, p, q)
    {
      ghost var a, b := Chain(index, head, x0), Chain(index, head, y0);
      hide Chain, WellLinked;
      var x: ForkItem, y: ForkItem := x0, y0;
      p, q := [], [];
      ChainShape(index, head, x0, 0);
      ChainShape(index, head, y0, 0);
      NoLevelYet(a, b);
      while x.data.previous != y.data.previous
        invariant |p| == |q| && p < a && q < b && x == a[|p|] && y == b[|q|] && NoLevelBefore(a, b, |p|)
        decreases |a| - |p|
      {
        NotLevelHere(a, b, |p|);
        ChainShape(index, head, x0, |p|);
        ChainShape(index, head, y0, |q|);
        p, q := p + [x], q + [y];
        var nextX := Lock(x);
        if nextX == null {
          NoLevelLeft(a, b, |p|);
          return false, [], [];
        }
        var nextY := Lock(y);
        if nextY == null {
          NoLevelLeft(a, b, |p|);
          return false, [], [];
        }
        x, y := nextX, nextY;
      }
      FirstLevel(a, b, p, q);
      return true, p + [x], q + [y];
    }

    /** The part of a chain above number `n`, and the item just below that part. */
    method DescendTo(start: ForkItem, n: nat) returns (r: seq<ForkItem>, x: ForkItem?)
      requires WellLinked(index, head) && Alive(index, head, start)
      ensures var c := Chain(index, head, start);
              && (x != null ==> r < c && x == c[|r|] && x.num <= n && (r != [] ==> x.num == n))
              && (x == null ==> forall k :: 0 <= k < |c| ==> c[k].num > n)
    {
      ghost var c := Chain(index, head, start);
      ChainNumbers(index, head, start);
      r := [];
      var at: ForkItem := start;
      while at.num > n
        invariant r < c && at == c[|r|]
        invariant r != [] ==> at.num >= n
        decreases at.num
      {
        ChainShape(index, head, start, |r|);
        r := r + [at];
        var p := Lock(at);
        if p == null {
          return [], null;
        }
        at := p;
      }
      x := at;
    }
  }

  lemma PrefixOfRest<T>(c: seq<T>, u: seq<T>, p: seq<T>)
    requires u <= c && p <= c[|u|..]
    ensures u + p <= c
  {
  }

  /** If one chain never comes down to the height of the other, they have no fork point. */
  lemma NoForkAbove(a: seq<ForkItem>, b: seq<ForkItem>, n: nat)
    requires (forall k :: 0 <= k < |a| ==> a[k].num > n) && forall k :: 0 <= k < |b| ==> b[k].num <= n
    ensures !HasFork(a, b) && !HasFork(b, a)
  {
  }

  /** A fork point `d` steps down two chains that start at the same height. */
  ghost predicate Level(a: seq<ForkItem>, b: seq<ForkItem>, d: nat) {
    d < |a| && d < |b| && a[d].data.previous == b[d].data.previous
  }

  /** Fork points pair equal heights, so they are the level pairs of the parts that start at a
      common height, provided one of the two parts is the whole chain. */
  lemma ForksFromLevel(a: seq<ForkItem>, b: seq<ForkItem>, i: nat, j: nat, ok: bool, n: nat)
    requires i < |a| && j < |b| && a[i].num == b[j].num && (i == 0 || j == 0)
    requires forall k :: 0 <= k < |a| ==> a[k].num + k == a[0].num
    requires forall k :: 0 <= k < |b| ==> b[k].num + k == b[0].num
    requires ok ==> n > 0 && Level(a[i..], b[j..], n - 1)
    requires forall d: nat :: Level(a[i..], b[j..], d) ==> ok && n - 1 <= d
    ensures ok <==> HasFork(a, b)
    ensures ok ==> IsHighestFork(a, b, i + n - 1, j + n - 1)
  {
    if ok {
      assert ForkPoint(a, b, i + n - 1, j + n - 1);
    }
    forall k: nat, l: nat | ForkPoint(a, b, k, l) ensures ok && i + n - 1 <= k && j + n - 1 <= l {
      assert k - i == l - j;
      assert Level(a[i..], b[j..], k - i);
    }
  }

  ghost predicate AreLevelBranches(a: seq<ForkItem>, b: seq<ForkItem>, ok: bool, p: seq<ForkItem>, q: seq<ForkItem>) {
    && (ok ==> 0 < |p| == |q| && p <= a && q <= b && Level(a, b, |p| - 1))
    && (forall d: nat :: Level(a, b, d) ==> ok && |p| - 1 <= d)
  }

  ghost predicate NoLevelBefore(a: seq<ForkItem>, b: seq<ForkItem>, n: nat) {
    forall d: nat :: Level(a, b, d) ==> n <= d
  }

  lemma NoLevelYet(a: seq<ForkItem>, b: seq<ForkItem>)
    ensures NoLevelBefore(a, b, 0)
  {
  }

  lemma NotLevelHere(a: seq<ForkItem>, b: seq<ForkItem>, n: nat)
    requires NoLevelBefore(a, b, n) && n < |a| && n < |b| && a[n].data.previous != b[n].data.previous
    ensures NoLevelBefore(a, b, n + 1)
  {
  }

  lemma NoLevelLeft(a: seq<ForkItem>, b: seq<ForkItem>, n: nat)
    requires NoLevelBefore(a, b, n) && (n == |a| || n == |b|)
    ensures AreLevelBranches(a, b, false, [], [])
  {
  }

  lemma FirstLevel(a: seq<ForkItem>, b: seq<ForkItem>, p: seq<ForkItem>, q: seq<ForkItem>)
    requires |p| == |q| && p < a && q < b && NoLevelBefore(a, b, |p|)
    requires a[|p|].data.previous == b[|q|].data.previous
    ensures AreLevelBranches(a, b, true, p + [a[|p|]], q + [b[|q|]])
  {
    assert Level(a, b, |p|);
  }

  lemma JoinBranches(a: seq<ForkItem>, b: seq<ForkItem>, above: seq<ForkItem>, beyond: seq<ForkItem>,
                     ok: bool, p: seq<ForkItem>, q: seq<ForkItem>)
    requires above < a && beyond < b && (above == [] || beyond == []) && a[|above|].num == b[|beyond|].num
    requires forall k :: 0 <= k < |a| ==> a[k].num + k == a[0].num
    requires forall k :: 0 <= k < |b| ==> b[k].num + k == b[0].num
    requires AreLevelBranches(a[|above|..], b[|beyond|..], ok, p, q)
    ensures AreBranches(a, b, ok, above + p, beyond + q)
  {
    ForksFromLevel(a, b, |above|, |beyond|, ok, |p|);
    if ok {
      PrefixOfRest(a, above, p);
      PrefixOfRest(b, beyond, q);
      var r, s := above + p, beyond + q;
      assert |r| - 1 == |above| + |p| - 1 && |s| - 1 == |beyond| + |p| - 1;
    }
  }

  lemma SingletonSet<T>(s: set<T>, x: T, y: T)
    requires |s| == 1 && x in s && y in s
    ensures x == y
  {
    assert |s - {x}| == 0;
    assert y !in s - {x};
  }

  lemma PruneKeepsHead(index: Index, cut: nat, roots: set<ForkItem>, head: ForkItem, index': Index, cut': nat, low: nat)
    requires IsTree(index, cut, roots) && HasHead(index, cut, roots, head) && cut <= cut' && low <= head.num && low <= cut'
    requires forall i :: i in index' <==> i in index && index[i].num >= low
    requires forall i :: i in index' ==> index'[i] == index[i]
    ensures HasHead(index', cut', roots, head)
  {
    StillFits(index, cut, roots, index', cut', roots, head);
    assert index[head.id].num == head.num;
  }

  /** Erases the lowest items one after the other until the lowest one may stay. */
  method PruneBelow(index: Index, low: nat) returns (kept: Index)
    requires forall i :: i in index ==> index[i].id == i
    ensures forall i :: i in kept <==> i in index && index[i].num >= low
    ensures forall i :: i in kept ==> kept[i] == index[i]
  {
    kept := index;
    var lowest := Lowest(kept);
    while lowest != null && lowest.num < low
      invariant forall i :: i in kept ==> i in index && kept[i] == index[i]
      invariant forall i :: i in index && i !in kept ==> index[i].num < low
      invariant lowest != null ==> Indexed(kept, lowest) && forall i :: i in kept ==> lowest.num <= kept[i].num
      invariant lowest == null ==> kept == map[]
      decreases kept.Keys
    {
      kept := kept - {lowest.id};
      lowest := Lowest(kept);
    }
  }

  /** The first item in order of block number. */
  method Lowest(index: Index) returns (x: ForkItem?)
    requires forall i :: i in index ==> index[i].id == i
    ensures x == null <==> index == map[]
    ensures x != null ==> Indexed(index, x) && forall i :: i in index ==> x.num <= index[i].num
  {
    x := null;
    var rest := index.Keys;
    while rest != {}
      invariant rest <= index.Keys && (x == null <==> rest == index.Keys)
      invariant x != null ==> Indexed(index, x) && forall i :: i in index && i !in rest ==> x.num <= index[i].num
      decreases rest
    {
      var i :| i in rest;
      if x == null || index[i].num < x.num {
        x := index[i];
      }
      rest := rest - {i};
    }
  }

  /** Start, push, pop, and fetch the popped number, on a new database: the shortcut finds a block that
      is not on the main branch. */
  method PoppedBlockIsFound(db: ForkDatabase, first: Block, second: Block) returns (r: ForkItem?)
    requires db.Valid() && db.index == map[]
    requires second.previous == first.Id() && first.Num() < 0xFFFF_FFFF && first.Id() != NULL_ID
    modifies db
    ensures db.Valid() && db.head != null && WellLinked(db.index, db.head)
    ensures r != null && r.data == second && MainBranchAt(db.index, db.head, second.Num()) == null
  {
    hide Chain;
    db.StartBlock(first);
    ghost var start := db.head;
    assert db.index == map[first.Id() := start] && start.Linked();
    assert start.num == first.Num() && second.Num() == start.num + 1;
    var pushed := db.PushBlock(second);
    ghost var item := db.index[second.Id()];
    assert db.index == map[first.Id() := start, second.Id() := item] && db.head.prev == start;
    var popped := db.PopBlock();
    assert db.head == start;
    db.ValidIsLinked();
    var n := second.Num();
    assert item.num == n;
    assert Numbered(db.index, n) == {second.Id()};
    r := db.FetchBlockOnMainBranchByNumber(n);
  }
}
