/**
 The block log: an append-only file of packed blocks, each followed by its own position, and an
 index file of the positions alone. The two files are byte sequences here.
 */
module BlockLogs {
  import opened Words
  import opened Bits
  import opened Options

  type Byte = b: nat | b < 256

  datatype Block = Block(num: Uint32, payload: nat)

  /** Packing, and unpacking from the front of a stream: the block read and its packed length. */
  datatype Codec = Codec(pack: Block -> seq<Byte>, unpack: seq<Byte> -> Option<(Block, nat)>)

  /** A packed block is recognized whatever follows it. */
  ghost predicate IsCodec(c: Codec) {
    forall b: Block, rest: seq<Byte> :: c.unpack(c.pack(b) + rest) == Some((b, |c.pack(b)|))
  }

  // ----- Eight-byte little-endian positions -----

  function Pow256(k: nat): nat {
    if k == 0 then 1 else 256 * Pow256(k - 1)
  }

  function Le(n: nat, k: nat): (s: seq<Byte>)
    ensures |s| == k
  {
    if k == 0 then [] else [n % 256] + Le(n / 256, k - 1)
  }

  function FromLe(s: seq<Byte>): nat {
    if s == [] then 0 else s[0] + 256 * FromLe(s[1..])
  }

  lemma {:induction false} LeRoundTrip(n: nat, k: nat)
    requires n < Pow256(k)
    ensures FromLe(Le(n, k)) == n
  {
    if k == 0 {
    } else {
      LeRoundTrip(n / 256, k - 1);
    }
  }

  /** The lowest byte comes first. */
  lemma {:induction false} LeAt(n: nat, k: nat, i: nat)
    requires i < k
    ensures Pow256(i) > 0 && Le(n, k)[i] == (n / Pow256(i)) % 256
  {
    if i == 0 {
    } else {
      LeAt(n / 256, k - 1, i - 1);
      DivideTwice(n, 256, Pow256(i - 1));
    }
  }

  function Pack64(n: nat): (s: seq<Byte>)
    ensures |s| == 8
  {
    Le(n, 8)
  }

  lemma Pack64RoundTrip(n: nat)
    requires n < B64
    ensures FromLe(Pack64(n)) == n
  {
    assert Pow256(2) == 0x1_0000;
    assert Pow256(4) == 0x1_0000_0000;
    assert Pow256(6) == 0x1_0000_0000_0000;
    assert Pow256(8) == B64;
    LeRoundTrip(n, 8);
  }

  // ----- What the files should hold -----

  ghost function Layout(c: Codec, blocks: seq<Block>): seq<Byte> {
    if blocks == [] then []
    else
      var front := Layout(c, blocks[..|blocks| - 1]);
      front + c.pack(blocks[|blocks| - 1]) + Pack64(|front|)
  }

  /** Where block `k`, counting from zero, starts. */
  ghost function Position(c: Codec, blocks: seq<Block>, k: nat): nat
    requires k <= |blocks|
  {
    |Layout(c, blocks[..k])|
  }

  ghost function Positions(c: Codec, blocks: seq<Block>): seq<Byte> {
    if blocks == [] then []
    else
      var front := blocks[..|blocks| - 1];
      Positions(c, front) + Pack64(|Layout(c, front)|)
  }

  ghost predicate Numbered(blocks: seq<Block>) {
    |blocks| < 0x1_0000_0000 && forall k :: 0 <= k < |blocks| ==> blocks[k].num == k + 1
  }

  lemma {:induction false} LayoutAt(c: Codec, blocks: seq<Block>, k: nat)
    requires k < |blocks|
    ensures var at, next := Position(c, blocks, k), Position(c, blocks, k + 1);
            var log := Layout(c, blocks);
            && next == at + |c.pack(blocks[k])| + 8 <= |log|
            && log[at..next] == c.pack(blocks[k]) + Pack64(at)
    decreases |blocks|
  {
    var front := blocks[..|blocks| - 1];
    if k == |blocks| - 1 {
      assert blocks[..k + 1] == blocks;
    } else {
      LayoutAt(c, front, k);
      assert front[..k] == blocks[..k] && front[..k + 1] == blocks[..k + 1];
      assert Layout(c, blocks)[..|Layout(c, front)|] == Layout(c, front);
    }
  }

  lemma TakeMiddle(s: seq<Byte>, i: nat, j: nat, u: seq<Byte>, v: seq<Byte>)
    requires i <= j <= |s| && s[i..j] == u + v
    ensures s[i..] == u + (v + s[j..])
    ensures s[i + |u|..j] == v
  {
    assert s[i..] == s[i..j] + s[j..];
    assert s[i + |u|..j] == s[i..j][|u|..];
  }

  /** Unpacking at the start of block `k` gives that block, and then its position. */
  lemma ReadAt(c: Codec, blocks: seq<Block>, k: nat)
    requires IsCodec(c) && k < |blocks|
    ensures var at, log := Position(c, blocks, k), Layout(c, blocks);
            var end := at + |c.pack(blocks[k])|;
            && end + 8 == Position(c, blocks, k + 1) <= |log|
            && c.unpack(log[at..]) == Some((blocks[k], |c.pack(blocks[k])|))
            && log[end..end + 8] == Pack64(at)
  {
    LayoutAt(c, blocks, k);
    TakeMiddle(Layout(c, blocks), Position(c, blocks, k), Position(c, blocks, k + 1),
               c.pack(blocks[k]), Pack64(Position(c, blocks, k)));
  }

  lemma {:induction false} PositionsAt(c: Codec, blocks: seq<Block>, k: nat)
    requires k < |blocks|
    ensures |Positions(c, blocks)| == 8 * |blocks|
    ensures Positions(c, blocks)[8 * k..8 * k + 8] == Pack64(Position(c, blocks, k))
    decreases |blocks|
  {
    var front := blocks[..|blocks| - 1];
    PositionsLength(c, front);
    if k < |blocks| - 1 {
      PositionsAt(c, front, k);
      assert front[..k] == blocks[..k];
    }
  }

  lemma {:induction false} PositionsLength(c: Codec, blocks: seq<Block>)
    ensures |Positions(c, blocks)| == 8 * |blocks|
  {
    if blocks == [] {
    } else {
      PositionsLength(c, blocks[..|blocks| - 1]);
    }
  }

  lemma {:induction false} PositionsGrow(c: Codec, blocks: seq<Block>, j: nat, k: nat)
    requires j < k <= |blocks|
    ensures Position(c, blocks, j) < Position(c, blocks, k)
    decreases k
  {
    LayoutAt(c, blocks, k - 1);
    if j < k - 1 {
      PositionsGrow(c, blocks, j, k - 1);
    }
  }

  lemma AppendStep(c: Codec, blocks: seq<Block>, b: Block)
    ensures Layout(c, blocks + [b]) == Layout(c, blocks) + c.pack(b) + Pack64(|Layout(c, blocks)|)
    ensures Positions(c, blocks + [b]) == Positions(c, blocks) + Pack64(|Layout(c, blocks)|)
  {
    assert (blocks + [b])[..|blocks|] == blocks;
  }

  lemma OneMorePosition(c: Codec, blocks: seq<Block>, k: nat)
    requires k < |blocks|
    ensures Positions(c, blocks[..k + 1]) == Positions(c, blocks[..k]) + Pack64(Position(c, blocks, k))
  {
    assert blocks[..k + 1] == blocks[..k] + [blocks[k]];
    AppendStep(c, blocks[..k], blocks[k]);
  }

  // ----- The log -----

  /** Subtraction of one on 32 bits. */
  function Pred32(n: Uint32): Uint32 {
    if n == 0 then 0xFFFF_FFFF else n - 1
  }

  datatype Found = NotThere | StreamError | Wrong | At(pos: nat) | Read(block: Block, next: nat)

  /** The position in the last eight bytes of a file. */
  function TailOf(file: seq<Byte>): nat
    requires |file| >= 8
  {
    FromLe(file[|file| - 8..])
  }

  class BlockLog {
    const codec: Codec
    var log: seq<Byte>
    var index: seq<Byte>
    var head: Option<Block>

    constructor (codec: Codec)
      requires IsCodec(codec)
      ensures this.codec == codec && Holds([]) && Indexes([])
    {
      this.codec := codec;
      log, index, head := [], [], None;
    }

    /** The log file holds exactly these blocks, numbered from one. */
    ghost predicate Holds(blocks: seq<Block>)
      reads this
    {
      && IsCodec(codec) && Numbered(blocks)
      && log == Layout(codec, blocks) && |log| < B64
      && head == if blocks == [] then None else Some(blocks[|blocks| - 1])
    }

    /** The index file holds the positions of exactly these blocks. */
    ghost predicate Indexes(blocks: seq<Block>)
      reads this
    {
      index == Positions(codec, blocks)
    }

    /** Appends a block at the end of both files, unless the index does not end where the number
        of the block says it should. */
    method Append(b: Block, ghost blocks: seq<Block>) returns (ok: bool, pos: nat)
      requires |log| + |codec.pack(b)| + 8 < B64
      modifies this
      ensures ok <==> |old(index)| == 8 * Pred32(b.num)
      ensures !ok ==> unchanged(this)
      ensures ok ==> pos == |old(log)| && log == old(log) + codec.pack(b) + Pack64(pos)
                     && index == old(index) + Pack64(pos) && head == Some(b)
      ensures old(Holds(blocks) && Indexes(blocks)) && |blocks| < 0xFFFF_FFFF ==>
                if ok then b.num == |blocks| + 1 && Holds(blocks + [b]) && Indexes(blocks + [b]) else b.num != |blocks| + 1
    {
      pos := |log|;
      PositionsLength(codec, blocks);
      AppendStep(codec, blocks, b);
      hide IsCodec, Layout, Positions;
      if |index| != 8 * Pred32(b.num) {
        return false, pos;
      }
      log := log + codec.pack(b) + Pack64(pos);
      index := index + Pack64(pos);
      head := Some(b);
      ok := true;
    }

    /** At the position of a block this reads that block, and leaves off where the next one starts. */
    method ReadBlock(pos: nat, ghost blocks: seq<Block>, ghost k: nat) returns (r: Found)
      ensures r.Read? || r == StreamError
      ensures r == StreamError <==> pos > |log| || codec.unpack(log[pos..]).None?
      ensures IsCodec(codec) && log == Layout(codec, blocks) && k < |blocks| && pos == Position(codec, blocks, k) ==>
                r == Read(blocks[k], Position(codec, blocks, k + 1))
    {
      if IsCodec(codec) && k < |blocks| {
        ReadAt(codec, blocks, k);
      }
      hide IsCodec, Layout, Position;
      if pos > |log| {
        return StreamError;
      }
      match codec.unpack(log[pos..]) {
        case None => r := StreamError;
        case Some(p) => r := Read(p.0, pos + p.1 + 8);
      }
    }

    method GetBlockPos(num: Uint32, ghost blocks: seq<Block>) returns (r: Found)
      requires Holds(blocks)
      ensures num == 0 || num > |blocks| ==> r == NotThere
      ensures 1 <= num <= |blocks| && 8 * num > |index| ==> r == StreamError
      ensures Indexes(blocks) && 1 <= num <= |blocks| ==> r == At(Position(codec, blocks, num - 1))
    {
      if !(head.Some? && num <= head.value.num && num > 0) {
        return NotThere;
      }
      if 8 * num > |index| {
        PositionsLength(codec, blocks);
        return StreamError;
      }
      if Indexes(blocks) {
        PositionsAt(codec, blocks, num - 1);
        LayoutAt(codec, blocks, num - 1);
        Pack64RoundTrip(Position(codec, blocks, num - 1));
      }
      return At(FromLe(index[8 * (num - 1)..8 * (num - 1) + 8]));
    }

    /** Random access: number `k` gives the k-th block, any other number nothing. */
    method ReadBlockByNum(num: Uint32, ghost blocks: seq<Block>) returns (r: Found)
      requires Holds(blocks) && Indexes(blocks)
      ensures if 1 <= num <= |blocks| then r.Read? && r.block == blocks[num - 1] else r == NotThere
    {
      r := GetBlockPos(num, blocks);
      if r.At? {
        r := ReadBlock(r.pos, blocks, num - 1);
        if r.Read? && r.block.num != num {
          return Wrong;
        }
      }
    }

    /** The head is found through the position in the last eight bytes. */
    method ReadHead(ghost blocks: seq<Block>) returns (r: Found)
      requires IsCodec(codec) && log == Layout(codec, blocks) && |log| < B64
      ensures if blocks == [] then r == StreamError
              else r.Read? && r.block == blocks[|blocks| - 1] && r.next == |log|
    {
      LastPosition(codec, blocks);
      if |log| < 8 {
        return StreamError;
      }
      var pos := TailOf(log);
      r := ReadBlock(pos, blocks, |blocks| - 1);
      assert blocks[..|blocks|] == blocks;
    }

    /** Replays the log into an empty index. The loop stops when it has just written the position
        of the last block; a log of a single block has that at zero from the start. */
    method ConstructIndex(ghost blocks: seq<Block>)
      requires IsCodec(codec) && blocks != [] && log == Layout(codec, blocks) && |log| < B64
      modifies this`index
      ensures index == if |blocks| == 1 then [] else Positions(codec, blocks)
    {
      LastPosition(codec, blocks);
      var pos, end, at := 0, FromLe(log[|log| - 8..]), 0;
      index := [];
      ghost var k, n := 0, |blocks| - 1;
      assert blocks[..0] == [];
      if n > 0 {
        PositionsGrow(codec, blocks, 0, n);
      }
      hide IsCodec, Layout, Positions, Position;
      while pos < end
        invariant k <= |blocks| && at == Position(codec, blocks, k)
        invariant pos == Position(codec, blocks, if k == 0 then 0 else k - 1)
        invariant index == Positions(codec, blocks[..k])
        invariant n == 0 ==> k == 0 && index == []
        invariant pos < end <==> 0 < n && k < |blocks|
        decreases |blocks| - k
      {
        pos, at := NextEntry(at, blocks, k);
        OneMorePosition(codec, blocks, k);
        index := index + Pack64(pos);
        if k < n {
          PositionsGrow(codec, blocks, k, n);
        }
        k := k + 1;
      }
      assert k == |blocks| ==> blocks[..k] == blocks;
    }

    /** Whether the index file ends with the position that the log file ends with. */
    ghost predicate TailsAgree()
      reads this
    {
      |log| >= 8 && |index| >= 8 && TailOf(log) == TailOf(index)
    }

    /** Opening: the head comes from the log; an index that does not end with the position of the
        head is rebuilt. The index is right afterwards exactly when it was rebuilt from a log of
        more than one block, or discarded for an empty log, or was right already. */
    method Open(ghost blocks: seq<Block>) returns (ok: bool)
      requires IsCodec(codec) && Numbered(blocks) && log == Layout(codec, blocks) && |log| < B64
      modifies this`index, this`head
      ensures ok <==> blocks == [] || |old(index)| == 0 || |old(index)| >= 8
      ensures head == if blocks == [] then old(head) else Some(blocks[|blocks| - 1])
      ensures ok && blocks == [] ==> index == []
      ensures ok && blocks != [] ==>
                index == if old(TailsAgree()) then old(index) else if |blocks| == 1 then [] else Positions(codec, blocks)
      ensures ok ==> (Indexes(blocks) <==> if old(TailsAgree()) then old(Indexes(blocks)) else |blocks| != 1)
    {
      LastPosition(codec, blocks);
      PositionsLength(codec, blocks);
      hide IsCodec, Layout, Positions, Position, TailOf;
      if |log| == 0 {
        index := [];
        return true;
      }
      var last := ReadHead(blocks);
      head := Some(last.block);
      if |index| != 0 {
        if |index| < 8 {
          return false;
        }
        var blockPos, indexPos := TailOf(log), TailOf(index);
        if blockPos != indexPos {
          ConstructIndex(blocks);
        }
      } else {
        ConstructIndex(blocks);
      }
      return true;
    }

    /** Skips one block of the stream and reads the position behind it. */
    method NextEntry(at: nat, ghost blocks: seq<Block>, ghost k: nat) returns (pos: nat, next: nat)
      requires IsCodec(codec) && log == Layout(codec, blocks) && |log| < B64
      requires k < |blocks| && at == Position(codec, blocks, k)
      ensures pos == at && next == Position(codec, blocks, k + 1)
    {
      ReadAt(codec, blocks, k);
      Pack64RoundTrip(at);
      match codec.unpack(log[at..]) {
        case Some(p) =>
          pos := FromLe(log[at + p.1..at + p.1 + 8]);
          next := at + p.1 + 8;
      }
    }
  }

  /** A log of a single block that is reopened without its index refuses every block from then on,
      unless it is numbered one again: the rebuilt index is empty. */
  method SingleBlockLogIsStuck(log: BlockLog, first: Block, later: seq<Block>) returns (accepted: seq<bool>)
    requires log.Holds([first]) && log.index == []
    requires forall i :: 0 <= i < |later| ==> later[i].num != 1 && |log.log| + |log.codec.pack(later[i])| + 8 < B64
    modifies log
    ensures |accepted| == |later| && (forall i :: 0 <= i < |later| ==> !accepted[i])
    ensures log.Holds([first]) && log.index == []
  {
    var reopened := log.Open([first]);
    accepted := [];
    for i := 0 to |later|
      invariant |accepted| == i && forall j :: 0 <= j < i ==> !accepted[j]
      invariant log.Holds([first]) && log.index == [] && log.log == old(log.log)
    {
      hide Layout;
      var ok, pos := log.Append(later[i], [first]);
      accepted := accepted + [ok];
    }
  }

  /** A second block numbered one is taken, and the index then leads to it in place of the first. */
  method SingleBlockLogStartsOver(log: BlockLog, first: Block, again: Block) returns (ok: bool)
    requires log.Holds([first]) && log.index == [] && again.num == 1
    requires |log.log| + |log.codec.pack(again)| + 8 < B64
    modifies log
    ensures ok && log.log == Layout(log.codec, [first, again])
    ensures log.index == Pack64(Position(log.codec, [first, again], 1)) && !log.Indexes([first, again])
  {
    var reopened := log.Open([first]);
    var pos;
    AppendStep(log.codec, [first], again);
    PositionsLength(log.codec, [first, again]);
    assert [first] + [again] == [first, again] && [first, again][..1] == [first];
    hide Layout, Positions;
    ok, pos := log.Append(again, [first]);
  }

  /** The last eight bytes of a nonempty log are the position of its last block. */
  lemma LastPosition(c: Codec, blocks: seq<Block>)
    requires IsCodec(c) && |Layout(c, blocks)| < B64
    ensures blocks == [] <==> |Layout(c, blocks)| < 8
    ensures blocks != [] ==>
              var log, n := Layout(c, blocks), |blocks| - 1;
              && FromLe(log[|log| - 8..]) == Position(c, blocks, n)
              && c.unpack(log[Position(c, blocks, n)..]) == Some((blocks[n], |c.pack(blocks[n])|))
              && Position(c, blocks, n) + |c.pack(blocks[n])| + 8 == |log|
  {
    if blocks != [] {
      var n, log := |blocks| - 1, Layout(c, blocks);
      ReadAt(c, blocks, n);
      assert blocks[..n + 1] == blocks;
      Pack64RoundTrip(Position(c, blocks, n));
    }
  }
}
