/** What every run of the user memory allocator keeps. The callers may request any amount that
    fits, free any pointer they were given, even twice, and store into the memory they were
    given. */
module MemoryRuns {
  import opened UserMemory

  /** A block handed out, header included. */
  datatype Block = Block(start: nat, total: nat, live: bool)
  {
    function End(): nat { start + total }

    predicate Contains(i: int) { start <= i < End() }

    /** The bytes of the block that are marked: all of it while it is live; once freed, what the
        low byte of its size does not cover. */
    predicate Marks(i: int) {
      if live then Contains(i) else start + total % 0x100 <= i < End()
    }

    predicate Owns(i: int) { start + INT_SIZE <= i < End() }
  }

  /** A page and the blocks handed out so far, in order. */
  datatype Heap = Heap(page: Page, blocks: seq<Block>)

  datatype Call = Request(size: nat) | Free(k: nat) | Store(k: nat, at: nat, value: UInt8)

  /** What is demanded of the callers. */
  predicate Allowed(h: Heap, call: Call) {
    match call
    case Request(size) => Fits(h.page, size)
    case Free(k) => k < |h.blocks|
    case Store(k, at, _) => k < |h.blocks| && h.blocks[k].Owns(at)
  }

  /** Where the `k`-th block starts or, behind the last one, the next request goes. */
  function StartOf(blocks: seq<Block>, offset: nat, k: nat): nat {
    if k < |blocks| then blocks[k].start else offset
  }

  /** One block ends where the next starts. */
  predicate Adjacent(blocks: seq<Block>, offset: nat) {
    && StartOf(blocks, offset, 0) == 0
    && forall k {:trigger StartOf(blocks, offset, k)} | 0 < k <= |blocks| ::
         StartOf(blocks, offset, k) == blocks[k - 1].End()
  }

  predicate HeaderKept(p: Page, b: Block)
    requires p.Valid()
  {
    b.End() <= BYTES_PER_PAGE && INT_SIZE <= b.total && p.bytes[b.start..][..INT_SIZE] == Encoded(b.total)
  }

  predicate Marked(blocks: seq<Block>, i: nat) {
    exists k | 0 <= k < |blocks| :: blocks[k].Marks(i)
  }

  /** The invariant: blocks lie side by side, headers keep the sizes, and the marked bytes are
      those of the live blocks and what freeing left behind. */
  ghost predicate Consistent(h: Heap) {
    && h.page.Valid() && h.page.offset <= BYTES_PER_PAGE
    && Adjacent(h.blocks, h.page.offset)
    && (forall k | 0 <= k < |h.blocks| :: HeaderKept(h.page, h.blocks[k]))
    && (forall i | 0 <= i < BYTES_PER_PAGE :: h.page.validate[i] == Marked(h.blocks, i))
  }

  // ---------- blocks ----------

  lemma {:induction false} InOrder(blocks: seq<Block>, offset: nat, j: nat, k: nat)
    requires Adjacent(blocks, offset) && j < k < |blocks|
    ensures blocks[j].End() <= blocks[k].start
    decreases k
  {
    if j + 1 < k {
      InOrder(blocks, offset, j, k - 1);
    }
    assert blocks[k].start == StartOf(blocks, offset, k) == blocks[k - 1].End();
  }

  lemma {:induction false} Behind(blocks: seq<Block>, offset: nat, k: nat)
    requires Adjacent(blocks, offset) && k < |blocks|
    ensures blocks[k].End() <= offset
    decreases |blocks| - k
  {
    assert StartOf(blocks, offset, k + 1) == blocks[k].End();
    if k + 1 < |blocks| {
      Behind(blocks, offset, k + 1);
    }
  }

  /** No byte belongs to two blocks. */
  lemma BlocksAreDisjoint(blocks: seq<Block>, offset: nat, j: nat, k: nat, i: nat)
    requires Adjacent(blocks, offset) && j < |blocks| && k < |blocks|
    requires blocks[j].Contains(i) && blocks[k].Contains(i)
    ensures j == k
  {
    if j < k {
      InOrder(blocks, offset, j, k);
    } else if k < j {
      InOrder(blocks, offset, k, j);
    }
  }

  /** The size can be read back from the header, all four bytes of it. */
  lemma EncodedDecodes(n: nat)
    requires n < 0x1_0000_0000
    ensures Decoded(Encoded(n)) == n
  {
    assert n / 0x1_0000 == n / 0x100 / 0x100 && n / 0x100_0000 == n / 0x100 / 0x100 / 0x100;
  }

  // ---------- one call ----------

  /** A pointer that was handed out can be freed, but all that counts is its size modulo 256. */
  lemma FreeingIsSafe(h: Heap, k: nat)
    requires Consistent(h) && k < |h.blocks|
    ensures CanFree(h.page, h.blocks[k].start + INT_SIZE)
    ensures FreedSize(h.page, h.blocks[k].start + INT_SIZE) == h.blocks[k].total % 0x100
  {
    hide Adjacent, Marked;
    var b := h.blocks[k];
    assert HeaderKept(h.page, b);
    assert h.page.bytes[b.start] == h.page.bytes[b.start..][..INT_SIZE][0] == Encoded(b.total)[0];
  }

  function Performed(h: Heap, call: Call): Heap
    requires Consistent(h) && Allowed(h, call)
  {
    match call
    case Request(size) =>
      Heap(Requested(h.page, size), h.blocks + [Block(h.page.offset, size + INT_SIZE, true)])
    case Free(k) =>
      FreeingIsSafe(h, k);
      var b := h.blocks[k];
      Heap(Freed(h.page, b.start + INT_SIZE), h.blocks[k := b.(live := false)])
    case Store(k, at, value) =>
      Behind(h.blocks, h.page.offset, k);
      h.(page := Stored(h.page, at, value))
  }

  lemma RequestKeeps(h: Heap, size: nat)
    requires Consistent(h) && Fits(h.page, size)
    ensures Consistent(Performed(h, Request(size)))
  {
    hide Encoded, Marked, Adjacent;
    var h' := Performed(h, Request(size));
    NextIsAdjacent(h.blocks, h.page.offset, size + INT_SIZE);
    forall k | 0 <= k < |h'.blocks| ensures HeaderKept(h'.page, h'.blocks[k]) {
      var b := h'.blocks[k];
      if k < |h.blocks| {
        Behind(h.blocks, h.page.offset, k);
        assert HeaderKept(h.page, b);
        assert h'.page.bytes[b.start..][..INT_SIZE] == h.page.bytes[b.start..][..INT_SIZE];
      } else {
        assert h'.page.bytes[b.start..][..INT_SIZE] == Encoded(b.total);
      }
    }
    forall i | 0 <= i < BYTES_PER_PAGE ensures h'.page.validate[i] == Marked(h'.blocks, i) {
      AddedIsMarked(h.blocks, h'.blocks[|h.blocks|], i);
    }
  }

  lemma NextIsAdjacent(blocks: seq<Block>, offset: nat, total: nat)
    requires Adjacent(blocks, offset)
    ensures Adjacent(blocks + [Block(offset, total, true)], offset + total)
  {
    var after, next := blocks + [Block(offset, total, true)], offset + total;
    assert StartOf(after, next, 0) == StartOf(blocks, offset, 0);
    forall k {:trigger StartOf(after, next, k)} | 0 < k <= |after| ensures StartOf(after, next, k) == after[k - 1].End() {
      if k <= |blocks| {
        assert StartOf(after, next, k) == StartOf(blocks, offset, k);
      }
    }
  }

  lemma AddedIsMarked(blocks: seq<Block>, b: Block, i: nat)
    ensures Marked(blocks + [b], i) <==> Marked(blocks, i) || b.Marks(i)
  {
    var after := blocks + [b];
    if Marked(blocks, i) {
      var k :| 0 <= k < |blocks| && blocks[k].Marks(i);
      assert after[k].Marks(i);
    }
    if b.Marks(i) {
      assert after[|blocks|].Marks(i);
    }
  }

  lemma FreeKeeps(h: Heap, k: nat)
    requires Consistent(h) && k < |h.blocks|
    ensures Consistent(Performed(h, Free(k)))
  {
    hide Encoded, Marked, Adjacent;
    FreeingIsSafe(h, k);
    var h' := Performed(h, Free(k));
    var b := h.blocks[k];
    FreedIsAdjacent(h.blocks, h.page.offset, k);
    Behind(h.blocks, h.page.offset, k);
    forall j | 0 <= j < |h.blocks| ensures HeaderKept(h'.page, h'.blocks[j]) {
      assert HeaderKept(h.page, h.blocks[j]);
    }
    forall i | 0 <= i < BYTES_PER_PAGE ensures h'.page.validate[i] == Marked(h'.blocks, i) {
      FreedIsUnmarked(h.blocks, h.page.offset, k, i);
    }
  }

  lemma FreedIsAdjacent(blocks: seq<Block>, offset: nat, k: nat)
    requires Adjacent(blocks, offset) && k < |blocks|
    ensures Adjacent(blocks[k := blocks[k].(live := false)], offset)
  {
    var after := blocks[k := blocks[k].(live := false)];
    assert StartOf(after, offset, 0) == StartOf(blocks, offset, 0);
    forall j | 0 < j <= |after| ensures StartOf(after, offset, j) == after[j - 1].End() {
      assert StartOf(after, offset, j) == StartOf(blocks, offset, j);
    }
  }

  /** Freeing a block unmarks its first bytes, as many as the low byte of its size says. */
  lemma FreedIsUnmarked(blocks: seq<Block>, offset: nat, k: nat, i: nat)
    requires Adjacent(blocks, offset) && k < |blocks|
    ensures Marked(blocks[k := blocks[k].(live := false)], i)
       <==> Marked(blocks, i) && !(blocks[k].start <= i < blocks[k].start + blocks[k].total % 0x100)
  {
    hide Adjacent;
    var b := blocks[k];
    var after := blocks[k := b.(live := false)];
    if Marked(blocks, i) {
      var j :| 0 <= j < |blocks| && blocks[j].Marks(i);
      assert after[j].Marks(i) || (j == k && b.start <= i < b.start + b.total % 0x100);
      if b.Contains(i) {
        BlocksAreDisjoint(blocks, offset, j, k, i);
      }
    }
    if Marked(after, i) {
      var j :| 0 <= j < |after| && after[j].Marks(i);
      assert blocks[j].Marks(i);
      if b.Contains(i) {
        BlocksAreDisjoint(blocks, offset, j, k, i);
      }
    }
  }

  lemma StoreKeeps(h: Heap, k: nat, at: nat, value: UInt8)
    requires Consistent(h) && Allowed(h, Store(k, at, value))
    ensures Consistent(Performed(h, Store(k, at, value)))
  {
    var h' := Performed(h, Store(k, at, value));
    forall j | 0 <= j < |h.blocks| ensures HeaderKept(h'.page, h.blocks[j]) {
      var b := h.blocks[j];
      assert HeaderKept(h.page, b);
      if b.Contains(at) {
        BlocksAreDisjoint(h.blocks, h.page.offset, j, k, at);
      }
      assert h'.page.bytes[b.start..][..INT_SIZE] == h.page.bytes[b.start..][..INT_SIZE];
    }
  }

  lemma CallKeeps(h: Heap, call: Call)
    requires Consistent(h) && Allowed(h, call)
    ensures Consistent(Performed(h, call))
  {
    match call
    case Request(size) => RequestKeeps(h, size);
    case Free(k) => FreeKeeps(h, k);
    case Store(k, at, value) => StoreKeeps(h, k, at, value);
  }

  /** Only a store into a block changes what its owner keeps there. */
  lemma OthersKeepTheirData(h: Heap, call: Call, j: nat, i: nat)
    requires Consistent(h) && Allowed(h, call) && j < |h.blocks| && h.blocks[j].Owns(i)
    requires !(call.Store? && call.k == j)
    ensures i < BYTES_PER_PAGE && Performed(h, call).page.bytes[i] == h.page.bytes[i]
  {
    Behind(h.blocks, h.page.offset, j);
    if call.Store? && call.at == i {
      BlocksAreDisjoint(h.blocks, h.page.offset, j, call.k, i);
    }
  }

  // ---------- runs ----------

  ghost predicate IsRun(hs: seq<Heap>, calls: seq<Call>) {
    && |hs| == |calls| + 1
    && forall i | 0 <= i < |calls| ::
         Consistent(hs[i]) ==> Allowed(hs[i], calls[i]) && hs[i + 1] == Performed(hs[i], calls[i])
  }

  /** A page on which nothing was requested yet. */
  function Unused(image: seq<UInt8>): Heap {
    Heap(Page(image, seq(BYTES_PER_PAGE, _ => false), 0), [])
  }

  /** The invariant holds all through every run, whatever the page held at first. */
  lemma {:induction false} RunIsConsistent(image: seq<UInt8>, hs: seq<Heap>, calls: seq<Call>, i: nat)
    requires |image| == BYTES_PER_PAGE && IsRun(hs, calls) && hs[0] == Unused(image) && i < |hs|
    ensures Consistent(hs[i])
    decreases i
  {
    if i > 0 {
      RunIsConsistent(image, hs, calls, i - 1);
      CallKeeps(hs[i - 1], calls[i - 1]);
    } else {
      UnusedIsConsistent(image);
    }
  }

  predicate InLiveBlock(h: Heap, i: nat) {
    exists k | 0 <= k < |h.blocks| :: h.blocks[k].live && h.blocks[k].Contains(i)
  }

  /** The marks tell exactly the bytes in use if and only if no block of 256 bytes or more,
      header included, has been freed. */
  lemma MarksTellUse(h: Heap)
    requires Consistent(h)
    ensures (forall i | 0 <= i < BYTES_PER_PAGE :: h.page.validate[i] == InLiveBlock(h, i))
       <==> (forall k | 0 <= k < |h.blocks| :: !h.blocks[k].live ==> h.blocks[k].total < 0x100)
  {
    hide Adjacent, HeaderKept;
    forall i | 0 <= i < BYTES_PER_PAGE && InLiveBlock(h, i) ensures h.page.validate[i] {
      var k :| 0 <= k < |h.blocks| && h.blocks[k].live && h.blocks[k].Contains(i);
      assert h.blocks[k].Marks(i);
    }
    forall k | 0 <= k < |h.blocks| && !h.blocks[k].live && h.blocks[k].total >= 0x100
      ensures exists i | 0 <= i < BYTES_PER_PAGE :: h.page.validate[i] && !InLiveBlock(h, i)
    {
      LeftBehind(h, k);
    }
  }

  /** A freed block that is not small leaves marks behind. */
  lemma LeftBehind(h: Heap, k: nat)
    requires Consistent(h) && k < |h.blocks| && !h.blocks[k].live && h.blocks[k].total >= 0x100
    ensures exists i | 0 <= i < BYTES_PER_PAGE :: h.page.validate[i] && !InLiveBlock(h, i)
  {
    hide Adjacent, HeaderKept;
    var b := h.blocks[k];
    var i := b.start + b.total % 0x100;
    Behind(h.blocks, h.page.offset, k);
    assert b.Marks(i) && b.Contains(i);
    if InLiveBlock(h, i) {
      var j :| 0 <= j < |h.blocks| && h.blocks[j].live && h.blocks[j].Contains(i);
      BlocksAreDisjoint(h.blocks, h.page.offset, j, k, i);
    }
    assert h.page.validate[i] && !InLiveBlock(h, i);
  }

  /** On an unused page: one request and the free of its block. The marks tell the bytes in use
      afterwards if and only if the block is smaller than 256 bytes with its header. */
  lemma OneRequestAndFree(image: seq<UInt8>, size: nat)
    requires |image| == BYTES_PER_PAGE && size + INT_SIZE <= BYTES_PER_PAGE
    ensures var h0, calls := Unused(image), [Request(size), Free(0)];
            && Consistent(h0) && Allowed(h0, calls[0])
            && var h1 := Performed(h0, calls[0]);
            && Consistent(h1) && Allowed(h1, calls[1])
            && var h2 := Performed(h1, calls[1]);
            && Consistent(h2) && IsRun([h0, h1, h2], calls) && (forall i :: !InLiveBlock(h2, i))
            && ((forall i | 0 <= i < BYTES_PER_PAGE :: !h2.page.validate[i]) <==> size + INT_SIZE < 0x100)
  {
    hide Adjacent, HeaderKept, Requested, Freed, Consistent;
    var h0 := Unused(image);
    assert Consistent(h0) by { UnusedIsConsistent(image); }
    RequestKeeps(h0, size);
    var h1 := Performed(h0, Request(size));
    assert h1.blocks == [Block(0, size + INT_SIZE, true)];
    FreeKeeps(h1, 0);
    var h2 := Performed(h1, Free(0));
    assert h2.blocks == [Block(0, size + INT_SIZE, false)];
    MarksTellUse(h2);
  }

  lemma UnusedIsConsistent(image: seq<UInt8>)
    requires |image| == BYTES_PER_PAGE
    ensures Consistent(Unused(image))
  {
    assert forall j | 0 <= j < BYTES_PER_PAGE :: !Marked([], j);
  }

  /** A block of 252 bytes is freed in vain: all its bytes stay marked. */
  lemma FreedInVain(image: seq<UInt8>)
    requires |image| == BYTES_PER_PAGE
    ensures var h0 := Unused(image);
            && Consistent(h0) && Fits(h0.page, 252)
            && var h1 := Performed(h0, Request(252));
            && Consistent(h1) && Allowed(h1, Free(0))
            && var h2 := Performed(h1, Free(0));
            forall i | 0 <= i < 256 :: h2.page.validate[i] && !InLiveBlock(h2, i)
  {
    OneRequestAndFree(image, 252);
    var h1 := Performed(Unused(image), Request(252));
    assert h1.blocks == [Block(0, 256, true)];
    AllMarksStay(h1);
  }

  lemma AllMarksStay(h: Heap)
    requires Consistent(h) && h.blocks == [Block(0, 256, true)]
    ensures forall i | 0 <= i < 256 :: Performed(h, Free(0)).page.validate[i]
  {
    FreeKeeps(h, 0);
    hide Adjacent, HeaderKept, Freed;
    var h' := Performed(h, Free(0));
    assert h'.blocks == [Block(0, 256, false)];
    forall i | 0 <= i < 256 ensures h'.page.validate[i] {
      assert h'.blocks[0].Marks(i);
    }
  }
}
