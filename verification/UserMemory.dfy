/** The allocator for user memory: it hands out one block after the other of a page, writes the
    size of each in front of it, and marks the bytes in use. Freeing a block clears its marks;
    no byte is ever handed out twice. */
module UserMemory {
  import M = Machine

  type UInt8 = M.UInt8

  const BYTES_PER_PAGE := 131072
  const INT_SIZE := 4

  /** The page's bytes and marks, and where the next block goes. */
  datatype Page = Page(bytes: seq<UInt8>, validate: seq<bool>, offset: nat)
  {
    predicate Valid() {
      |bytes| == BYTES_PER_PAGE && |validate| == BYTES_PER_PAGE
    }
  }

  // ---------- the calls as functions ----------

  /** An unsigned 32-bit number, low byte first. */
  function Encoded(n: nat): (s: seq<UInt8>)
    ensures |s| == INT_SIZE
  {
    [n % 0x100, n / 0x100 % 0x100, n / 0x1_0000 % 0x100, n / 0x100_0000 % 0x100]
  }

  function Decoded(s: seq<UInt8>): nat
    requires |s| == INT_SIZE
  {
    s[0] as int + 0x100 * s[1] as int + 0x1_0000 * s[2] as int + 0x100_0000 * s[3] as int
  }

  function Replaced<T>(s: seq<T>, at: nat, part: seq<T>): (r: seq<T>)
    requires at + |part| <= |s|
    ensures |r| == |s|
    ensures forall i | 0 <= i < |s| :: r[i] == if at <= i < at + |part| then part[i - at] else s[i]
  {
    s[..at] + part + s[at + |part|..]
  }

  predicate Fits(p: Page, size: nat) {
    p.offset + size + INT_SIZE <= BYTES_PER_PAGE
  }

  function Requested(p: Page, size: nat): Page
    requires p.Valid() && Fits(p, size)
  {
    var total := size + INT_SIZE;
    Page(Replaced(p.bytes, p.offset, Encoded(total)),
         Replaced(p.validate, p.offset, seq(total, _ => true)),
         p.offset + total)
  }

  /** What freeing takes for the size of the block: the first byte of its header only. */
  function FreedSize(p: Page, ptr: nat): nat
    requires p.Valid() && INT_SIZE <= ptr && ptr - INT_SIZE < BYTES_PER_PAGE
  {
    p.bytes[ptr - INT_SIZE]
  }

  predicate CanFree(p: Page, ptr: nat)
    requires p.Valid()
  {
    && INT_SIZE <= ptr && ptr - INT_SIZE < BYTES_PER_PAGE
    && ptr - INT_SIZE + FreedSize(p, ptr) <= BYTES_PER_PAGE
  }

  function Freed(p: Page, ptr: nat): Page
    requires p.Valid() && CanFree(p, ptr)
  {
    p.(validate := Replaced(p.validate, ptr - INT_SIZE, seq(FreedSize(p, ptr), _ => false)))
  }

  /** The user of a block stores a byte in it. */
  function Stored(p: Page, at: nat, value: UInt8): Page
    requires p.Valid() && at < BYTES_PER_PAGE
  {
    p.(bytes := p.bytes[at := value])
  }

  // ---------- the allocator itself ----------

  class Memory {
    const bytes: array<UInt8>
    const validate: array<bool>
    var mOffset: nat

    ghost predicate Valid() {
      bytes.Length == BYTES_PER_PAGE && validate.Length == BYTES_PER_PAGE
    }

    ghost function State(): (p: Page)
      requires Valid()
      reads this, bytes, validate
      ensures p.Valid()
    {
      Page(bytes[..], validate[..], mOffset)
    }

    /** A page does not initialize its bytes: `image` stands for what they hold. */
    constructor (image: seq<UInt8>)
      requires |image| == BYTES_PER_PAGE
      ensures Valid() && fresh(bytes) && fresh(validate)
      ensures State() == Page(image, seq(BYTES_PER_PAGE, _ => false), 0)
    {
      bytes := new UInt8[BYTES_PER_PAGE](i requires 0 <= i < |image| => image[i]);
      validate := new bool[BYTES_PER_PAGE](_ => false);
      mOffset := 0;
    }

    /** Stores a number as four bytes. */
    method StoreInt(at: nat, n: nat)
      requires Valid() && at + INT_SIZE <= BYTES_PER_PAGE
      modifies bytes
      ensures bytes[..] == Replaced(old(bytes[..]), at, Encoded(n))
    {
      bytes[at], bytes[at + 1] := n % 0x100, n / 0x100 % 0x100;
      bytes[at + 2], bytes[at + 3] := n / 0x1_0000 % 0x100, n / 0x100_0000 % 0x100;
    }

    /** The index in the page of the memory handed out. */
    method RequestMemory(size: nat) returns (ptr: nat)
      requires Valid() && Fits(State(), size)
      modifies this, bytes, validate
      ensures State() == Requested(old(State()), size) && ptr == old(mOffset) + INT_SIZE
    {
      hide Encoded;
      var total := size + INT_SIZE;
      StoreInt(mOffset, total);
      for i := 0 to total
        invariant forall k | 0 <= k < BYTES_PER_PAGE ::
          validate[k] == if mOffset <= k < mOffset + i then true else old(validate[k])
        invariant mOffset == old(mOffset) && bytes[..] == Replaced(old(bytes[..]), mOffset, Encoded(total))
      {
        validate[mOffset + i] := true;
      }
      assert validate[..] == Replaced(old(validate[..]), mOffset, seq(total, _ => true));
      ptr := mOffset + INT_SIZE;
      mOffset := mOffset + total;
    }

    method InvalidateMemory(ptr: nat)
      requires Valid() && CanFree(State(), ptr)
      modifies validate
      ensures State() == Freed(old(State()), ptr)
    {
      var index := ptr - INT_SIZE;
      var size := bytes[index];
      for i := 0 to size
        invariant forall k | 0 <= k < BYTES_PER_PAGE ::
          validate[k] == if index <= k < index + i then false else old(validate[k])
      {
        validate[index + i] := false;
      }
      assert validate[..] == Replaced(old(validate[..]), index, seq(size, _ => false));
    }
  }
}
