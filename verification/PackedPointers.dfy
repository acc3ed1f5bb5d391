/** The write and read pointer of a bucket packed into one word of bucket_pointers.hpp: an atomic
    addition or subtraction on the word moves one pointer and leaves the other alone. */
module PackedPointers {
  import opened Strides

  /** A pointer as an unsigned half word of h values, in two's complement ... */
  function Unsigned(h: int, r: int): int {
    if r < 0 then r + h else r
  }

  /** ... and back. */
  function Signed(h: int, u: int): int {
    if 2 * u < h then u else u - h
  }

  predicate InHalf(h: int, r: int) {
    -h <= 2 * r < h
  }

  /** The read pointer in the upper half, the write pointer in the lower. */
  function Pack(h: int, w: int, r: int): int {
    Unsigned(h, r) * h + w
  }

  lemma Unpack(h: int, w: int, r: int)
    requires 0 <= w < h && InHalf(h, r)
    ensures 0 <= Pack(h, w, r) < h * h
    ensures Pack(h, w, r) % h == w && Pack(h, w, r) / h == Unsigned(h, r) && Signed(h, Unsigned(h, r)) == r
  {
    HalfWords(h, Unsigned(h, r), w);
  }

  lemma HalfWords(h: int, u: int, w: int)
    requires 0 <= w < h && 0 <= u < h
    ensures 0 <= u * h + w < h * h && (u * h + w) / h == u && (u * h + w) % h == w
  {
    Below(u, h);
    Quotient(h, (u * h + w) / h, u, (u * h + w) % h, w);
  }

  lemma Distribute(x: int, y: int, h: int)
    ensures (x - y) * h == x * h - y * h
  {
  }

  lemma Below(u: int, h: int)
    requires 0 <= u < h
    ensures 0 <= u * h && u * h + h <= h * h
  {
    Distribute(h, u, h);
    MulAtLeast(h - u, h);
  }

  lemma Quotient(h: int, q: int, u: int, x: int, w: int)
    requires 0 <= x < h && 0 <= w < h && q * h + x == u * h + w
    ensures q == u && x == w
  {
    Distribute(q, u, h);
    MulAtLeast(q - u, h);
  }

  /** Clearing the low bits of the read pointer: blockSize is a power of two, so it divides h. */
  function Masked(u: int, blockSize: int): int
    requires 0 < blockSize
  {
    u - u % blockSize
  }

  lemma MaskedIs(h: int, r: int, blockSize: int, blocks: int)
    requires 0 < blockSize && h == blocks * blockSize && InHalf(h, r)
    ensures Masked(Unsigned(h, r), blockSize) == Unsigned(h, r) <==> r % blockSize == 0
  {
    if r < 0 {
      assert r + h == r + blocks * blockSize;
      ModShift(r, blocks, blockSize);
    }
  }

  lemma ModShift(r: int, k: int, b: int)
    requires 0 < b
    ensures (r + k * b) % b == r % b
  {
    Quotient(b, (r + k * b) / b, r / b + k, (r + k * b) % b, r % b);
  }

  class PackedWord {
    const h: int
    const blockSize: int
    var all: int

    /** The word stands for the two pointers. */
    ghost predicate Holds(w: int, r: int)
      reads this`all
    {
      0 < blockSize && 0 <= w < h && InHalf(h, r) && all == Pack(h, w, r)
    }

    constructor (h: int, blockSize: int, w: int, r: int)
      requires 0 < blockSize && 0 <= w < h && InHalf(h, r)
      ensures Holds(w, r) && this.h == h && this.blockSize == blockSize
    {
      this.h, this.blockSize := h, blockSize;
      all := Pack(h, w, r);
    }

    /** Atomic addition, modulo the size of the word. */
    method FetchAdd(x: int) returns (p: int)
      requires 0 <= all < h * h && 0 <= x <= h * h
      modifies this`all
      ensures p == old(all) && 0 <= all < h * h && all == if p + x < h * h then p + x else p + x - h * h
    {
      p := all;
      all := if p + x < h * h then p + x else p + x - h * h;
    }

    /** Atomic subtraction, modulo the size of the word. */
    method FetchSub(x: int) returns (p: int)
      requires 0 <= all < h * h && 0 <= x <= h * h
      modifies this`all
      ensures p == old(all) && 0 <= all < h * h && all == if x <= p then p - x else p - x + h * h
    {
      p := all;
      all := if x <= p then p - x else p - x + h * h;
    }

    /** incWrite: both old pointers come back, and only the write pointer has moved on. */
    method IncWrite(ghost w: int, ghost r: int) returns (write: int, read: int)
      requires Holds(w, r) && w + blockSize < h
      modifies this`all
      ensures write == w && read == r && Holds(w + blockSize, r)
    {
      Unpack(h, w, r);
      Unpack(h, w + blockSize, r);
      var p := FetchAdd(blockSize);
      write, read := p % h, Signed(h, p / h);
    }

    /** decRead: both old pointers come back, and only the read pointer has moved down, also below zero. */
    method DecRead(ghost w: int, ghost r: int, ghost blocks: int) returns (write: int, read: int)
      requires Holds(w, r) && h == blocks * blockSize && r % blockSize == 0 && InHalf(h, r - blockSize)
      modifies this`all
      ensures write == w && read == r && Holds(w, r - blockSize)
    {
      Unpack(h, w, r);
      Unpack(h, w, r - blockSize);
      MaskedIs(h, r, blockSize, blocks);
      Lowered(h, w, r, blockSize);
      var p := FetchSub(blockSize * h);
      write, read := p % h, Signed(h, Masked(p / h, blockSize));
    }
  }

  /** Taking x off the upper half, with a borrow beyond the word when it passes zero. */
  lemma Lowered(h: int, w: int, r: int, x: int)
    requires 0 <= w < h && 0 < x && InHalf(h, r) && InHalf(h, r - x)
    ensures 0 <= x * h <= h * h && (x * h <= Pack(h, w, r) <==> x <= Unsigned(h, r))
    ensures Pack(h, w, r - x) == if x * h <= Pack(h, w, r) then Pack(h, w, r) - x * h else Pack(h, w, r) - x * h + h * h
  {
    var u := Unsigned(h, r);
    Order(x, u, h, w);
    Order(x, h, h, 0);
    Distribute(u, x, h);
    Distribute(u + h, x, h);
    Distribute(u, -h, h);
  }

  lemma Order(x: int, u: int, h: int, w: int)
    requires 0 <= w < h
    ensures x * h <= u * h + w <==> x <= u
  {
    Distribute(x, u, h);
    MulAtLeast(x - u, h);
  }
}
