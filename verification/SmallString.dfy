/**
 * doctest's `String`: 24 bytes that hold either up to 23 characters in place or, once the
 * high bit of the last byte is set, a pointer, a size and a capacity.
 *
 * The two layouts share the first sixteen bytes. Whoever writes one of them leaves the other
 * undefined; `ClobberBuf` and `ClobberData` stand for that overlap, so code that read the
 * bytes in the wrong order could not be verified.
 */
module SmallString {

  const LEN: int := 24
  const LAST: int := 23
  const WORD: int := 0x1_0000_0000

  type Octet = x: int | 0 <= x < 256

  /** `size_type`, a 32-bit unsigned integer. */
  type Size = x: int | 0 <= x < WORD

  /** The free store: the blocks obtained by `new char[]` and not yet given back. */
  class Heap {
    ghost var live: set<array<Octet>>

    constructor ()
      ensures live == {}
    {
      live := {};
    }

    method New(n: nat) returns (a: array<Octet>)
      modifies this
      ensures fresh(a) && a.Length == n && live == old(live) + {a}
    {
      a := new Octet[n];
      live := live + {a};
    }

    method Delete(a: array<Octet>)
      requires a in live
      modifies this
      ensures live == old(live) - {a}
    {
      live := live - {a};
    }
  }

  method MemCpy(dst: array<Octet>, at: nat, src: array<Octet>, n: nat)
    requires dst != src && at + n <= dst.Length && n <= src.Length
    modifies dst
    ensures dst[..at] == old(dst[..at]) && dst[at..at + n] == src[..n] && dst[at + n..] == old(dst[at + n..])
  {
    forall i | 0 <= i < n { dst[at + i] := src[i]; }
  }

  /** `n` characters and their terminator go behind the first `at` of the target. */
  method CopyBehind(dst: array<Octet>, at: nat, src: array<Octet>, n: nat)
    requires dst != src && at + n < dst.Length && n < src.Length && src[n] == 0
    modifies dst
    ensures dst[..at + n] == old(dst[..at]) + src[..n] && dst[at + n] == 0
  {
    MemCpy(dst, at, src, n + 1);
    assert dst[at + n] == dst[at..at + n + 1][n];
    assert dst[..at + n] == dst[..at] + dst[at..at + n + 1][..n];
  }

  /** What growth has to know: where the characters are, how many, and how many bytes were recopied so far. */
  datatype Shape = Shape(onHeap: bool, size: nat, capacity: nat, recopied: nat)

  /** `n * 2` in 32 bits. */
  function Twice(n: nat): (d: Size) {
    (n * 2) % WORD
  }

  /** Twice the capacity, which may wrap around, unless that is not enough. */
  function NewCapacity(capacity: nat, total: nat): (c: nat)
    ensures c > total
  {
    if Twice(capacity) <= total then total + 1 else Twice(capacity)
  }

  /** The shape after `n` more characters. */
  function Grown(s: Shape, n: nat): (r: Shape) {
    var total := s.size + n;
    if !s.onHeap && total < LEN then s.(size := total)
    else if !s.onHeap then Shape(true, total, total + 1, s.recopied + s.size)
    else if s.capacity > total then s.(size := total)
    else Shape(true, total, NewCapacity(s.capacity, total), s.recopied + s.size)
  }

  class String {
    const buf: array<Octet>
    var ptr: array?<Octet>
    var size: Size
    var capacity: Size
    ghost var recopied: nat

    predicate IsOnStack()
      requires buf.Length == LEN
      reads this, buf
    {
      buf[LAST] < 128
    }

    /** The heap block this string has to give back. A pointer left over in a short string owns nothing. */
    ghost function Owned(): (r: set<array<Octet>>)
      reads this, buf
    {
      if buf.Length != LEN || IsOnStack() || ptr == null then {} else {ptr}
    }

    ghost function Repr(): (r: set<object>)
      reads this, buf
    {
      {this, buf} + Owned()
    }

    ghost predicate Valid()
      reads this, buf, Owned()
    {
      && buf.Length == LEN
      && if IsOnStack() then buf[LAST] <= LAST && buf[LAST - buf[LAST]] == 0
         else ptr != null && ptr != buf && ptr.Length == capacity && LAST < size < capacity && ptr[size] == 0
    }

    /** The characters, without the terminator that `Valid` keeps behind them. */
    ghost function Contents(): (s: seq<Octet>)
      requires Valid()
      reads this, buf, Owned()
      ensures |s| < WORD - 1
    {
      if IsOnStack() then buf[..LAST - buf[LAST]] else ptr[..size]
    }

    ghost predicate Is(text: seq<Octet>, block: set<array<Octet>>)
      reads this, buf, Owned()
    {
      Valid() && Contents() == text && Owned() == block
    }

    ghost function TheShape(): (r: Shape)
      requires Valid()
      reads this, buf, Owned()
    {
      if IsOnStack() then Shape(false, |Contents()|, LEN, recopied) else Shape(true, size, capacity, recopied)
    }

    // -------------------------------------------------------------------------------------
    // The union
    // -------------------------------------------------------------------------------------

    /** Writing `data` overwrites the first sixteen bytes of `buf`. */
    method ClobberBuf()
      requires buf.Length == LEN
      modifies buf
      ensures forall i :: 16 <= i < LEN ==> buf[i] == old(buf[i])
    {
    }

    /** Writing the first bytes of `buf` overwrites `data`. */
    method ClobberData()
      modifies this`ptr, this`size, this`capacity
    {
    }

    method SetOnHeap()
      requires buf.Length == LEN
      modifies buf
      ensures buf[..LAST] == old(buf[..LAST]) && buf[LAST] == 128
    {
      buf[LAST] := 128;
    }

    method SetLast(n: Octet)
      requires buf.Length == LEN
      modifies buf
      ensures buf[..LAST] == old(buf[..LAST]) && buf[LAST] == n
    {
      buf[LAST] := n;
    }

    method SetData(p: array<Octet>, sz: Size, cap: Size)
      requires buf.Length == LEN && p != buf
      modifies this`ptr, this`size, this`capacity, buf
      ensures ptr == p && size == sz && capacity == cap
      ensures forall i :: 16 <= i < LEN ==> buf[i] == old(buf[i])
    {
      ClobberBuf();
      ptr, size, capacity := p, sz, cap;
    }

    method Length() returns (n: Size)
      requires Valid()
      ensures n == |Contents()|
    {
      if IsOnStack() { n := LAST - buf[LAST] % 32; } else { n := size; }
    }

    method CStr() returns (p: array<Octet>)
      requires Valid()
      ensures p == if IsOnStack() then buf else ptr
      ensures |Contents()| < p.Length && p[..|Contents()|] == Contents() && p[|Contents()|] == 0
    {
      if IsOnStack() { p := buf; } else { p := ptr; }
    }

    method Allocate(sz: Size, heap: Heap) returns (dest: array<Octet>)
      requires buf.Length == LEN && sz < WORD - 1
      modifies this`ptr, this`size, this`capacity, buf, heap
      ensures sz <= LAST ==> dest == buf && buf[LAST] == LAST - sz && buf[sz] == 0 && heap.live == old(heap.live)
      ensures sz > LAST ==>
                && !IsOnStack() && fresh(dest) && dest != buf && heap.live == old(heap.live) + {dest}
                && ptr == dest && size == sz && capacity == sz + 1 == dest.Length && dest[sz] == 0
    {
      if sz <= LAST {
        buf[sz] := 0;
        SetLast(LAST - sz);
        ClobberData();
        dest := buf;
      } else {
        SetOnHeap();
        dest := heap.New(sz + 1);
        SetData(dest, sz, sz + 1);
        dest[sz] := 0;
      }
    }

    method CopyFrom(other: String, heap: Heap)
      requires buf.Length == LEN && other.Valid() && {this, buf} !! other.Repr()
      modifies this`ptr, this`size, this`capacity, buf, heap
      ensures Valid() && Contents() == old(other.Contents())
      ensures fresh(Owned()) && heap.live == old(heap.live) + Owned()
    {
      if other.IsOnStack() {
        ghost var n := LAST - other.buf[LAST];
        MemCpy(buf, 0, other.buf, LEN);
        ClobberData();
        assert buf[..] == old(other.buf[..]);
        assert buf[..n] == other.buf[..n];
      } else {
        var dest := Allocate(other.size, heap);
        MemCpy(dest, 0, other.ptr, other.size);
        assert ptr[..size] == other.ptr[..other.size];
      }
    }

    // -------------------------------------------------------------------------------------
    // Construction and destruction
    // -------------------------------------------------------------------------------------

    constructor ()
      ensures Valid() && Contents() == [] && fresh(Repr()) && Owned() == {} && recopied == 0
    {
      buf := new Octet[LEN];
      ptr, size, capacity, recopied := null, 0, 0, 0;
      new;
      buf[0] := 0;
      SetLast(LAST);
    }

    constructor FromBytes(bytes: array<Octet>, n: Size, heap: Heap)
      requires n <= bytes.Length && n < WORD - 1
      modifies heap
      ensures Valid() && Contents() == old(bytes[..n]) && fresh(Repr()) && recopied == 0
      ensures heap.live == old(heap.live) + Owned()
    {
      buf := new Octet[LEN];
      ptr, size, capacity, recopied := null, 0, 0, 0;
      new;
      var dest := Allocate(n, heap);
      ghost var flag := buf[LAST];
      MemCpy(dest, 0, bytes, n);
      assert n <= LAST ==> buf[..n] == bytes[..n] && buf[LAST] == flag;
      assert n > LAST ==> ptr[..n] == bytes[..n];
    }

    constructor Copy(other: String, heap: Heap)
      requires other.Valid()
      modifies heap
      ensures Valid() && Contents() == other.Contents() && fresh(Repr()) && recopied == 0
      ensures heap.live == old(heap.live) + Owned()
    {
      buf := new Octet[LEN];
      ptr, size, capacity, recopied := null, 0, 0, 0;
      new;
      CopyFrom(other, heap);
    }

    /** The bytes of `other`, whichever layout they have, move here; `other` becomes empty. */
    method TakeFrom(other: String)
      requires buf.Length == LEN && other.Valid() && {this, buf} !! other.Repr()
      modifies this`ptr, this`size, this`capacity, buf, other`ptr, other`size, other`capacity, other.buf
      ensures Valid() && Contents() == old(other.Contents()) && Owned() == old(other.Owned())
      ensures other.Valid() && other.Contents() == [] && other.Owned() == {}
    {
      MemCpy(buf, 0, other.buf, LEN);
      ptr, size, capacity := other.ptr, other.size, other.capacity;
      assert buf[..] == old(other.buf[..]);
      other.buf[0] := 0;
      other.SetLast(LAST);
      other.ClobberData();
      ghost var n := LAST - old(other.buf[LAST]);
      assert old(other.IsOnStack()) ==> buf[..n] == old(other.buf[..n]);
    }

    constructor Move(other: String)
      requires other.Valid()
      modifies other`ptr, other`size, other`capacity, other.buf
      ensures Valid() && Contents() == old(other.Contents()) && Owned() == old(other.Owned())
      ensures fresh(Repr() - Owned()) && recopied == 0
      ensures other.Valid() && other.Contents() == [] && other.Owned() == {}
    {
      buf := new Octet[LEN];
      ptr, size, capacity, recopied := null, 0, 0, 0;
      new;
      TakeFrom(other);
    }

    /** `~String`. */
    method Destroy(heap: Heap)
      requires Valid() && Owned() <= heap.live
      modifies heap
      ensures heap.live == old(heap.live) - Owned()
    {
      if !IsOnStack() { heap.Delete(ptr); }
    }

    // -------------------------------------------------------------------------------------
    // Assignment and append
    // -------------------------------------------------------------------------------------

    method Assign(other: String, heap: Heap)
      requires Valid() && other.Valid() && Owned() <= heap.live
      requires this != other ==> Repr() !! other.Repr()
      modifies this`ptr, this`size, this`capacity, buf, heap
      ensures Valid() && Contents() == old(other.Contents())
      ensures this == other ==> Owned() == old(Owned()) && heap.live == old(heap.live)
      ensures this != other ==> fresh(Owned()) && heap.live == old(heap.live) - old(Owned()) + Owned()
    {
      if this != other {
        if !IsOnStack() { heap.Delete(ptr); }
        CopyFrom(other, heap);
      }
    }

    method MoveAssign(other: String, heap: Heap)
      requires Valid() && other.Valid() && Owned() <= heap.live
      requires this != other ==> Repr() !! other.Repr()
      modifies this`ptr, this`size, this`capacity, buf, heap
      modifies other`ptr, other`size, other`capacity, other.buf
      ensures Valid() && Contents() == old(other.Contents()) && Owned() == old(other.Owned())
      ensures this == other ==> heap.live == old(heap.live)
      ensures this != other ==>
                && other.Valid() && other.Contents() == [] && other.Owned() == {}
                && heap.live == old(heap.live) - old(Owned())
    {
      if this != other {
        if !IsOnStack() { heap.Delete(ptr); }
        TakeFrom(other);
      }
    }

    /** Short and staying short: the bytes go behind the ones already in `buf`. */
    method AppendOnStack(from: array<Octet>, mine: Size, n: Size)
      requires Valid() && IsOnStack() && mine == |Contents()|
      requires from != buf && n < from.Length && from[n] == 0 && mine + n < LEN
      modifies this`ptr, this`size, this`capacity, buf
      ensures Valid() && IsOnStack() && Contents() == old(Contents()) + from[..n]
      ensures TheShape() == Grown(old(TheShape()), n)
    {
      CopyBehind(buf, mine, from, n);
      ghost var all := buf[..mine + n];
      SetLast(LAST - (mine + n));
      assert buf[..mine + n] == all by { assert forall i :: 0 <= i < LAST ==> buf[..LAST][i] == buf[i]; }
      ClobberData();
    }

    /** Short and getting long: the bytes leave `buf` before the union is overwritten. */
    method MoveToHeap(from: array<Octet>, mine: Size, n: Size, heap: Heap)
      requires Valid() && IsOnStack() && mine == |Contents()|
      requires from != buf && n < from.Length && from[n] == 0 && LEN <= mine + n < WORD - 1
      modifies this, buf, heap
      ensures Valid() && !IsOnStack() && Contents() == old(Contents()) + from[..n]
      ensures fresh(ptr) && heap.live == old(heap.live) + {ptr}
      ensures TheShape() == Grown(old(TheShape()), n)
    {
      var temp := heap.New(mine + n + 1);
      MemCpy(temp, 0, buf, mine);
      SetOnHeap();
      SetData(temp, mine + n, mine + n + 1);
      CopyBehind(ptr, mine, from, n);
      recopied := recopied + mine;
    }

    /** Long with room to spare. */
    method AppendOnHeap(from: array<Octet>, mine: Size, n: Size)
      requires Valid() && !IsOnStack() && mine == size
      requires from != ptr && n < from.Length && from[n] == 0 && mine + n < capacity
      modifies this`size, ptr
      ensures Valid() && !IsOnStack() && ptr == old(ptr)
      ensures TheShape() == Grown(old(TheShape()), n)
      ensures Contents() == old(Contents()) + from[..n]
    {
      size := mine + n;
      CopyBehind(ptr, mine, from, n);
    }

    /** Long and full: a new block, twice as large or as large as needed. */
    method Regrow(from: array<Octet>, mine: Size, n: Size, heap: Heap)
      requires Valid() && !IsOnStack() && mine == size && ptr in heap.live
      requires from != ptr && n < from.Length && from[n] == 0 && capacity <= mine + n < WORD - 1
      modifies this, heap
      ensures Valid() && !IsOnStack() && Contents() == old(Contents()) + from[..n]
      ensures fresh(ptr) && heap.live == old(heap.live) - {old(ptr)} + {ptr}
      ensures TheShape() == Grown(old(TheShape()), n)
    {
      capacity := Twice(capacity);
      if capacity <= mine + n {
        capacity := mine + n + 1;
      }
      assert capacity == NewCapacity(old(capacity), mine + n);
      Refill(from, mine, n, heap);
      recopied := recopied + mine;
    }

    /** The characters of the old block and the further ones go to a block of the new capacity. */
    method Refill(from: array<Octet>, mine: Size, n: Size, heap: Heap)
      requires ptr != null && ptr != buf && from != ptr && mine < ptr.Length && ptr in heap.live
      requires n < from.Length && from[n] == 0 && mine + n < capacity
      modifies this`ptr, this`size, heap
      ensures ptr != null && ptr != buf && fresh(ptr) && ptr.Length == capacity && size == mine + n
      ensures ptr[..size] == old(ptr[..mine]) + from[..n] && ptr[size] == 0
      ensures heap.live == old(heap.live) - {old(ptr)} + {ptr}
    {
      var temp := heap.New(capacity);
      MemCpy(temp, 0, ptr, mine);
      heap.Delete(ptr);
      size := mine + n;
      ptr := temp;
      CopyBehind(ptr, mine, from, n);
    }

    /** The branch of `operator+=` that starts from a short string. */
    method AppendToShort(from: array<Octet>, mine: Size, n: Size, heap: Heap)
      requires Valid() && IsOnStack() && mine == |Contents()|
      requires from != buf && n < from.Length && from[n] == 0 && mine + n < WORD - 1
      modifies this, buf, heap
      ensures Valid() && Contents() == old(Contents()) + from[..n]
      ensures fresh(Owned()) && heap.live == old(heap.live) + Owned()
      ensures TheShape() == Grown(old(TheShape()), n)
    {
      var total := (mine + n) % WORD;
      if total < LEN {
        AppendOnStack(from, mine, n);
      } else {
        MoveToHeap(from, mine, n, heap);
      }
    }

    /** The branch of `operator+=` that starts from a long string. */
    method AppendToLong(from: array<Octet>, mine: Size, n: Size, heap: Heap)
      requires Valid() && !IsOnStack() && mine == size && ptr in heap.live
      requires from != ptr && n < from.Length && from[n] == 0 && mine + n < WORD - 1
      modifies this, ptr, heap
      ensures Valid() && !IsOnStack() && Contents() == old(Contents()) + from[..n]
      ensures ptr == old(ptr) || fresh(ptr)
      ensures heap.live == old(heap.live) - {old(ptr)} + {ptr}
      ensures TheShape() == Grown(old(TheShape()), n)
    {
      var total := (mine + n) % WORD;
      if capacity > total {
        AppendOnHeap(from, mine, n);
      } else {
        Regrow(from, mine, n, heap);
      }
    }

    /** `operator+=` of a string other than itself. */
    method Append(other: String, heap: Heap)
      requires Valid() && other.Valid() && Owned() <= heap.live
      requires Repr() !! other.Repr()
      requires |Contents()| + |other.Contents()| < WORD - 1
      modifies this, buf, Owned(), heap
      ensures Valid() && Contents() == old(Contents()) + old(other.Contents())
      ensures Owned() == old(Owned()) || fresh(Owned())
      ensures heap.live == old(heap.live) - old(Owned()) + Owned()
      ensures TheShape() == Grown(old(TheShape()), |old(other.Contents())|)
    {
      var myOldSize := Length();
      var otherSize := other.Length();
      var from := other.CStr();
      assert from in other.Repr() && from[..otherSize] == other.Contents();
      AppendBytes(from, myOldSize, otherSize, heap);
    }

    method AppendBytes(from: array<Octet>, mine: Size, n: Size, heap: Heap)
      requires Valid() && Owned() <= heap.live && mine == |Contents()|
      requires from !in Repr() && n < from.Length && from[n] == 0 && mine + n < WORD - 1
      modifies this, buf, Owned(), heap
      ensures Valid() && Contents() == old(Contents()) + old(from[..n])
      ensures Owned() == old(Owned()) || fresh(Owned())
      ensures heap.live == old(heap.live) - old(Owned()) + Owned()
      ensures TheShape() == Grown(old(TheShape()), n)
    {
      if IsOnStack() {
        AppendToShort(from, mine, n, heap);
      } else {
        AppendToLong(from, mine, n, heap);
      }
    }
  }
}
