/** The cursor and the bump allocator of `src/common/buffer.c`. */
module Buffer {
  import opened Bytes
  import opened Varint
  import opened TxMachine

  /** `buffer_t`: a window of `size` bytes, read from `offset` on. */
  class Cursor {
    const ptr: array<Byte>
    var size: nat
    var offset: nat
    var lack: nat

    ghost predicate Valid()
      reads this
    {
      offset <= size <= ptr.Length < SIZE_T
    }

    /** The unread bytes. */
    ghost function Rest(): seq<Byte>
      reads this, ptr
      requires Valid()
    {
      ptr[offset..size]
    }

    constructor (ptr: array<Byte>, size: nat)
      requires size <= ptr.Length < SIZE_T
      ensures Valid() && this.ptr == ptr && this.size == size && offset == 0 && lack == 0
    {
      this.ptr := ptr;
      this.size := size;
      offset := 0;
      lack := 0;
    }

    predicate CanRead(n: nat)
      reads this
      requires Valid()
    {
      size - offset >= n
    }

    /** The sum is taken in 32 bits; an overflow is as good as a cursor past the end. */
    method SeekCur(n: nat) returns (ok: bool)
      requires Valid() && n < SIZE_T
      modifies this`offset
      ensures Valid() && ok == old(CanRead(n))
      ensures offset == if ok then old(offset) + n else old(offset)
    {
      var target := (offset + n) % SIZE_T;
      if target < offset || target > size {
        return false;
      }
      offset := target;
      return true;
    }

    method ReadU8() returns (ok: bool, value: nat)
      requires Valid()
      modifies this`offset
      ensures Valid() && ok == (1 <= |old(Rest())|)
      ensures ok ==> [value] == old(Rest())[..1] && Rest() == old(Rest())[1..]
      ensures !ok ==> value == 0 && offset == old(offset)
    {
      if !CanRead(1) {
        return false, 0;
      }
      value := ptr[offset];
      var _ := SeekCur(1);
      return true, value;
    }

    method ReadU16() returns (ok: bool, value: nat)
      requires Valid()
      modifies this`offset
      ensures Valid() && ok == (2 <= |old(Rest())|)
      ensures ok ==> value == LittleEndian(old(Rest())[..2]) && Rest() == old(Rest())[2..]
      ensures ok ==> var d: seq<nat> := old(Rest()); value == d[0] + 0x100 * d[1]
      ensures !ok ==> value == 0 && offset == old(offset)
    {
      if !CanRead(2) {
        return false, 0;
      }
      var low: int, high: int := ptr[offset], ptr[offset + 1];
      value := low + 0x100 * high;
      TwoBytes(Rest()[..2]);
      var _ := SeekCur(2);
      return true, value;
    }

    method ReadU32() returns (ok: bool, value: nat)
      requires Valid()
      modifies this`offset
      ensures Valid() && ok == (4 <= |old(Rest())|)
      ensures ok ==> value == LittleEndian(old(Rest())[..4]) && Rest() == old(Rest())[4..]
      ensures ok ==> var d: seq<nat> := old(Rest()); value == d[0] + 0x100 * d[1] + 0x1_0000 * d[2] + 0x100_0000 * d[3]
      ensures !ok ==> value == 0 && offset == old(offset)
    {
      if !CanRead(4) {
        return false, 0;
      }
      var b0: int, b1: int, b2: int, b3: int := ptr[offset], ptr[offset + 1], ptr[offset + 2], ptr[offset + 3];
      value := b0 + 0x100 * b1 + 0x1_0000 * b2 + 0x100_0000 * b3;
      FourBytes(Rest()[..4]);
      var _ := SeekCur(4);
      return true, value;
    }

    /** The same with the most significant byte first. */
    method ReadU32BE() returns (ok: bool, value: nat)
      requires Valid()
      modifies this`offset
      ensures Valid() && ok == (4 <= |old(Rest())|)
      ensures ok ==> value == BigEndian(old(Rest())[..4]) && Rest() == old(Rest())[4..]
      ensures ok ==> var d: seq<nat> := old(Rest()); value == 0x100_0000 * d[0] + 0x1_0000 * d[1] + 0x100 * d[2] + d[3]
      ensures !ok ==> value == 0 && offset == old(offset)
    {
      if !CanRead(4) {
        return false, 0;
      }
      var b0: int, b1: int, b2: int, b3: int := ptr[offset], ptr[offset + 1], ptr[offset + 2], ptr[offset + 3];
      value := 0x100_0000 * b0 + 0x1_0000 * b1 + 0x100 * b2 + b3;
      FourBytes(Rest()[..4]);
      var _ := SeekCur(4);
      return true, value;
    }

    method ReadVarint() returns (ok: bool, value: nat)
      requires Valid()
      modifies this`offset
      ensures Valid()
      ensures match Varint.ReadVarint(old(Rest()))
              case Short => !ok && value == 0 && offset == old(offset)
              case Read(v, k) => ok && value == v && Rest() == old(Rest())[k..]
    {
      var length, v := VarintRead(ptr[offset..size]);
      if length < 0 {
        return false, 0;
      }
      var _ := SeekCur(length);
      return true, v;
    }

    /** The `memmove` of `buffer_spc_move`. */
    method CopyTo(out: array<Byte>, at: nat, n: nat)
      requires Valid() && out != ptr && n <= size - offset && at + n <= out.Length
      modifies out
      ensures out[..] == Poke(old(out[..]), at, Rest()[..n])
    {
      forall i | 0 <= i < n {
        out[at + i] := ptr[offset + i];
      }
    }

    /** `buffer_spc_move`, into `out` from `at` on. */
    method SpcMove(out: array<Byte>, at: nat, n: nat) returns (ok: bool)
      requires Valid() && n < SIZE_T && out != ptr
      requires CanRead(n) ==> at + n <= out.Length
      modifies this`offset, out
      ensures Valid() && ok == old(CanRead(n))
      ensures ok ==> out[..] == Poke(old(out[..]), at, old(Rest())[..n]) && Rest() == old(Rest())[n..]
      ensures !ok ==> out[..] == old(out[..]) && offset == old(offset)
    {
      if size - offset < n {
        return false;
      }
      CopyTo(out, at, n);
      var _ := SeekCur(n);
      return true;
    }
  }

  /** `g_buffer` over `G_malloc_buff`. */
  class Heap {
    const buff: array<Byte>
    var offset: nat

    ghost predicate Valid()
      reads this
    {
      buff.Length == ARENA_SIZE && offset <= ARENA_SIZE
    }

    ghost function Arena(): TxMachine.Arena
      reads this, buff
    {
      TxMachine.Arena(buff[..], offset)
    }

    constructor ()
      ensures Valid() && fresh(buff)
    {
      buff := new Byte[ARENA_SIZE];
      offset := 0;
    }

    /** `buffer_init`. */
    method Init()
      requires Valid()
      modifies this`offset
      ensures Valid() && Arena() == old(Arena()).(used := 0)
    {
      offset := 0;
    }

    /** `buffer_malloc`: the block is zeroed. */
    method Alloc(n: nat) returns (p: Ptr)
      requires Valid() && n < SIZE_T
      modifies this`offset, buff
      ensures Valid()
      ensures match Malloc(old(Arena()), n)
              case NoRoom => p == Null && Arena() == old(Arena())
              case Room(at, arena) => p == At(at) && Arena() == arena
    {
      var target := (offset + n) % SIZE_T;
      if target < offset || target > ARENA_SIZE {
        return Null;
      }
      var at := offset;
      ghost var was := buff[..];
      offset := target;
      forall i | 0 <= i < n {
        buff[at + i] := 0;
      }
      assert buff[..] == Poke(was, at, Zeros(n));
      return At(at);
    }
  }
}
