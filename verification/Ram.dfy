/**
  The emulated memory. It is kept as 32-bit words in host order (little-endian here), but accessed as one flat array of
  big-endian bytes at logical addresses.
*/
module Ram {
  import opened ByteOrder

  const RAM_SIZE := 0x80_0000
  const LOGICAL_BASE := 0x8000_0000
  const BSWAP_SIZE := 4

  type U32 = x: int | 0 <= x < 0x1_0000_0000

  /** Unsigned 32-bit arithmetic: the sum or difference of two numbers wraps around. */
  function Wrap(x: int): U32
    requires -0x1_0000_0000 <= x < 0x2_0000_0000
  {
    if x < 0 then x + 0x1_0000_0000 else if x >= 0x1_0000_0000 then x - 0x1_0000_0000 else x
  }

  datatype Load = Got(value: nat) | Fault

  /** What became of an access. `Undefined`: a copy left the buffer it reads or writes. */
  datatype Access = Done | InvalidAddr | Undefined

  predicate InRam(addr: int, n: nat) {
    LOGICAL_BASE <= addr && addr - LOGICAL_BASE + n <= RAM_SIZE
  }

  /** The bytes of `flat` from `at` on replaced; `at` may lie before the start. */
  function Overlay(flat: seq<Byte>, at: int, bytes: seq<Byte>): (r: seq<Byte>)
    ensures |r| == |flat|
  {
    seq(|flat|, i requires 0 <= i < |flat| => if at <= i < at + |bytes| then bytes[i - at] else flat[i])
  }

  /** What is left of a store: nothing changes when its end is outside of the memory. */
  ghost function Stored(flat: seq<Byte>, at: int, bytes: seq<Byte>): (r: seq<Byte>)
    ensures |r| == |flat|
  {
    if at + |bytes| <= RAM_SIZE then Overlay(flat, at, bytes) else flat
  }

  class Memory {
    const mem: array<Byte>

    ghost predicate Valid() {
      mem.Length == RAM_SIZE
    }

    /** The memory as its users see it. */
    ghost function Flat(): (r: seq<Byte>)
      requires Valid()
      reads mem
      ensures |r| == RAM_SIZE
    {
      Swapped(mem[..])
    }

    constructor ()
      ensures Valid() && fresh(mem)
    {
      mem := new Byte[RAM_SIZE];
    }

    /// Scalar reads

    method Read8(addr: U32) returns (r: Load)
      requires Valid()
      ensures r == Bytes(Flat(), addr, 1)
    {
      ValueOfByte(Flat(), addr);
      if addr < LOGICAL_BASE || Wrap(addr - LOGICAL_BASE + 1) > RAM_SIZE {
        return Fault;
      }
      var p := addr - LOGICAL_BASE;
      SwappedInRam(mem[..], p);
      return Got(mem[p - 2 * (p % BSWAP_SIZE) + (BSWAP_SIZE - 1)]);
    }

    method Read16(addr: U32) returns (r: Load)
      requires Valid()
      ensures r == Bytes(Flat(), addr, 2)
    {
      var a := Read8(addr);
      var b := Read8(Wrap(addr + 1));
      CombinePair(Flat(), addr);
      return Combine16(a, b);
    }

    method Read32(addr: U32) returns (r: Load)
      requires Valid()
      ensures r == Bytes(Flat(), addr, 4)
    {
      var a := Read8(addr);
      var b := Read8(Wrap(addr + 1));
      var c := Read8(Wrap(addr + 2));
      var d := Read8(Wrap(addr + 3));
      CombineWord(Flat(), addr);
      return Combine32(a, b, c, d);
    }

    method Read64(addr: U32) returns (r: Load)
      requires Valid()
      ensures r == Bytes(Flat(), addr, 8)
    {
      var high := Read32(addr);
      var low := Read32(Wrap(addr + 4));
      CombineLong(Flat(), addr);
      return Combine64(high, low);
    }

    /// Scalar writes

    method Write8(addr: U32, val: Byte) returns (r: Access)
      requires Valid()
      modifies mem
      ensures r == Outcome(addr, 1) && Flat() == Stored(old(Flat()), addr - LOGICAL_BASE, [val])
    {
      if addr < LOGICAL_BASE || Wrap(addr - LOGICAL_BASE + 1) > RAM_SIZE {
        return InvalidAddr;
      }
      var p := addr - LOGICAL_BASE;
      ghost var was := mem[..];
      UpdateInRam(was, p, val);
      mem[p - 2 * (p % BSWAP_SIZE) + (BSWAP_SIZE - 1)] := val;
      assert mem[..] == was[Mirror(p) := val];
      return Done;
    }

    /** The next byte down, unless the write of the bytes behind it has thrown. */
    method WriteBefore(addr: U32, val: Byte, soFar: Access, ghost flat: seq<Byte>, ghost low: seq<Byte>)
      returns (r: Access)
      requires Valid() && |flat| == RAM_SIZE && 0 < |low| <= 4
      requires soFar == Outcome(Wrap(addr + 1), |low|) && Flat() == Stored(flat, Wrap(addr + 1) - LOGICAL_BASE, low)
      modifies mem
      ensures r == Outcome(addr, 1 + |low|) && Flat() == Stored(flat, addr - LOGICAL_BASE, [val] + low)
    {
      ghost var part := Flat();
      StoreSplit(flat, addr, [val], low);
      r := soFar;
      if soFar.Done? {
        r := Write8(addr, val);
        assert Flat() == Stored(part, addr - LOGICAL_BASE, [val]);
      }
    }

    method Write16(addr: U32, val: nat) returns (r: Access)
      requires Valid() && val < 0x1_0000
      modifies mem
      ensures r == Outcome(addr, 2) && Flat() == Stored(old(Flat()), addr - LOGICAL_BASE, Digits(val, 2))
    {
      DigitsOfPair(val);
      ghost var flat := Flat();
      r := Write8(Wrap(addr + 1), val % 0x100);
      r := WriteBefore(addr, val / 0x100, r, flat, [val % 0x100]);
    }

    method Write32(addr: U32, val: nat) returns (r: Access)
      requires Valid() && val < 0x1_0000_0000
      modifies mem
      ensures r == Outcome(addr, 4) && Flat() == Stored(old(Flat()), addr - LOGICAL_BASE, Digits(val, 4))
    {
      DigitsOfWord(val);
      r := WriteBytes(addr, val / 0x100_0000, val / 0x1_0000 % 0x100, val / 0x100 % 0x100, val % 0x100);
    }

    /** The four bytes of a word, the last one first. */
    method WriteBytes(addr: U32, b0: Byte, b1: Byte, b2: Byte, b3: Byte) returns (r: Access)
      requires Valid()
      modifies mem
      ensures r == Outcome(addr, 4)
      ensures Flat() == Stored(old(Flat()), addr - LOGICAL_BASE, [b0] + ([b1] + ([b2] + [b3])))
    {
      ghost var flat := Flat();
      r := Write8(Wrap(addr + 3), b3);
      r := WriteBefore(Wrap(addr + 2), b2, r, flat, [b3]);
      r := WriteBefore(Wrap(addr + 1), b1, r, flat, [b2] + [b3]);
      r := WriteBefore(addr, b0, r, flat, [b1] + ([b2] + [b3]));
    }

    method Write64(addr: U32, val: nat) returns (r: Access)
      requires Valid() && val < 0x1_0000_0000_0000_0000
      modifies mem
      ensures r == Outcome(addr, 8) && Flat() == Stored(old(Flat()), addr - LOGICAL_BASE, Digits(val, 8))
    {
      DigitsOfLong(val);
      StoreSplit(Flat(), addr, Digits(val / 0x1_0000_0000, 4), Digits(val % 0x1_0000_0000, 4));
      r := Write32(Wrap(addr + 4), val % 0x1_0000_0000);
      if r.Done? {
        r := Write32(addr, val / 0x1_0000_0000);
      }
    }

    /// Bulk reads

    /** The whole words of a bulk read: copied as they are, then byte-swapped in the buffer. */
    method ReadAligned(addr: nat, n: nat, data: array<Byte>, at: nat, ghost flat: seq<Byte>, ghost start: nat,
                       ghost words: nat)
      requires Valid() && data != mem && addr == 4 * start && n == 4 * words && flat == Flat()
      requires addr + n <= RAM_SIZE && at + n <= data.Length
      modifies data
      ensures data[..] == Spliced(old(data[..]), at, flat[addr..][..n])
    {
      ghost var was, raw := data[..], mem[addr..addr + n];
      SwappedSlice(mem[..], start, words);
      assert mem[..][addr..][..n] == raw;
      CopyN(mem, addr, n, data, at);
      SwapSpliced(was, at, raw);
      BSwap32(data, at, n);
    }

    /** The bytes of one word in order; its address is translated once more when `again`. */
    method LoadWord(addr: U32, again: bool, ghost flat: seq<Byte>) returns (r: Access, word: array<Byte>)
      requires Valid() && addr + 4 <= LOGICAL_BASE && flat == Flat()
      ensures r == if again then InvalidAddr else Outcome(addr + LOGICAL_BASE, 4)
      ensures fresh(word) && (r.Done? ==> word[..] == flat[addr..][..4])
    {
      var value := Read32(if again then addr else addr + LOGICAL_BASE);
      if value.Fault? {
        word := new Byte[4];
        return InvalidAddr, word;
      }
      word := SwappedWord(value.value, flat[addr..][..4]);
      return Done, word;
    }

    /** Bytes `skip` to `skip + k` of one word. */
    method ReadPart(addr: U32, again: bool, skip: nat, k: nat, data: array<Byte>, at: nat, ghost flat: seq<Byte>)
      returns (r: Access)
      requires Valid() && data != mem && addr + 4 <= LOGICAL_BASE && skip + k <= 4 && at + k <= data.Length
      requires flat == Flat()
      modifies data
      ensures r == if again then InvalidAddr else Outcome(addr + LOGICAL_BASE, 4)
      ensures r.Done? ==> data[..] == Spliced(old(data[..]), at, flat[addr + skip..][..k])
    {
      var word;
      r, word := LoadWord(addr, again, flat);
      if r.Done? {
        PartOfWord(flat, addr, skip, k);
        assert word[skip..skip + k] == word[..][skip..skip + k];
        CopyN(word, skip, k, data, at);
      }
    }

    /**
      A bulk read of as many bytes as the buffer holds. `again`: the words at both ends are read through the logical
      accessor although their addresses are physical already, as the code does it.
    */
    method ReadMemory(addr: U32, data: array<Byte>, again: bool) returns (r: Access)
      requires Valid() && data != mem && data.Length < 0x1_0000_0000
      modifies data
      ensures r == BulkRead(addr, data.Length, again)
      ensures r.Done? ==> data[..] == Flat()[addr - LOGICAL_BASE..][..data.Length]
    {
      var n := data.Length;
      if addr < LOGICAL_BASE || Wrap(addr - LOGICAL_BASE + n) > RAM_SIZE {
        return InvalidAddr;
      }
      var p := addr - LOGICAL_BASE;
      ReadPlan(p, n);
      var beginLeft, endLeft := BSWAP_SIZE - p % BSWAP_SIZE, Wrap(p + n) % BSWAP_SIZE;
      var alignedAddr := p + beginLeft;
      var alignedLen := Wrap(n - endLeft - beginLeft);
      if alignedAddr + alignedLen > RAM_SIZE || beginLeft + alignedLen > n {
        return Undefined;
      }
      r := ReadAround(alignedAddr, alignedLen, beginLeft, endLeft, data, again, Flat(), p / 4 + 1, alignedLen / 4);
    }

    /** The whole words first, then the bytes before them and the bytes after them. */
    method ReadAround(alignedAddr: nat, alignedLen: nat, beginLeft: nat, endLeft: nat, data: array<Byte>, again: bool,
                      ghost flat: seq<Byte>, ghost start: nat, ghost words: nat)
      returns (r: Access)
      requires Valid() && data != mem && alignedAddr == 4 * start && alignedLen == 4 * words && flat == Flat()
      requires 1 <= beginLeft <= 4 <= alignedAddr && endLeft < 4 && alignedAddr + alignedLen + endLeft <= RAM_SIZE
      requires beginLeft + alignedLen + endLeft == data.Length
      modifies data
      ensures r == if again || alignedAddr + alignedLen == RAM_SIZE then InvalidAddr else Done
      ensures r.Done? ==> data[..] == flat[alignedAddr - beginLeft..][..data.Length]
    {
      ghost var was := data[..];
      var end := alignedAddr + alignedLen;
      WordsFit(start + words, end);
      r := ReadFront(alignedAddr, alignedLen, beginLeft, data, again, flat, start, words);
      if r.Done? {
        r := ReadPart(end, again, 0, endLeft, data, beginLeft + alignedLen, flat);
        BufferFilled(was, flat, alignedAddr, alignedLen, beginLeft, endLeft);
      }
    }

    method ReadFront(alignedAddr: nat, alignedLen: nat, beginLeft: nat, data: array<Byte>, again: bool,
                     ghost flat: seq<Byte>, ghost start: nat, ghost words: nat)
      returns (r: Access)
      requires Valid() && data != mem && alignedAddr == 4 * start && alignedLen == 4 * words && flat == Flat()
      requires 1 <= beginLeft <= 4 <= alignedAddr && alignedAddr + alignedLen <= RAM_SIZE
      requires beginLeft + alignedLen <= data.Length
      modifies data
      ensures r == if again then InvalidAddr else Done
      ensures r.Done? ==>
                var filled := Spliced(old(data[..]), beginLeft, flat[alignedAddr..][..alignedLen]);
                data[..] == Spliced(filled, 0, flat[alignedAddr - beginLeft..][..beginLeft])
    {
      ReadAligned(alignedAddr, alignedLen, data, beginLeft, flat, start, words);
      r := ReadPart(alignedAddr - BSWAP_SIZE, again, BSWAP_SIZE - beginLeft, beginLeft, data, 0, flat);
    }

    /// Bulk writes

    /** The word at an aligned address, physical or logical. */
    method WordAt(addr: U32, physical: bool) returns (r: Load)
      requires Valid()
      ensures r == if physical then PhysicalBytes(Flat(), addr, 4) else Bytes(Flat(), addr, 4)
    {
      PhysicalIsLogical(Flat(), addr);
      r := Read32(if physical then Wrap(addr + LOGICAL_BASE) else addr);
    }

    /** Stores a block of whole words, byte-swapped. */
    method StoreBlock(buf: array<Byte>, addr: nat, ghost start: nat, ghost words: nat)
      requires Valid() && buf != mem && addr == 4 * start && buf.Length == 4 * words && addr + buf.Length <= RAM_SIZE
      modifies mem, buf
      ensures Flat() == Spliced(old(Flat()), addr, old(buf[..]))
    {
      ghost var block := buf[..];
      SpliceSwapped(mem[..], start, block, words);
      SwapWhole(buf, block);
      CopyWhole(buf, mem, addr, Swapped(block));
    }

    /**
      A bulk write of the whole buffer. `once`: the address is translated once, before anything is computed from it; the
      code computes the aligned address first and never translates that.
    */
    method WriteMemory(addr: U32, data: array<Byte>, once: bool) returns (r: Access)
      requires Valid() && data != mem && data.Length < 0x1_0000_0000
      modifies mem
      ensures r.Done? <==> once && LOGICAL_BASE <= addr && addr - LOGICAL_BASE + data.Length < RAM_SIZE
      ensures r.Done? ==> Flat() == Overlay(old(Flat()), addr - LOGICAL_BASE, data[..])
      ensures !r.Done? ==> mem[..] == old(mem[..])
      ensures r.Undefined? ==> once && addr - LOGICAL_BASE + data.Length + 8 > 0x1_0000_0000
    {
      var n := data.Length;
      if addr < LOGICAL_BASE {
        return InvalidAddr;
      }
      var start := if once then addr - LOGICAL_BASE else addr;
      PaddedBlock(start, n);
      var beginPadding, endPadding := start % BSWAP_SIZE, BSWAP_SIZE - Wrap(start + n) % BSWAP_SIZE;
      var alignedAddr, alignedLen := start - beginPadding, Wrap(n + beginPadding + endPadding);
      if Wrap(alignedAddr + alignedLen) > RAM_SIZE {
        return InvalidAddr;
      }
      r := WriteBlock(alignedAddr, alignedLen, beginPadding, endPadding, data, once, start / 4);
    }

    /** The first and the last word of the block: never both there for logical addresses that passed the check. */
    method LoadEnds(alignedAddr: U32, alignedLen: U32, once: bool) returns (word0: Load, word1: Load)
      requires Valid() && Wrap(alignedAddr + alignedLen) <= RAM_SIZE && (once || LOGICAL_BASE <= alignedAddr)
      ensures !once ==> word0.Fault? || word1.Fault?
      ensures once && 4 <= alignedLen && alignedAddr + alignedLen <= RAM_SIZE ==>
                && word0 == Got(Value(Flat()[alignedAddr..][..4]))
                && word1 == Got(Value(Flat()[alignedAddr + alignedLen - 4..][..4]))
    {
      var last := Wrap(alignedAddr + alignedLen - BSWAP_SIZE);
      word0 := WordAt(alignedAddr, once);
      word1 := WordAt(last, once);
      if !once {
        EndsAreFaults(Flat(), alignedAddr, alignedLen);
      } else if 4 <= alignedLen && alignedAddr + alignedLen <= RAM_SIZE {
        EndsAreThere(Flat(), alignedAddr, alignedLen);
      }
    }

    method WriteBlock(alignedAddr: U32, alignedLen: U32, beginPadding: nat, endPadding: nat, data: array<Byte>,
                      once: bool, ghost start: nat)
      returns (r: Access)
      requires Valid() && data != mem && data.Length < 0x1_0000_0000
      requires alignedAddr == 4 * start && beginPadding < 4 && 1 <= endPadding <= 4
      requires alignedLen == Wrap(data.Length + beginPadding + endPadding)
      requires Wrap(alignedAddr + alignedLen) <= RAM_SIZE && (once || LOGICAL_BASE <= alignedAddr)
      requires alignedAddr + alignedLen <= RAM_SIZE ==> alignedLen == 4 * (alignedLen / 4)
      modifies mem
      ensures r.Done? <==> once && Fits(alignedAddr, alignedLen, beginPadding, data.Length)
      ensures r.Undefined? ==> once && !Fits(alignedAddr, alignedLen, beginPadding, data.Length)
      ensures r.Done? ==> Flat() == Overlay(old(Flat()), alignedAddr + beginPadding, data[..])
      ensures !r.Done? ==> mem[..] == old(mem[..])
    {
      var word0, word1 := LoadEnds(alignedAddr, alignedLen, once);
      if word0.Fault? || word1.Fault? {
        return InvalidAddr;
      }
      if !Fits(alignedAddr, alignedLen, beginPadding, data.Length) {
        return Undefined;
      }
      StorePadded(alignedAddr, word0.value, word1.value, beginPadding, data, endPadding, start, alignedLen / 4);
      return Done;
    }

    method StorePadded(alignedAddr: nat, word0: nat, word1: nat, beginPadding: nat, data: array<Byte>,
                       endPadding: nat, ghost start: nat, ghost words: nat)
      requires Valid() && data != mem && beginPadding < 4 && 1 <= endPadding <= 4 && alignedAddr == 4 * start
      requires beginPadding + data.Length + endPadding == 4 * words && alignedAddr + 4 * words <= RAM_SIZE
      requires word0 == Value(Flat()[alignedAddr..][..4])
      requires word1 == Value(Flat()[alignedAddr + 4 * words - 4..][..4])
      modifies mem
      ensures Flat() == Overlay(old(Flat()), alignedAddr + beginPadding, data[..])
    {
      ghost var flat := Flat();
      ghost var first, last := flat[alignedAddr..][..4], flat[alignedAddr + 4 * words - 4..][..4];
      var buf := Assemble(word0, word1, beginPadding, data, endPadding, first, last, words);
      PaddedOverlay(flat, alignedAddr, beginPadding, data[..], endPadding, words);
      StoreBlock(buf, alignedAddr, start, words);
    }
  }

  /** A logical block that passes the check has wrapped around: not both its ends are in the memory. */
  lemma EndsOutOfRam(addr: U32, len: U32)
    requires LOGICAL_BASE <= addr && Wrap(addr + len) <= RAM_SIZE
    ensures !InRam(addr, 4) || !InRam(Wrap(addr + len - 4), 4)
  {
  }

  lemma EndsAreFaults(flat: seq<Byte>, addr: U32, len: U32)
    requires |flat| == RAM_SIZE && LOGICAL_BASE <= addr && Wrap(addr + len) <= RAM_SIZE
    ensures Bytes(flat, addr, 4).Fault? || Bytes(flat, Wrap(addr + len - 4), 4).Fault?
  {
    EndsOutOfRam(addr, len);
  }

  lemma EndsAreThere(flat: seq<Byte>, addr: U32, len: U32)
    requires |flat| == RAM_SIZE && 4 <= len && addr + len <= RAM_SIZE
    ensures PhysicalBytes(flat, addr, 4) == Got(Value(flat[addr..][..4]))
    ensures PhysicalBytes(flat, Wrap(addr + len - 4), 4) == Got(Value(flat[addr + len - 4..][..4]))
  {
  }

  lemma PhysicalIsLogical(flat: seq<Byte>, addr: U32)
    requires |flat| == RAM_SIZE
    ensures Bytes(flat, Wrap(addr + LOGICAL_BASE), 4) == PhysicalBytes(flat, addr, 4)
  {
  }

  /** No copy of a bulk write leaves its buffer or the memory. */
  predicate Fits(addr: U32, len: U32, beginPadding: nat, n: nat) {
    BSWAP_SIZE <= len && beginPadding + n <= len && addr + len <= RAM_SIZE
  }

  /** The number in the `n` bytes at a physical address. */
  function PhysicalBytes(flat: seq<Byte>, addr: nat, n: nat): Load
    requires |flat| == RAM_SIZE
  {
    if addr + n <= RAM_SIZE then Got(Value(flat[addr..][..n])) else Fault
  }

  lemma SpliceParts(x: seq<Byte>, y: seq<Byte>, z: seq<Byte>, block: seq<Byte>)
    requires |y| == |block|
    ensures Spliced(x + y + z, |x|, block) == x + block + z
  {
  }

  lemma SpliceSwapped(was: seq<Byte>, start: nat, block: seq<Byte>, words: nat)
    requires |block| == 4 * words && 4 * start + 4 * words <= |was|
    ensures Swapped(Spliced(was, 4 * start, Swapped(block))) == Spliced(Swapped(was), 4 * start, block)
  {
    var at := 4 * start;
    var before, middle, after := was[..at], was[at..][..|block|], was[at + |block|..];
    CutInThree(was, at, |block|);
    SpliceParts(before, middle, after, Swapped(block));
    SwappedTwice(block);
    SwappedThree(before, Swapped(block), after, start, words);
    SwappedThree(before, middle, after, start, words);
    SpliceParts(Swapped(before), Swapped(middle), Swapped(after), block);
  }

  /** A block that repeats the bytes around the data changes only the data's bytes. */
  lemma PaddedOverlay(flat: seq<Byte>, addr: nat, before: nat, data: seq<Byte>, after: nat, words: nat)
    requires before < 4 && 1 <= after <= 4 && before + |data| + after == 4 * words && addr + 4 * words <= |flat|
    ensures
      var block := flat[addr..][..4][..before] + data + flat[addr + 4 * words - 4..][..4][4 - after..];
      Spliced(flat, addr, block) == Overlay(flat, addr + before, data)
  {
  }

  /** The padded block of a bulk write, unless its length wraps around to at most one word. */
  lemma PaddedBlock(start: U32, n: U32)
    ensures
      var before, after := start % 4, 4 - Wrap(start + n) % 4;
      var len := n + before + after;
      && (start - before) == 4 * (start / 4) && len == 4 * (len / 4) && len >= 4
      && 1 <= after <= 4 && (len >= 0x1_0000_0000 ==> Wrap(len) <= 4)
  {
  }

  /** The data between the bytes of the two words it does not cover. */
  method Assemble(word0: nat, word1: nat, beginPadding: nat, data: array<Byte>, endPadding: nat,
                  ghost first: seq<Byte>, ghost last: seq<Byte>, ghost words: nat)
    returns (buf: array<Byte>)
    requires |first| == |last| == 4 && word0 == Value(first) && word1 == Value(last)
    requires beginPadding < 4 && 1 <= endPadding <= 4
    requires beginPadding + data.Length + endPadding == 4 * words && (words == 1 ==> first == last)
    ensures fresh(buf) && buf[..] == first[..beginPadding] + data[..] + last[4 - endPadding..]
  {
    ghost var zeros;
    buf, zeros := Leftovers(word0, word1, beginPadding + data.Length + endPadding, first, last);
    CopyWhole(data, buf, beginPadding, data[..]);
    Assembled(zeros, first, beginPadding, data[..], last, endPadding, words);
  }

  /** A buffer with one word at each end. */
  method Leftovers(word0: nat, word1: nat, n: nat, ghost first: seq<Byte>, ghost last: seq<Byte>)
    returns (buf: array<Byte>, ghost zeros: seq<Byte>)
    requires |first| == |last| == 4 <= n && word0 == Value(first) && word1 == Value(last)
    ensures fresh(buf) && |zeros| == n && buf[..] == Spliced(Spliced(zeros, 0, first), n - 4, last)
  {
    buf := new Byte[n](_ => 0);
    zeros := buf[..];
    var leftover0 := SwappedWord(word0, first);
    var leftover1 := SwappedWord(word1, last);
    CopyWhole(leftover0, buf, 0, first);
    CopyWhole(leftover1, buf, n - 4, last);
  }

  method CopyWhole(src: array<Byte>, dst: array<Byte>, to: nat, ghost bytes: seq<Byte>)
    requires src != dst && src[..] == bytes && to + src.Length <= dst.Length
    modifies dst
    ensures dst[..] == Spliced(old(dst[..]), to, bytes)
  {
    assert src[0..src.Length] == src[..];
    CopyN(src, 0, src.Length, dst, to);
  }

  lemma Assembled(zeros: seq<Byte>, first: seq<Byte>, before: nat, data: seq<Byte>, last: seq<Byte>, after: nat,
                  words: nat)
    requires |zeros| == 4 * words == before + |data| + after && |first| == |last| == 4
    requires before < 4 && 1 <= after <= 4 && (words == 1 ==> first == last)
    ensures
      var ends := Spliced(Spliced(zeros, 0, first), |zeros| - 4, last);
      Spliced(ends, before, data) == first[..before] + data + last[4 - after..]
  {
    var ends := Spliced(Spliced(zeros, 0, first), |zeros| - 4, last);
    AssembledFirst(zeros, first, last, before, words);
    AssembledLast(Spliced(zeros, 0, first), last, after);
    assert ends[before + |data|..] == ends[|zeros| - after..];
  }

  lemma AssembledFirst(zeros: seq<Byte>, first: seq<Byte>, last: seq<Byte>, before: nat, words: nat)
    requires |zeros| == 4 * words && words > 0 && |first| == |last| == 4 && before < 4
    requires words == 1 ==> first == last
    ensures Spliced(Spliced(zeros, 0, first), |zeros| - 4, last)[..before] == first[..before]
  {
    assert Spliced(zeros, 0, first)[..4] == first;
  }

  lemma AssembledLast(buf: seq<Byte>, last: seq<Byte>, after: nat)
    requires |buf| >= 4 == |last| && after <= 4
    ensures Spliced(buf, |buf| - 4, last)[|buf| - after..] == last[4 - after..]
  {
  }

  lemma PartOfWord(flat: seq<Byte>, addr: nat, skip: nat, k: nat)
    requires addr + 4 <= |flat| && skip + k <= 4
    ensures flat[addr..][..4][skip..skip + k] == flat[addr + skip..][..k]
  {
  }

  /** A buffer filled in the middle, then at its start, then at its end. */
  lemma Joined(buf: seq<Byte>, head: seq<Byte>, middle: seq<Byte>, tail: seq<Byte>)
    requires |buf| == |head| + |middle| + |tail|
    ensures
      Spliced(Spliced(Spliced(buf, |head|, middle), 0, head), |head| + |middle|, tail) == head + middle + tail
  {
  }

  /** The word behind whole words is in the memory unless these end it. */
  lemma WordsFit(words: nat, end: nat)
    requires end == 4 * words <= RAM_SIZE
    ensures InRam(end + LOGICAL_BASE, 4) <==> end != RAM_SIZE
    ensures end >= 4 ==> InRam(end - 4 + LOGICAL_BASE, 4)
  {
  }

  lemma BufferFilled(was: seq<Byte>, flat: seq<Byte>, at: nat, n: nat, before: nat, after: nat)
    requires before <= at && at + n + after <= |flat| && |was| == before + n + after
    ensures
      var filled := Spliced(Spliced(was, before, flat[at..][..n]), 0, flat[at - before..][..before]);
      Spliced(filled, before + n, flat[at + n..][..after]) == flat[at - before..][..|was|]
  {
    Joined(was, flat[at - before..][..before], flat[at..][..n], flat[at + n..][..after]);
    ThreeParts(flat, at, n, before, after);
  }

  lemma SwapSpliced(was: seq<Byte>, at: nat, raw: seq<Byte>)
    requires at + |raw| <= |was|
    ensures PartSwapped(Spliced(was, at, raw), at, |raw|) == Spliced(was, at, Swapped(raw))
  {
    SplicedPart(was, at, raw);
    SpliceOver(was, at, raw, Swapped(raw));
  }

  lemma SplicedPart(was: seq<Byte>, at: nat, x: seq<Byte>)
    requires at + |x| <= |was|
    ensures Spliced(was, at, x)[at..][..|x|] == x
  {
  }

  lemma SpliceOver(was: seq<Byte>, at: nat, x: seq<Byte>, y: seq<Byte>)
    requires at + |x| <= |was| && |x| == |y|
    ensures Spliced(Spliced(was, at, x), at, y) == Spliced(was, at, y)
  {
  }

  lemma ThreeParts(flat: seq<Byte>, at: nat, n: nat, before: nat, after: nat)
    requires before <= at && at + n + after <= |flat|
    ensures flat[at - before..][..before + n + after] ==
            flat[at - before..][..before] + flat[at..][..n] + flat[at + n..][..after]
  {
  }

  /**
    What becomes of a bulk read. Every read with fewer bytes than the first word has left computes a length below zero;
    a read up to the very end of the memory fails, for the empty rest of the word behind it.
  */
  function BulkRead(addr: U32, n: U32, again: bool): Access {
    var p := addr - LOGICAL_BASE;
    if addr < LOGICAL_BASE || Wrap(p + n) > RAM_SIZE then InvalidAddr
    else if p + n > RAM_SIZE || n < BSWAP_SIZE - p % BSWAP_SIZE then Undefined
    else if again || p + n == RAM_SIZE then InvalidAddr
    else Done
  }

  /** A length below zero, or beyond the memory, is noticed; else the parts add up. */
  lemma ReadPlan(p: nat, n: U32)
    requires p < LOGICAL_BASE && Wrap(p + n) <= RAM_SIZE
    ensures
      var before, after := 4 - p % 4, Wrap(p + n) % 4;
      var len := Wrap(n - after - before);
      && 1 <= before <= 4 <= p + before && after < 4 && p + before == 4 * (p / 4 + 1)
      && (p + before + len > RAM_SIZE || before + len > n <==> p + n > RAM_SIZE || n < before)
      && (p + n <= RAM_SIZE && n >= before ==> before + len + after == n && len == 4 * (len / 4))
      && (p + n <= RAM_SIZE && n >= before ==> (p + before + len == RAM_SIZE <==> p + n == RAM_SIZE))
  {
    var w, a := p / 4, p % 4;
    if p + n <= RAM_SIZE {
      ReadPlanInRam(w, a, n, (p + n) / 4, (p + n) % 4);
    } else {
      assert p + n >= 0x1_0000_0000;
    }
  }

  lemma ReadPlanInRam(w: nat, a: nat, n: U32, e: nat, after: nat)
    requires a < 4 && after < 4 && 4 * w + a + n == 4 * e + after <= RAM_SIZE
    ensures
      var before := 4 - a;
      var len := Wrap(n - after - before);
      if n >= before then len == 4 * (e - w - 1) && len == 4 * (len / 4) && e > w && before + len + after == n
      else 4 * w + 4 + len > RAM_SIZE || before + len > n
  {
    if n >= 4 - a {
      assert e > w && n - after - (4 - a) == 4 * (e - w - 1);
    }
  }

  lemma WordValue(word: seq<Byte>)
    requires |word| == 4
    ensures Value(word) < 0x1_0000_0000 && Digits(Value(word), 4) == word
  {
    DigitsOfValue(word);
    Powers();
  }

  /** A 32-bit variable of a little-endian host, byte by byte. */
  method HostWord(value: nat) returns (word: array<Byte>)
    requires value < 0x1_0000_0000
    ensures fresh(word) && word.Length == 4 && Swapped(word[..]) == Digits(value, 4)
  {
    word := new Byte[4];
    word[0], word[1] := value % 0x100, value / 0x100 % 0x100;
    word[2], word[3] := value / 0x1_0000 % 0x100, value / 0x100_0000;
    DigitsOfWord(value);
  }

  method SwapWhole(buf: array<Byte>, ghost was: seq<Byte>)
    requires buf[..] == was
    modifies buf
    ensures buf[..] == Swapped(was)
  {
    SwapAll(was);
    BSwap32(buf, 0, buf.Length);
  }

  lemma SwapAll(was: seq<Byte>)
    ensures PartSwapped(was, 0, |was|) == Swapped(was)
  {
    assert was[0..][..|was|] == was && was[..0] == [] && was[|was|..] == [];
  }

  /** The bytes of a big-endian number, in order. */
  method SwappedWord(value: nat, ghost bytes: seq<Byte>) returns (word: array<Byte>)
    requires |bytes| == 4 && value == Value(bytes)
    ensures fresh(word) && word[..] == bytes
  {
    WordValue(bytes);
    word := HostWord(value);
    SwapWhole(word, word[..]);
  }

  function Outcome(addr: U32, n: nat): Access {
    if InRam(addr, n) then Done else InvalidAddr
  }

  /** The bytes of a number are stored last part first; where the last part fails, the first is not tried. */
  lemma StoreSplit(flat: seq<Byte>, addr: U32, high: seq<Byte>, low: seq<Byte>)
    requires |flat| == RAM_SIZE && 0 < |high| <= 4 && 0 < |low| <= 4
    ensures
      var next := Wrap(addr + |high|);
      var part := Stored(flat, next - LOGICAL_BASE, low);
      var whole := Stored(flat, addr - LOGICAL_BASE, high + low);
      if InRam(next, |low|) then
        Stored(part, addr - LOGICAL_BASE, high) == whole && (InRam(addr, |high + low|) <==> InRam(addr, |high|))
      else part == whole && !InRam(addr, |high + low|)
  {
    var at := addr - LOGICAL_BASE;
    if InRam(Wrap(addr + |high|), |low|) {
      OverlayTwice(flat, at, high, low);
    } else if at + |high| + |low| <= RAM_SIZE {
      OverlayBelow(flat, at, high, low);
    }
  }

  lemma OverlayTwice(flat: seq<Byte>, at: int, high: seq<Byte>, low: seq<Byte>)
    ensures Overlay(Overlay(flat, at + |high|, low), at, high) == Overlay(flat, at, high + low)
  {
  }

  /** Nothing of the first part falls into the memory. */
  lemma OverlayBelow(flat: seq<Byte>, at: int, high: seq<Byte>, low: seq<Byte>)
    requires at + |high| <= 0
    ensures Overlay(flat, at + |high|, low) == Overlay(flat, at, high + low)
  {
  }

  lemma DigitsOfPair(val: nat)
    requires val < 0x1_0000
    ensures Digits(val, 2) == [val / 0x100] + [val % 0x100]
  {
    assert Digits(val / 0x100, 1) == [val / 0x100];
  }

  lemma DigitsOfWord(val: nat)
    requires val < 0x1_0000_0000
    ensures Digits(val, 4) ==
            [val / 0x100_0000] + ([val / 0x1_0000 % 0x100] + ([val / 0x100 % 0x100] + [val % 0x100]))
  {
    var high, low := val / 0x1_0000, val % 0x1_0000;
    assert Power(2) == 0x1_0000;
    DigitsConcat(high, low, 2, 2);
    DigitsOfPair(high);
    DigitsOfPair(low);
    HalvesOfWord(val);
  }

  lemma HalvesOfWord(val: nat)
    ensures val / 0x1_0000 / 0x100 == val / 0x100_0000
    ensures val % 0x1_0000 / 0x100 == val / 0x100 % 0x100
    ensures val % 0x1_0000 % 0x100 == val % 0x100
  {
    var high, low := val / 0x1_0000, val % 0x1_0000;
    DivideShifted(256 * high, low);
    DivideShifted(high, low / 0x100);
    QuarterOfWord(val, high / 0x100, high % 0x100, low);
  }

  lemma QuarterOfWord(val: nat, a: nat, b: nat, low: nat)
    requires val == 0x100_0000 * a + 0x1_0000 * b + low && b < 0x100 && low < 0x1_0000
    ensures val / 0x100_0000 == a
  {
  }

  lemma DigitsOfLong(val: nat)
    requires val < 0x1_0000_0000_0000_0000
    ensures Digits(val, 8) == Digits(val / 0x1_0000_0000, 4) + Digits(val % 0x1_0000_0000, 4)
  {
    Powers();
    DigitsConcat(val / 0x1_0000_0000, val % 0x1_0000_0000, 4, 4);
  }

  /** The big-endian number in the `n` bytes at a logical address. */
  function Bytes(flat: seq<Byte>, addr: U32, n: nat): Load
    requires |flat| == RAM_SIZE
  {
    if InRam(addr, n) then Got(Value(flat[addr - LOGICAL_BASE..][..n])) else Fault
  }

  function Combine16(a: Load, b: Load): Load {
    if a.Got? && b.Got? then Got(a.value * 0x100 + b.value) else Fault
  }

  function Combine32(a: Load, b: Load, c: Load, d: Load): Load {
    if a.Got? && b.Got? && c.Got? && d.Got? then
      Got(a.value * 0x100_0000 + b.value * 0x1_0000 + c.value * 0x100 + d.value)
    else Fault
  }

  function Combine64(high: Load, low: Load): Load {
    if high.Got? && low.Got? then Got(high.value * 0x1_0000_0000 + low.value) else Fault
  }

  lemma {:induction false} ValueConcat(x: seq<Byte>, y: seq<Byte>)
    ensures Value(x + y) == Value(x) * Power(|y|) + Value(y)
    decreases |y|
  {
    if y == [] {
      assert x + y == x;
    } else {
      var front := y[..|y| - 1];
      ValueConcat(x, front);
      assert (x + y)[..|x + y| - 1] == x + front;
      assert Value(x) * Power(|y|) == Value(x) * Power(|front|) * 256;
    }
  }

  lemma SwappedInRam(s: seq<Byte>, p: nat)
    requires |s| == RAM_SIZE && p < RAM_SIZE
    ensures 0 <= Mirror(p) < RAM_SIZE && Swapped(s)[p] == s[Mirror(p)]
  {
    SwappedAt(s, p / 4, p % 4);
    MirrorIs(p / 4, p % 4);
  }

  lemma UpdateInRam(s: seq<Byte>, p: nat, val: Byte)
    requires |s| == RAM_SIZE && p < RAM_SIZE
    ensures 0 <= Mirror(p) < RAM_SIZE && Swapped(s[Mirror(p) := val]) == Swapped(s)[p := val]
  {
    MirrorIs(p / 4, p % 4);
    SwappedUpdate(s, p / 4, p % 4, val);
  }

  lemma ValueOfByte(flat: seq<Byte>, addr: U32)
    requires |flat| == RAM_SIZE
    ensures Bytes(flat, addr, 1) == if InRam(addr, 1) then Got(flat[addr - LOGICAL_BASE]) else Fault
  {
    if InRam(addr, 1) {
      var one := flat[addr - LOGICAL_BASE..][..1];
      assert one[..0] == [] && Value(one) == flat[addr - LOGICAL_BASE];
    }
  }

  /** The number in `m` bytes and the `n` bytes after them. */
  lemma ValueSplit(flat: seq<Byte>, p: nat, m: nat, n: nat)
    requires p + m + n <= |flat|
    ensures Value(flat[p..][..m + n]) == Value(flat[p..][..m]) * Power(n) + Value(flat[p + m..][..n])
  {
    ValueConcat(flat[p..][..m], flat[p + m..][..n]);
    assert flat[p..][..m + n] == flat[p..][..m] + flat[p + m..][..n];
  }

  lemma Powers()
    ensures Power(1) == 0x100 && Power(2) == 0x1_0000
    ensures Power(4) == 0x1_0000_0000 && Power(8) == 0x1_0000_0000_0000_0000
  {
    assert Power(6) == 0x1_0000_0000_0000 by {
      assert Power(4) == 0x1_0000_0000 by {
        assert Power(2) == 0x1_0000;
      }
    }
  }

  lemma CombinePair(flat: seq<Byte>, addr: U32)
    requires |flat| == RAM_SIZE
    ensures Combine16(Bytes(flat, addr, 1), Bytes(flat, Wrap(addr + 1), 1)) == Bytes(flat, addr, 2)
  {
    if InRam(addr, 2) {
      ValueSplit(flat, addr - LOGICAL_BASE, 1, 1);
      Powers();
    }
  }

  lemma WordSplit(flat: seq<Byte>, p: nat)
    requires p + 4 <= |flat|
    ensures Value(flat[p..][..4]) ==
            Value(flat[p..][..1]) * 0x100_0000 + Value(flat[p + 1..][..1]) * 0x1_0000 +
            Value(flat[p + 2..][..1]) * 0x100 + Value(flat[p + 3..][..1])
  {
    ValueSplit(flat, p, 2, 2);
    ValueSplit(flat, p, 1, 1);
    ValueSplit(flat, p + 2, 1, 1);
    Powers();
  }

  lemma OutOfRam(addr: U32, n: nat)
    requires 0 < n <= 8 && !InRam(addr, n)
    ensures !InRam(addr, 1) || !InRam(Wrap(addr + n - 1), 1)
  {
  }

  lemma CombineWord(flat: seq<Byte>, addr: U32)
    requires |flat| == RAM_SIZE
    ensures Combine32(Bytes(flat, addr, 1), Bytes(flat, Wrap(addr + 1), 1), Bytes(flat, Wrap(addr + 2), 1),
                      Bytes(flat, Wrap(addr + 3), 1)) == Bytes(flat, addr, 4)
  {
    if InRam(addr, 4) {
      WordSplit(flat, addr - LOGICAL_BASE);
    } else {
      OutOfRam(addr, 4);
    }
  }

  lemma CombineLong(flat: seq<Byte>, addr: U32)
    requires |flat| == RAM_SIZE
    ensures Combine64(Bytes(flat, addr, 4), Bytes(flat, Wrap(addr + 4), 4)) == Bytes(flat, addr, 8)
  {
    if InRam(addr, 8) {
      ValueSplit(flat, addr - LOGICAL_BASE, 4, 4);
      Powers();
    }
  }

  /// What reads and writes mean for each other

  /** A number read back at any address and width is the number written. */
  lemma LoadAfterStore(flat: seq<Byte>, addr: U32, value: nat, n: nat)
    requires |flat| == RAM_SIZE && InRam(addr, n) && value < Power(n)
    ensures Bytes(Stored(flat, addr - LOGICAL_BASE, Digits(value, n)), addr, n) == Got(value)
  {
    ValueOfDigits(value, n);
    OverlayPart(flat, addr - LOGICAL_BASE, Digits(value, n));
  }

  lemma OverlayPart(flat: seq<Byte>, at: nat, bytes: seq<Byte>)
    requires at + |bytes| <= |flat|
    ensures Overlay(flat, at, bytes)[at..][..|bytes|] == bytes
  {
  }

  /** Bytes outside of a write, successful or not, keep what they hold. */
  lemma LoadElsewhere(flat: seq<Byte>, addr: U32, bytes: seq<Byte>, other: U32, n: nat)
    requires |flat| == RAM_SIZE && (other + n <= addr || addr + |bytes| <= other)
    ensures Bytes(Stored(flat, addr - LOGICAL_BASE, bytes), other, n) == Bytes(flat, other, n)
  {
    if InRam(other, n) {
      var p := other - LOGICAL_BASE;
      assert Stored(flat, addr - LOGICAL_BASE, bytes)[p..][..n] == flat[p..][..n];
    }
  }

  /**
    A write that fails leaves the memory alone, except when it starts below the memory and ends in it: then its last
    bytes, stored before the failure, stay.
  */
  lemma FailedStore(flat: seq<Byte>, addr: U32, bytes: seq<Byte>)
    requires |flat| == RAM_SIZE && 0 < |bytes| <= 8 && !InRam(addr, |bytes|)
    ensures
      Stored(flat, addr - LOGICAL_BASE, bytes) ==
      if addr < LOGICAL_BASE < addr + |bytes| then
        bytes[LOGICAL_BASE - addr..] + flat[addr + |bytes| - LOGICAL_BASE..]
      else flat
  {
  }

  /**
    With one translation, what a bulk read returns after a bulk write of the same place is the data written; the write
    succeeds wherever the read does.
  */
  lemma ReadAfterWrite(flat: seq<Byte>, addr: U32, data: seq<Byte>)
    requires |flat| == RAM_SIZE && |data| < 0x1_0000_0000 && BulkRead(addr, |data|, false).Done?
    ensures LOGICAL_BASE <= addr && addr - LOGICAL_BASE + |data| < RAM_SIZE
    ensures Overlay(flat, addr - LOGICAL_BASE, data)[addr - LOGICAL_BASE..][..|data|] == data
  {
    OverlayPart(flat, addr - LOGICAL_BASE, data);
  }

  /** The round trip in place: with one translation, whatever can be read back after the write is what was written. */
  method WriteThenRead(ram: Memory, addr: U32, data: array<Byte>, back: array<Byte>) returns (w: Access, r: Access)
    requires ram.Valid() && data != ram.mem && back != ram.mem && data != back
    requires data.Length == back.Length < 0x1_0000_0000
    modifies ram.mem, back
    ensures w.Done? <==> LOGICAL_BASE <= addr && addr - LOGICAL_BASE + data.Length < RAM_SIZE
    ensures r == BulkRead(addr, data.Length, false)
    ensures r.Done? ==> w.Done? && back[..] == data[..]
    ensures w.Done? ==> ram.Flat() == Overlay(old(ram.Flat()), addr - LOGICAL_BASE, data[..])
  {
    w := ram.WriteMemory(addr, data, true);
    r := ram.ReadMemory(addr, back, false);
    if r.Done? {
      ReadAfterWrite(old(ram.Flat()), addr, data[..]);
    }
  }

  /**
    With one translation a bulk read succeeds just when it covers the rest of its first word and ends before the last
    byte.
  */
  lemma ReadSucceeds(addr: U32, n: U32)
    ensures BulkRead(addr, n, false).Done? <==>
            && LOGICAL_BASE <= addr && addr - LOGICAL_BASE + n < RAM_SIZE
            && (addr - LOGICAL_BASE) / 4 < (addr - LOGICAL_BASE + n) / 4
  {
  }

  /** As it is written, no bulk read succeeds: this ordinary one fails, and with one translation it would not. */
  lemma ReadAsWrittenFails(addr: U32, n: U32)
    ensures !BulkRead(addr, n, true).Done?
    ensures BulkRead(LOGICAL_BASE, 8, true) == InvalidAddr && BulkRead(LOGICAL_BASE, 8, false) == Done
    ensures BulkRead(addr, n, true).Undefined? <==> BulkRead(addr, n, false).Undefined?
  {
  }
}
