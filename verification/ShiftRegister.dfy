/** The shift-register array of include/shiftregarr.h: bit macros over bytes and
    the one operation that pushes a set (or clear) bit towards the end of a register. */
module ShiftRegister {

  /** BITMASK and BITTEST for a bit number inside one byte. */
  predicate Bit(b: bv8, i: nat)
    requires i < 8
  {
    b & ((1 as bv8) << i) != 0
  }

  /** BITSET and BITCLEAR inside one byte. */
  function WithBit(b: bv8, i: nat, on: bool): bv8
    requires i < 8
  {
    if on then b | ((1 as bv8) << i) else b & !((1 as bv8) << i)
  }

  lemma BitOfWithBit(b: bv8, i: nat, on: bool, j: nat)
    requires i < 8 && j < 8
    ensures Bit(WithBit(b, i, on), j) == if i == j then on else Bit(b, j)
  {
    if on {
      BitOfSet(b, i, j);
    } else {
      BitOfCleared(b, i, j);
    }
  }

  lemma BitOfSet(b: bv8, i: nat, j: nat)
    requires i < 8 && j < 8
    ensures Bit(b | ((1 as bv8) << i), j) <==> i == j || Bit(b, j)
  {
  }

  lemma BitOfCleared(b: bv8, i: nat, j: nat)
    requires i < 8 && j < 8
    ensures Bit(b & !((1 as bv8) << i), j) <==> i != j && Bit(b, j)
  {
  }

  lemma SameBits(a: bv8, b: bv8)
    requires forall i: nat | i < 8 :: Bit(a, i) == Bit(b, i)
    ensures a == b
  {
    assert Bit(a, 0) == Bit(b, 0) && Bit(a, 1) == Bit(b, 1) && Bit(a, 2) == Bit(b, 2) && Bit(a, 3) == Bit(b, 3);
    assert Bit(a, 4) == Bit(b, 4) && Bit(a, 5) == Bit(b, 5) && Bit(a, 6) == Bit(b, 6) && Bit(a, 7) == Bit(b, 7);
  }

  /** The bits of a byte slice, least significant bit of the first byte first. */
  function Bits(bytes: seq<bv8>): (bits: seq<bool>)
    ensures |bits| == 8 * |bytes|
  {
    seq(8 * |bytes|, k requires 0 <= k < 8 * |bytes| => Bit(bytes[k / 8], k % 8))
  }

  lemma WithBitBits(bytes: seq<bv8>, it: nat, on: bool)
    requires it < 8 * |bytes|
    ensures Bits(bytes[it / 8 := WithBit(bytes[it / 8], it % 8, on)]) == Bits(bytes)[it := on]
  {
    var after := bytes[it / 8 := WithBit(bytes[it / 8], it % 8, on)];
    forall k | 0 <= k < 8 * |bytes|
      ensures Bits(after)[k] == Bits(bytes)[it := on][k]
    {
      BitOfWithBit(bytes[it / 8], it % 8, on, k % 8);
    }
  }

  /** The highest index that holds `v`, or -1. */
  function Top(bits: seq<bool>, v: bool): (t: int)
    ensures -1 <= t < |bits|
    ensures t >= 0 ==> bits[t] == v
    ensures forall k | t < k < |bits| :: bits[k] != v
  {
    if bits == [] then -1
    else if bits[|bits| - 1] == v then |bits| - 1
    else Top(bits[..|bits| - 1], v)
  }

  /** What one push does to a register; `mark` is the value being moved. */
  function Push(bits: seq<bool>, mark: bool): (r: seq<bool>)
    ensures |r| == |bits|
  {
    var t := Top(bits, mark);
    if t == |bits| - 1 then bits
    else if t == -1 then bits[0 := mark]
    else bits[t + 1 := mark][t := !mark]
  }

  /** Where register `loc` starts: `mem + (loc * elem_sz)`. */
  function Offset(elemSize: nat, loc: nat): nat {
    loc * elemSize
  }

  /** `size / elem_sz`. */
  function ElemCount(size: nat, elemSize: nat): nat
    requires 0 < elemSize
  {
    size / elemSize
  }

  lemma MulLeq(a: nat, b: nat, c: nat)
    requires a <= b
    ensures a * c <= b * c
  {
  }

  lemma InBounds(size: nat, elemSize: nat, loc: nat)
    requires 0 < elemSize && loc < ElemCount(size, elemSize)
    ensures Offset(elemSize, loc) + elemSize <= size
  {
    var q := size / elemSize;
    assert size == q * elemSize + size % elemSize;
    MulLeq(loc + 1, q, elemSize);
    assert (loc + 1) * elemSize == loc * elemSize + elemSize;
  }

  /** Every byte outside one register. */
  function Rest(mem: seq<bv8>, arr: nat, elemSize: nat): (seq<bv8>, seq<bv8>)
    requires arr + elemSize <= |mem|
  {
    (mem[..arr], mem[arr + elemSize..])
  }

  function Register(mem: seq<bv8>, elemSize: nat, loc: nat): seq<bool>
    requires Offset(elemSize, loc) + elemSize <= |mem|
  {
    Bits(mem[Offset(elemSize, loc)..Offset(elemSize, loc) + elemSize])
  }

  /** The value of an `int32_t` initialised with `n`. */
  function Int32(n: nat): (r: int)
    ensures r <= n
  {
    var low := n % 0x1_0000_0000;
    if low < 0x8000_0000 then low else low - 0x1_0000_0000
  }

  lemma Int32Is(n: nat)
    ensures -0x8000_0000 <= Int32(n) < 0x8000_0000 && (n - Int32(n)) % 0x1_0000_0000 == 0
  {
    var low := n % 0x1_0000_0000;
    assert n - low == (n / 0x1_0000_0000) * 0x1_0000_0000;
  }

  /** A push in a register of which the scan sees only the lowest `width` bits. */
  function PushLow(bits: seq<bool>, width: nat, mark: bool): (r: seq<bool>)
    requires width <= |bits|
    ensures |r| == |bits|
  {
    Push(bits[..width], mark) + bits[width..]
  }

  /** `sra_push_back`. The C text asserts `loc < size/elem_sz`; the counter of its scan is an `int32_t`, and with a
      negative one the scan would leave the register. */
  method PushBack(mem: array<bv8>, elemSize: nat, loc: nat, basebit: bv8)
    requires 0 < elemSize && Int32(8 * elemSize) >= 0
    requires loc < ElemCount(mem.Length, elemSize)
    modifies mem
    ensures Offset(elemSize, loc) + elemSize <= mem.Length
    ensures Register(mem[..], elemSize, loc)
         == PushLow(old(Register(mem[..], elemSize, loc)), Int32(8 * elemSize), basebit == 0)
    ensures Rest(mem[..], Offset(elemSize, loc), elemSize) == old(Rest(mem[..], Offset(elemSize, loc), elemSize))
  {
    InBounds(mem.Length, elemSize, loc);
    var arr := Offset(elemSize, loc);
    RegisterAt(mem[..], elemSize, loc, arr);
    PushBackAt(mem, arr, elemSize, Int32(8 * elemSize), basebit == 0);
    RegisterAt(mem[..], elemSize, loc, arr);
  }

  lemma RegisterAt(mem: seq<bv8>, elemSize: nat, loc: nat, arr: nat)
    requires arr == Offset(elemSize, loc) && arr + elemSize <= |mem|
    ensures Register(mem, elemSize, loc) == Bits(mem[arr..arr + elemSize])
  {
  }

  /** The body of `sra_push_back` once `arr` points at the register and the counter is at `count`. */
  method PushBackAt(mem: array<bv8>, arr: nat, elemSize: nat, count: nat, mark: bool)
    requires arr + elemSize <= mem.Length && count <= 8 * elemSize
    modifies mem
    ensures Bits(mem[..][arr..arr + elemSize]) == PushLow(old(Bits(mem[..][arr..arr + elemSize])), count, mark)
    ensures Rest(mem[..], arr, elemSize) == old(Rest(mem[..], arr, elemSize))
  {
    ghost var bytes := mem[..][arr..arr + elemSize];
    ghost var bits := Bits(bytes);
    // `while (it--)`: the counter is tested before it is decremented, so it ends at -1
    var it := count;
    var more := it != 0;
    it := it - 1;
    while more
      invariant -1 <= it < count && (more <==> it >= 0)
      invariant forall k | it < k < count :: bits[k] != mark
      decreases it
    {
      assert bits[it] == Bit(bytes[it / 8], it % 8);
      if Bit(mem[arr + it / 8], it % 8) == mark {
        break;
      }
      more := it != 0;
      it := it - 1;
    }
    LowIs(bits, count, mark, it);
    if it != count - 1 {
      it := it + 1;
      Write(mem, arr, elemSize, it, mark);
      if it != 0 {
        it := it - 1;
        Write(mem, arr, elemSize, it, !mark);
      }
    }
  }

  lemma WholePush(bits: seq<bool>, width: nat, mark: bool)
    requires width == |bits|
    ensures PushLow(bits, width, mark) == Push(bits, mark)
  {
    assert bits[..width] == bits;
  }

  lemma RegisterPushed(mem: seq<bv8>, elemSize: nat, loc: nat, mark: bool)
    requires Offset(elemSize, loc) + elemSize <= |mem| && Int32(8 * elemSize) == 8 * elemSize
    ensures PushLow(Register(mem, elemSize, loc), Int32(8 * elemSize), mark) == Push(Register(mem, elemSize, loc), mark)
  {
    WholePush(Register(mem, elemSize, loc), Int32(8 * elemSize), mark);
  }

  /** What is written when the scan stops at `t`. */
  lemma LowIs(bits: seq<bool>, width: nat, mark: bool, t: int)
    requires -1 <= t < width <= |bits| || (t == -1 && width == 0)
    requires t >= 0 ==> bits[t] == mark
    requires forall k | t < k < width :: bits[k] != mark
    ensures PushLow(bits, width, mark) == if t == width - 1 then bits
                                          else if t == -1 then bits[0 := mark]
                                          else bits[t + 1 := mark][t := !mark]
  {
    TopIs(bits[..width], mark, t);
  }

  /** The whole register is pushed, whatever it holds, exactly when it has fewer than 2^31 bits; the note of the
      source admits wider ones. */
  lemma PushedWholeIff(elemSize: nat, mark: bool)
    requires 0 < elemSize && Int32(8 * elemSize) >= 0
    ensures (forall bits: seq<bool> | |bits| == 8 * elemSize ::
              PushLow(bits, Int32(8 * elemSize), mark) == Push(bits, mark))
       <==> 8 * elemSize < 0x8000_0000
  {
    PushLowIff(8 * elemSize, Int32(8 * elemSize), mark);
  }

  lemma PushLowIff(n: nat, width: nat, mark: bool)
    requires 0 < n && width <= n
    ensures (forall bits: seq<bool> | |bits| == n :: PushLow(bits, width, mark) == Push(bits, mark)) <==> width == n
  {
    forall bits: seq<bool> | |bits| == n && width == n
      ensures PushLow(bits, width, mark) == Push(bits, mark)
    {
      WholePush(bits, width, mark);
    }
    if width < n {
      var bits := seq(n, k => if k == width - 1 then mark else !mark);
      TopIs(bits, mark, width - 1);
      LowIs(bits, width, mark, width - 1);
      assert Push(bits, mark)[width] == mark && bits[width] == !mark;
    }
  }

  /** BITSET or BITCLEAR of bit `it` of the register that starts at byte `arr`. */
  method Write(mem: array<bv8>, arr: nat, elemSize: nat, it: nat, on: bool)
    requires arr + elemSize <= mem.Length && it < 8 * elemSize
    modifies mem
    ensures Bits(mem[..][arr..arr + elemSize]) == old(Bits(mem[..][arr..arr + elemSize]))[it := on]
    ensures Rest(mem[..], arr, elemSize) == old(Rest(mem[..], arr, elemSize))
  {
    ghost var bytes := mem[..][arr..arr + elemSize];
    var slot := it / 8;
    mem[arr + slot] := WithBit(mem[arr + slot], it % 8, on);
    assert mem[..][arr..arr + elemSize] == bytes[slot := WithBit(bytes[slot], it % 8, on)];
    WithBitBits(bytes, it, on);
  }

  lemma TopIs(bits: seq<bool>, v: bool, t: int)
    requires -1 <= t < |bits|
    requires t >= 0 ==> bits[t] == v
    requires forall k | t < k < |bits| :: bits[k] != v
    ensures Top(bits, v) == t
  {
  }

  // ----- What a push means -----

  function Not(bits: seq<bool>): (r: seq<bool>)
    ensures |r| == |bits|
  {
    seq(|bits|, k requires 0 <= k < |bits| => !bits[k])
  }

  /** The two polarities of the register are complements of each other. */
  lemma PushComplement(bits: seq<bool>, mark: bool)
    ensures Push(Not(bits), !mark) == Not(Push(bits, mark))
  {
    TopIs(Not(bits), !mark, Top(bits, mark));
    assert Push(Not(bits), !mark) == Not(Push(bits, mark));
  }

  function Zero(n: nat): (r: seq<bool>)
    ensures |r| == n && forall k | 0 <= k < n :: !r[k]
  {
    seq(n, _ => false)
  }

  /** A register of `n` bits after `count` accesses: empty, or one bit at the capped count. */
  function OneHot(n: nat, count: nat): (r: seq<bool>)
    ensures |r| == n
  {
    if n == 0 || count == 0 then Zero(n) else Zero(n)[(if count < n then count else n) - 1 := true]
  }

  /** The one-hot counter counts: pushing moves from `count` to `count + 1`, and sticks at the last bit. */
  lemma PushCounts(n: nat, count: nat)
    ensures Push(OneHot(n, count), true) == OneHot(n, count + 1)
  {
    if n > 0 {
      TopIs(OneHot(n, count), true, if count == 0 then -1 else if count < n then count - 1 else n - 1);
      assert Push(OneHot(n, count), true) == OneHot(n, count + 1);
    }
  }

  /** In memory: after `count` accesses one bit is set, `(count - 1) % 8` in byte `(count - 1) / 8`, where counts above
      the number of bits stay at the last. */
  lemma OneHotBytes(bytes: seq<bv8>, count: nat, j: nat)
    requires j < |bytes| && Bits(bytes) == OneHot(8 * |bytes|, count)
    ensures var at := (if count < 8 * |bytes| then count else 8 * |bytes|) - 1;
      bytes[j] as int == if count > 0 && at / 8 == j then [1, 2, 4, 8, 16, 32, 64, 128][at % 8] else 0
  {
    var at := (if count < 8 * |bytes| then count else 8 * |bytes|) - 1;
    forall i: nat | i < 8
      ensures Bit(bytes[j], i) <==> count > 0 && 8 * j + i == at
    {
      assert Bits(bytes)[8 * j + i] == Bit(bytes[j], i);
    }
    if count > 0 && at / 8 == j {
      SingleBit(bytes[j], at % 8);
    } else {
      NoBit(bytes[j]);
    }
  }

  lemma SingleBit(b: bv8, i: nat)
    requires i < 8 && forall j: nat | j < 8 :: Bit(b, j) <==> j == i
    ensures b as int == [1, 2, 4, 8, 16, 32, 64, 128][i]
  {
    var single := (1 as bv8) << i;
    forall j: nat | j < 8
      ensures Bit(single, j) <==> j == i
    {
      BitOfSet(0, i, j);
      assert 0 | single == single && !Bit(0, j);
    }
    SameBits(b, single);
    ShiftedOne(i);
  }

  lemma ShiftedOne(i: nat)
    requires i < 8
    ensures ((1 as bv8) << i) as int == [1, 2, 4, 8, 16, 32, 64, 128][i]
  {
  }

  lemma NoBit(b: bv8)
    requires forall j: nat | j < 8 :: !Bit(b, j)
    ensures b == 0
  {
    forall j: nat | j < 8
      ensures Bit(b, j) == Bit(0, j)
    {
    }
    SameBits(b, 0);
  }

  /** The library header says an access shifts the register left by one. */
  function ShiftedLeft(bits: seq<bool>): (r: seq<bool>)
    ensures |r| == |bits|
  {
    if bits == [] then [] else [Top(bits, true) == -1] + bits[..|bits| - 1]
  }

  /** That description is right exactly for registers with at most one set bit that is not the last. */
  lemma PushIsShift(bits: seq<bool>)
    requires bits != []
    ensures Push(bits, true) == ShiftedLeft(bits) <==>
            !bits[|bits| - 1] && forall i, j | 0 <= i < j < |bits| :: !(bits[i] && bits[j])
  {
    var t := Top(bits, true);
    var p, s := Push(bits, true), ShiftedLeft(bits);
    if exists i | 0 <= i < |bits| :: bits[i] && (i < t || i == |bits| - 1) {
      var low := Lowest(bits);
      assert s[low] != p[low];
    } else {
      assert p == s;
    }
  }

  lemma Lowest(bits: seq<bool>) returns (low: nat)
    requires exists i | 0 <= i < |bits| :: bits[i]
    ensures low < |bits| && bits[low] && forall k | 0 <= k < low :: !bits[k]
  {
    low := 0;
    while !bits[low]
      invariant low < |bits| && forall k | 0 <= k < low :: !bits[k]
      decreases |bits| - low
    {
      low := low + 1;
    }
  }
}
