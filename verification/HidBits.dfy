/**
 Reading and writing a bit field of a report buffer.  A C int is its 32 bits, low-order bit first,
 and the C operators act on those bits; a buffer byte is 8 bits.
 */
module HidBits {
  type Byte = s: seq<bool> | |s| == 8 witness [false, false, false, false, false, false, false, false]
  type Word = s: seq<bool> | |s| == 32 witness seq(32, _ => false)

  // ----- the C operators

  function Zero(): Word { seq(32, _ => false) }

  function And(x: Word, y: Word): Word { seq(32, k requires 0 <= k < 32 => x[k] && y[k]) }

  function Or(x: Word, y: Word): Word { seq(32, k requires 0 <= k < 32 => x[k] || y[k]) }

  function Not(x: Word): Word { seq(32, k requires 0 <= k < 32 => !x[k]) }

  function ShiftLeft(x: Word, n: nat): Word
    requires n < 32
  {
    seq(32, k requires 0 <= k < 32 => k >= n && x[k - n])
  }

  /** >> on an int copies the sign bit. */
  function ShiftRight(x: Word, n: nat): Word
    requires n < 32
  {
    seq(32, k requires 0 <= k < 32 => x[if k + n < 32 then k + n else 31])
  }

  /** (1 << n) - 1 */
  function Ones(n: nat): Word { seq(32, k => k < n) }

  function Widen(b: Byte): Word { seq(32, k requires 0 <= k < 32 => k < 8 && b[k]) }

  function Narrow(x: Word): Byte { x[..8] }

  // ----- what the bits of a buffer and of a number mean

  /** Bit k of a buffer. */
  predicate Bit(buf: seq<Byte>, k: nat)
    requires k / 8 < |buf|
  {
    buf[k / 8][k % 8]
  }

  /** The C code can be run on this field without shifting by 32 or reading past the buffer. */
  predicate FieldFits(buf: seq<Byte>, pos: nat, size: nat) {
    pos % 8 + size <= 31 && (pos + size) / 8 < |buf|
  }

  function Pow2(n: nat): nat {
    if n == 0 then 1 else 2 * Pow2(n - 1)
  }

  function Unsigned(bits: seq<bool>): nat {
    if bits == [] then 0 else (if bits[0] then 1 else 0) + 2 * Unsigned(bits[1..])
  }

  /** The two's complement value of an int. */
  function Value(x: Word): int {
    Unsigned(x) - if x[31] then Pow2(32) else 0
  }

  /** Assembles n bytes from the given offset on, low-order byte first. */
  method LoadBytes(buf: array<Byte>, offs: nat, n: nat) returns (data: Word)
    requires n <= 4 && offs + n <= buf.Length
    ensures forall k :: 0 <= k < 32 ==> data[k] == (k < 8 * n && Bit(buf[..], 8 * offs + k))
  {
    data := Zero();
    for i := 0 to n
      invariant forall k :: 0 <= k < 32 ==> data[k] == (k < 8 * i && Bit(buf[..], 8 * offs + k))
    {
      data := Or(data, ShiftLeft(Widen(buf[offs + i]), i * 8));
    }
  }

  /** Shifted down, masked and possibly sign-extended. */
  function Extracted(loaded: Word, low: nat, size: nat, negative: bool): Word
    requires 0 < size && low + size < 32
  {
    var field := And(ShiftRight(loaded, low), Ones(size));
    if negative then ShiftRight(ShiftLeft(field, 32 - size), 32 - size) else field
  }

  lemma ExtractedBits(loaded: Word, low: nat, size: nat, negative: bool)
    requires 0 < size && low + size < 32
    ensures forall k :: 0 <= k < 32 ==>
      Extracted(loaded, low, size, negative)[k]
      == if k < size then loaded[low + k] else negative && loaded[low + size - 1]
  {
  }

  /** Where bit k of the field is in the bytes loaded. */
  lemma LoadedBit(buf: seq<Byte>, pos: nat, size: nat, k: nat)
    requires FieldFits(buf, pos, size) && k < size
    ensures pos % 8 + k < 8 * ((pos + size) / 8 - pos / 8 + 1) && pos % 8 + k < 32
    ensures 8 * (pos / 8) + (pos % 8 + k) == pos + k && (pos + k) / 8 < |buf|
  {
  }

  /** The bytes that hold a field have been loaded. */
  ghost predicate Loaded(buf: seq<Byte>, data: Word, offs: nat, n: nat)
    requires n <= 4 && offs + n <= |buf|
  {
    forall k :: 0 <= k < 32 ==> data[k] == (k < 8 * n && Bit(buf, 8 * offs + k))
  }

  lemma ExtractedField(buf: seq<Byte>, data: Word, pos: nat, size: nat, negative: bool)
    requires FieldFits(buf, pos, size) && size > 0
    requires Loaded(buf, data, pos / 8, (pos + size) / 8 - pos / 8 + 1)
    ensures var x := Extracted(data, pos % 8, size, negative);
      && (forall k :: 0 <= k < size ==> x[k] == Bit(buf, pos + k))
      && (forall k :: size <= k < 32 ==> x[k] == (negative && Bit(buf, pos + size - 1)))
  {
    hide Bit, Extracted;
    var x := Extracted(data, pos % 8, size, negative);
    ExtractedBits(data, pos % 8, size, negative);
    LoadedBit(buf, pos, size, size - 1);
    assert data[pos % 8 + (size - 1)] == Bit(buf, pos + (size - 1));
    forall k | 0 <= k < size
      ensures x[k] == Bit(buf, pos + k)
    {
      LoadedBit(buf, pos, size, k);
      assert data[pos % 8 + k] == Bit(buf, pos + k);
    }
  }

  method GetData(buf: array<Byte>, pos: nat, size: nat, negative: bool) returns (data: Word)
    requires FieldFits(buf[..], pos, size)
    ensures forall k :: 0 <= k < size ==> data[k] == Bit(buf[..], pos + k)
    ensures forall k :: size <= k < 32 ==> data[k] == (negative && size > 0 && Bit(buf[..], pos + size - 1))
  {
    hide Bit, Ones, And, ShiftLeft, ShiftRight;
    if size == 0 {
      return Zero();
    }
    var offs := pos / 8;
    var end := (pos + size) / 8 - offs;
    data := LoadBytes(buf, offs, end + 1);
    ghost var loaded := data;
    ExtractedField(buf[..], loaded, pos, size, negative);
    data := ShiftRight(data, pos % 8);
    data := And(data, Ones(size));
    if negative {
      var hsize := 32 - size;
      data := ShiftRight(ShiftLeft(data, hsize), hsize);
    }
    assert data == Extracted(loaded, pos % 8, size, negative);
  }

  /** Byte i of the field written into a byte of the buffer. */
  function Overwritten(was: Byte, data: Word, mask: Word, i: nat): Byte
    requires i < 4
  {
    Narrow(Or(And(Widen(was), ShiftRight(mask, i * 8)), And(ShiftRight(data, i * 8), Ones(8))))
  }

  lemma OverwrittenBit(was: Byte, data: Word, mask: Word, i: nat, b: nat)
    requires i < 4 && b < 8
    ensures Overwritten(was, data, mask, i)[b] == ((was[b] && mask[8 * i + b]) || data[8 * i + b])
  {
  }

  /** The value moved to its place in its first byte, and the mask that spares everything else. */
  lemma Moved(value: Word, low: nat, size: nat)
    requires low < 8 && low + size < 32
    ensures forall k :: 0 <= k < 32 ==>
      ShiftLeft(And(value, Ones(size)), low)[k] == (low <= k < low + size && value[k - low])
    ensures forall k :: 0 <= k < 32 ==> Not(ShiftLeft(Ones(size), low))[k] == !(low <= k < low + size)
  {
  }

  method SetData(buf: array<Byte>, pos: nat, size: nat, value: Word)
    requires FieldFits(buf[..], pos, size)
    modifies buf
    ensures forall k :: 0 <= k < 8 * buf.Length ==>
      Bit(buf[..], k) == if pos <= k < pos + size then value[k - pos] else old(Bit(buf[..], k))
  {
    hide And, Or, Not, Ones, ShiftLeft, ShiftRight, Narrow, Widen;
    Moved(value, pos % 8, size);
    var data, mask := value, Not(Zero());
    if size != 32 {
      mask := Ones(size);
      data := And(data, mask);
    }
    data := ShiftLeft(data, pos % 8);
    mask := ShiftLeft(mask, pos % 8);
    mask := Not(mask);
    var offs := pos / 8;
    var end := (pos + size) / 8 - offs;
    for i := 0 to end + 1
      invariant forall k :: 0 <= k < 8 * buf.Length ==>
        Bit(buf[..], k) == if pos <= k < pos + size && k < 8 * (offs + i) then value[k - pos] else old(Bit(buf[..], k))
    {
      var kept := And(Widen(buf[offs + i]), ShiftRight(mask, i * 8));
      var added := And(ShiftRight(data, i * 8), Ones(8));
      ghost var was := buf[..];
      buf[offs + i] := Narrow(Or(kept, added));
      assert buf[offs + i] == Overwritten(was[offs + i], data, mask, i);
      forall k | 0 <= k < 8 * buf.Length
        ensures Bit(buf[..], k) == if k / 8 == offs + i && pos <= k < pos + size then value[k - pos] else Bit(was, k)
      {
        if k / 8 == offs + i {
          OverwrittenBit(was[k / 8], data, mask, i, k % 8);
          assert 8 * i + k % 8 == k - 8 * offs == k - pos + pos % 8;
        }
      }
    }
  }

  // ----- what a read after a write gives

  /** A number is its low n bits and 2^n times the rest. */
  lemma {:induction false} UnsignedSplit(x: seq<bool>, n: nat)
    requires n <= |x|
    ensures Unsigned(x) == Unsigned(x[..n]) + Pow2(n) * Unsigned(x[n..])
    ensures Unsigned(x[..n]) < Pow2(n)
  {
    hide *;
    if n == 0 {
      assert x[..0] == [] && x[0..] == x;
      UnsignedNothing(Unsigned(x));
    } else {
      UnsignedSplit(x[1..], n - 1);
      assert x[..n][1..] == x[1..][..n - 1] && x[1..][n - 1..] == x[n..] && x[..n][0] == x[0];
      UnsignedFirst(x);
      UnsignedFirst(x[..n]);
      Doubled(n, Unsigned(x[n..]));
      OneBitMore(if x[0] then 1 else 0, Unsigned(x[1..]), Unsigned(x[1..][..n - 1]), Pow2(n - 1) * Unsigned(x[n..]));
    }
  }

  lemma UnsignedNothing(y: int)
    ensures Unsigned([]) == 0 < Pow2(0) && y == Pow2(0) * y
  {
  }

  lemma OneBitMore(bit: int, rest: int, low: int, high: int)
    requires rest == low + high
    ensures bit + 2 * rest == (bit + 2 * low) + 2 * high
  {
  }

  lemma UnsignedFirst(x: seq<bool>)
    requires x != []
    ensures Unsigned(x) == (if x[0] then 1 else 0) + 2 * Unsigned(x[1..])
  {
  }

  lemma Doubled(n: nat, y: int)
    requires n > 0
    ensures Pow2(n) == 2 * Pow2(n - 1) && Pow2(n) * y == 2 * (Pow2(n - 1) * y)
  {
    Associate(Pow2(n - 1), y);
  }

  lemma Associate(a: int, y: int)
    ensures (2 * a) * y == 2 * (a * y)
  {
  }

  lemma AtLeast(m: int, k: int)
    requires m >= 0
    ensures k >= 1 ==> m * k >= m
    ensures k <= -1 ==> m * k <= -m
  {
    if k >= 1 {
      assert m * k == m + m * (k - 1);
    } else if k <= -1 {
      assert m * k == -m + m * (k + 1);
      assert m * (k + 1) <= 0;
    }
  }

  lemma RemainderIs(x: int, m: nat, q: int, r: nat)
    requires r < m && x == m * q + r
    ensures x % m == r
  {
    var d := x / m;
    assert x == m * d + x % m;
    assert m * (q - d) == m * q - m * d;
    AtLeast(m, q - d);
  }

  lemma {:induction false} UnsignedExtended(x: seq<bool>, n: nat, sign: bool)
    requires n <= |x| && forall k :: n <= k < |x| ==> x[k] == sign
    ensures Unsigned(x) == Unsigned(x[..n]) + if sign then Pow2(|x|) - Pow2(n) else 0
  {
    if n == |x| {
      assert x[..n] == x;
    } else if n == 0 {
      UnsignedExtended(x[1..], 0, sign);
      assert x[..0] == [] && x[1..][..0] == [];
    } else {
      assert x[1..][..n - 1] == x[..n][1..];
      UnsignedExtended(x[1..], n - 1, sign);
    }
  }

  lemma {:induction false} PowerSplit(n: nat, m: nat)
    requires n <= m
    ensures Pow2(m) == Pow2(n) * Pow2(m - n) && Pow2(n) > 0
  {
    if n > 0 {
      PowerSplit(n - 1, m - 1);
      assert 2 * (Pow2(n - 1) * Pow2(m - n)) == Pow2(n) * Pow2(m - n);
    } else {
      assert Pow2(0) * Pow2(m) == Pow2(m);
    }
  }

  lemma {:induction false} PowerPositive(n: nat)
    ensures Pow2(n) > 0
  {
    if n > 0 {
      PowerPositive(n - 1);
    }
  }

  /** v reduced to n bits, as a two's complement number if `sign` says so. */
  function Reduced(v: int, n: nat, sign: bool): int {
    PowerPositive(n);
    v % Pow2(n) - if sign then Pow2(n) else 0
  }

  lemma Distribute(m: int, a: int, h: int)
    ensures m * (a - h) == m * a - m * h
  {
  }

  lemma LowBitsAreRemainder(x: Word, n: nat)
    requires n <= 32
    ensures Unsigned(x[..n]) == Reduced(Value(x), n, false)
  {
    hide Unsigned, Pow2;
    UnsignedSplit(x, n);
    PowerSplit(n, 32);
    var m, rest, high := Pow2(n), Unsigned(x[n..]), if x[31] then Pow2(32 - n) else 0;
    Distribute(m, rest, high);
    assert m * high == if x[31] then Pow2(32) else 0;
    RemainderIs(Value(x), m, rest - high, Unsigned(x[..n]));
  }

  /** The value of a word that holds `size` bits of x, sign-extended if asked. */
  lemma FieldValue(x: Word, data: Word, size: nat, negative: bool)
    requires size <= 31
    requires forall k :: 0 <= k < size ==> data[k] == x[k]
    requires forall k :: size <= k < 32 ==> data[k] == (negative && size > 0 && x[size - 1])
    ensures Value(data) == Reduced(Value(x), size, negative && size > 0 && x[size - 1])
  {
    assert data[..size] == x[..size];
    LowBitsAreRemainder(x, size);
    UnsignedExtended(data, size, negative && size > 0 && x[size - 1]);
  }

  /**
   Writing a field and reading it back gives the value reduced to the field, as a signed number if
   negatives are allowed.
   */
  method RoundTrip(buf: array<Byte>, pos: nat, size: nat, negative: bool, value: Word) returns (data: Word)
    requires FieldFits(buf[..], pos, size)
    modifies buf
    ensures Value(data) == Reduced(Value(value), size, negative && size > 0 && value[size - 1])
  {
    SetData(buf, pos, size, value);
    data := GetData(buf, pos, size, negative);
    FieldValue(value, data, size, negative);
  }

  predicate Apart(pos: nat, size: nat, pos': nat, size': nat) {
    pos + size <= pos' || pos' + size' <= pos
  }

  /** Writing one field leaves what is read from any other field as it was. */
  method WriteApart(buf: array<Byte>, pos: nat, size: nat, value: Word, pos': nat, size': nat, negative: bool)
    returns (before: Word, after: Word)
    requires FieldFits(buf[..], pos, size) && FieldFits(buf[..], pos', size') && Apart(pos, size, pos', size')
    modifies buf
    ensures before == after
  {
    before := GetData(buf, pos', size', negative);
    SetData(buf, pos, size, value);
    after := GetData(buf, pos', size', negative);
  }
}
