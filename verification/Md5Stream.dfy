/** The streaming MD5 state: md5_init, md5_append for pieces of any size, and md5_finish. */
module Md5Stream {
  import opened Md5Reference
  import opened Md5Block

  const TWO32: nat := 0x1_0000_0000

  /** The part of a message of n bytes that fills whole blocks. */
  function Full(n: nat): nat {
    n - n % 64
  }

  /** The two count words hold eight times n, modulo 2^64. */
  predicate Counts(count0: nat, count1: nat, n: nat) {
    count0 < TWO32 && count1 < TWO32 && count0 + TWO32 * count1 == (8 * n) % TWO64
  }

  lemma OffsetFromCount(count0: nat, count1: nat, n: nat)
    requires Counts(count0, count1, n)
    ensures count0 / 8 % 64 == n % 64
  {
    var k := count1 + TWO32 * (8 * n / TWO64);
    assert 8 * n == count0 + TWO32 * k;
    assert count0 == 8 * (n - 0x2000_0000 * k);
    SameRemainder(n, count0 / 8, 0x80_0000 * k);
  }

  lemma SameRemainder(n: int, m: int, k: int)
    requires n == m + 64 * k
    ensures n % 64 == m % 64
  {
  }

  /** The count words after `more` bytes: the low word wraps, and its wrapping carries. */
  function NewCount0(count0: nat, more: nat): nat {
    (count0 + (8 * more) % TWO32) % TWO32
  }

  function NewCount1(count0: nat, count1: nat, more: nat): nat {
    var carry := if NewCount0(count0, more) < (8 * more) % TWO32 then 1 else 0;
    (count1 + more / 0x2000_0000 + carry) % TWO32
  }

  lemma CountsAdvance(count0: nat, count1: nat, n: nat, more: nat)
    requires Counts(count0, count1, n)
    ensures Counts(NewCount0(count0, more), NewCount1(count0, count1, more), n + more)
  {
    var low := (8 * more) % TWO32;
    var carry := if NewCount0(count0, more) < low then 1 else 0;
    var high := count1 + more / 0x2000_0000 + carry;
    LowPart(more);
    CarryIsRight(count0, low);
    assert NewCount0(count0, more) + TWO32 * high == (8 * n) % TWO64 + 8 * more;
    SplitModulo(NewCount0(count0, more), high);
    AddModulo(8 * n, 8 * more);
  }

  lemma LowPart(more: nat)
    ensures 8 * more == (8 * more) % TWO32 + TWO32 * (more / 0x2000_0000)
  {
  }

  /** Unsigned addition wrapped exactly when the result is below the operand. */
  lemma CarryIsRight(count0: nat, low: nat)
    requires count0 < TWO32 && low < TWO32
    ensures count0 + low == (count0 + low) % TWO32 + TWO32 * (if (count0 + low) % TWO32 < low then 1 else 0)
  {
  }

  lemma AddModulo(x: nat, y: nat)
    ensures (x % TWO64 + y) % TWO64 == (x + y) % TWO64
  {
    var q, z := x / TWO64, x % TWO64 + y;
    assert x + y == TWO64 * (q + z / TWO64) + z % TWO64;
  }

  lemma SplitModulo(low: nat, high: nat)
    requires low < TWO32
    ensures (low + TWO32 * high) % TWO64 == low + TWO32 * (high % TWO32)
  {
    var q := high / TWO32;
    assert low + TWO32 * high == low + TWO32 * (high % TWO32) + TWO64 * q;
  }

  /** One more full block of the message. */
  lemma BlocksStep(m: seq<Byte>, done: nat)
    requires done % 64 == 0 && done + 64 <= |m|
    ensures Blocks(INITIAL, m[..done + 64]) == Process(Blocks(INITIAL, m[..done]), m[done..done + 64])
  {
    hide Process;
    var block := m[done..done + 64];
    assert m[..done + 64] == m[..done] + block;
    BlocksAppend(INITIAL, m[..done], block);
    assert block[..64] == block && block[64..] == [];
  }

  /** r is what processing the first `done` bytes of m, whole blocks, leaves in the registers. */
  ghost predicate Processed(r: Registers, m: seq<Byte>, done: nat) {
    done <= |m| && done % 64 == 0 && r == Blocks(INITIAL, m[..done])
  }

  lemma ProcessedNext(r: Registers, m: seq<Byte>, done: nat, block: seq<Byte>)
    requires Processed(r, m, done) && done + 64 <= |m| && block == m[done..done + 64]
    ensures Processed(Process(r, block), m, done + 64)
  {
    hide Blocks, Process;
    BlocksStep(m, done);
  }

  lemma CarryTwice(x: nat)
    ensures (x % TWO32 + 1) % TWO32 == (x + 1) % TWO32
  {
  }

  const TWO31: nat := 0x8000_0000

  /** The sum of two ints as it wraps around. */
  function WrappedSum(x: int, y: int): int {
    var low := (x + y) % TWO32;
    if low < TWO31 then low else low - TWO32
  }

  /** How much of a piece is copied behind the `offset` bytes of a block that was begun. */
  function PartialCopy(offset: nat, nbytes: nat): nat {
    if offset <= 64 && WrappedSum(offset, nbytes) > 64 then 64 - offset else nbytes
  }

  /** The copy stays inside the 64-byte buffer if and only if the offset and the length add up to an int. */
  lemma CopyFits(offset: nat, nbytes: nat)
    requires 0 < offset < 64 && 0 < nbytes < TWO31
    ensures offset + PartialCopy(offset, nbytes) <= 64 <==> offset + nbytes < TWO31
    ensures offset + nbytes < TWO31 ==>
      PartialCopy(offset, nbytes) == if offset + nbytes > 64 then 64 - offset else nbytes
  {
  }

  /** A piece too small to complete the block that was begun. */
  lemma StillPartial(message: seq<Byte>, data: seq<Byte>)
    requires |message| % 64 + |data| < 64
    ensures var n, m := |message|, message + data;
      && Full(|m|) == Full(n) && m[..Full(n)] == message[..Full(n)]
      && m[Full(n)..] == message[Full(n)..] + data && |m| % 64 == n % 64 + |data|
  {
  }

  /** The head of a piece completes the block that was begun. */
  lemma BlockCompleted(message: seq<Byte>, data: seq<Byte>)
    requires 0 < |message| % 64 && 64 <= |message| % 64 + |data|
    ensures var n, m, copy := |message|, message + data, 64 - |message| % 64;
      && Full(n) + 64 == n + copy <= |m| && m[..Full(n)] == message[..Full(n)]
      && m[Full(n)..Full(n) + 64] == message[Full(n)..] + data[..copy]
  {
  }

  /** What is left over after the last full block. */
  lemma LeftOver(m: seq<Byte>, done: nat)
    requires done % 64 == 0 && done <= |m| < done + 64
    ensures Full(|m|) == done && |m| % 64 == |m| - done
  {
  }

  const PAD: seq<Byte> := [0x80] + seq(63, _ => 0)

  lemma PadLength(count0: nat, n: nat)
    requires count0 / 8 % 64 == n % 64
    ensures (55 - count0 / 8) % 64 == Zeros(n)
    ensures PAD[..Zeros(n) + 1] == [0x80] + seq(Zeros(n), _ => 0)
  {
    SameRemainder(55 - count0 / 8, 55 - n, n / 64 - count0 / 8 / 64);
    assert PAD[..Zeros(n) + 1] == [0x80] + PAD[1..][..Zeros(n)];
  }

  lemma PaddingInTwo(message: seq<Byte>, pad: seq<Byte>, data: seq<Byte>)
    requires pad == [0x80] + seq(Zeros(|message|), _ => 0) && data == LengthBytes(|message|)
    ensures message + pad + data == message + Padding(|message|)
    ensures |message + pad + data| % 64 == 0
  {
    PaddingIsRight(|message|);
  }

  /** Byte i of the two count words, low-order byte first. */
  function CountsByte(count0: nat, count1: nat, i: nat): Byte
    requires i < 8
  {
    (([count0, count1][i / 4] / Power256(i % 4)) % 256) as Byte
  }

  lemma CountByte(count0: nat, count1: nat, n: nat, i: nat)
    requires i < 8 && Counts(count0, count1, n)
    ensures CountsByte(count0, count1, i) == LengthBytes(n)[i]
  {
    var v := (8 * n) % TWO64;
    if i >= 4 {
      assert v / TWO32 == count1;
      assert v / Power256(i) == count1 / Power256(i - 4);
    } else {
      assert v % TWO32 == count0;
      LowByte(v, i);
    }
  }

  lemma LowByte(v: nat, i: nat)
    requires i < 4
    ensures (v / Power256(i)) % 256 == (v % TWO32 / Power256(i)) % 256
  {
    var low, q := v % TWO32, v / TWO32;
    match i {
      case 0 => SameByte(low, 0x100_0000 * q, v);
      case 1 => SameByte(low / 0x100, 0x1_0000 * q, v / 0x100);
      case 2 => SameByte(low / 0x1_0000, 0x100 * q, v / 0x1_0000);
      case _ => SameByte(low / 0x100_0000, q, v / 0x100_0000);
    }
  }

  lemma SameByte(low: nat, q: nat, v: nat)
    requires v == low + 256 * q
    ensures v % 256 == low % 256
  {
  }

  class Md5State {
    var count0: nat
    var count1: nat
    var abcd: Registers
    const buf: array<Byte>
    ghost var message: seq<Byte>

    ghost predicate Valid()
      reads this, buf
    {
      var n := |message|;
      && buf.Length == 64
      && Counts(count0, count1, n)
      && abcd == Blocks(INITIAL, message[..Full(n)])
      && buf[..n % 64] == message[Full(n)..]
    }

    constructor ()
      ensures Valid() && message == [] && fresh(buf)
    {
      count0, count1 := 0, 0;
      abcd := Registers(0x67452301, T_MASK ^ 0x10325476, T_MASK ^ 0x67452301, 0x10325476);
      buf := new Byte[64];
      message := [];
    }

    method CopyIn(offset: nat, data: seq<Byte>)
      requires offset + |data| <= buf.Length
      modifies buf
      ensures buf[..] == old(buf[..offset]) + data + old(buf[offset + |data|..])
    {
      for k := 0 to |data|
        invariant buf[..] == old(buf[..offset]) + data[..k] + old(buf[offset + k..])
      {
        buf[offset + k] := data[k];
      }
    }

    /** Adds to the message length, kept as a 64-bit number of bits in two words. */
    method UpdateLength(nbytes: nat, ghost n: nat)
      requires Counts(count0, count1, n)
      modifies `count0, `count1
      ensures Counts(count0, count1, n + nbytes)
    {
      hide Counts;
      CountsAdvance(count0, count1, n, nbytes);
      CarryTwice(count1 + nbytes / 0x2000_0000);
      var nbits := (8 * nbytes) % TWO32;
      count1 := (count1 + nbytes / 0x2000_0000) % TWO32;
      count0 := (count0 + nbits) % TWO32;
      if count0 < nbits {
        count1 := (count1 + 1) % TWO32;
      }
    }

    /** The invariant spelled out. */
    lemma Unfold()
      requires Valid()
      ensures buf.Length == 64 && Counts(count0, count1, |message|)
      ensures abcd == Blocks(INITIAL, message[..Full(|message|)])
      ensures buf[..|message| % 64] == message[Full(|message|)..]
    {
    }

    /** The other way round. */
    lemma Fold()
      requires buf.Length == 64 && Counts(count0, count1, |message|)
      requires abcd == Blocks(INITIAL, message[..Full(|message|)])
      requires buf[..|message| % 64] == message[Full(|message|)..]
      ensures Valid()
    {
    }

    /** md5_append.  The offset and the length of the piece are added as ints, and the sum must fit one. */
    method Append(data: seq<Byte>)
      requires Valid() && |message| % 64 + |data| < TWO31
      modifies this, buf
      ensures Valid() && message == old(message) + data
    {
      hide *;
      if data == [] {
        assert message == old(message) + data;
        return;
      }
      Unfold();
      ghost var n, m := |message|, message + data;
      OffsetFromCount(count0, count1, n);
      var offset := (count0 / 8) % 64;
      UpdateLength(|data|, n);
      var p := 0;
      if offset != 0 {
        CopyFits(offset, |data|);
        var copy := PartialCopy(offset, |data|);
        if offset + copy < 64 {
          CopyIn(offset, data);
          StillPartial(message, data);
          assert buf[..offset + |data|] == old(buf[..offset]) + data;
          message := m;
          Fold();
          return;
        }
        CompleteBlock(data, offset, copy);
        p := copy;
      } else {
        WholeBlocks(data);
      }
      p := ProcessFullBlocks(data, p, m, n);
      message := m;
      KeepRest(data, p, n);
    }

    lemma WholeBlocks(data: seq<Byte>)
      requires |message| % 64 == 0 && abcd == Blocks(INITIAL, message[..Full(|message|)])
      ensures Processed(abcd, message + data, |message|)
    {
      assert (message + data)[..|message|] == message[..Full(|message|)];
    }

    /** Copies what is left of the data to the front of the block buffer. */
    method KeepRest(data: seq<Byte>, p: nat, ghost n: nat)
      requires buf.Length == 64 && p <= |data| < p + 64 && |message| == n + |data| && message[n..] == data
      requires Counts(count0, count1, |message|) && Processed(abcd, message, n + p)
      modifies buf
      ensures Valid()
    {
      hide Counts, Blocks;
      if p < |data| {
        CopyIn(0, data[p..]);
      }
      LeftOver(message, n + p);
      assert buf[..|data| - p] == data[p..] == message[n + p..];
    }

    /** Fills the block that was begun, and processes it. */
    method CompleteBlock(data: seq<Byte>, offset: nat, copy: nat)
      requires buf.Length == 64 && 0 < offset == |message| % 64 && offset + copy == 64 && copy <= |data|
      requires abcd == Blocks(INITIAL, message[..Full(|message|)])
      requires buf[..offset] == message[Full(|message|)..]
      modifies buf, `abcd
      ensures Processed(abcd, message + data, |message| + copy)
    {
      hide Blocks, Process;
      ghost var n, m := |message|, message + data;
      BlockCompleted(message, data);
      CopyIn(offset, data[..copy]);
      assert buf[..] == m[Full(n)..Full(n) + 64];
      BlocksStep(m, Full(n));
      abcd := ProcessBlock(abcd, buf[..]);
    }

    /** Processes whole blocks straight from the data. */
    method ProcessFullBlocks(data: seq<Byte>, start: nat, ghost m: seq<Byte>, ghost n: nat) returns (p: nat)
      requires |m| == n + |data| && m[n..] == data && start <= |data| && Processed(abcd, m, n + start)
      modifies `abcd
      ensures start <= p <= |data| < p + 64 && Processed(abcd, m, n + p)
    {
      hide *;
      p := start;
      while |data| - p >= 64
        invariant start <= p <= |data| && Processed(abcd, m, n + p)
      {
        assert data[p..p + 64] == m[n + p..n + p + 64];
        ProcessedNext(abcd, m, n + p, data[p..p + 64]);
        abcd := ProcessBlock(abcd, data[p..p + 64]);
        p := p + 64;
      }
    }

    /** md5_finish: pads the message to a full block and reads the digest off the registers. */
    method Finish() returns (digest: seq<Byte>)
      requires Valid()
      modifies this, buf
      ensures digest == Md5(old(message))
    {
      hide Counts, Blocks, Process, Output;
      PadMessage();
      Unfold();
      assert message[..Full(|message|)] == message;
      digest := Encode();
    }

    /** Appends the padding and the length, completing the last block. */
    method PadMessage()
      requires Valid()
      modifies this, buf
      ensures Valid() && message == old(message) + Padding(|old(message)|) && |message| % 64 == 0
    {
      hide Counts, Blocks, Process, LengthBytes, Padding;
      ghost var n := |message|;
      Unfold();
      var data := CountBytes(n);
      OffsetFromCount(count0, count1, n);
      PadLength(count0, n);
      var pad := PAD[..(55 - count0 / 8) % 64 + 1];
      Append(pad);
      Append(data);
      PaddingInTwo(old(message), pad, data);
    }

    /** The registers, low-order byte first. */
    method Encode() returns (digest: seq<Byte>)
      ensures digest == Output(abcd)
    {
      hide WordByte, Register, Blocks, Process, Counts;
      digest := [];
      for i := 0 to 16
        invariant digest == Output(abcd)[..i]
      {
        digest := digest + [WordByte(Register(abcd, i / 4), i % 4)];
      }
    }

    /** The length before padding, low-order byte first. */
    method CountBytes(ghost n: nat) returns (data: seq<Byte>)
      requires Counts(count0, count1, n)
      ensures data == LengthBytes(n)
    {
      hide Counts, LengthBytes, CountsByte;
      data := [];
      for i := 0 to 8
        invariant data == LengthBytes(n)[..i]
      {
        CountByte(count0, count1, n, i);
        data := data + [CountsByte(count0, count1, i)];
      }
    }
  }

  function Concat(pieces: seq<seq<Byte>>): seq<Byte> {
    if pieces == [] then [] else Concat(pieces[..|pieces| - 1]) + pieces[|pieces| - 1]
  }

  /** However a message is cut into pieces that md5_append can take, the digest is that of the whole. */
  method DigestPieces(pieces: seq<seq<Byte>>) returns (digest: seq<Byte>)
    requires forall k :: 0 <= k < |pieces| ==> |Concat(pieces[..k])| % 64 + |pieces[k]| < TWO31
    ensures digest == Md5(Concat(pieces))
  {
    hide Md5;
    var state := new Md5State();
    for k := 0 to |pieces|
      invariant state.Valid() && fresh(state) && fresh(state.buf)
      invariant state.message == Concat(pieces[..k])
    {
      assert pieces[..k + 1][..k] == pieces[..k];
      state.Append(pieces[k]);
    }
    assert pieces[..|pieces|] == pieces;
    digest := state.Finish();
  }
}
