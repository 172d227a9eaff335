/**
 Streaming SHA-256: however the input is cut into update calls, the digest is the block fold of
 the message padded as section 5.1.1 of FIPS 180-4 says. The compression step of section 6.2.2
 is a parameter.
 */
module Sha256 {
  import opened Prelude
  import opened Words

  const BLOCK: nat := 64
  const TWO64: int := 0x1_0000_0000_0000_0000

  datatype Hash = Hash(a: u32, b: u32, c: u32, d: u32, e: u32, f: u32, g: u32, h: u32)

  type Compress = (Hash, seq<u8>) -> Hash

  /** The hash after every whole block of `message`. */
  function Folded(step: Compress, initial: Hash, message: seq<u8>): Hash
    decreases |message|
  {
    if |message| < BLOCK then initial
    else Folded(step, step(initial, message[..BLOCK]), message[BLOCK..])
  }

  function Zeros(n: nat): (r: seq<u8>)
    ensures |r| == n
  {
    seq(n, _ => 0)
  }

  /** The low `n` bytes of a number, most significant first. */
  function BigEndian(value: nat, n: nat): (r: seq<u8>)
    ensures |r| == n
    decreases n
  {
    if n == 0 then [] else BigEndian(value / 256, n - 1) + [value % 256]
  }

  /** The least number of zero bytes that leaves room for the length in the last block. */
  function ZeroCount(length: nat): (k: nat)
    ensures k < BLOCK && (length + 1 + k) % BLOCK == 56
  {
    var used := length % BLOCK;
    if used < 56 then 55 - used else 119 - used
  }

  /** Eight bits a byte, on 64 bits. */
  function BitLength(length: nat): nat {
    8 * length % TWO64
  }

  /** The message, a one bit, zeros, and the bit length. */
  function Padded(message: seq<u8>): seq<u8> {
    message + [0x80] + Zeros(ZeroCount(|message|)) + BigEndian(BitLength(|message|), 8)
  }

  /** Byte `i` of a padded message: the message, 0x80, zeros, and eight bytes of bit length, highest
      first, ending on the first block boundary that leaves room for them. */
  lemma PaddedByte(message: seq<u8>, i: nat)
    requires i < |Padded(message)|
    ensures var p, n := Padded(message), |message|;
            && |p| % 64 == 0 && n + 9 <= |p| < n + 9 + 64
            && p[i] == if i < n then message[i] else if i == n then 0x80 else if i < |p| - 8 then 0
                       else BigEndian(8 * n % 0x1_0000_0000_0000_0000, 8)[i - (|p| - 8)]
  {
    var n, zeros, length := |message|, Zeros(ZeroCount(|message|)), BigEndian(BitLength(|message|), 8);
    PaddedLength(n);
    hide ZeroCount, BigEndian;
    assert forall k :: 0 <= k < |zeros| ==> zeros[k] == 0;
    hide Zeros;
    Parts(message, zeros, length, i);
  }

  lemma PaddedLength(n: nat)
    ensures (n + 9 + ZeroCount(n)) % 64 == 0 && ZeroCount(n) < 64
  {
  }

  lemma Parts(message: seq<u8>, zeros: seq<u8>, length: seq<u8>, i: nat)
    requires i < |message| + 1 + |zeros| + |length|
    ensures var n := |message|;
            (message + [0x80] + zeros + length)[i]
            == if i < n then message[i] else if i == n then 0x80 else if i < n + 1 + |zeros| then zeros[i - n - 1]
               else length[i - n - 1 - |zeros|]
  {
  }

  function Output(h: Hash): seq<u8> {
    BigEndian(h.a, 4) + BigEndian(h.b, 4) + BigEndian(h.c, 4) + BigEndian(h.d, 4)
    + BigEndian(h.e, 4) + BigEndian(h.f, 4) + BigEndian(h.g, 4) + BigEndian(h.h, 4)
  }

  // ---------------------------------------------------------------- folding in pieces

  /** The part of a message that does not fill a block. */
  function Tail(message: seq<u8>): (t: seq<u8>)
    ensures |t| < BLOCK
    decreases |message|
  {
    if |message| < BLOCK then message else Tail(message[BLOCK..])
  }

  /** Adding bytes that do not complete a block changes only the tail; completing one folds it. */
  lemma {:induction false} FoldAppends(step: Compress, initial: Hash, message: seq<u8>, more: seq<u8>)
    requires |Tail(message)| + |more| <= BLOCK
    ensures |Tail(message)| + |more| < BLOCK ==>
              Tail(message + more) == Tail(message) + more
              && Folded(step, initial, message + more) == Folded(step, initial, message)
    ensures |Tail(message)| + |more| == BLOCK ==>
              Tail(message + more) == []
              && Folded(step, initial, message + more)
                 == step(Folded(step, initial, message), Tail(message) + more)
    decreases |message|
  {
    if |message| < BLOCK {
      if |message| + |more| == BLOCK {
        assert (message + more)[..BLOCK] == message + more;
        assert (message + more)[BLOCK..] == [];
      }
    } else {
      assert (message + more)[..BLOCK] == message[..BLOCK];
      assert (message + more)[BLOCK..] == message[BLOCK..] + more;
      FoldAppends(step, step(initial, message[..BLOCK]), message[BLOCK..], more);
    }
  }

  lemma {:induction false} TailLength(message: seq<u8>)
    ensures |Tail(message)| == |message| % BLOCK
    decreases |message|
  {
    if |message| >= BLOCK {
      TailLength(message[BLOCK..]);
    }
  }

  // ---------------------------------------------------------------- the streaming object

  class Streaming {
    const step: Compress
    const initial: Hash
    const buffer: array<u8>
    var bufferLength: nat
    var totalLength: nat
    var state: Hash
    /** Everything passed to update so far. */
    ghost var message: seq<u8>

    ghost predicate Valid()
      reads this, buffer
    {
      Buffered() && totalLength == |message| % TWO64
    }

    /** The state covers the whole blocks of the message and the buffer holds the rest. */
    ghost predicate Buffered()
      reads this, buffer
    {
      && buffer.Length == BLOCK && bufferLength < BLOCK
      && buffer[..bufferLength] == Tail(message)
      && state == Folded(step, initial, message)
    }

    constructor (step: Compress, initial: Hash)
      ensures Valid() && fresh(buffer) && message == [] && totalLength == 0
      ensures this.step == step && this.initial == initial
    {
      this.step, this.initial := step, initial;
      buffer := new u8[BLOCK](_ => 0);
      bufferLength, totalLength := 0, 0;
      state := initial;
      message := [];
    }

    /** memcpy into the buffer */
    method Copy(data: seq<u8>, from: nat, take: nat)
      requires buffer.Length == BLOCK && from + take <= |data| && bufferLength + take <= BLOCK
      modifies buffer
      ensures buffer[..bufferLength] == old(buffer[..bufferLength])
      ensures buffer[bufferLength..bufferLength + take] == data[from..from + take]
    {
      for i := 0 to take
        invariant forall k :: 0 <= k < bufferLength ==> buffer[k] == old(buffer[k])
        invariant forall k :: bufferLength <= k < bufferLength + i ==> buffer[k] == data[from + k - bufferLength]
      {
        buffer[bufferLength + i] := data[from + i];
      }
    }

    /** One turn of update's loop: fills the buffer as far as the data goes, and compresses a full one. */
    method Absorb(data: seq<u8>, from: nat) returns (done: nat)
      requires Buffered() && from < |data|
      modifies this`bufferLength, this`state, this`message, buffer
      ensures Buffered() && from < done <= |data| && message == old(message) + data[from..done]
    {
      hide Tail, Folded;
      var take := Min(|data| - from, BLOCK - bufferLength);
      Copy(data, from, take);
      done := from + take;
      ghost var piece := data[from..done];
      FoldAppends(step, initial, message, piece);
      assert buffer[..bufferLength + take] == buffer[..bufferLength] + buffer[bufferLength..bufferLength + take];
      assert buffer[..bufferLength + take] == Tail(message) + piece;
      message := message + piece;
      bufferLength := bufferLength + take;
      if bufferLength == BLOCK {
        assert buffer[..] == buffer[..bufferLength];
        state := step(state, buffer[..]);
        bufferLength := 0;
      }
    }

    /** update: the total counts on 64 bits. */
    method Update(data: seq<u8>)
      requires Valid()
      modifies this`bufferLength, this`totalLength, this`state, this`message, buffer
      ensures Valid() && message == old(message) + data
    {
      hide Tail, Folded;
      totalLength := (totalLength + |data|) % TWO64;
      ghost var total := totalLength;
      CountsJoin(|message|, |data|);
      var done := 0;
      while done < |data|
        invariant 0 <= done <= |data| && Buffered() && totalLength == total
        invariant message == old(message) + data[..done]
      {
        ghost var before := data[..done];
        var next := Absorb(data, done);
        assert data[..next] == before + data[done..next];
        done := next;
      }
      assert data[..done] == data;
    }

    /** digest */
    method Digest() returns (out: seq<u8>)
      requires Valid()
      modifies this`bufferLength, this`totalLength, this`state, this`message, buffer
      ensures out == Output(Folded(step, initial, Padded(old(message))))
    {
      hide Tail, Folded, BigEndian, BitLength;
      var bitLength := totalLength * 8 % TWO64;
      ghost var start := message;
      Update([0x80]);
      ghost var zeros: nat := 0;
      TailLength(message);
      while bufferLength != 56
        invariant Valid() && zeros <= ZeroCount(|start|)
        invariant message == start + [0x80] + Zeros(zeros) && |Tail(message)| == |message| % BLOCK
        decreases ZeroCount(|start|) - zeros
      {
        assert zeros != ZeroCount(|start|);
        Update([0x00]);
        zeros := zeros + 1;
        TailLength(message);
        assert Zeros(zeros) == Zeros(zeros - 1) + [0x00];
      }
      FirstFit(|start|, zeros);
      var lengthBytes := BigEndian(bitLength, 8);
      SameLength(|start|);
      Copy(lengthBytes, 0, 8);
      FoldAppends(step, initial, message, lengthBytes);
      assert buffer[..] == Tail(message) + lengthBytes;
      state := step(state, buffer[..]);
      bufferLength := 0;
      out := Output(state);
    }
  }

  lemma CountsJoin(a: nat, b: nat)
    ensures (a % TWO64 + b) % TWO64 == (a + b) % TWO64
  {
    var q := a / TWO64;
    assert a + b == TWO64 * q + (a % TWO64 + b);
    DivModUnique(a + b, TWO64, q + (a % TWO64 + b) / TWO64, (a % TWO64 + b) % TWO64);
  }

  /** The first count of zeros that leaves 56 bytes in the block is the padding's. */
  lemma FirstFit(length: nat, zeros: nat)
    requires zeros <= ZeroCount(length) && (length + 1 + zeros) % BLOCK == 56
    ensures zeros == ZeroCount(length)
  {
  }

  /** Counting bytes on 64 bits first makes no difference to the bit length. */
  lemma SameLength(length: nat)
    ensures length % TWO64 * 8 % TWO64 == BitLength(length)
  {
    var q, r := length / TWO64, length % TWO64;
    assert 8 * length == TWO64 * (8 * q) + 8 * r;
    DivModUnique(8 * length, TWO64, 8 * q + 8 * r / TWO64, 8 * r % TWO64);
  }

  // ---------------------------------------------------------------- the padding

  /** Numbers that fit are told apart by their bytes. */
  lemma {:induction false} BigEndianIsInjective(x: nat, y: nat, n: nat)
    requires x < Power(8 * n) && y < Power(8 * n) && BigEndian(x, n) == BigEndian(y, n)
    ensures x == y
    decreases n
  {
    if n > 0 {
      var a, b := BigEndian(x, n), BigEndian(y, n);
      assert a[n - 1] == x % 256 && b[n - 1] == y % 256;
      assert a[..n - 1] == BigEndian(x / 256, n - 1) && b[..n - 1] == BigEndian(y / 256, n - 1);
      PowerStep(8 * (n - 1));
      assert 8 * (n - 1) + 8 == 8 * n;
      hide Power, BigEndian;
      BigEndianIsInjective(x / 256, y / 256, n - 1);
    }
  }

  /** The padded message is whole blocks, with less than two blocks added. */
  lemma PaddedFillsBlocks(message: seq<u8>)
    ensures |Padded(message)| % BLOCK == 0 && |message| + 9 <= |Padded(message)| < |message| + 9 + BLOCK
  {
    hide ZeroCount, BigEndian, BitLength;
    EightMore(|message| + 1 + ZeroCount(|message|));
  }

  lemma EightMore(total: nat)
    requires total % BLOCK == 56
    ensures (total + 8) % BLOCK == 0
  {
  }

  lemma LengthAtEnd(message: seq<u8>)
    ensures var p := Padded(message);
            |p| >= 8 + |message| && p[|p| - 8..] == BigEndian(BitLength(|message|), 8) && p[..|message|] == message
  {
    hide BigEndian, BitLength, ZeroCount;
  }

  /** Padding loses nothing: messages the standard admits pad alike only when they are the same. */
  lemma PaddingIsInjective(a: seq<u8>, b: seq<u8>)
    requires 8 * |a| < TWO64 && 8 * |b| < TWO64 && Padded(a) == Padded(b)
    ensures a == b
  {
    LengthAtEnd(a);
    LengthAtEnd(b);
    hide Padded, BigEndian;
    Powers();
    BigEndianIsInjective(8 * |a|, 8 * |b|, 8);
  }
}
