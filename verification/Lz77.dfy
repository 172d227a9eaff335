/**
 The LZ77 decoder behind the decompression calls. The reference form is a list of tokens and its
 serialisation in groups of eight behind a flag byte; decoding undoes serialisation, and whatever
 decodes is the serialisation of a token list.
 */
module Lz77 {
  import opened Prelude
  import opened Words

  const HEADER_TYPE: u8 := 0x10

  /** The bytes the bus can read. */
  type Memory = map<u32, u8>

  datatype Token = Literal(value: u8) | Copy(length: nat, displacement: nat)

  datatype Decoded = Decoded(output: seq<u8>, sourceEnd: u32)

  function Advance(address: u32, n: nat): u32 {
    (address + n) % TWO32
  }

  function Read8(memory: Memory, address: u32): Option<u8> {
    if address in memory then Some(memory[address]) else None
  }

  // ---------------------------------------------------------------- tokens and their bytes

  /** A token that fits the format and refers no further back than the output goes. */
  predicate ValidToken(t: Token, produced: nat) {
    t.Copy? ==> 3 <= t.length <= 18 && 1 <= t.displacement <= 4096 && t.displacement <= produced
  }

  /** `n` bytes, each repeating the one `d` places before it. */
  function CopyBack(output: seq<u8>, d: nat, n: nat): (r: seq<u8>)
    requires 1 <= d <= |output|
    ensures |r| == |output| + n
    decreases n
  {
    if n == 0 then output
    else
      var shorter := CopyBack(output, d, n - 1);
      shorter + [shorter[|shorter| - d]]
  }

  function Apply(output: seq<u8>, t: Token): (r: seq<u8>)
    requires ValidToken(t, |output|)
    ensures |r| == |output| + TokenLength(t) && |r| > |output|
  {
    match t
    case Literal(value) => output + [value]
    case Copy(length, displacement) => CopyBack(output, displacement, length)
  }

  function TokenLength(t: Token): nat {
    match t
    case Literal(_) => 1
    case Copy(length, _) => length
  }

  predicate ValidTokens(tokens: seq<Token>, output: seq<u8>)
    decreases |tokens|
  {
    tokens == [] || (ValidToken(tokens[0], |output|) && ValidTokens(tokens[1..], Apply(output, tokens[0])))
  }

  /** What the tokens stand for, appended to `output`. */
  function Expansion(tokens: seq<Token>, output: seq<u8>): (r: seq<u8>)
    requires ValidTokens(tokens, output)
    ensures |r| >= |output|
    decreases |tokens|
  {
    if tokens == [] then output else Expansion(tokens[1..], Apply(output, tokens[0]))
  }

  function TokenBytes(t: Token): (r: seq<u8>)
    requires ValidToken(t, 4096)
  {
    match t
    case Literal(value) => [value]
    case Copy(length, displacement) =>
      [(length - 3) * 16 + (displacement - 1) / 256, (displacement - 1) % 256]
  }

  predicate Encodable(tokens: seq<Token>) {
    forall i :: 0 <= i < |tokens| ==> ValidToken(tokens[i], 4096)
  }

  function Bytes(tokens: seq<Token>): seq<u8>
    requires Encodable(tokens)
    decreases |tokens|
  {
    if tokens == [] then [] else TokenBytes(tokens[0]) + Bytes(tokens[1..])
  }

  /** Most significant bit first, 1 for a copy. */
  function FlagBits(group: seq<Token>): (r: nat)
    ensures r < Power(|group|)
    decreases |group|
  {
    if group == [] then 0
    else 2 * FlagBits(group[..|group| - 1]) + if group[|group| - 1].Copy? then 1 else 0
  }

  /** A group's flag byte; `spare` fills the flags no token uses. */
  function Flags(group: seq<Token>, spare: nat): nat
    requires |group| <= 8
  {
    FlagBits(group) * Power(8 - |group|) + spare
  }

  /** `spare` fits the flags left over in the last group when `count` flags are spent. */
  predicate SpareFits(spare: nat, count: nat) {
    spare < Power(UnusedFlags(count))
  }

  function UnusedFlags(count: nat): nat {
    (8 - count % 8) % 8
  }

  lemma WholeGroup(spare: nat, count: nat)
    ensures SpareFits(spare, 8 + count) <==> SpareFits(spare, count)
  {
    assert UnusedFlags(8 + count) == UnusedFlags(count);
  }

  /** The first group's flag byte. */
  function FlagByte(tokens: seq<Token>, spare: nat): nat {
    if |tokens| <= 8 then Flags(tokens, spare) else Flags(tokens[..8], 0)
  }

  /** Groups of eight tokens, each behind its flag byte. */
  function Serialise(tokens: seq<Token>, spare: nat): seq<nat>
    requires Encodable(tokens)
    decreases |tokens|
  {
    if tokens == [] then []
    else if |tokens| <= 8 then [FlagByte(tokens, spare)] + Bytes(tokens)
    else [FlagByte(tokens, spare)] + Bytes(tokens[..8]) + Serialise(tokens[8..], spare)
  }

  /** Type byte and 24-bit size. */
  function Header(size: nat): seq<nat> {
    [HEADER_TYPE, size % 256, size / 256 % 256, size / 65536]
  }

  /** The header and the stream of a compressed block that declares `size` bytes. */
  function Block(tokens: seq<Token>, spare: nat, size: nat): seq<nat>
    requires Encodable(tokens)
  {
    Header(size) + Serialise(tokens, spare)
  }

  /** How many leading tokens it takes to reach `size` bytes. */
  function Needed(tokens: seq<Token>, size: nat, produced: nat): (n: nat)
    ensures n <= |tokens|
    decreases |tokens|
  {
    if tokens == [] || produced >= size then 0 else 1 + Needed(tokens[1..], size, produced + TokenLength(tokens[0]))
  }

  ghost predicate Holds(memory: Memory, address: u32, bytes: seq<nat>) {
    forall i :: 0 <= i < |bytes| ==> Advance(address, i) in memory && memory[Advance(address, i)] == bytes[i]
  }

  // ---------------------------------------------------------------- the decoder

  function CopyLength(hi: nat): nat {
    hi / 16 + 3
  }

  function Displacement(hi: nat, lo: nat): (d: nat)
    ensures d >= 1
  {
    hi % 16 * 256 + lo + 1
  }

  function Size24(low: nat, middle: nat, high: nat): nat {
    low + 256 * middle + 65536 * high
  }

  function TokenAt(memory: Memory, address: u32, compressed: bool): Option<(Token, u32)> {
    match (Read8(memory, address), Read8(memory, Advance(address, 1)))
    case (None, _) => None
    case (Some(first), next) =>
      if !compressed then Some((Literal(first), Advance(address, 1)))
      else match next
           case None => None
           case Some(second) => Some((Copy(CopyLength(first), Displacement(first, second)), Advance(address, 2)))
  }

  /** A copy is a big-endian halfword of length less three, in four bits, and displacement less one; the
      header is the type byte 0x10 and a little-endian size. */
  lemma BlockFormat(t: Token, size: nat)
    requires ValidToken(t, 4096) && t.Copy? && size < 0x100_0000
    ensures var bytes: seq<int>, header := TokenBytes(t), Header(size);
            && |bytes| == 2 && bytes[0] * 0x100 + bytes[1] == (t.length - 3) * 0x1000 + (t.displacement - 1)
            && (bytes[0] < 0x100 && bytes[1] < 0x100)
            && |header| == 4 && header[0] == 0x10 && header[1] + 0x100 * header[2] + 0x1_0000 * header[3] == size
  {
  }

  function Cut(s: seq<u8>, n: nat): seq<u8> {
    if |s| > n then s[..n] else s
  }

  predicate FlagSet(flags: nat, index: nat)
    requires index < 8
  {
    Bit(flags, 7 - index)
  }

  /** Decoding from any point of the stream: `used` flags of the current group are spent. */
  function Decode(memory: Memory, address: u32, flags: u8, used: nat, size: nat, output: seq<u8>): Option<Decoded>
    requires used <= 8 && |output| <= size
    decreases size - |output|, used
  {
    if |output| >= size then Some(Decoded(output, address))
    else if used == 8 then
      if address in memory then Decode(memory, Advance(address, 1), memory[address], 0, size, output) else None
    else
      match TokenAt(memory, address, FlagSet(flags, used))
      case None => None
      case Some((token, next)) =>
        if ValidToken(token, |output|)
        then Decode(memory, next, flags, used + 1, size, Cut(Apply(output, token), size))
        else None
  }

  function DeclaredSize(memory: Memory, source: u32): Option<nat> {
    match (Read8(memory, Advance(source, 1)), Read8(memory, Advance(source, 2)), Read8(memory, Advance(source, 3)))
    case (Some(a), Some(b), Some(c)) => Some(Size24(a, b, c))
    case _ => None
  }

  /** What decompressing the block at `source` gives; None where the source reports failure. */
  function Decompressed(memory: Memory, source: u32): Option<Decoded> {
    if source !in memory then None
    else
      match DeclaredSize(memory, source)
      case None => None
      case Some(size) =>
        if size == 0 then Some(Decoded([], Advance(source, 4)))
        else if memory[source] != HEADER_TYPE then None
        else Decode(memory, Advance(source, 4), 0, 8, size, [])
  }

  /** hle_lz77_decompress_from_source, without its cycle count. */
  method DecompressFromSource(memory: Memory, source0: u32)
    returns (ok: bool, output: seq<u8>, sourceEnd: u32)
    ensures ok <==> Decompressed(memory, source0).Some?
    ensures ok ==> Decompressed(memory, source0) == Some(Decoded(output, sourceEnd))
  {
    hide FlagSet, Decode, TokenAt, Cut, Apply, Advance, Size24, CopyLength, Displacement;
    output, sourceEnd := [], 0;
    var headerType := Read8(memory, source0);
    var size0 := Read8(memory, Advance(source0, 1));
    var size1 := Read8(memory, Advance(source0, 2));
    var size2 := Read8(memory, Advance(source0, 3));
    var source := Advance(source0, 4);
    if headerType.None? || size0.None? || size1.None? || size2.None? {
      return false, output, sourceEnd;
    }
    var size := Size24(size0.value, size1.value, size2.value);
    if size == 0 {
      return true, output, source;
    }
    if headerType.value != HEADER_TYPE {
      return false, output, sourceEnd;
    }
    ghost var start := source;
    while |output| < size
      invariant |output| <= size
      invariant Decode(memory, source, 0, 8, size, output) == Decode(memory, start, 0, 8, size, [])
      decreases size - |output|
    {
      GroupStep(memory, source, 0, size, output);
      var flags := Read8(memory, source);
      if flags.None? {
        return false, output, sourceEnd;
      }
      source := Advance(source, 1);
      ghost var produced := |output|;
      var bit := 0;
      while bit < 8 && |output| < size
        invariant 0 <= bit <= 8 && |output| <= size
        invariant |output| >= produced && (bit > 0 ==> |output| > produced)
        invariant Decode(memory, source, flags.value, bit, size, output) == Decode(memory, start, 0, 8, size, [])
      {
        var compressed := FlagSet(flags.value, bit);
        bit := bit + 1;
        if !compressed {
          LiteralStep(memory, source, flags.value, bit - 1, size, output);
          var literal := Read8(memory, source);
          if literal.None? {
            return false, output, sourceEnd;
          }
          source := Advance(source, 1);
          output := output + [literal.value];
        } else {
          CopyStep(memory, source, flags.value, bit - 1, size, output);
          AdvanceTwice(source, 1, 1);
          var tokenHi := Read8(memory, source);
          source := Advance(source, 1);
          var tokenLo := Read8(memory, source);
          source := Advance(source, 1);
          if tokenHi.None? || tokenLo.None? {
            return false, output, sourceEnd;
          }
          var length := CopyLength(tokenHi.value);
          var displacement := Displacement(tokenHi.value, tokenLo.value);
          if displacement > |output| {
            return false, output, sourceEnd;
          }
          ghost var before := output;
          var index := 0;
          while index < length && |output| < size
            invariant 0 <= index <= length && |before| < size && |output| <= size
            invariant output == CopyBack(before, displacement, index)
            invariant index == 0 ==> output == before
            invariant index > 0 ==> |output| > |before|
          {
            output := output + [output[|output| - displacement]];
            index := index + 1;
          }
          assert length >= 3 by { LengthAtLeast(tokenHi.value); }
          CutCopy(before, displacement, index, length, size);
        }
      }
      Stopped(memory, source, flags.value, bit, size, output);
    }
    Stopped(memory, source, 0, 8, size, output);
    return true, output, source;
  }

  lemma GroupStep(memory: Memory, address: u32, flags: u8, size: nat, output: seq<u8>)
    requires |output| < size
    ensures Decode(memory, address, flags, 8, size, output)
         == if address in memory then Decode(memory, Advance(address, 1), memory[address], 0, size, output) else None
  {
  }

  /** Nothing is read once the declared size is reached, and a spent flag byte is forgotten. */
  lemma Stopped(memory: Memory, address: u32, flags: u8, used: nat, size: nat, output: seq<u8>)
    requires used <= 8 && |output| <= size && (|output| == size || used == 8)
    ensures Decode(memory, address, flags, used, size, output) == Decode(memory, address, 0, 8, size, output)
    ensures |output| == size ==> Decode(memory, address, flags, used, size, output) == Some(Decoded(output, address))
  {
  }

  lemma LiteralStep(memory: Memory, address: u32, flags: u8, used: nat, size: nat, output: seq<u8>)
    requires used < 8 && |output| < size && !FlagSet(flags, used)
    ensures var byte := Read8(memory, address);
            Decode(memory, address, flags, used, size, output)
            == if byte.None? then None
               else Decode(memory, Advance(address, 1), flags, used + 1, size, output + [byte.value])
  {
    hide FlagSet;
    var byte := Read8(memory, address);
    if byte.Some? {
      assert TokenAt(memory, address, false) == Some((Literal(byte.value), Advance(address, 1)));
      assert Cut(Apply(output, Literal(byte.value)), size) == output + [byte.value];
    }
  }

  lemma CopyStep(memory: Memory, address: u32, flags: u8, used: nat, size: nat, output: seq<u8>)
    requires used < 8 && |output| < size && FlagSet(flags, used)
    ensures var hi, lo := Read8(memory, address), Read8(memory, Advance(address, 1));
            Decode(memory, address, flags, used, size, output)
            == if hi.None? || lo.None? || Displacement(hi.value, lo.value) > |output| then None
               else Decode(memory, Advance(address, 2), flags, used + 1, size,
                           Cut(CopyBack(output, Displacement(hi.value, lo.value), CopyLength(hi.value)), size))
  {
    hide FlagSet, Cut, CopyBack;
    var token := TokenAt(memory, address, true);
    if token.Some? {
      assert token.value.0.length <= 18 && token.value.0.displacement <= 4096;
    }
  }

  lemma AdvanceTwice(address: u32, a: nat, b: nat)
    ensures Advance(Advance(address, a), b) == Advance(address, a + b)
  {
    var q := (address + a) / TWO32;
    assert address + a + b == TWO32 * q + ((address + a) % TWO32 + b);
    WrapAway((address + a) % TWO32 + b, q);
  }

  lemma WrapAway(x: nat, q: nat)
    ensures (TWO32 * q + x) % TWO32 == x % TWO32
  {
    DivModUnique(TWO32 * q + x, TWO32, q + x / TWO32, x % TWO32);
  }

  /** Stopping a copy at the declared size is the same as copying it all and cutting. */
  lemma {:induction false} CutCopy(output: seq<u8>, d: nat, n: nat, length: nat, size: nat)
    requires 1 <= d <= |output| <= size && n <= length
    requires n == length <= size - |output| || n == size - |output|
    ensures Cut(CopyBack(output, d, length), size) == CopyBack(output, d, n)
    decreases length
  {
    if n < length {
      if n < length - 1 {
        CutCopy(output, d, n, length - 1, size);
      }
    }
  }

  lemma LengthAtLeast(hi: nat)
    ensures CopyLength(hi) >= 3
  {
  }

  // ---------------------------------------------------------------- bytes in memory

  lemma HoldsSplit(memory: Memory, address: u32, a: seq<nat>, b: seq<nat>)
    ensures Holds(memory, address, a + b) <==> Holds(memory, address, a) && Holds(memory, Advance(address, |a|), b)
  {
    forall i: nat | i < |b|
      ensures Advance(Advance(address, |a|), i) == Advance(address, |a| + i)
    {
      AdvanceTwice(address, |a|, i);
    }
    hide Advance;
    if Holds(memory, address, a + b) {
      forall i: nat | i < |b|
        ensures Advance(Advance(address, |a|), i) in memory && memory[Advance(Advance(address, |a|), i)] == b[i]
      {
        assert (a + b)[|a| + i] == b[i];
      }
    }
    if Holds(memory, address, a) && Holds(memory, Advance(address, |a|), b) {
      forall i: nat | i < |a + b|
        ensures Advance(address, i) in memory && memory[Advance(address, i)] == (a + b)[i]
      {
        if i >= |a| {
          assert Advance(Advance(address, |a|), i - |a|) == Advance(address, i);
        }
      }
    }
  }

  lemma AdvanceNone(address: u32)
    ensures Advance(address, 0) == address
  {
  }

  /** Reading a token's bytes gives the token. */
  lemma TokenRead(memory: Memory, address: u32, t: Token)
    requires ValidToken(t, 4096) && Holds(memory, address, TokenBytes(t))
    ensures TokenAt(memory, address, t.Copy?) == Some((t, Advance(address, |TokenBytes(t)|)))
  {
    AdvanceNone(address);
    hide Advance;
    var bytes := TokenBytes(t);
    assert memory[Advance(address, 0)] == bytes[0];
    if t.Copy? {
      assert memory[Advance(address, 1)] == bytes[1];
      DivModUnique(bytes[0], 16, t.length - 3, (t.displacement - 1) / 256);
    }
  }

  /** The bytes of whatever token was read are the ones in memory. */
  lemma TokenWritten(memory: Memory, address: u32, compressed: bool)
    requires TokenAt(memory, address, compressed).Some?
    ensures var (t, next) := TokenAt(memory, address, compressed).value;
            && (t.Copy? <==> compressed) && ValidToken(t, 4096)
            && Holds(memory, address, TokenBytes(t)) && next == Advance(address, |TokenBytes(t)|)
  {
    AdvanceNone(address);
    hide Advance;
    var t := TokenAt(memory, address, compressed).value.0;
    if compressed {
      var hi, lo := memory[address], memory[Advance(address, 1)];
      DivModUnique(t.displacement - 1, 256, hi % 16, lo);
    }
  }

  // ---------------------------------------------------------------- flags

  ghost predicate FlagsAgree(flags: nat, used: nat, tokens: seq<Token>) {
    forall i :: 0 <= i < |tokens| && used + i < 8 ==> (FlagSet(flags, used + i) <==> tokens[i].Copy?)
  }

  lemma HalvePower(x: nat, n: nat)
    ensures x / Power(n + 1) == x / Power(n) / 2
  {
    var p := Power(n);
    assert Power(n + 1) == 2 * p;
    hide Power;
    var q := x / p;
    assert x == (q / 2) * (2 * p) + ((q % 2) * p + x % p);
    DivModUnique(x, 2 * p, q / 2, (q % 2) * p + x % p);
  }

  lemma FlagsAgreeLast(flags: nat, group: seq<Token>)
    requires 0 < |group| <= 8
    ensures var n := |group| - 1;
            FlagsAgree(flags, 0, group)
            <==> FlagsAgree(flags, 0, group[..n]) && (FlagSet(flags, n) <==> group[n].Copy?)
  {
    hide FlagSet;
    var n := |group| - 1;
    var shorter := group[..n];
    if FlagsAgree(flags, 0, group) {
      forall i | 0 <= i < n
        ensures FlagSet(flags, 0 + i) <==> shorter[i].Copy?
      {
        assert FlagSet(flags, 0 + i) <==> group[i].Copy?;
      }
      assert FlagSet(flags, 0 + n) <==> group[n].Copy?;
    }
    if FlagsAgree(flags, 0, shorter) && (FlagSet(flags, n) <==> group[n].Copy?) {
      forall i | 0 <= i < |group|
        ensures FlagSet(flags, 0 + i) <==> group[i].Copy?
      {
        if i < n {
          assert FlagSet(flags, 0 + i) <==> shorter[i].Copy?;
        }
      }
    }
  }

  /** The leading bits of the byte are those of the group. */
  predicate LeadsWith(flags: nat, group: seq<Token>)
    requires |group| <= 8
  {
    flags / Power(8 - |group|) == FlagBits(group)
  }

  /** A byte starts with the bits of `group` exactly when its flags agree with the tokens. */
  lemma {:induction false} FlagsLead(flags: nat, group: seq<Token>)
    requires |group| <= 8 && flags < 256
    ensures LeadsWith(flags, group) <==> FlagsAgree(flags, 0, group)
    decreases |group|
  {
    if group == [] {
      Powers();
    } else {
      var n := |group| - 1;
      FlagsLead(flags, group[..n]);
      FlagsAgreeLast(flags, group);
      LeadsFurther(flags, group);
      hide LeadsWith, FlagsAgree, FlagSet;
    }
  }

  lemma LeadsFurther(flags: nat, group: seq<Token>)
    requires 0 < |group| <= 8
    ensures var n := |group| - 1;
            LeadsWith(flags, group) <==> LeadsWith(flags, group[..n]) && (FlagSet(flags, n) <==> group[n].Copy?)
  {
    var n := |group| - 1;
    HalvePower(flags, 7 - n);
    var x := flags / Power(7 - n);
    var bits := FlagBits(group[..n]);
    assert FlagBits(group) == 2 * bits + if group[n].Copy? then 1 else 0;
    assert FlagSet(flags, n) <==> x % 2 == 1;
    assert LeadsWith(flags, group) <==> x == FlagBits(group);
    assert LeadsWith(flags, group[..n]) <==> x / 2 == bits;
    hide *;
    assert x == 2 * (x / 2) + x % 2;
  }

  function FirstGroup(tokens: seq<Token>): (group: seq<Token>)
    ensures |group| <= 8
  {
    if |tokens| <= 8 then tokens else tokens[..8]
  }

  lemma FirstGroupDecides(flags: nat, tokens: seq<Token>)
    ensures FlagsAgree(flags, 0, FirstGroup(tokens)) <==> FlagsAgree(flags, 0, tokens)
  {
    hide FlagSet;
    var group := FirstGroup(tokens);
    if FlagsAgree(flags, 0, group) {
      forall i | 0 <= i < |tokens| && 0 + i < 8
        ensures FlagSet(flags, 0 + i) <==> tokens[i].Copy?
      {
        assert FlagSet(flags, 0 + i) <==> group[i].Copy?;
      }
    }
    if FlagsAgree(flags, 0, tokens) {
      forall i | 0 <= i < |group| && 0 + i < 8
        ensures FlagSet(flags, 0 + i) <==> group[i].Copy?
      {
        assert FlagSet(flags, 0 + i) <==> tokens[i].Copy?;
      }
    }
  }

  /** The flag byte of a stream names the kinds of its first eight tokens. */
  lemma FlagByteAgrees(tokens: seq<Token>, spare: nat)
    requires tokens != [] && SpareFits(spare, |tokens|)
    ensures FlagByte(tokens, spare) < 256 && FlagsAgree(FlagByte(tokens, spare), 0, tokens)
  {
    var group := FirstGroup(tokens);
    var left := if |tokens| <= 8 then spare else 0;
    Powers();
    hide Power, FlagsAgree, FlagBits;
    ByteBound(|group|, FlagBits(group), left);
    DivModUnique(FlagByte(tokens, spare), Power(8 - |group|), FlagBits(group), left);
    FlagsLead(FlagByte(tokens, spare), group);
    FirstGroupDecides(FlagByte(tokens, spare), tokens);
  }

  lemma ByteBound(n: nat, bits: nat, left: nat)
    requires n <= 8 && bits < Power(n) && left < Power(8 - n)
    ensures bits * Power(8 - n) + left < 256
  {
    var p, q := Power(8 - n), Power(n);
    PowersMeet(n);
    hide Power;
    assert bits * p + left < bits * p + p == (bits + 1) * p;
    Monotone(bits + 1, q, p);
  }

  lemma Monotone(a: nat, b: nat, p: nat)
    requires a <= b
    ensures a * p <= b * p
  {
  }

  lemma PowersMeet(n: nat)
    requires n <= 8
    ensures Power(n) * Power(8 - n) == 256
    decreases n
  {
    Powers();
    if n > 0 {
      PowersMeet(n - 1);
    }
  }

  /** Every flag byte is the flag byte of the tokens it announces, for some fitting spare bits. */
  lemma FlagByteCovers(flags: u8, tokens: seq<Token>, later: nat) returns (spare: nat)
    requires tokens != [] && FlagsAgree(flags, 0, tokens) && SpareFits(later, |tokens|)
    ensures SpareFits(spare, |tokens|) && FlagByte(tokens, spare) == flags
    ensures |tokens| > 8 ==> spare == later
  {
    hide *;
    FirstGroupDecides(flags, tokens);
    FlagsLead(flags, FirstGroup(tokens));
    if |tokens| <= 8 {
      spare := LowFlags(flags, |tokens|);
      CoversShort(flags, tokens);
    } else {
      spare := later;
      CoversLong(flags, tokens, later);
    }
  }

  lemma CoversShort(flags: u8, tokens: seq<Token>)
    requires 0 < |tokens| <= 8 && LeadsWith(flags, FirstGroup(tokens))
    ensures var spare := LowFlags(flags, |tokens|);
            SpareFits(spare, |tokens|) && FlagByte(tokens, spare) == flags
  {
    SpareLeft(flags, tokens);
    assert UnusedFlags(|tokens|) == 8 - |tokens|;
    hide Flags, LowFlags, UnusedFlags, LeadsWith;
  }

  lemma CoversLong(flags: u8, tokens: seq<Token>, later: nat)
    requires |tokens| > 8 && LeadsWith(flags, FirstGroup(tokens))
    ensures FlagByte(tokens, later) == flags
  {
    SpareLeft(flags, tokens[..8]);
    assert LowFlags(flags, 8) == 0 by { assert Power(0) == 1; hide LowFlags; }
    hide Flags, LowFlags, LeadsWith;
  }

  /** The flags of a byte after the first `n`. */
  function LowFlags(flags: nat, n: nat): (spare: nat)
    requires n <= 8
    ensures spare < Power(8 - n)
  {
    flags % Power(8 - n)
  }

  lemma SpareLeft(flags: nat, group: seq<Token>)
    requires |group| <= 8 && LeadsWith(flags, group)
    ensures Flags(group, LowFlags(flags, |group|)) == flags
  {
    Recomposed(flags, Power(8 - |group|), FlagBits(group));
    hide Power, FlagBits;
  }

  lemma Recomposed(x: nat, p: nat, q: nat)
    requires p > 0 && x / p == q
    ensures q * p + x % p == x
  {
  }

  // ---------------------------------------------------------------- streams

  /** The bytes left when `used` flags of the current group are spent. */
  function Rest(tokens: seq<Token>, used: nat, spare: nat): seq<nat>
    requires Encodable(tokens) && used <= 8
  {
    if |tokens| <= 8 - used then Bytes(tokens)
    else Bytes(tokens[..8 - used]) + Serialise(tokens[8 - used..], spare)
  }

  lemma RestGroup(tokens: seq<Token>, spare: nat)
    requires Encodable(tokens) && tokens != []
    ensures Rest(tokens, 8, spare) == Serialise(tokens, spare) == [FlagByte(tokens, spare)] + Rest(tokens, 0, spare)
  {
    assert tokens[..0] == [] && tokens[0..] == tokens;
    hide FlagByte;
    var flag := FlagByte(tokens, spare);
    if |tokens| > 8 {
      var first, later := Bytes(tokens[..8]), Serialise(tokens[8..], spare);
      assert [flag] + first + later == [flag] + (first + later);
    }
  }

  lemma RestToken(tokens: seq<Token>, used: nat, spare: nat)
    requires Encodable(tokens) && tokens != [] && used < 8
    ensures Encodable(tokens[1..])
    ensures Rest(tokens, used, spare) == TokenBytes(tokens[0]) + Rest(tokens[1..], used + 1, spare)
  {
    hide Serialise, TokenBytes;
    var first, later := TokenBytes(tokens[0]), tokens[1..];
    if |tokens| > 8 - used {
      var group := tokens[..8 - used];
      assert group[1..] == later[..7 - used];
      assert tokens[8 - used..] == later[7 - used..];
      var middle, end := Bytes(group[1..]), Serialise(tokens[8 - used..], spare);
      assert Bytes(group) == first + middle;
      assert (first + middle) + end == first + (middle + end);
    }
  }

  lemma {:induction false} ExpansionExtends(tokens: seq<Token>, output: seq<u8>)
    requires ValidTokens(tokens, output)
    ensures Expansion(tokens, output)[..|output|] == output
    decreases |tokens|
  {
    if tokens != [] {
      var next := Apply(output, tokens[0]);
      ExpansionExtends(tokens[1..], next);
      ApplyExtends(output, tokens[0]);
      assert Expansion(tokens, output)[..|output|] == next[..|output|];
    }
  }

  lemma ApplyExtends(output: seq<u8>, t: Token)
    requires ValidToken(t, |output|)
    ensures Apply(output, t)[..|output|] == output
  {
    if t.Copy? {
      CopyExtends(output, t.displacement, t.length);
    }
  }

  lemma {:induction false} CopyExtends(output: seq<u8>, d: nat, n: nat)
    requires 1 <= d <= |output|
    ensures CopyBack(output, d, n)[..|output|] == output
    decreases n
  {
    if n > 0 {
      CopyExtends(output, d, n - 1);
    }
  }

  /** A copy repeats with period `d`, also where it overlaps itself. */
  lemma {:induction false} CopyRepeats(output: seq<u8>, d: nat, n: nat, i: nat)
    requires 1 <= d <= |output| && |output| <= i < |output| + n
    ensures CopyBack(output, d, n)[i] == CopyBack(output, d, n)[i - d]
    decreases n
  {
    if i < |output| + n - 1 {
      CopyRepeats(output, d, n - 1, i);
    }
  }

  /** The needed tokens reach the size, and no shorter list of leading tokens does. */
  lemma {:induction false} NeededIsLeast(tokens: seq<Token>, size: nat, output: seq<u8>, m: nat)
    requires ValidTokens(tokens, output) && |Expansion(tokens, output)| >= size && m <= |tokens|
    ensures ValidTokens(tokens[..m], output)
    ensures |Expansion(tokens[..m], output)| >= size <==> m >= Needed(tokens, size, |output|)
    decreases |tokens|
  {
    if m == 0 {
      assert tokens[..0] == [];
    } else {
      var next := Apply(output, tokens[0]);
      assert tokens[..m][1..] == tokens[1..][..m - 1];
      NeededIsLeast(tokens[1..], size, next, m - 1);
      if |output| >= size {
        ExpansionExtends(tokens[..m], output);
      }
    }
  }

  // ---------------------------------------------------------------- decoding undoes serialisation

  /** Where decoding stops: after the bytes of the tokens it needs. */
  function StopAt(address: u32, tokens: seq<Token>, used: nat, size: nat, produced: nat): u32
    requires Encodable(tokens) && used <= 8
  {
    Advance(address, |Rest(tokens[..Needed(tokens, size, produced)], used, 0)|)
  }

  lemma {:induction false} DecodeRest(memory: Memory, address: u32, flags: u8, used: nat, size: nat, output: seq<u8>,
                                      tokens: seq<Token>, spare: nat)
    requires used <= 8 && |output| <= size && ValidTokens(tokens, output) && Encodable(tokens)
    requires FlagsAgree(flags, used, tokens) && SpareFits(spare, used + |tokens|)
    requires |Expansion(tokens, output)| >= size && Holds(memory, address, Rest(tokens, used, spare))
    ensures Decode(memory, address, flags, used, size, output)
         == Some(Decoded(Expansion(tokens, output)[..size], StopAt(address, tokens, used, size, |output|)))
    decreases |tokens|, used
  {
    if |output| == size {
      ExpansionExtends(tokens, output);
      NothingNeeded(address, tokens, used, size, |output|);
      Stopped(memory, address, flags, used, size, output);
    } else if used == 8 {
      DecodeGroup(memory, address, flags, size, output, tokens, spare);
    } else {
      DecodeToken(memory, address, flags, used, size, output, tokens, spare);
    }
  }

  lemma NothingNeeded(address: u32, tokens: seq<Token>, used: nat, size: nat, produced: nat)
    requires Encodable(tokens) && used <= 8 && produced >= size
    ensures StopAt(address, tokens, used, size, produced) == address
  {
    assert tokens[..0] == [];
    AdvanceNone(address);
  }

  lemma DecodeGroup(memory: Memory, address: u32, flags: u8, size: nat, output: seq<u8>, tokens: seq<Token>, spare: nat)
    requires |output| < size && ValidTokens(tokens, output) && Encodable(tokens)
    requires SpareFits(spare, 8 + |tokens|)
    requires |Expansion(tokens, output)| >= size && Holds(memory, address, Rest(tokens, 8, spare))
    ensures Decode(memory, address, flags, 8, size, output)
         == Some(Decoded(Expansion(tokens, output)[..size], StopAt(address, tokens, 8, size, |output|)))
    decreases |tokens|, 8, 0
  {
    assert tokens != [];
    hide *;
    var flag := FlagByte(tokens, spare);
    WholeGroup(spare, |tokens|);
    FlagByteAgrees(tokens, spare);
    RestGroup(tokens, spare);
    HoldsSplit(memory, address, [flag], Rest(tokens, 0, spare));
    GroupRead(memory, address, flag);
    GroupStep(memory, address, flags, size, output);
    DecodeRest(memory, Advance(address, 1), flag, 0, size, output, tokens, spare);
    StopGroup(address, tokens, size, |output|);
  }

  lemma GroupRead(memory: Memory, address: u32, flag: nat)
    requires Holds(memory, address, [flag])
    ensures address in memory && memory[address] == flag
  {
    AdvanceNone(address);
    hide Advance;
    assert [flag][0] == flag;
    assert Advance(address, 0) in memory;
  }

  lemma StopGroup(address: u32, tokens: seq<Token>, size: nat, produced: nat)
    requires Encodable(tokens) && tokens != [] && produced < size
    ensures StopAt(address, tokens, 8, size, produced) == StopAt(Advance(address, 1), tokens, 0, size, produced)
  {
    var needed := tokens[..Needed(tokens, size, produced)];
    RestGroup(needed, 0);
    AdvanceTwice(address, 1, |Rest(needed, 0, 0)|);
    hide Rest, Advance, Serialise;
  }

  lemma StopToken(address: u32, tokens: seq<Token>, used: nat, size: nat, produced: nat)
    requires Encodable(tokens) && tokens != [] && produced < size && used < 8
    ensures Encodable(tokens[1..])
    ensures StopAt(address, tokens, used, size, produced)
         == StopAt(Advance(address, |TokenBytes(tokens[0])|), tokens[1..], used + 1, size,
                   produced + TokenLength(tokens[0]))
  {
    var n := Needed(tokens, size, produced);
    var needed := tokens[..n];
    assert needed[1..] == tokens[1..][..n - 1];
    RestToken(needed, used, 0);
    AdvanceTwice(address, |TokenBytes(tokens[0])|, |Rest(needed[1..], used + 1, 0)|);
    hide Rest, Advance, Serialise, TokenBytes;
  }

  /** One token's step of the decoder. */
  lemma TokenStep(memory: Memory, address: u32, flags: u8, used: nat, size: nat, output: seq<u8>, t: Token)
    requires used < 8 && |output| < size && ValidToken(t, |output|) && ValidToken(t, 4096)
    requires (FlagSet(flags, used) <==> t.Copy?) && Holds(memory, address, TokenBytes(t))
    ensures Decode(memory, address, flags, used, size, output)
         == Decode(memory, Advance(address, |TokenBytes(t)|), flags, used + 1, size, Cut(Apply(output, t), size))
  {
    TokenRead(memory, address, t);
    hide TokenAt, FlagSet, Holds, TokenBytes, Cut, Apply, Advance;
  }

  lemma LaterFlags(flags: nat, used: nat, tokens: seq<Token>)
    requires tokens != [] && used < 8
    ensures FlagsAgree(flags, used, tokens)
       <==> (FlagSet(flags, used) <==> tokens[0].Copy?) && FlagsAgree(flags, used + 1, tokens[1..])
  {
    hide FlagSet;
    if FlagsAgree(flags, used, tokens) {
      assert FlagSet(flags, used + 0) <==> tokens[0].Copy?;
      forall i | 0 <= i < |tokens| - 1 && used + 1 + i < 8
        ensures FlagSet(flags, used + 1 + i) <==> tokens[1..][i].Copy?
      {
        assert FlagSet(flags, used + (i + 1)) <==> tokens[i + 1].Copy?;
      }
    }
    if (FlagSet(flags, used) <==> tokens[0].Copy?) && FlagsAgree(flags, used + 1, tokens[1..]) {
      forall i | 0 <= i < |tokens| && used + i < 8
        ensures FlagSet(flags, used + i) <==> tokens[i].Copy?
      {
        if i > 0 {
          assert FlagSet(flags, used + 1 + (i - 1)) <==> tokens[1..][i - 1].Copy?;
        }
      }
    }
  }

  lemma DecodeToken(memory: Memory, address: u32, flags: u8, used: nat, size: nat, output: seq<u8>,
                    tokens: seq<Token>, spare: nat)
    requires used < 8 && |output| < size && ValidTokens(tokens, output) && Encodable(tokens)
    requires FlagsAgree(flags, used, tokens) && SpareFits(spare, used + |tokens|)
    requires |Expansion(tokens, output)| >= size && Holds(memory, address, Rest(tokens, used, spare))
    ensures Decode(memory, address, flags, used, size, output)
         == Some(Decoded(Expansion(tokens, output)[..size], StopAt(address, tokens, used, size, |output|)))
    decreases |tokens|, used, 0
  {
    hide FlagsAgree, SpareFits, Holds, Rest, Decode, StopAt, TokenBytes, Cut, FlagSet, Advance, Needed, TokenLength, Apply;
    var t, later := tokens[0], tokens[1..];
    var next, output2 := Advance(address, |TokenBytes(t)|), Apply(output, t);
    RestToken(tokens, used, spare);
    HoldsSplit(memory, address, TokenBytes(t), Rest(later, used + 1, spare));
    LaterFlags(flags, used, tokens);
    TokenStep(memory, address, flags, used, size, output, t);
    StopToken(address, tokens, used, size, |output|);
    CutToSize(output2, size);
    if |output2| >= size {
      ExpansionExtends(later, output2);
      assert Expansion(tokens, output)[..size] == output2[..size];
      NothingNeeded(next, later, used + 1, size, |output2|);
      Stopped(memory, next, flags, used + 1, size, Cut(output2, size));
    } else {
      DecodeRest(memory, next, flags, used + 1, size, output2, later, spare);
    }
  }

  lemma CutToSize(s: seq<u8>, n: nat)
    ensures Cut(s, n) == if |s| >= n then s[..n] else s
  {
  }

  // ---------------------------------------------------------------- whatever decodes was serialised

  /** The bytes from `address` on are these tokens', all of them needed, and decode to `result`. */
  ghost predicate Explains(memory: Memory, address: u32, flags: u8, used: nat, size: nat, output: seq<u8>,
                           tokens: seq<Token>, spare: nat, result: Decoded)
    requires used <= 8
  {
    && ValidTokens(tokens, output) && Encodable(tokens)
    && FlagsAgree(flags, used, tokens) && SpareFits(spare, used + |tokens|)
    && |Expansion(tokens, output)| >= size && Needed(tokens, size, |output|) == |tokens|
    && Holds(memory, address, Rest(tokens, used, spare))
    && result == Decoded(Expansion(tokens, output)[..size], Advance(address, |Rest(tokens, used, spare)|))
  }

  lemma {:induction false} DecodeSound(memory: Memory, address: u32, flags: u8, used: nat, size: nat, output: seq<u8>)
    returns (tokens: seq<Token>, spare: nat)
    requires used <= 8 && |output| <= size && Decode(memory, address, flags, used, size, output).Some?
    ensures Explains(memory, address, flags, used, size, output, tokens, spare,
                     Decode(memory, address, flags, used, size, output).value)
    decreases size - |output|, used
  {
    if |output| == size {
      Stopped(memory, address, flags, used, size, output);
      tokens, spare := [], 0;
      NothingExplains(memory, address, flags, used, output);
    } else if used == 8 {
      GroupStep(memory, address, flags, size, output);
      var flag := memory[address];
      var later;
      tokens, later := DecodeSound(memory, Advance(address, 1), flag, 0, size, output);
      spare := ExplainGroup(memory, address, flags, size, output, tokens, later);
    } else {
      var t, next := TokenAt(memory, address, FlagSet(flags, used)).value.0,
                     TokenAt(memory, address, FlagSet(flags, used)).value.1;
      TokenWritten(memory, address, FlagSet(flags, used));
      assert ValidToken(t, |output|);
      var output2 := Apply(output, t);
      TokenStep(memory, address, flags, used, size, output, t);
      CutToSize(output2, size);
      if |output2| >= size {
        Stopped(memory, next, flags, used + 1, size, Cut(output2, size));
        tokens, spare := [t], 0;
        ExplainLast(memory, address, flags, used, size, output, t);
      } else {
        var later;
        later, spare := DecodeSound(memory, next, flags, used + 1, size, output2);
        tokens := [t] + later;
        ExplainToken(memory, address, flags, used, size, output, t, later, spare);
      }
    }
  }

  lemma NothingExplains(memory: Memory, address: u32, flags: u8, used: nat, output: seq<u8>)
    requires used <= 8
    ensures Explains(memory, address, flags, used, |output|, output, [], 0, Decoded(output, address))
  {
    AdvanceNone(address);
    Powers();
    hide Power, Advance;
  }

  lemma ExplainGroup(memory: Memory, address: u32, flags: u8, size: nat, output: seq<u8>, tokens: seq<Token>,
                     later: nat)
    returns (spare: nat)
    requires |output| < size && address in memory && Decode(memory, address, flags, 8, size, output).Some?
    requires Explains(memory, Advance(address, 1), memory[address], 0, size, output, tokens, later,
                      Decode(memory, address, flags, 8, size, output).value)
    ensures Explains(memory, address, flags, 8, size, output, tokens, spare,
                     Decode(memory, address, flags, 8, size, output).value)
  {
    hide Decode, Holds, Serialise, FlagByte, FlagsAgree, Advance, FlagSet, Power;
    var flag := memory[address];
    assert tokens != [];
    spare := FlagByteCovers(flag, tokens, later);
    WholeGroup(spare, |tokens|);
    assert FlagsAgree(flags, 8, tokens) by { NoFlagsLeft(flags, tokens); }
    RestGroup(tokens, spare);
    SameRest(tokens, later, spare);
    HoldsOne(memory, address, flag);
    HoldsSplit(memory, address, [flag], Rest(tokens, 0, spare));
    AdvanceTwice(address, 1, |Rest(tokens, 0, spare)|);
    hide Rest;
  }

  lemma NoFlagsLeft(flags: u8, tokens: seq<Token>)
    ensures FlagsAgree(flags, 8, tokens)
  {
  }

  lemma SameRest(tokens: seq<Token>, later: nat, spare: nat)
    requires Encodable(tokens) && (|tokens| > 8 ==> spare == later)
    ensures Rest(tokens, 0, later) == Rest(tokens, 0, spare)
  {
  }

  lemma HoldsOne(memory: Memory, address: u32, value: nat)
    requires address in memory && memory[address] == value
    ensures Holds(memory, address, [value])
  {
    AdvanceNone(address);
  }

  lemma ExplainToken(memory: Memory, address: u32, flags: u8, used: nat, size: nat, output: seq<u8>, t: Token,
                     later: seq<Token>, spare: nat)
    requires used < 8 && |output| < size && ValidToken(t, |output|) && ValidToken(t, 4096)
    requires (FlagSet(flags, used) <==> t.Copy?) && Holds(memory, address, TokenBytes(t))
    requires |Apply(output, t)| < size && Decode(memory, address, flags, used, size, output).Some?
    requires Explains(memory, Advance(address, |TokenBytes(t)|), flags, used + 1, size, Apply(output, t), later, spare,
                      Decode(memory, address, flags, used, size, output).value)
    ensures Explains(memory, address, flags, used, size, output, [t] + later, spare,
                     Decode(memory, address, flags, used, size, output).value)
  {
    hide Decode, Holds, SpareFits, FlagsAgree, Advance, FlagSet, Apply, TokenBytes, Rest;
    var tokens := [t] + later;
    assert tokens[0] == t && tokens[1..] == later;
    assert ValidTokens(tokens, output) && Encodable(tokens);
    LaterFlags(flags, used, tokens);
    RestToken(tokens, used, spare);
    HoldsSplit(memory, address, TokenBytes(t), Rest(later, used + 1, spare));
    AdvanceTwice(address, |TokenBytes(t)|, |Rest(later, used + 1, spare)|);
  }

  lemma ExplainLast(memory: Memory, address: u32, flags: u8, used: nat, size: nat, output: seq<u8>, t: Token)
    requires used < 8 && |output| < size && ValidToken(t, |output|) && ValidToken(t, 4096)
    requires (FlagSet(flags, used) <==> t.Copy?) && Holds(memory, address, TokenBytes(t))
    requires |Apply(output, t)| >= size
    ensures Explains(memory, address, flags, used, size, output, [t], 0,
                     Decoded(Apply(output, t)[..size], Advance(address, |TokenBytes(t)|)))
  {
    hide Holds, Advance, FlagSet, Apply, TokenBytes;
    assert [t][1..] == [];
    assert SpareFits(0, used + 1) by { hide Power; }
    assert Bytes([t]) == TokenBytes(t) + Bytes([t][1..]) == TokenBytes(t);
    assert Rest([t], used, 0) == Bytes([t]);
    assert Needed([t], size, |output|) == 1 + Needed([t][1..], size, |output| + TokenLength(t)) == 1;
    assert Expansion([t], output) == Expansion([t][1..], Apply(output, t)) == Apply(output, t);
    assert FlagsAgree(flags, used, [t]) by { LaterFlags(flags, used, [t]); }
    assert ValidTokens([t], output) by { assert ValidTokens([t][1..], Apply(output, t)); }
    assert Encodable([t]);
    assert Holds(memory, address, Rest([t], used, 0));
    hide Needed, Expansion, ValidTokens, FlagsAgree, SpareFits, Encodable, Rest, Bytes;
  }

  // ---------------------------------------------------------------- whole blocks

  /** A block that declares `size` bytes: header, then tokens that expand to at least that many. */
  ghost predicate IsBlock(memory: Memory, source: u32, size: nat, tokens: seq<Token>, spare: nat) {
    && 0 < size < 0x100_0000
    && ValidTokens(tokens, []) && Encodable(tokens) && SpareFits(spare, |tokens|)
    && |Expansion(tokens, [])| >= size
    && Holds(memory, source, Block(tokens, spare, size))
  }

  /** Decoding a serialised block gives its tokens' expansion, cut to the declared size, and
      stops just past the last byte of the last token it needed. */
  lemma RoundTrip(memory: Memory, source: u32, size: nat, tokens: seq<Token>, spare: nat)
    requires IsBlock(memory, source, size, tokens, spare)
    ensures var needed := tokens[..Needed(tokens, size, 0)];
            Decompressed(memory, source)
            == Some(Decoded(Expansion(tokens, [])[..size], Advance(source, |Block(needed, 0, size)|)))
  {
    hide Advance, Serialise, Decode, Power, Size24, Holds;
    HeaderRead(memory, source, tokens, spare, size);
    assert tokens != [];
    RestGroup(tokens, spare);
    WholeGroup(spare, |tokens|);
    NoFlagsLeft(0, tokens);
    DecodeRest(memory, Advance(source, 4), 0, 8, size, [], tokens, spare);
    var needed := tokens[..Needed(tokens, size, 0)];
    RestGroup(needed, 0);
    AdvanceTwice(source, 4, |Serialise(needed, 0)|);
    hide Rest, FlagByte;
  }

  lemma HeaderRead(memory: Memory, source: u32, tokens: seq<Token>, spare: nat, size: nat)
    requires Encodable(tokens) && Holds(memory, source, Block(tokens, spare, size)) && size < 0x100_0000
    ensures source in memory && memory[source] == HEADER_TYPE && DeclaredSize(memory, source) == Some(size)
    ensures Holds(memory, Advance(source, 4), Serialise(tokens, spare))
  {
    HoldsSplit(memory, source, Header(size), Serialise(tokens, spare));
    AdvanceNone(source);
    hide Advance, Serialise;
    var bytes := Header(size);
    assert memory[Advance(source, 0)] == bytes[0] && memory[Advance(source, 1)] == bytes[1];
    assert memory[Advance(source, 2)] == bytes[2] && memory[Advance(source, 3)] == bytes[3];
  }

  lemma HeaderWritten(memory: Memory, source: u32, size: nat)
    requires source in memory && memory[source] == HEADER_TYPE && DeclaredSize(memory, source) == Some(size)
    ensures size < 0x100_0000 && Holds(memory, source, Header(size))
  {
    AdvanceNone(source);
    hide Advance;
    var a: nat, b: nat, c: nat := memory[Advance(source, 1)], memory[Advance(source, 2)], memory[Advance(source, 3)];
    DivModUnique(size, 256, 256 * c + b, a);
    DivModUnique(256 * c + b, 256, c, b);
    DivModUnique(size, 65536, c, 256 * b + a);
  }

  /** Whatever decompresses to something is the serialisation of tokens, all of them needed. */
  lemma Explained(memory: Memory, source: u32, size: nat) returns (tokens: seq<Token>, spare: nat)
    requires DeclaredSize(memory, source) == Some(size) && size > 0 && Decompressed(memory, source).Some?
    ensures IsBlock(memory, source, size, tokens, spare) && Needed(tokens, size, 0) == |tokens|
  {
    hide Advance, Explains, IsBlock, Decode, DeclaredSize;
    tokens, spare := DecodeSound(memory, Advance(source, 4), 0, 8, size, []);
    var decoded := Decompressed(memory, source).value;
    HeaderWritten(memory, source, size);
    ExplainBlock(memory, source, size, tokens, spare, decoded);
  }

  lemma ExplainBlock(memory: Memory, source: u32, size: nat, tokens: seq<Token>, spare: nat, decoded: Decoded)
    requires 0 < size < 0x100_0000 && Holds(memory, source, Header(size))
    requires Explains(memory, Advance(source, 4), 0, 8, size, [], tokens, spare, decoded)
    ensures IsBlock(memory, source, size, tokens, spare) && Needed(tokens, size, 0) == |tokens|
  {
    hide Advance, Serialise, Power, Holds, FlagByte, FlagsAgree, UnusedFlags, SpareFits;
    assert tokens != [];
    RestGroup(tokens, spare);
    WholeGroup(spare, |tokens|);
    HoldsSplit(memory, source, Header(size), Serialise(tokens, spare));
    hide Rest;
  }

  /** A non-empty block decompresses exactly when it is the serialisation of some valid tokens. */
  lemma Accepted(memory: Memory, source: u32, size: nat)
    requires DeclaredSize(memory, source) == Some(size) && size > 0
    ensures Decompressed(memory, source).Some?
       <==> exists tokens, spare :: IsBlock(memory, source, size, tokens, spare)
  {
    hide Decompressed, DeclaredSize, IsBlock;
    if tokens, spare :| IsBlock(memory, source, size, tokens, spare) {
      RoundTrip(memory, source, size, tokens, spare);
    }
    if Decompressed(memory, source).Some? {
      var tokens, spare := Explained(memory, source, size);
    }
  }
}
