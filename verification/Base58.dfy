/**
 The Base58 codec: in-place conversion between byte strings and Base58 text.
 Text is the sequence of its UTF-8 bytes.
 */
module Base58 {
  import opened Numerals
  import opened Base58Alphabet

  datatype Error =
    | InvalidBase58Character(found: byte, index: nat)
    | InvalidBase58Length
    | InvalidBase58Checksum
    | InvalidBase58Version
    | InvalidBase58Key

  /** The outcome of a call: a value, an error value, or an abort of the program. */
  datatype Outcome<+T> = Ok(value: T) | Err(error: Error) | Panics

  // ----- what the codec computes -----

  function Ones(k: nat): (t: seq<byte>)
    ensures |t| == k && forall i | 0 <= i < k :: t[i] == ONE
  {
    seq(k, _ => ONE)
  }

  function Glyphs(ds: seq<nat>): (t: seq<byte>)
    requires AllBelow(58, ds)
    ensures |t| == |ds|
  {
    seq(|ds|, i requires 0 <= i < |ds| => Glyph(ds[i]))
  }

  /** Leading zero bytes become '1's one for one; the rest is the number in base 58. */
  function Encode(data: seq<byte>): (text: seq<byte>)
  {
    Ones(LeadingCount(0, data)) + Glyphs(Digits(58, Value(256, data)))
  }

  const BIN_BYTES := 132
  const LIMBS := 33
  const LIMB: nat := 0x1_0000_0000

  /** The first number that the limbs cannot hold: two to the power 1056. */
  function Capacity(): nat
  {
    Pow(LIMB, LIMBS)
  }

  /** Reads digits from index i on, with v the value of those already read. */
  function ReadDigits(text: seq<byte>, i: nat, v: nat): (r: Outcome<nat>)
    requires i <= |text|
    decreases |text| - i
  {
    if i == |text| then Ok(v)
    else if DigitOf(text[i]) == -1 then Err(InvalidBase58Character(text[i], i))
    else
      var v' := v * 58 + DigitOf(text[i]);
      if v' >= Capacity() then Err(InvalidBase58Length) else ReadDigits(text, i + 1, v')
  }

  function ToBytes(n: nat): (bs: seq<byte>)
    ensures bs == Digits(256, n)
  {
    var ds := Digits(256, n);
    seq(|ds|, i requires 0 <= i < |ds| => ds[i])
  }

  function ZeroBytes(k: nat): (zs: seq<byte>)
    ensures zs == Zeros(k)
  {
    seq(k, _ => 0)
  }

  /** The decoder aborts when the '1's and the number's bytes do not fit its buffer of 132 bytes. */
  function Decode(text: seq<byte>): (r: Outcome<seq<byte>>)
  {
    var zcount := LeadingCount(ONE, text);
    match ReadDigits(text, zcount, 0)
    case Err(e) => Err(e)
    case Panics => Panics
    case Ok(v) =>
      if zcount + |Digits(256, v)| > BIN_BYTES then Panics
      else Ok(ZeroBytes(zcount) + ToBytes(v))
  }

  // ----- the encoder -----

  /** The output buffer is large enough, and its first cell is not needed before the last byte. */
  lemma {:induction false} BufferFits(n: nat)
    ensures Pow(256, n) <= Pow(58, n * 138 / 100 + 1)
    ensures n > 0 ==> Pow(256, n - 1) <= Pow(58, n * 138 / 100)
  {
    if n < 9 {
      SmallBuffers(n);
    } else {
      var m := n - 8;
      BufferFits(m);
      var e := m * 138 / 100;
      assert e + 11 <= n * 138 / 100;
      EightBytes(m, e + 1);
      EightBytes(m - 1, e);
      PowMono(58, e + 12, n * 138 / 100 + 1);
      PowMono(58, e + 11, n * 138 / 100);
    }
  }

  lemma BytePowers()
    ensures Pow(256, 0) == 1
    ensures Pow(256, 1) == 256
    ensures Pow(256, 2) == 65536
    ensures Pow(256, 3) == 16777216
    ensures Pow(256, 4) == 4294967296
    ensures Pow(256, 5) == 1099511627776
    ensures Pow(256, 6) == 281474976710656
    ensures Pow(256, 7) == 72057594037927936
    ensures Pow(256, 8) == 18446744073709551616
  {
  }

  lemma DigitPowers()
    ensures Pow(58, 1) == 58
    ensures Pow(58, 2) == 3364
    ensures Pow(58, 3) == 195112
    ensures Pow(58, 4) == 11316496
    ensures Pow(58, 5) == 656356768
    ensures Pow(58, 6) == 38068692544
    ensures Pow(58, 7) == 2207984167552
    ensures Pow(58, 8) == 128063081718016
    ensures Pow(58, 9) == 7427658739644928
    ensures Pow(58, 10) == 430804206899405824
    ensures Pow(58, 11) == 24986644000165537792
    ensures Pow(58, 12) == 1449225352009601191936
  {
  }

  lemma SmallBuffers(n: nat)
    requires n < 9
    ensures Pow(256, n) <= Pow(58, n * 138 / 100 + 1)
    ensures n > 0 ==> Pow(256, n - 1) <= Pow(58, n * 138 / 100)
  {
    hide Pow;
    BytePowers();
    DigitPowers();
    var e := n * 138 / 100;
    assert e == [0, 1, 2, 4, 5, 6, 8, 9, 11][n];
  }

  lemma EightBytes(m: nat, e: nat)
    requires Pow(256, m) <= Pow(58, e)
    ensures Pow(256, m + 8) <= Pow(58, e + 11)
  {
    hide Pow;
    PowAdd(256, m, 8);
    PowAdd(58, e, 11);
    BytePowers();
    DigitPowers();
    MulLe(Pow(256, m), Pow(58, e), Pow(256, 8), Pow(58, 11));
  }

  /** While bytes remain to be consumed, the first cell of the buffer is zero. */
  lemma FirstCellZero(buffer: seq<nat>, data: seq<nat>, n: nat)
    requires |data| < n && AllBelow(256, data)
    requires |buffer| == n * 138 / 100 + 1
    requires Value(58, buffer) == Value(256, data)
    ensures buffer[0] == 0
  {
    ValueBound(256, data);
    BufferFits(n);
    PowMono(256, |data|, n - 1);
    if buffer[0] != 0 {
      NonzeroValue(58, buffer);
    }
  }

  /** Once every cell has been visited nothing is left to carry: the buffer is large enough. */
  lemma NoFinalCarry(was: seq<nat>, now: seq<nat>, carry: nat, b: nat, data: seq<nat>, n: nat)
    requires Carrying(58, 256, was, now, 0, carry, b)
    requires |data| < n && |now| == n * 138 / 100 + 1
    requires AllBelow(256, data) && Value(58, was) == Value(256, data) && b < 256
    ensures carry == 0
  {
    CarryOut(58, 256, was, now, carry, b);
    ValueBound(256, data);
    BufferFits(n);
    PowMono(256, |data| + 1, n);
  }

  /** One turn of the encoder's outer loop: the number in the buffer becomes 256 times itself plus b. */
  method PushByte(buffer: array<byte>, high: nat, b: byte, ghost data: seq<byte>, ghost n: nat) returns (j: nat)
    requires buffer.Length == n * 138 / 100 + 1 && high < buffer.Length
    requires AllBelow(58, buffer[..])
    requires forall k | 0 <= k <= high :: buffer[k] == 0
    requires |data| < n && Value(58, buffer[..]) == Value(256, data)
    modifies buffer
    ensures AllBelow(58, buffer[..])
    ensures Value(58, buffer[..]) == 256 * Value(256, data) + b
    ensures j <= high && forall k | 0 < k <= j :: buffer[k] == 0
    ensures j > 0 ==> buffer[0] == 0
  {
    hide Pow, Value, Carrying;
    var size := buffer.Length;
    var carry: nat := b;
    j := size - 1;
    ghost var was: seq<nat> := buffer[..];
    ghost var p := size;  // cells from p on have been visited
    CarryStart(58, 256, was, b);

    while j > high || carry != 0
      invariant j < size && (p == j + 1 || (p == 0 && j == 0))
      invariant Carrying(58, 256, was, buffer[..], p, carry, b)
      decreases p
    {
      ghost var now: seq<nat> := buffer[..];
      if p == 0 {
        NoFinalCarry(was, now, carry, b, data, n);
        assert false;
      }
      CarryCell(58, 256, was, now, p, carry, b);
      var cell: nat := buffer[j];
      carry := carry + 256 * cell;
      var digit: nat := carry % 58;
      buffer[j] := digit;
      assert buffer[..] == now[j := digit];
      carry := carry / 58;
      p := j;
      // an unsigned index stops at 0, where a carry left over would be lost; NoFinalCarry says there is none
      if j > 0 {
        j := j - 1;
      }
    }
    CarryDone(58, 256, was, buffer[..], p, b);
  }

  method ToBase58(data: seq<byte>) returns (result: seq<byte>)
    ensures result == Encode(data)
  {
    hide Pow, Value, Digits, Glyphs, LeadingCount;
    var zcount := LeadingCount(0, data);
    var size := (|data| - zcount) * 138 / 100 + 1;
    var buffer := new byte[size](_ => 0);
    assert buffer[..] == Zeros(size);
    ValueZeros(58, size);

    var i := zcount;
    var high := size - 1;
    assert data[zcount..i] == [];
    ValueEmpty();
    while i < |data|
      invariant zcount <= i <= |data|
      invariant 0 <= high < size
      invariant AllBelow(58, buffer[..])
      invariant Value(58, buffer[..]) == Value(256, data[zcount..i])
      invariant i < |data| ==> forall k | 0 <= k <= high :: buffer[k] == 0
    {
      AppendDigit(256, data, zcount, i);
      high := PushByte(buffer, high, data[i], data[zcount..i], |data| - zcount);
      i := i + 1;
      if i < |data| {
        FirstCellZero(buffer[..], data[zcount..i], |data| - zcount);
      }
    }
    assert data[zcount..i] == data[zcount..];
    SkippedZeros(256, data, zcount);
    result := Spell(zcount, buffer);
  }

  /** The encoder's last part: a '1' for each leading zero, then the digits after the buffer's zeros. */
  method Spell(zcount: nat, buffer: array<byte>) returns (result: seq<byte>)
    requires AllBelow(58, buffer[..])
    ensures result == Ones(zcount) + Glyphs(Digits(58, Value(58, buffer[..])))
  {
    hide Pow, Value, Digits, Glyph, RangeDigit, Glyphs, LeadingCount;
    ghost var cells: seq<nat> := buffer[..];
    StripZeros(58, cells);
    var j := LeadingCount(0, buffer[..]);
    ghost var first := j;
    result := [];
    for z := 0 to zcount
      invariant result == Ones(z)
    {
      result := result + [ONE];
    }
    ghost var ones := result;
    GlyphsEmpty();
    assert cells[first..j] == [];
    while j < buffer.Length
      invariant first <= j <= buffer.Length
      invariant result == ones + Glyphs(cells[first..j])
    {
      GlyphsAppend(cells[first..j], cells[j]);
      assert cells[first..j + 1] == cells[first..j] + [cells[j]];
      result := result + [Glyph(buffer[j])];
      j := j + 1;
    }
    assert cells[first..j] == cells[first..];
  }

  lemma GlyphsEmpty()
    ensures Glyphs([]) == []
  {
  }

  lemma GlyphsAppend(ds: seq<nat>, d: nat)
    requires AllBelow(58, ds) && d < 58
    ensures Glyphs(ds + [d]) == Glyphs(ds) + [Glyph(d)]
  {
    hide Glyph;
  }

  // ----- the decoder -----

  type limb = n: nat | n < LIMB

  /** One turn of the decoder's outer loop: the number in the limbs becomes 58 times itself plus digit. */
  method PushDigit(out: array<limb>, digit: nat) returns (c: nat)
    requires out.Length == LIMBS && digit < 58
    modifies out
    ensures c == 0 <==> 58 * Value(LIMB, old(out[..])) + digit < Capacity()
    ensures c == 0 ==> Value(LIMB, out[..]) == 58 * Value(LIMB, old(out[..])) + digit
  {
    hide Pow, Value, Carrying, Capacity;
    ghost var was: seq<nat> := out[..];
    CarryStart(LIMB, 58, was, digit);
    c := digit;
    var j := out.Length;
    while j != 0
      invariant 0 <= j <= out.Length
      invariant c < 58 && Carrying(LIMB, 58, was, out[..], j, c, digit)
    {
      ghost var now: seq<nat> := out[..];
      CarryCell(LIMB, 58, was, now, j, c, digit);
      j := j - 1;
      var cell: nat := out[j];
      var t := cell * 58 + c;
      MaskKeepsCarry(t);
      c := t / LIMB % 64;      // (t & 0x3f00000000) >> 32
      var low: limb := t % LIMB;
      out[j] := low;
      assert out[..] == now[j := low];
    }
    CarryFits(was, out[..], c, digit);
  }

  /** No bit of the carry lies above the mask. */
  lemma MaskKeepsCarry(t: nat)
    requires t < 58 * LIMB
    ensures t / LIMB % 64 == t / LIMB < 58
  {
  }

  lemma CarryFits(was: seq<nat>, now: seq<nat>, c: nat, digit: nat)
    requires Carrying(LIMB, 58, was, now, 0, c, digit)
    requires |now| == LIMBS
    ensures c == 0 <==> 58 * Value(LIMB, was) + digit < Capacity()
    ensures c == 0 ==> Value(LIMB, now) == 58 * Value(LIMB, was) + digit
  {
    hide Pow, Value, Carrying;
    CarryOut(LIMB, 58, was, now, c, digit);
    if c == 0 {
      CarryDone(LIMB, 58, was, now, 0, digit);
    }
  }

  function LimbBytes(x: limb): (bs: seq<byte>)
  {
    [x / 0x1_000000 % 256, x / 0x1_0000 % 256, x / 0x1_00 % 256, x % 256]
  }

  lemma LimbValue(x: limb)
    ensures Value(256, LimbBytes(x)) == x
  {
    var m := x / 0x1_00;
    var h := m / 256;
    assert h == x / 0x1_0000 && h / 256 == x / 0x1_000000 < 256;
    FourBytes(h / 256, h % 256, m % 256, x % 256);
  }

  lemma FourBytes(a: byte, b: byte, c: byte, d: byte)
    ensures Value(256, [a, b, c, d]) == ((a * 256 + b) * 256 + c) * 256 + d
  {
    assert [a, b, c, d][..3] == [a, b, c] && [a, b, c][..2] == [a, b] && [a, b][..1] == [a];
    ValueSingle(256, a);
    assert Value(256, [a, b]) == a * 256 + b;
    assert Value(256, [a, b, c]) == (a * 256 + b) * 256 + c;
  }

  lemma AppendLimb(bytes: seq<nat>, limbs: seq<nat>, x: limb)
    requires Value(256, bytes) == Value(LIMB, limbs)
    ensures Value(256, bytes + LimbBytes(x)) == Value(LIMB, limbs + [x])
  {
    ValueConcat(256, bytes, LimbBytes(x));
    LimbValue(x);
    assert Pow(256, 4) == LIMB;
    assert (limbs + [x])[..|limbs|] == limbs;
  }

  /** The limbs written out as bytes, most significant first. */
  method Unpack(out: array<limb>) returns (bin: array<byte>)
    requires out.Length == LIMBS
    ensures fresh(bin) && bin.Length == BIN_BYTES
    ensures Value(256, bin[..]) == Value(LIMB, out[..])
  {
    hide Pow, Value;
    bin := new byte[BIN_BYTES](_ => 0);
    var i, j := 0, 0;
    assert bin[..0] == [] && out[..0] == [];
    ValueEmpty();
    while j < out.Length
      invariant i == 4 * j && 0 <= j <= out.Length
      invariant Value(256, bin[..i]) == Value(LIMB, out[..j])
    {
      ghost var before := bin[..i];
      var word := LimbBytes(out[j]);
      bin[i], bin[i + 1], bin[i + 2], bin[i + 3] := word[0], word[1], word[2], word[3];
      AppendLimb(before, out[..j], out[j]);
      assert bin[..i + 4] == before + word;
      assert out[..j + 1] == out[..j] + [out[j]];
      i := i + 4;
      j := j + 1;
    }
    assert bin[..i] == bin[..] && out[..j] == out[..];
  }

  lemma ValueEmpty()
    ensures forall b: nat :: Value(b, []) == 0
  {
  }

  method FromBase58(text: seq<byte>) returns (r: Outcome<seq<byte>>)
    ensures r == Decode(text)
  {
    hide Pow, Value, Digits, RangeDigit, DigitOf;
    var out := new limb[LIMBS](_ => 0);
    assert out[..] == Zeros(LIMBS);
    ValueZeros(LIMB, LIMBS);
    var zcount := LeadingCount(ONE, text);
    var i := zcount;
    while i < |text|
      invariant zcount <= i <= |text|
      invariant ReadDigits(text, zcount, 0) == ReadDigits(text, i, Value(LIMB, out[..]))
    {
      var digit := DigitOf(text[i]);
      if digit == -1 {
        return Err(InvalidBase58Character(text[i], i));
      }
      var c := PushDigit(out, digit);
      if c != 0 {
        return Err(InvalidBase58Length);
      }
      i := i + 1;
    }
    var bin := Unpack(out);
    r := Trim(bin, zcount);
  }

  /** The decoder's last part: one zero byte for each leading '1', then the bytes after the leading zeros. */
  method Trim(bin: array<byte>, zcount: nat) returns (r: Outcome<seq<byte>>)
    requires bin.Length == BIN_BYTES
    ensures var v := Value(256, bin[..]);
            r == if zcount + |Digits(256, v)| > BIN_BYTES then Panics else Ok(ZeroBytes(zcount) + ToBytes(v))
  {
    hide Pow, Value, Digits, LeadingCount;
    var leadingZeros := LeadingCount(0, bin[..]);
    StripZeros(256, bin[..]);
    if leadingZeros < zcount {
      return Panics;
    }
    r := Ok(bin[leadingZeros - zcount..]);
    assert bin[leadingZeros - zcount..] == ZeroBytes(zcount) + bin[leadingZeros..];
  }
}
