/**
 What the Base58 codec promises: encoding and decoding undo each other, and exactly which texts are
 refused, and why.
 */
module Base58RoundTrip {
  import opened Numerals
  import opened Base58Alphabet
  import opened Base58

  /** Every byte of the text from i up to k stands for a digit. */
  predicate ValidFrom(text: seq<byte>, i: nat, k: nat)
    requires i <= k <= |text|
  {
    forall t | i <= t < k :: DigitOf(text[t]) != -1
  }

  /** The number written in base 58 from i up to k. */
  function Number(text: seq<byte>, i: nat, k: nat): nat
    requires i <= k <= |text| && ValidFrom(text, i, k)
  {
    Value(58, DigitString(text, i, k))
  }

  function DigitString(text: seq<byte>, i: nat, k: nat): (ds: seq<nat>)
    requires i <= k <= |text| && ValidFrom(text, i, k)
    ensures |ds| == k - i && AllBelow(58, ds)
  {
    seq(k - i, t requires 0 <= t < k - i => DigitOf(text[i + t]))
  }

  lemma {:induction false} LimbsAreBytes(k: nat)
    ensures Pow(LIMB, k) == Pow(256, 4 * k)
  {
    if k > 0 {
      LimbsAreBytes(k - 1);
      PowAdd(256, 4, 4 * (k - 1));
      assert Pow(256, 4) == LIMB;
    }
  }

  // ----- reading digits -----

  lemma NumberStep(text: seq<byte>, z: nat, i: nat)
    requires z <= i < |text| && ValidFrom(text, z, i + 1)
    ensures Number(text, z, i + 1) == Number(text, z, i) * 58 + DigitOf(text[i])
  {
    hide Pow, DigitOf;
    var ds := DigitString(text, z, i + 1);
    assert ds[..|ds| - 1] == DigitString(text, z, i);
  }

  lemma {:induction false} NumberGrows(text: seq<byte>, z: nat, i: nat, k: nat)
    requires z <= i <= k <= |text| && ValidFrom(text, z, k)
    ensures Number(text, z, i) <= Number(text, z, k)
    decreases k - i
  {
    if i < k {
      NumberStep(text, z, i);
      NumberGrows(text, z, i + 1, k);
    }
  }

  /** The last index up to which the reader gets. */
  lemma {:induction false} ReadDigitsReaches(text: seq<byte>, z: nat, i: nat) returns (k: nat)
    requires z <= i <= |text| && ValidFrom(text, z, i) && Number(text, z, i) < Capacity()
    ensures i <= k <= |text| && ValidFrom(text, z, k) && Number(text, z, k) < Capacity()
    ensures ReadDigits(text, i, Number(text, z, i)) == ReadDigits(text, k, Number(text, z, k))
    ensures k < |text| && DigitOf(text[k]) != -1 ==>
              ValidFrom(text, z, k + 1) && Number(text, z, k + 1) >= Capacity()
    decreases |text| - i
  {
    hide Pow, DigitOf, Number, Capacity;
    k := i;
    if i < |text| && DigitOf(text[i]) != -1 {
      NumberStep(text, z, i);
      if Number(text, z, i + 1) < Capacity() {
        k := ReadDigitsReaches(text, z, i + 1);
      }
    }
  }

  /** Where the reader stops, and with what. */
  lemma ReadOutcome(text: seq<byte>, z: nat) returns (e: nat)
    requires z <= |text|
    ensures z <= e <= |text| && ValidFrom(text, z, e) && Number(text, z, e) < Capacity()
    ensures ReadDigits(text, z, 0) ==
              if e == |text| then Ok(Number(text, z, e))
              else if DigitOf(text[e]) == -1 then Err(InvalidBase58Character(text[e], e))
              else Err(InvalidBase58Length)
    ensures e < |text| && DigitOf(text[e]) != -1 ==>
              ValidFrom(text, z, e + 1) && Number(text, z, e + 1) >= Capacity()
  {
    hide Pow, DigitOf, Number, Capacity;
    CapacityIsBytes();
    EmptyNumber(text, z);
    e := ReadDigitsReaches(text, z, z);
    if e < |text| && DigitOf(text[e]) != -1 {
      NumberStep(text, z, e);
    }
  }

  lemma EmptyNumber(text: seq<byte>, z: nat)
    requires z <= |text|
    ensures Number(text, z, z) == 0
  {
  }

  lemma SameStop(text: seq<byte>, z: nat, e: nat, n: nat)
    requires z <= e <= |text| && ValidFrom(text, z, e) && Number(text, z, e) < Capacity()
    requires z <= n <= |text| && ValidFrom(text, z, n) && Number(text, z, n) >= Capacity()
    ensures e < n
  {
    hide Pow, DigitOf, Number, Capacity;
    if n <= e {
      NumberGrows(text, z, n, e);
    }
  }

  /**
   Exactly when the decoder reports a bad character, and which; and exactly when it reports a bad
   length: when some prefix of valid digits writes a number of 2^1056 or more.
   */
  lemma DecodeErrors(text: seq<byte>, c: byte, k: nat)
    ensures var z := LeadingCount(ONE, text);
            Decode(text) == Err(InvalidBase58Character(c, k)) <==>
              z <= k < |text| && c == text[k] && DigitOf(c) == -1
              && ValidFrom(text, z, k) && Number(text, z, k) < Capacity()
    ensures var z := LeadingCount(ONE, text);
            Decode(text) == Err(InvalidBase58Length) <==>
              exists n | z <= n <= |text| :: ValidFrom(text, z, n) && Number(text, z, n) >= Capacity()
  {
    hide Pow, DigitOf, Digits, Number, Capacity, ReadDigits, LeadingCount;
    var z := LeadingCount(ONE, text);
    var e := ReadOutcome(text, z);
    if z <= k < |text| && DigitOf(text[k]) == -1 && ValidFrom(text, z, k) && Number(text, z, k) < Capacity() {
      if e < |text| && DigitOf(text[e]) != -1 {
        SameStop(text, z, k, e + 1);
      }
      assert k == e;
    }
    if n :| z <= n <= |text| && ValidFrom(text, z, n) && Number(text, z, n) >= Capacity() {
      SameStop(text, z, e, n);
    }
  }

  lemma CapacityIsBytes()
    ensures Capacity() > 0 && Pow(256, BIN_BYTES) == Capacity()
  {
    PowPositive(LIMB, LIMBS);
    LimbsAreBytes(LIMBS);
  }

  /** On text whose every character is a digit, only the number and the leading '1's decide the outcome. */
  lemma DecodeValidText(text: seq<byte>)
    requires ValidFrom(text, 0, |text|)
    ensures var z := LeadingCount(ONE, text);
            var n := Number(text, z, |text|);
            && (Decode(text) == Err(InvalidBase58Length) <==> n >= Capacity())
            && (Decode(text) == Panics <==> n < Capacity() && z + |Digits(256, n)| > BIN_BYTES)
            && (Decode(text).Ok? <==> z <= BIN_BYTES && n < Pow(256, BIN_BYTES - z))
            && (Decode(text).Ok? ==> Decode(text).value == Zeros(z) + Digits(256, n))
  {
    hide Pow, DigitOf, Digits, Number, Capacity, ReadDigits, LeadingCount;
    var z := LeadingCount(ONE, text);
    var n := Number(text, z, |text|);
    var e := ReadOutcome(text, z);
    CapacityIsBytes();
    if e < |text| {
      NumberGrows(text, z, e + 1, |text|);
    }
    if z <= BIN_BYTES {
      DigitsLength(256, n, BIN_BYTES - z);
      PowMono(256, BIN_BYTES - z, BIN_BYTES);
    }
  }

  // ----- the text written by the encoder -----

  lemma GlyphZero(d: nat)
    requires d < 58
    ensures Glyph(d) == ONE <==> d == 0
  {
    GlyphsAndDigits(ONE, d);
  }

  lemma EncodedParts(data: seq<byte>)
    ensures var text, z, ds := Encode(data), LeadingCount(0, data), Digits(58, Value(256, data));
            && |text| == z + |ds|
            && (forall t | 0 <= t < z :: text[t] == ONE)
            && (forall t | 0 <= t < |ds| :: text[z + t] == Glyph(ds[t]))
  {
    hide Pow, Value, Digits, Glyph;
  }

  lemma EncodedOnes(data: seq<byte>)
    ensures LeadingCount(ONE, Encode(data)) == LeadingCount(0, data)
  {
    EncodedParts(data);
    hide Pow, Value, Digits, Glyph, Encode;
    var text, z := Encode(data), LeadingCount(0, data);
    var ds := Digits(58, Value(256, data));
    if ds != [] {
      assert Value(256, data) > 0 by { ValueEmptyDigits(); }
      DigitsLeading(58, Value(256, data));
      GlyphZero(ds[0]);
      assert text[z..][0] == text[z + 0];
    }
    LeadingCountPrefix(ONE, z, text[z..], text);
  }

  lemma EncodedDigit(data: seq<byte>, t: nat)
    requires t < |Encode(data)|
    ensures var z, ds := LeadingCount(0, data), Digits(58, Value(256, data));
            DigitOf(Encode(data)[t]) == (if t < z then 0 else if t - z < |ds| then ds[t - z] else -1)
            && t - z < |ds|
  {
    EncodedParts(data);
    hide Pow, Value, Digits, Glyph, DigitOf, Encode, LeadingCount;
    var text, z, ds := Encode(data), LeadingCount(0, data), Digits(58, Value(256, data));
    if t < z {
      GlyphZero(0);
      GlyphsAndDigits(ONE, 0);
    } else {
      assert text[t] == text[z + (t - z)];
      GlyphsAndDigits(text[t], ds[t - z]);
    }
  }

  lemma EncodedString(data: seq<byte>)
    ensures var text, z := Encode(data), LeadingCount(0, data);
            && z <= |text| && ValidFrom(text, 0, |text|)
            && DigitString(text, z, |text|) == Digits(58, Value(256, data))
  {
    EncodedParts(data);
    hide Pow, Value, Digits, Glyph, DigitOf, Encode, LeadingCount;
    var text, z := Encode(data), LeadingCount(0, data);
    forall t | 0 <= t < |text| ensures DigitOf(text[t]) != -1 {
      EncodedDigit(data, t);
    }
    forall t | 0 <= t < |text| - z
      ensures DigitString(text, z, |text|)[t] == Digits(58, Value(256, data))[t]
    {
      EncodedDigit(data, z + t);
    }
  }

  /** The shape of encoded text: as many '1's as the data has zero bytes, then the digits of its number. */
  lemma EncodeShape(data: seq<byte>)
    ensures var text, z := Encode(data), LeadingCount(0, data);
            && LeadingCount(ONE, text) == z
            && ValidFrom(text, 0, |text|)
            && Number(text, z, |text|) == Value(256, data)
  {
    hide Pow, Value, Digits, Encode, LeadingCount, DigitString, DigitOf;
    EncodedOnes(data);
    EncodedString(data);
    ValueDigits(58, Value(256, data));
  }

  lemma ValueEmptyDigits()
    ensures Digits(58, 0) == []
  {
  }

  /** Decoding what was encoded gives the data back, exactly for data of at most 132 bytes. */
  lemma DecodeEncode(data: seq<byte>)
    ensures Decode(Encode(data)) == Ok(data) <==> |data| <= BIN_BYTES
    ensures |data| > BIN_BYTES ==>
              Decode(Encode(data)) == (if Value(256, data) >= Capacity() then Err(InvalidBase58Length) else Panics)
  {
    hide Pow, Value, Digits, Encode, Decode, Number, Capacity, LeadingCount, DigitOf, Zeros;
    var text, z := Encode(data), LeadingCount(0, data);
    var v := Value(256, data);
    EncodeShape(data);
    DecodeValidText(text);
    StripZeros(256, data);
    CapacityIsBytes();
    assert |data| == z + |Digits(256, v)|;
    if z <= BIN_BYTES {
      DigitsLength(256, v, BIN_BYTES - z);
    }
  }

  lemma EncodeZeros(data: seq<byte>)
    requires LeadingCount(0, data) == |data| && Digits(58, Value(256, data)) == []
    ensures Encode(data) == Ones(|data|)
  {
  }

  /** 133 zero bytes: their number, zero, fits the limbs, but the bytes do not fit the buffer. */
  lemma DecoderAborts()
    ensures Encode(Zeros(133)) == Ones(133) && Decode(Ones(133)) == Panics
  {
    hide Pow, Capacity, Decode, LeadingCount, Value, Digits, Zeros, Ones;
    var data: seq<byte> := Zeros(133);
    assert data[133..] == [];
    LeadingCountPrefix(0, 133, [], data);
    ValueZeros(256, 133);
    CapacityIsBytes();
    DecodeEncode(data);
    ValueEmptyDigits();
    EncodeZeros(data);
  }

  /** Every text that decodes is the encoding of what it decodes to. */
  lemma EncodeDecode(text: seq<byte>, data: seq<byte>)
    requires Decode(text) == Ok(data)
    ensures Encode(data) == text
  {
    hide Pow, Value, Digits, DigitOf, Glyph, Glyphs, DigitString, Number, Decode, LeadingCount;
    var z := LeadingCount(ONE, text);
    var v := OkIsValid(text);
    PaddedDigits(256, z, v, data);
    CanonicalDigits(text, z);
    GlyphString(text, z);
    assert text == Ones(z) + text[z..];
  }

  lemma OkIsValid(text: seq<byte>) returns (v: nat)
    requires Decode(text).Ok?
    ensures var z := LeadingCount(ONE, text);
            ValidFrom(text, 0, |text|) && v == Number(text, z, |text|)
            && Decode(text).value == Zeros(z) + Digits(256, v)
  {
    hide Pow, Digits, DigitOf, Number, Capacity, ReadDigits;
    var z := LeadingCount(ONE, text);
    var k := ReadOutcome(text, z);
    v := Number(text, z, k);
    LeadingNumber(text);
  }

  lemma LeadingNumber(text: seq<byte>)
    ensures ValidFrom(text, 0, LeadingCount(ONE, text))
    ensures forall t | 0 <= t < LeadingCount(ONE, text) :: DigitOf(text[t]) == 0
  {
  }

  lemma CanonicalDigits(text: seq<byte>, z: nat)
    requires z == LeadingCount(ONE, text) && ValidFrom(text, 0, |text|)
    ensures Digits(58, Number(text, z, |text|)) == DigitString(text, z, |text|)
  {
    hide Pow, DigitOf, Glyph;
    var ds := DigitString(text, z, |text|);
    if ds != [] && ds[0] == 0 {
      GlyphsAndDigits(text[z], 0);
      GlyphZero(0);
    }
    DigitsValue(58, ds);
  }

  lemma GlyphString(text: seq<byte>, z: nat)
    requires z <= |text| && ValidFrom(text, 0, |text|)
    ensures Glyphs(DigitString(text, z, |text|)) == text[z..]
  {
    hide Glyph, DigitOf;
    forall t | z <= t < |text| ensures Glyph(DigitOf(text[t])) == text[t] {
      GlyphsAndDigits(text[t], DigitOf(text[t]));
    }
  }
}
