/** Epicbox addresses: a public key in checksummed Base58, a domain and an optional port. */
module EpicboxAddresses {
  import opened Common
  import opened Numerals
  import opened Base58Alphabet
  import opened Base58
  import opened Base58RoundTrip
  import opened Base58Check
  import Decimal

  /** The compressed form of a public key (section 2.3.3 of SEC 1), which stands for the key. */
  type PublicKey = k: seq<byte> | |k| == 33 && (k[0] == 2 || k[0] == 3) witness [2] + ZeroBytes(32)

  /** The hash, the curve library's key parser, and the network. */
  datatype Environment = Environment(sha: Hash, fromSlice: seq<byte> -> Option<PublicKey>, floonet: bool)
  {
    /** A key that the library parses is parsed again from its compressed form. */
    ghost predicate Lawful() {
      forall s: seq<byte> :: fromSlice(s).Some? ==> fromSlice(fromSlice(s).value) == fromSlice(s)
    }

    function VersionBytes(): seq<byte> {
      if floonet then [1, 136] else [1, 0]
    }
  }

  datatype ParseError =
    | EpicboxAddressParsingError
    | KeyError(error: Error)

  datatype Parsed<+T> = Success(value: T) | Failure(error: ParseError) | Abort

  /** The "epicbox://" prefix, '@', ':' and the default domain "epicbox.epiccash.com". */
  const PREFIX: seq<byte> := [101, 112, 105, 99, 98, 111, 120, 58, 47, 47]
  const AT: byte := 64
  const COLON: byte := 58
  const DEFAULT_DOMAIN: seq<byte> :=
    [101, 112, 105, 99, 98, 111, 120, 46, 101, 112, 105, 99, 99, 97, 115, 104, 46, 99, 111, 109]
  const DEFAULT_PORT := 443
  const KEY_LENGTH := 52

  datatype EpicboxAddress = EpicboxAddress(publicKey: seq<byte>, domain: seq<byte>, port: Option<nat>)

  // ----- keys -----

  function KeyText(env: Environment, key: PublicKey): seq<byte> {
    EncodeCheck(env.sha, key, env.VersionBytes())
  }

  function KeyFromText(env: Environment, text: seq<byte>): Outcome<PublicKey> {
    var expected := env.VersionBytes();
    match DecodeCheck(env.sha, text, |expected|)
    case Err(e) => Err(e)
    case Panics => Panics
    case Ok((actual, keyBytes)) =>
      if actual != expected then Err(InvalidBase58Version)
      else match env.fromSlice(keyBytes)
           case None => Err(InvalidBase58Key)
           case Some(k) => Ok(k)
  }

  lemma KeyRoundTrip(env: Environment, key: PublicKey)
    requires env.fromSlice(key) == Some(key)
    ensures KeyFromText(env, KeyText(env, key)) == Ok(key)
  {
    hide EncodeCheck, DecodeCheck;
    DecodeEncodeCheck(env.sha, key, env.VersionBytes());
  }

  // 58^51 <= n < 58^52 for the numbers n that addresses encode
  lemma FiftyTwoDigits()
    ensures Pow(58, 51) <= 0x1_0000 * Pow(256, 36)
    ensures 100356 * Pow(256, 36) <= Pow(58, 52)
  {
    DigitPowers();
    BytePowers();
    assert Pow(58, 51) == Pow(58, 12) * Pow(58, 12) * Pow(58, 12) * Pow(58, 12) * Pow(58, 3) by {
      hide Pow;
      PowAdd(58, 12, 12);
      PowAdd(58, 24, 12);
      PowAdd(58, 36, 12);
      PowAdd(58, 48, 3);
    }
    assert Pow(58, 52) == 58 * Pow(58, 51);
    hide Pow;
    PowAdd(256, 8, 8);
    PowAdd(256, 16, 8);
    PowAdd(256, 24, 8);
    PowAdd(256, 32, 4);
  }

  lemma ThreeBytes(x: nat, y: nat, z: nat)
    ensures Value(256, [x, y, z]) == (x * 256 + y) * 256 + z
  {
    assert [x, y, z][..2] == [x, y] && [x, y][..1] == [x];
    ValueSingle(256, x);
    assert Value(256, [x, y]) == x * 256 + y;
  }

  lemma HeadValue(bytes: seq<nat>)
    requires |bytes| == 39 && AllBelow(256, bytes)
    requires bytes[0] == 1 && (bytes[1] == 0 || bytes[1] == 136) && (bytes[2] == 2 || bytes[2] == 3)
    ensures 0x1_0000 * Pow(256, 36) <= Value(256, bytes) < 100356 * Pow(256, 36)
  {
    hide Pow, Value;
    var rest := bytes[3..];
    assert bytes == [bytes[0], bytes[1], bytes[2]] + rest;
    ValueConcat(256, [bytes[0], bytes[1], bytes[2]], rest);
    ThreeBytes(bytes[0], bytes[1], bytes[2]);
    ValueBound(256, rest);
    var head, p := (256 + bytes[1]) * 256 + bytes[2], Pow(256, 36);
    MulMono(0x1_0000, head, p);
    MulMono(head, 100355, p);
  }

  /** Whatever the network, key and checksum, the text of a key has the 52 characters the parser demands. */
  lemma KeyTextLength(env: Environment, key: PublicKey)
    ensures |KeyText(env, key)| == KEY_LENGTH
    ensures forall i | 0 <= i < KEY_LENGTH :: DigitOf(KeyText(env, key)[i]) != -1
  {
    hide Pow, Value, Encode, Digits, Number, LeadingCount, DigitOf;
    var version := env.VersionBytes();
    var bytes := version + key + Checksum(env.sha, version + key);
    assert LeadingCount(0, bytes) == 0 by { LeadingCountPrefix(0, 0, bytes, bytes); }
    EncodeShape(bytes);
    EncodeLength(bytes);
    HeadValue(bytes);
    FiftyTwoDigits();
    DigitsLength(58, Value(256, bytes), 51);
    DigitsLength(58, Value(256, bytes), 52);
  }

  lemma EncodeLength(data: seq<byte>)
    ensures |Encode(data)| == LeadingCount(0, data) + |Digits(58, Value(256, data))|
  {
  }

  /** The key's text, with the version of either network and the double hash written out. */
  lemma KeyTextIs(env: Environment, key: PublicKey)
    ensures var payload := (if env.floonet then [1, 136] else [1, 0]) + key;
            KeyText(env, key) == Encode(payload + env.sha(env.sha(payload))[..4])
  {
    hide Encode;
  }

  /** Exactly when a text is refused as a key, and why; the key of the other network is a wrong version. */
  lemma KeyErrorsIff(env: Environment, text: seq<byte>)
    requires Decode(text).Ok? && |Decode(text).value| >= 6
    ensures var bytes := Decode(text).value;
            var n := |bytes| - 4;
            var genuine := bytes[n..] == env.sha(env.sha(bytes[..n]))[..4];
            var ours := bytes[..2] == if env.floonet then [1, 136] else [1, 0];
            var key := env.fromSlice(bytes[2..n]);
            && (KeyFromText(env, text) == Err(InvalidBase58Checksum) <==> !genuine)
            && (KeyFromText(env, text) == Err(InvalidBase58Version) <==> genuine && !ours)
            && (KeyFromText(env, text) == Err(InvalidBase58Key) <==> genuine && ours && key.None?)
            && (KeyFromText(env, text).Ok? <==> genuine && ours && key.Some?)
            && (KeyFromText(env, text).Ok? ==> Some(KeyFromText(env, text).value) == key)
  {
    hide Decode, DecodeCheck;
    DecodeCheckIff(env.sha, text, 2);
  }

  // ----- decimal ports -----

  function Chars(t: seq<byte>): (s: string)
    ensures |s| == |t|
  {
    seq(|t|, i requires 0 <= i < |t| => t[i] as char)
  }

  function PortText(n: nat): (t: seq<byte>)
    ensures Chars(t) == Decimal.DecimalText(n)
  {
    Decimal.DecimalRoundTrip(n);
    var s := Decimal.DecimalText(n);
    var t: seq<byte> := seq(|s|, i requires 0 <= i < |s| => s[i] as int);
    assert Chars(t) == s;
    t
  }

  predicate AllDigits(t: seq<byte>) {
    Decimal.AllDigits(Chars(t))
  }

  /** Only digits reach it, of which it needs one, and no more than 65535 of them in value. */
  function PortValue(t: seq<byte>): (r: Option<nat>)
    requires AllDigits(t)
    ensures r.Some? ==> r.value <= 65535
  {
    Decimal.ParseUnsigned(Chars(t), 65535)
  }

  lemma PortRoundTrip(n: nat)
    requires n <= 65535
    ensures AllDigits(PortText(n)) && PortText(n) != [] && PortValue(PortText(n)) == Some(n)
  {
    Decimal.DecimalRoundTrip(n);
    Decimal.ParsePrinted(n, 65535);
  }

  // ----- the grammar -----

  predicate DomainByte(c: byte) {
    97 <= c <= 122 || 65 <= c <= 90 || 48 <= c <= 57 || c == 46
  }

  predicate ValidDomain(d: seq<byte>) {
    d != [] && forall i | 0 <= i < |d| :: DomainByte(d[i])
  }

  predicate ValidKeyText(t: seq<byte>) {
    |t| == KEY_LENGTH && forall i | 0 <= i < KEY_LENGTH :: DigitOf(t[i]) != -1
  }

  datatype Captures = Captures(publicKey: seq<byte>, domain: Option<seq<byte>>, port: Option<seq<byte>>)
  {
    predicate Valid() {
      && ValidKeyText(publicKey)
      && (domain.Some? ==> ValidDomain(domain.value))
      && (port.Some? ==> domain.Some? && AllDigits(port.value))
    }
  }

  /** The strings of the grammar: an optional prefix, the key, and optionally '@', domain, ':' and port. */
  function Written(prefixed: bool, c: Captures): seq<byte> {
    (if prefixed then PREFIX else []) + c.publicKey + WrittenDomain(c.domain, c.port)
  }

  function WrittenDomain(domain: Option<seq<byte>>, port: Option<seq<byte>>): seq<byte> {
    match domain
    case None => []
    case Some(d) => [AT] + d + (if port.Some? then [COLON] + port.value else [])
  }

  function DomainRun(s: seq<byte>): (n: nat)
    ensures n <= |s| && (forall i | 0 <= i < n :: DomainByte(s[i])) && (n < |s| ==> !DomainByte(s[n]))
  {
    if s == [] || !DomainByte(s[0]) then 0 else 1 + DomainRun(s[1..])
  }

  /** The regular expression, as a left-to-right match. */
  function Match(s: seq<byte>): (r: Option<Captures>)
  {
    var body := if PREFIX <= s then s[|PREFIX|..] else s;
    if |body| < KEY_LENGTH || !ValidKeyText(body[..KEY_LENGTH]) then None
    else MatchDomain(body[..KEY_LENGTH], body[KEY_LENGTH..])
  }

  function MatchDomain(key: seq<byte>, rest: seq<byte>): Option<Captures>
  {
    if rest == [] then Some(Captures(key, None, None))
    else if rest[0] != AT then None
    else
      var after := rest[1..];
      var n := DomainRun(after);
      var domain, tail := after[..n], after[n..];
      if n == 0 then None
      else if tail == [] then Some(Captures(key, Some(domain), None))
      else if tail[0] != COLON || !AllDigits(tail[1..]) then None
      else Some(Captures(key, Some(domain), Some(tail[1..])))
  }

  lemma DomainRunStops(d: seq<byte>, tail: seq<byte>)
    requires forall i | 0 <= i < |d| :: DomainByte(d[i])
    requires tail != [] ==> !DomainByte(tail[0])
    ensures DomainRun(d + tail) == |d|
  {
    hide DomainByte;
    var s := d + tail;
    var n := DomainRun(s);
    assert forall i | 0 <= i < |d| :: s[i] == d[i];
    if tail != [] {
      assert s[|d|] == tail[0];
    }
  }

  lemma MatchDomainWritten(key: seq<byte>, domain: Option<seq<byte>>, port: Option<seq<byte>>)
    requires Captures(key, domain, port).Valid()
    ensures MatchDomain(key, WrittenDomain(domain, port)) == Some(Captures(key, domain, port))
  {
    hide DigitOf, DomainRun;
    if domain.Some? {
      var rest, d := WrittenDomain(domain, port), domain.value;
      var tail := if port.Some? then [COLON] + port.value else [];
      var after := rest[1..];
      assert after == d + tail;
      DomainRunStops(d, tail);
      assert after[..|d|] == d && after[|d|..] == tail;
    }
  }

  lemma ColonIsNoDigit()
    ensures DigitOf(COLON) == -1
  {
  }

  /** The match accepts every string of the grammar and recovers its parts ... */
  lemma MatchWritten(prefixed: bool, c: Captures)
    requires c.Valid()
    ensures Match(Written(prefixed, c)) == Some(c)
  {
    hide DomainRun, MatchDomain, WrittenDomain, DigitOf;
    var s := Written(prefixed, c);
    var body := c.publicKey + WrittenDomain(c.domain, c.port);
    if prefixed {
      assert s == PREFIX + body;
    } else {
      assert s == body;
      ColonIsNoDigit();
      assert s[7] == c.publicKey[7] != COLON == PREFIX[7];
    }
    assert body[..KEY_LENGTH] == c.publicKey && body[KEY_LENGTH..] == WrittenDomain(c.domain, c.port);
    MatchDomainWritten(c.publicKey, c.domain, c.port);
  }

  /** ... and accepts no other. */
  lemma MatchSound(s: seq<byte>)
    requires Match(s).Some?
    ensures Match(s).value.Valid()
    ensures s == Written(PREFIX <= s, Match(s).value)
  {
    hide DigitOf, MatchDomain, WrittenDomain;
    var prefixed := PREFIX <= s;
    var body := if prefixed then s[|PREFIX|..] else s;
    MatchDomainSound(body[..KEY_LENGTH], body[KEY_LENGTH..]);
    assert body == body[..KEY_LENGTH] + body[KEY_LENGTH..];
    assert s == (if prefixed then PREFIX else []) + body;
  }

  lemma MatchDomainSound(key: seq<byte>, rest: seq<byte>)
    requires ValidKeyText(key) && MatchDomain(key, rest).Some?
    ensures var c := MatchDomain(key, rest).value;
            c.Valid() && c.publicKey == key && rest == WrittenDomain(c.domain, c.port)
  {
    hide DigitOf, DomainByte, ValidKeyText, AllDigits;
    if rest != [] {
      var after := rest[1..];
      var n := DomainRun(after);
      hide DomainRun;
      var domain, tail := after[..n], after[n..];
      assert rest == [AT] + after;
      assert after == domain + tail;
      assert ValidDomain(domain);
      if tail != [] {
        assert tail == [COLON] + tail[1..];
      }
    }
  }

  /** The constants as text. */
  lemma Names()
    ensures Chars(PREFIX) == "epicbox://" && Chars([AT]) == "@" && Chars([COLON]) == ":"
    ensures Chars(DEFAULT_DOMAIN) == "epicbox.epiccash.com"
  {
  }

  /** Letters, digits and dots. */
  lemma DomainByteIff(b: byte)
    ensures var ch := b as char;
            DomainByte(b) <==> 'a' <= ch <= 'z' || 'A' <= ch <= 'Z' || '0' <= ch <= '9' || ch == '.'
  {
  }

  lemma DefaultDomainValid()
    ensures ValidDomain(DEFAULT_DOMAIN)
  {
  }

  // ----- addresses -----

  function New(env: Environment, key: PublicKey, domain: Option<seq<byte>>, port: Option<nat>): EpicboxAddress {
    EpicboxAddress(KeyText(env, key), if domain.Some? then domain.value else DEFAULT_DOMAIN, port)
  }

  /** An empty port or one above 65535 aborts, whatever the key. */
  function FromStr(env: Environment, s: seq<byte>): Parsed<EpicboxAddress> {
    match Match(s)
    case None => Failure(EpicboxAddressParsingError)
    case Some(c) =>
      if c.port.Some? && !(AllDigits(c.port.value) && PortValue(c.port.value).Some?) then Abort
      else
        var port := if c.port.Some? then PortValue(c.port.value) else None;
        match KeyFromText(env, c.publicKey)
        case Err(e) => Failure(KeyError(e))
        case Panics => Abort
        case Ok(key) => Success(New(env, key, c.domain, port))
  }

  lemma {:induction false} FewerDigits(k: nat)
    ensures Pow(58, k) <= Pow(256, k)
  {
    if k > 0 {
      FewerDigits(k - 1);
      MulLe(58, 256, Pow(58, k - 1), Pow(256, k - 1));
    }
  }

  lemma SizeInBytes(n: nat, z: nat)
    requires z <= KEY_LENGTH && n < Pow(58, KEY_LENGTH - z)
    requires z < KEY_LENGTH ==> n >= Pow(58, KEY_LENGTH - z - 1)
    ensures n < Pow(256, BIN_BYTES - z) && z + |Digits(256, n)| >= 6
  {
    hide Pow, Digits;
    FewerDigits(KEY_LENGTH - z);
    PowMono(256, KEY_LENGTH - z, BIN_BYTES - z);
    if z < 6 {
      DigitPowers();
      BytePowers();
      PowMono(58, 8, KEY_LENGTH - z - 1);
      DigitsLength(256, n, 5);
    }
  }

  /** Fifty-two valid characters decode to at least six bytes. */
  lemma KeyTextDecodes(text: seq<byte>)
    requires ValidKeyText(text)
    ensures Decode(text).Ok? && |Decode(text).value| >= 6
  {
    hide Pow, DigitOf, Decode, Digits, LeadingCount, Number, Capacity;
    var z := LeadingCount(ONE, text);
    DecodeValidText(text);
    FirstDigit(text, z);
    NumberBounds(text, z);
    SizeInBytes(Number(text, z, |text|), z);
  }

  lemma FirstDigit(text: seq<byte>, z: nat)
    requires ValidKeyText(text) && z == LeadingCount(ONE, text)
    ensures z < |text| ==> DigitOf(text[z]) != 0
  {
    hide DigitOf, Glyph;
    GlyphZero(0);
    if z < |text| {
      GlyphsAndDigits(text[z], 0);
    }
  }

  lemma NumberBounds(text: seq<byte>, z: nat)
    requires z <= |text| && ValidFrom(text, z, |text|)
    requires z < |text| ==> DigitOf(text[z]) != 0
    ensures Number(text, z, |text|) < Pow(58, |text| - z)
    ensures z < |text| ==> Number(text, z, |text|) >= Pow(58, |text| - z - 1)
  {
    hide Pow, Value, DigitOf;
    var ds := DigitString(text, z, |text|);
    ValueBound(58, ds);
    if z < |text| {
      assert ds[0] == DigitOf(text[z]);
      NonzeroValue(58, ds);
    }
  }

  /** Parsing aborts exactly when there is a port and it is empty or above 65535; no key makes it abort. */
  lemma FromStrAbortsIff(env: Environment, s: seq<byte>)
    ensures FromStr(env, s) == Abort <==>
              && Match(s).Some? && Match(s).value.port.Some?
              && var port := Match(s).value.port.value;
                 AllDigits(port) && (port == [] || Decimal.DecimalValue(Chars(port)) > 65535)
  {
    hide Decode, Match;
    if Match(s).Some? {
      MatchSound(s);
      KeyTextDecodes(Match(s).value.publicKey);
    }
  }

  /** Exactly when a string is refused, and why, unless its port makes parsing abort. */
  lemma FromStrErrorsIff(env: Environment, s: seq<byte>)
    ensures FromStr(env, s) == Failure(EpicboxAddressParsingError) <==> Match(s).None?
    ensures Match(s).Some? && FromStr(env, s) != Abort ==>
              && (forall e :: FromStr(env, s) == Failure(KeyError(e)) <==>
                                KeyFromText(env, Match(s).value.publicKey) == Err(e))
              && Decode(Match(s).value.publicKey).Ok? && |Decode(Match(s).value.publicKey).value| >= 6
  {
    hide Decode, KeyFromText, Match, DigitOf;
    if Match(s).Some? {
      MatchSound(s);
      KeyTextDecodes(Match(s).value.publicKey);
    }
  }

  /** What is parsed: the key of the text, the domain or the default one, and the port. */
  lemma FromStrReads(env: Environment, s: seq<byte>, a: EpicboxAddress)
    requires FromStr(env, s) == Success(a)
    ensures var c := Match(s).value;
            && KeyFromText(env, c.publicKey).Ok? && a.publicKey == KeyText(env, KeyFromText(env, c.publicKey).value)
            && Chars(a.domain) == (if c.domain.Some? then Chars(c.domain.value) else "epicbox.epiccash.com")
            && (if c.port.Some? then a.port == Some(Decimal.DecimalValue(Chars(c.port.value))) else a.port == None)
  {
    hide KeyText, KeyFromText;
    MatchSound(s);
    hide Match;
    Names();
  }

  /** The address "<key>@e:" of any key. */
  lemma EmptyPortExample(env: Environment, key: PublicKey)
    ensures FromStr(env, KeyText(env, key) + [AT, 101, COLON]) == Abort
  {
    hide DigitOf, KeyText, Match, KeyFromText;
    KeyTextLength(env, key);
    var c := Captures(KeyText(env, key), Some([101]), Some([]));
    MatchWritten(false, c);
    assert Written(false, c) == KeyText(env, key) + [AT, 101, COLON];
    FromStrAbortsIff(env, Written(false, c));
  }

  predicate PortShown(port: Option<nat>) {
    port.Some? && port.value != DEFAULT_PORT
  }

  function Display(a: EpicboxAddress): seq<byte> {
    a.publicKey + [AT] + a.domain + (if PortShown(a.port) then [COLON] + PortText(a.port.value) else [])
  }

  /** Key, '@', domain, and a port unless it is 443. */
  lemma DisplayIs(a: EpicboxAddress)
    ensures var port := if a.port.None? || a.port == Some(443) then "" else ":" + Decimal.DecimalText(a.port.value);
            Chars(Display(a)) == Chars(a.publicKey) + "@" + Chars(a.domain) + port
  {
    hide PortText;
  }

  function Normalised(a: EpicboxAddress): EpicboxAddress {
    if PortShown(a.port) then a else a.(port := None)
  }

  lemma DisplayIsWritten(env: Environment, key: PublicKey, domain: seq<byte>, port: Option<nat>)
    requires ValidDomain(domain) && (port.Some? ==> port.value <= 65535)
    ensures var a := New(env, key, Some(domain), port);
            var c := Captures(a.publicKey, Some(domain), if PortShown(port) then Some(PortText(port.value)) else None);
            c.Valid() && Display(a) == Written(false, c)
  {
    hide DigitOf, KeyText, PortText;
    KeyTextLength(env, key);
    if PortShown(port) {
      PortRoundTrip(port.value);
    }
    var a := New(env, key, Some(domain), port);
    var tail := if PortShown(port) then [COLON] + PortText(port.value) else [];
    assert Display(a) == [] + a.publicKey + ([AT] + domain + tail);
  }

  /**
   What is displayed parses back to the same address, up to an explicit default port, exactly when its
   domain is one the grammar admits.
   */
  lemma ParseDisplay(env: Environment, key: PublicKey, domain: Option<seq<byte>>, port: Option<nat>)
    requires env.fromSlice(key) == Some(key)
    requires port.Some? ==> port.value <= 65535
    ensures var a := New(env, key, domain, port);
            FromStr(env, Display(a)) == Success(Normalised(a)) <==> ValidDomain(a.domain)
  {
    hide KeyText, KeyFromText, PortText, PortValue, Match, DigitOf, Written, Display, ValidDomain;
    var a := New(env, key, domain, port);
    var s := Display(a);
    DefaultDomainValid();
    if ValidDomain(a.domain) {
      KeyRoundTrip(env, key);
      DisplayIsWritten(env, key, a.domain, port);
      var c := Captures(a.publicKey, Some(a.domain), if PortShown(port) then Some(PortText(port.value)) else None);
      MatchWritten(false, c);
      if PortShown(port) {
        PortRoundTrip(port.value);
      }
    } else if FromStr(env, s) == Success(Normalised(a)) {
      MatchSound(s);
    }
  }

  /** Parsing is stable: any string that parses displays as a string that parses to the same address. */
  lemma ParseStable(env: Environment, s: seq<byte>, a: EpicboxAddress)
    requires env.Lawful() && FromStr(env, s) == Success(a)
    ensures FromStr(env, Display(a)) == Success(Normalised(a))
  {
    hide KeyText, PortText, PortValue, Match, DigitOf, DecodeCheck;
    MatchSound(s);
    var c := Match(s).value;
    var key := KeyFromText(env, c.publicKey).value;
    hide KeyFromText, Display, ValidDomain;
    DefaultDomainValid();
    ParseDisplay(env, key, c.domain, a.port);
  }
}
