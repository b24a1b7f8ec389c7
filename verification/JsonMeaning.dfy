/**
 What the bodies of JSON strings mean by section 7 of RFC 8259, and exactly when the decoder agrees.
 */
module JsonMeaning {
  import opened Common
  import opened JsonReader
  import opened JsonLayout
  import opened JsonLookup

  /** A character that stands for itself, a two-character escape, or a four-digit escape in either case. */
  datatype Piece = Plain(ch: char) | Simple(letter: char) | Unit(hex: string)

  const SIMPLE_ESCAPES: map<char, char> := map[
    '"' := '"', '\\' := '\\', '/' := '/', 'b' := 8 as char, 'f' := 12 as char, 'n' := 10 as char, 'r' := 13 as char,
    't' := 9 as char]

  predicate ValidPiece(p: Piece) {
    match p
    case Plain(ch) => ch != '"' && ch != '\\' && ch as int >= 0x20
    case Simple(letter) => letter in SIMPLE_ESCAPES
    case Unit(hex) => HexText(hex)
  }

  predicate ValidPieces(ps: seq<Piece>) {
    forall i | 0 <= i < |ps| :: ValidPiece(ps[i])
  }

  function PrintPiece(p: Piece): (t: string)
    ensures t != ""
  {
    match p
    case Plain(ch) => [ch]
    case Simple(letter) => ['\\', letter]
    case Unit(hex) => "\\u" + hex
  }

  function PrintPieces(ps: seq<Piece>): string {
    if ps == [] then "" else PrintPiece(ps[0]) + PrintPieces(ps[1..])
  }

  // ----- what they mean -----

  predicate High(p: Piece) {
    p.Unit? && HexText(p.hex) && 0xd800 <= HexNumber(p.hex) < 0xdc00
  }

  predicate Low(p: Piece) {
    p.Unit? && HexText(p.hex) && 0xdc00 <= HexNumber(p.hex) < 0xe000
  }

  /** The code point above 0xffff that two surrogates stand for. */
  function CodePoint(high: nat, low: nat): (v: nat)
    requires 0xd800 <= high < 0xdc00 && 0xdc00 <= low < 0xe000
    ensures 0x10000 <= v <= 0x10ffff
  {
    0x10000 + (high - 0xd800) * 0x400 + (low - 0xdc00)
  }

  /** The four bytes of such a code point. */
  function Utf8Four(v: nat): (t: string)
    requires 0x10000 <= v <= 0x10ffff
    ensures |t| == 4
  {
    [(0xf0 + v / 262144) as char, (0x80 + v / 4096 % 64) as char, (0x80 + v / 64 % 64) as char, (0x80 + v % 64) as char]
  }

  lemma Utf8FourMeans(v: nat)
    requires 0x10000 <= v <= 0x10ffff
    ensures Utf8Meaning(Utf8Four(v)) == v
    ensures forall i | 1 <= i < 4 :: 0x80 <= Utf8Four(v)[i] as int < 0xc0
  {
    assert v / 64 / 64 == v / 4096 && v / 4096 / 64 == v / 262144;
  }

  /** The bytes of one piece on its own; a surrogate on its own keeps its three bytes. */
  function Bytes(p: Piece): (t: string)
    requires ValidPiece(p)
  {
    match p
    case Plain(ch) => [ch]
    case Simple(letter) => [SIMPLE_ESCAPES[letter]]
    case Unit(hex) => Utf8(HexNumber(hex))
  }

  /** A high surrogate directly followed by a low one means one code point; every other piece, its own bytes. */
  function Meaning(ps: seq<Piece>): string
    requires ValidPieces(ps)
    decreases |ps|
  {
    if ps == [] then ""
    else if |ps| > 1 && High(ps[0]) && Low(ps[1])
    then Utf8Four(CodePoint(HexNumber(ps[0].hex), HexNumber(ps[1].hex))) + Meaning(ps[2..])
    else Bytes(ps[0]) + Meaning(ps[1..])
  }

  /** Two pieces in a row that form a surrogate pair. */
  predicate PairAt(ps: seq<Piece>, i: nat) {
    i + 1 < |ps| && High(ps[i]) && Low(ps[i + 1])
  }

  predicate HasPair(ps: seq<Piece>) {
    exists i | 0 <= i < |ps| :: PairAt(ps, i)
  }

  // ----- what the decoder makes of them -----

  /** Every piece on its own. */
  function Separately(ps: seq<Piece>): string
    requires ValidPieces(ps)
  {
    if ps == [] then "" else Bytes(ps[0]) + Separately(ps[1..])
  }

  lemma SimpleAgrees(letter: char)
    requires letter in SIMPLE_ESCAPES
    ensures letter != 'u' && SimpleEscape(letter) == SIMPLE_ESCAPES[letter]
  {
  }

  lemma PieceDecodes(p: Piece, text: string, pos: nat, end: nat)
    requires ValidPiece(p) && At(text, pos, PrintPiece(p)) && pos + |PrintPiece(p)| < end <= |text|
    ensures DecodeOne(text, pos, end) == (Bytes(p), pos + |PrintPiece(p)|)
  {
    hide HexNumber, HexValue, HexQuad, Utf8;
    match p {
      case Plain(ch) =>
        AtTail(text, pos, PrintPiece(p));
      case Simple(letter) =>
        SimpleAgrees(letter);
        assert PrintPiece(p)[1..] == [letter];
        AtTail(text, pos, PrintPiece(p));
        AtTail(text, pos + 1, [letter]);
      case Unit(hex) =>
        UnicodeEscape(text, pos, end, hex);
    }
  }

  lemma {:induction false} PiecesDecode(ps: seq<Piece>, text: string, pos: nat)
    requires ValidPieces(ps) && At(text, pos, PrintPieces(ps)) && pos + |PrintPieces(ps)| + 1 <= |text|
    ensures DecodeFrom(text, pos, pos + |PrintPieces(ps)| + 1) == Separately(ps)
    decreases |ps|
  {
    hide DecodeOne, PrintPiece, Bytes, ValidPiece;
    if ps != [] {
      var end := pos + |PrintPieces(ps)| + 1;
      AtSplit(text, pos, PrintPiece(ps[0]), PrintPieces(ps[1..]));
      PieceDecodes(ps[0], text, pos, end);
      PiecesDecode(ps[1..], text, pos + |PrintPiece(ps[0])|);
    }
  }

  lemma DecodesSeparately(ps: seq<Piece>)
    requires ValidPieces(ps)
    ensures DecodedBody(PrintPieces(ps)) == Separately(ps)
  {
    hide DecodeFrom, PrintPieces, Separately, ValidPieces;
    var t := Quoted(PrintPieces(ps));
    assert At(t, 0, t);
    QuotedParts(t, 0, PrintPieces(ps));
    PiecesDecode(ps, t, 1);
  }

  lemma SurrogateBytes(p: Piece)
    requires ValidPiece(p) && (High(p) || Low(p))
    ensures |Bytes(p)| == 3
  {
    Utf8Means(HexNumber(p.hex));
  }

  lemma PairsShift(ps: seq<Piece>, k: nat)
    requires k <= |ps| && HasPair(ps[k..])
    ensures HasPair(ps)
  {
    var i :| 0 <= i < |ps[k..]| && PairAt(ps[k..], i);
    assert PairAt(ps, i + k);
  }

  /** Every pair costs two bytes: separately its halves have six, together they have four. */
  lemma {:induction false} PairsCost(ps: seq<Piece>)
    requires ValidPieces(ps)
    ensures |Separately(ps)| >= |Meaning(ps)|
    ensures HasPair(ps) ==> |Separately(ps)| > |Meaning(ps)|
    ensures !HasPair(ps) ==> Separately(ps) == Meaning(ps)
    decreases |ps|
  {
    hide Bytes, High, Low, ValidPiece, Utf8Four;
    if ps != [] {
      PairsCost(ps[1..]);
      if PairAt(ps, 0) {
        PairsCost(ps[2..]);
        SurrogateBytes(ps[0]);
        SurrogateBytes(ps[1]);
        assert ps[1..][1..] == ps[2..];
        assert Separately(ps) == Bytes(ps[0]) + (Bytes(ps[1]) + Separately(ps[2..]));
      } else if HasPair(ps) {
        var i :| 0 <= i < |ps| && PairAt(ps, i);
        assert PairAt(ps[1..], i - 1);
      } else if HasPair(ps[1..]) {
        PairsShift(ps, 1);
      }
    }
  }

  /**
   The decoder gives what the string means exactly when no high surrogate is directly followed by a low
   one; for such a pair it writes the six bytes of its halves, not the four of its code point.
   */
  lemma DecodesMeaningIff(ps: seq<Piece>)
    requires ValidPieces(ps)
    ensures DecodedBody(PrintPieces(ps)) == Meaning(ps) <==> !HasPair(ps)
  {
    hide DecodedBody, PrintPieces, Separately, Meaning, HasPair, ValidPieces;
    DecodesSeparately(ps);
    PairsCost(ps);
  }

  lemma {:induction false} PiecesValid(ps: seq<Piece>)
    requires ValidPieces(ps)
    ensures ValidBody(PrintPieces(ps))
  {
    if ps != [] {
      PieceValid(ps[0]);
      PiecesValid(ps[1..]);
      BodyAppend(PrintPiece(ps[0]), PrintPieces(ps[1..]));
    }
  }

  lemma PieceValid(p: Piece)
    requires ValidPiece(p)
    ensures ValidBody(PrintPiece(p))
  {
    var t := PrintPiece(p);
    match p {
      case Plain(_) =>
        assert t[1..] == "";
      case Simple(_) =>
        assert t[2..] == "";
      case Unit(hex) =>
        assert t[2..] == hex;
        HexIsPlain(hex);
    }
  }

  lemma HexIsPlain(hex: string)
    requires HexText(hex)
    ensures ValidBody(hex)
  {
    assert hex[0] != '"' && hex[1] != '"' && hex[2] != '"' && hex[3] != '"';
    assert hex[1..][1..][1..][1..] == "";
    assert ValidBody(hex[1..][1..]);
  }

  // ----- what the escaper writes -----

  /** How section 7 of RFC 8259 lets a character be written: the shortest way. */
  function PieceFor(ch: char): (p: Piece)
    ensures ValidPiece(p)
  {
    if ch == '"' then Simple('"')
    else if ch == '\\' then Simple('\\')
    else if ch == 8 as char then Simple('b')
    else if ch == 12 as char then Simple('f')
    else if ch == 10 as char then Simple('n')
    else if ch == 13 as char then Simple('r')
    else if ch == 9 as char then Simple('t')
    else if ch as int < 0x20 then
      HexNumberOf(ch as int);
      Unit(Hex4(ch as int))
    else Plain(ch)
  }

  function PiecesFor(s: string): (ps: seq<Piece>)
    ensures |ps| == |s| && ValidPieces(ps)
  {
    seq(|s|, i requires 0 <= i < |s| => PieceFor(s[i]))
  }

  lemma PieceForMeans(ch: char)
    ensures Bytes(PieceFor(ch)) == [ch] && !High(PieceFor(ch))
    ensures PrintPiece(PieceFor(ch)) == EscapeChar(ch)
  {
    hide HexNumber, Hex4, HexText;
    if ch as int < 0x20 && ch !in {BACKSPACE, FORM_FEED, '\n', '\r', '\t'} {
      ControlEscape(ch);
      HexNumberOf(ch as int);
    }
  }

  /**
   The escaper writes valid pieces that mean the string: quote, backslash and the five control characters
   with short escapes as these, every other control character as a four-digit escape, the rest as it is.
   */
  lemma {:induction false} EscapeWrites(s: string)
    ensures Escape(s) == PrintPieces(PiecesFor(s))
    ensures Meaning(PiecesFor(s)) == s
    decreases |s|
  {
    hide PieceFor, EscapeChar, PrintPiece, Bytes, High, Low, ValidPiece;
    if s != "" {
      EscapeWrites(s[1..]);
      PieceForMeans(s[0]);
      assert PiecesFor(s)[0] == PieceFor(s[0]);
      assert PiecesFor(s)[1..] == PiecesFor(s[1..]);
    }
  }

  /** So nothing that section 7 forbids in a string stands in the text raw. */
  lemma EscapeHidesControls(s: string)
    ensures forall i | 0 <= i < |Escape(s)| :: Escape(s)[i] as int >= 0x20
    decreases |s|
  {
    hide EscapeChar;
    if s != "" {
      EscapedControls(s[0]);
      EscapeHidesControls(s[1..]);
    }
  }

  lemma EscapedControls(ch: char)
    ensures forall i | 0 <= i < |EscapeChar(ch)| :: EscapeChar(ch)[i] as int >= 0x20
  {
  }

  // ----- looking up by meaning -----

  /** A member whose key is given by its pieces. */
  datatype Field = Field(
    before: string, key: seq<Piece>, afterKey: string, afterColon: string, value: Json, after: string)

  predicate ValidField(f: Field) {
    && AllSpace(f.before) && AllSpace(f.afterKey) && AllSpace(f.afterColon) && AllSpace(f.after)
    && ValidPieces(f.key) && Valid(f.value)
  }

  predicate ValidFields(fs: seq<Field>) {
    forall j | 0 <= j < |fs| :: ValidField(fs[j])
  }

  function Members(fs: seq<Field>): seq<Member> {
    if fs == [] then [] else
      var f := fs[0];
      [Member(f.before, PrintPieces(f.key), f.afterKey, f.afterColon, f.value, f.after)] + Members(fs[1..])
  }

  lemma {:induction false} FieldsValid(fs: seq<Field>)
    requires ValidFields(fs)
    ensures ValidMembers(Members(fs))
  {
    hide AllSpace, ValidPieces, PrintPieces;
    if fs != [] {
      assert ValidField(fs[0]);
      PiecesValid(fs[0].key);
      FieldsValid(fs[1..]);
      assert Members(fs)[1..] == Members(fs[1..]);
    }
  }

  /** The first field whose key decodes to the name, if one does. */
  lemma {:induction false} FirstField(fs: seq<Field>, i: nat, name: string)
    requires i <= |fs| && forall j | 0 <= j < i :: DecodedBody(PrintPieces(fs[j].key)) != name
    requires i < |fs| ==> DecodedBody(PrintPieces(fs[i].key)) == name
    ensures FirstNamed(Members(fs), name) == if i < |fs| then Some(fs[i].value) else None
    decreases |fs|
  {
    hide DecodedBody, PrintPieces;
    if fs != [] {
      assert Members(fs)[1..] == Members(fs[1..]);
      if i > 0 {
        FirstField(fs[1..], i - 1, name);
      }
    }
  }

  /** No other field gets in the way: none before it, and none after it if its own key has a pair. */
  predicate NamedApart(fs: seq<Field>, i: nat)
    requires i < |fs| && ValidFields(fs)
  {
    forall j | 0 <= j < |fs| && (j < i || (i < j && HasPair(fs[i].key))) ::
      !HasPair(fs[j].key) && Meaning(fs[j].key) != Meaning(fs[i].key)
  }

  lemma FoundByMeaning(fs: seq<Field>, i: nat)
    requires i < |fs| && ValidFields(fs) && NamedApart(fs, i)
    ensures FirstNamed(Members(fs), Meaning(fs[i].key)) == if HasPair(fs[i].key) then None else Some(fs[i].value)
  {
    hide DecodedBody, PrintPieces, Meaning, HasPair, ValidPieces;
    var name := Meaning(fs[i].key);
    var n := if HasPair(fs[i].key) then |fs| else i;
    forall j | 0 <= j < n ensures DecodedBody(PrintPieces(fs[j].key)) != name {
      DecodesMeaningIff(fs[j].key);
    }
    DecodesMeaningIff(fs[i].key);
    FirstField(fs, n, name);
  }

  /**
   So in a printed object, the text of a string field is found under what its key means, and is what the
   field means, exactly when there is no surrogate pair in the key or in the text.
   */
  lemma LookupMeaningIff(lead: string, fs: seq<Field>, pad: string, tail: string, i: nat, ps: seq<Piece>)
    requires AllSpace(lead) && AllSpace(pad) && ValidFields(fs)
    requires i < |fs| && NamedApart(fs, i)
    requires ValidPieces(ps) && fs[i].value == Str(PrintPieces(ps)) && Meaning(ps) != ""
    ensures Lookup(ObjectText(lead, Members(fs), pad, tail), Meaning(fs[i].key)) == Meaning(ps)
            <==> !HasPair(fs[i].key) && !HasPair(ps)
  {
    hide Lookup, ObjectText, DecodedBody, PrintPieces, Meaning, HasPair, ValidPieces, AllSpace, NamedApart;
    FieldsValid(fs);
    FoundByMeaning(fs, i);
    LooksUpFirst(lead, Members(fs), pad, tail, Meaning(fs[i].key));
    DecodesMeaningIff(ps);
  }

  // ----- an example -----

  lemma ExampleNumbers()
    ensures HexText("D83d") && HexNumber("D83d") == 0xd83d
    ensures HexText("dE00") && HexNumber("dE00") == 0xde00
  {
    hide HexQuad;
    HexSteps("D83d", 0);
    HexSteps("dE00", 0);
  }

  /** The pair d83d de00 in mixed case stands for the code point 1f600, f0 9f 98 80 in UTF-8. */
  function SurrogatePair(): (ps: seq<Piece>)
    ensures ValidPieces(ps)
  {
    ExampleNumbers();
    [Unit("D83d"), Unit("dE00")]
  }

  lemma SurrogatePairExample()
    ensures var ps := SurrogatePair();
            && HasPair(ps) && Meaning(ps) == Utf8Four(0x1f600)
            && DecodedBody(PrintPieces(ps)) == Utf8(0xd83d) + Utf8(0xde00)
            && DecodedBody(PrintPieces(ps)) != Meaning(ps)
  {
    hide HexNumber, HexQuad, HexText, Utf8, Utf8Four;
    var high, low := "D83d", "dE00";
    ExampleNumbers();
    var ps := SurrogatePair();
    assert PairAt(ps, 0);
    assert ps[2..] == [] && ps[1..] == [Unit(low)] && ps[1..][1..] == [];
    DecodesSeparately(ps);
    DecodesMeaningIff(ps);
    assert Meaning(ps) == Utf8Four(0x1f600) + "";
    assert Separately(ps[1..]) == Utf8(0xde00) + "";
  }

  function PairField(): (f: Field)
    ensures ValidField(f)
  {
    PiecesValid(SurrogatePair());
    Field("", [Plain('a')], "", "", Str(PrintPieces(SurrogatePair())), "")
  }

  /** Looked up under "a", the pair does not come back as what it means. */
  lemma PairLookupExample()
    ensures var fs := [PairField()];
            && Valid(Obj(Members(fs), "")) && Meaning(fs[0].key) == "a"
            && Lookup(ObjectText("", Members(fs), "", ""), "a") != Meaning(SurrogatePair()) == Utf8Four(0x1f600)
  {
    hide Utf8Four, Lookup, ObjectText, PrintPieces, HasPair, SurrogatePair;
    var fs := [PairField()];
    SurrogatePairExample();
    var key := [Plain('a')];
    assert key[1..] == [] && Meaning(key) == "a" + "";
    assert NamedApart(fs, 0);
    FieldsValid(fs);
    LookupMeaningIff("", fs, "", "", 0, SurrogatePair());
  }
}
