/**
 The scanner inverts the escaper, and looking a key up in a printed object returns what was printed
 for the first member of that name.
 */
module JsonLookup {
  import opened Common
  import opened JsonReader
  import opened JsonLayout

  // ----- decoding is local -----

  lemma DecodeOneLocal(text: string, pos: nat, other: string, at: nat, n: nat)
    requires n >= 2 && pos + n <= |text| && at + n <= |other|
    requires text[pos..pos + n] == other[at..at + n]
    ensures DecodeOne(text, pos, pos + n).0 == DecodeOne(other, at, at + n).0
    ensures DecodeOne(text, pos, pos + n).1 - pos == DecodeOne(other, at, at + n).1 - at
  {
    hide SimpleEscape, Utf8, HexQuad;
    SameChar(text, pos, other, at, n, 0);
    SameChar(text, pos, other, at, n, 1);
    if n >= 6 {
      SameChar(text, pos, other, at, n, 2);
      SameChar(text, pos, other, at, n, 3);
      SameChar(text, pos, other, at, n, 4);
      SameChar(text, pos, other, at, n, 5);
      HexLocal(text, pos + 2, other, at + 2);
    }
  }

  lemma SameChar(text: string, pos: nat, other: string, at: nat, n: nat, k: nat)
    requires k < n && pos + n <= |text| && at + n <= |other|
    requires text[pos..pos + n] == other[at..at + n]
    ensures text[pos + k] == other[at + k]
  {
    assert text[pos..pos + n][k] == other[at..at + n][k];
  }

  lemma HexLocal(text: string, pos: nat, other: string, at: nat)
    requires pos + 4 <= |text| && at + 4 <= |other|
    requires text[pos] == other[at] && text[pos + 1] == other[at + 1]
    requires text[pos + 2] == other[at + 2] && text[pos + 3] == other[at + 3]
    ensures HexQuad(text, pos) == HexQuad(other, at)
  {
    hide HexValue, HexQuad;
    HexSteps(text, pos);
    HexSteps(other, at);
  }

  lemma HexSteps(text: string, pos: nat)
    requires pos + 4 <= |text|
    ensures var a, b := HexValue(text[pos]), HexValue(text[pos + 1]);
            var c, d := HexValue(text[pos + 2]), HexValue(text[pos + 3]);
            HexQuad(text, pos) == if a < 0 || b < 0 || c < 0 || d < 0 then -1 else ((a * 16 + b) * 16 + c) * 16 + d
  {
    hide HexValue;
    assert HexRun(text, pos, 0) == 0;
    assert HexRun(text, pos, 1) == HexValue(text[pos]);
    assert HexRun(text, pos, 3) == if HexRun(text, pos, 2) < 0 || HexValue(text[pos + 2]) < 0 then -1
                                   else HexRun(text, pos, 2) * 16 + HexValue(text[pos + 2]);
  }

  lemma {:induction false} DecodeLocal(text: string, pos: nat, other: string, at: nat, n: nat)
    requires pos + n <= |text| && at + n <= |other|
    requires text[pos..pos + n] == other[at..at + n]
    ensures DecodeFrom(text, pos, pos + n) == DecodeFrom(other, at, at + n)
    decreases n
  {
    hide DecodeOne;
    if n >= 2 {
      DecodeOneLocal(text, pos, other, at, n);
      var d := DecodeOne(text, pos, pos + n).1 - pos;
      assert text[pos + d..pos + n] == text[pos..pos + n][d..];
      assert other[at + d..at + n] == other[at..at + n][d..];
      DecodeLocal(text, pos + d, other, at + d, n - d);
    }
  }

  /** What a string body decodes to, wherever it stands. */
  function DecodedBody(b: string): string {
    Decoded(Quoted(b), 0, |b| + 2)
  }

  lemma DecodedAnywhere(text: string, pos: nat, b: string)
    requires At(text, pos, Quoted(b))
    ensures Decoded(text, pos, pos + |b| + 2) == DecodedBody(b)
  {
    hide DecodeFrom, StringEndFrom;
    QuotedParts(text, pos, b);
    var t := Quoted(b);
    var n := |b| + 1;
    assert text[pos + 1..pos + 1 + n] == text[pos..pos + |t|][1..1 + n];
    assert t[1..1 + n] == text[pos + 1..pos + 1 + n];
    DecodeLocal(text, pos + 1, t, 1, n);
    assert t[0] == '"';
  }

  // ----- escaping and decoding -----

  lemma HexDigitValue(n: nat)
    requires n < 16
    ensures HexValue(HexDigit(n)) == n
  {
  }

  /** Four hexadecimal digits, in either case. */
  predicate HexText(t: string) {
    |t| == 4 && forall i | 0 <= i < 4 :: HexValue(t[i]) >= 0
  }

  function HexNumber(t: string): (v: nat)
    requires HexText(t)
    ensures v <= 0xffff
  {
    HexSteps(t, 0);
    HexQuad(t, 0)
  }

  /** A complete \u escape decodes to the bytes of its number, whatever the case of its digits. */
  lemma UnicodeEscape(text: string, pos: nat, end: nat, hex: string)
    requires HexText(hex) && pos + 6 < end <= |text| && At(text, pos, "\\u" + hex)
    ensures DecodeOne(text, pos, end) == (Utf8(HexNumber(hex)), pos + 6)
  {
    hide Utf8, HexQuad, HexValue;
    AtSplit(text, pos, "\\u", hex);
    AtTail(text, pos, "\\u");
    AtTail(text, pos + 1, "\\u"[1..]);
    assert text[pos + 2..pos + 6] == hex[0..4];
    SameChar(text, pos + 2, hex, 0, 4, 0);
    SameChar(text, pos + 2, hex, 0, 4, 1);
    SameChar(text, pos + 2, hex, 0, 4, 2);
    SameChar(text, pos + 2, hex, 0, 4, 3);
    HexLocal(text, pos + 2, hex, 0);
  }

  /** The four hexadecimal digits of a number below 0x10000, as the escaper writes them. */
  function Hex4(v: nat): (t: string)
    requires v <= 0xffff
    ensures |t| == 4
  {
    [HexDigit(v / 4096), HexDigit(v / 256 % 16), HexDigit(v / 16 % 16), HexDigit(v % 16)]
  }

  lemma HexNumberOf(v: nat)
    requires v <= 0xffff
    ensures HexText(Hex4(v)) && HexNumber(Hex4(v)) == v
  {
    hide HexDigit, HexValue, HexQuad;
    HexSteps(Hex4(v), 0);
    HexDigitValue(v / 4096);
    HexDigitValue(v / 256 % 16);
    HexDigitValue(v / 16 % 16);
    HexDigitValue(v % 16);
    assert v / 16 / 16 == v / 256 && v / 256 / 16 == v / 4096;
  }

  lemma ControlEscape(ch: char)
    requires ch as int < 0x20 && ch !in {BACKSPACE, FORM_FEED, '\n', '\r', '\t'}
    ensures EscapeChar(ch) == "\\u" + Hex4(ch as int) && Utf8(ch as int) == [ch]
  {
    var v := ch as int;
    assert v / 4096 == 0 && v / 256 == 0;
    assert Hex4(v) == ['0', '0', HexDigit(v / 16 % 16), HexDigit(v % 16)];
  }

  lemma DecodesEscapeChar(text: string, pos: nat, end: nat, ch: char)
    requires At(text, pos, EscapeChar(ch)) && pos + |EscapeChar(ch)| < end <= |text|
    ensures DecodeOne(text, pos, end) == ([ch], pos + |EscapeChar(ch)|)
  {
    hide Hex4, HexQuad, HexNumber, HexText, Utf8;
    var e := EscapeChar(ch);
    if ch as int < 0x20 && ch !in {BACKSPACE, FORM_FEED, '\n', '\r', '\t'} {
      ControlEscape(ch);
      HexNumberOf(ch as int);
      UnicodeEscape(text, pos, end, Hex4(ch as int));
    } else {
      AtTail(text, pos, e);
      if |e| == 2 {
        AtTail(text, pos + 1, e[1..]);
      }
    }
  }

  lemma {:induction false} DecodesEscape(text: string, pos: nat, s: string)
    requires At(text, pos, Escape(s)) && pos + |Escape(s)| + 1 <= |text|
    ensures DecodeFrom(text, pos, pos + |Escape(s)| + 1) == s
    decreases |s|
  {
    hide EscapeChar, DecodeOne;
    if s != "" {
      var end := pos + |Escape(s)| + 1;
      AtSplit(text, pos, EscapeChar(s[0]), Escape(s[1..]));
      DecodesEscapeChar(text, pos, end, s[0]);
      DecodesEscape(text, pos + |EscapeChar(s[0])|, s[1..]);
    }
  }

  /** Decoding inverts escaping on every byte string. */
  lemma DecodeInvertsEscape(s: string)
    ensures DecodedBody(Escape(s)) == s
  {
    hide DecodeFrom, Escape;
    var t := Quoted(Escape(s));
    assert At(t, 0, t);
    QuotedParts(t, 0, Escape(s));
    DecodesEscape(t, 1, s);
  }

  lemma {:induction false} BodyAppend(a: string, b: string)
    requires ValidBody(a) && ValidBody(b)
    ensures ValidBody(a + b)
    decreases |a|
  {
    if a == "" {
      assert a + b == b;
    } else if a[0] == '\\' {
      BodyAppend(a[2..], b);
      assert (a + b)[2..] == a[2..] + b;
    } else {
      BodyAppend(a[1..], b);
      assert (a + b)[1..] == a[1..] + b;
    }
  }

  lemma EscapeCharValid(ch: char)
    ensures ValidBody(EscapeChar(ch))
  {
    var e := EscapeChar(ch);
    if |e| == 6 {
      var tail := e[2..];
      assert tail[1..][1..][1..][1..] == "";
      assert ValidBody(tail[1..][1..]);
      assert ValidBody(tail);
    } else if |e| == 2 {
      assert e[2..] == "";
    } else {
      assert e[1..] == "";
    }
  }

  /** Escaped text is a string body: it never closes the string it is put in. */
  lemma {:induction false} EscapeValid(s: string)
    ensures ValidBody(Escape(s))
  {
    hide EscapeChar;
    if s != "" {
      EscapeCharValid(s[0]);
      EscapeValid(s[1..]);
      BodyAppend(EscapeChar(s[0]), Escape(s[1..]));
    }
  }

  // ----- looking up members -----

  lemma {:induction false} SkipsSpace(text: string, pos: nat, t: string)
    requires At(text, pos, t) && AllSpace(t)
    ensures SkipSpace(text, pos) == SkipSpace(text, pos + |t|)
    decreases |t|
  {
    if t != "" {
      AtTail(text, pos, t);
      SkipsSpace(text, pos + 1, t[1..]);
    }
  }

  /** The space t at pos is followed by something else. */
  lemma SkipsTo(text: string, pos: nat, t: string)
    requires At(text, pos, t) && AllSpace(t)
    requires pos + |t| < |text| && !IsSpace(text[pos + |t|])
    ensures SkipSpace(text, pos) == pos + |t|
  {
    SkipsSpace(text, pos, t);
  }

  lemma StartsValue(v: Json, text: string, pos: nat)
    requires Valid(v) && At(text, pos, Print(v))
    ensures pos < |text| && |Print(v)| > 0 && !IsSpace(text[pos]) && (text[pos] == '"' <==> v.Str?)
  {
    hide At, PrintItems, PrintMembers, ValidItems, ValidMembers, ValidBody;
    AtTail(text, pos, Print(v));
    if v.Lit? {
      assert LiteralChar(v.text[0]);
    }
  }

  /** The value of the first member whose key decodes to the given name. */
  function FirstNamed(members: seq<Member>, name: string): Option<Json> {
    if members == [] then None
    else if DecodedBody(members[0].key) == name then Some(members[0].value)
    else FirstNamed(members[1..], name)
  }

  /** A range of the text that holds exactly the printed value, if there is one to be found. */
  ghost predicate Locates(text: string, r: Option<(nat, nat)>, v: Option<Json>) {
    match v
    case None => r == None
    case Some(v) => r.Some? && At(text, r.value.0, Print(v)) && r.value.1 == r.value.0 + |Print(v)|
  }

  /** Where the scan of one member leads: key, value, and the place of the comma or brace after it. */
  lemma OneMember(m: Member, text: string, pos: nat, gap: string, stop: char, name: string)
    requires ValidKey(m) && Valid(m.value) && AllSpace(gap) && ScalarStop(stop)
    requires At(text, pos, PrintKey(m) + (Print(m.value) + (gap + [stop])))
    ensures var start := pos + |PrintKey(m)|;
            var end := start + |Print(m.value)|;
            var s := end + |gap|;
            && s < |text| && text[s] == stop
            && At(text, start, Print(m.value))
            && FindFrom(text, pos, name) ==
               if DecodedBody(m.key) == name then Some((start, end))
               else FindFrom(text, if stop == ',' then s + 1 else s, name)
  {
    hide At, AllSpace, ValidBody, ValidKey, Valid, Print, PrintKey, SkipSpace, Decoded, DecodedBody, ValueEndOf,
         StringEndFrom, FindFrom, IsSpace;
    AtSplit(text, pos, PrintKey(m), Print(m.value) + (gap + [stop]));
    var start := pos + |PrintKey(m)|;
    AtSplit(text, start, Print(m.value), gap + [stop]);
    var end := start + |Print(m.value)|;
    AtSplit(text, end, gap, [stop]);
    AtTail(text, end + |gap|, [stop]);
    StartsValue(m.value, text, start);
    KeyFront(m, text, pos);
    var q := pos + |m.before|;
    KeyString(text, q, m.key);
    var k := q + |Quoted(m.key)|;
    var c := KeyBack(m, text, pos, k);
    StopIsNoSpace(stop);
    SkipsTo(text, end, gap);
    ValueEnds(m.value, text, start);
    FindStep(text, pos, q, k, c, start, end, end + |gap|, name);
  }

  lemma StopIsNoSpace(stop: char)
    requires ScalarStop(stop)
    ensures !IsSpace(stop)
  {
  }

  /** Where the scan of a key finds its quoted text. */
  lemma KeyFront(m: Member, text: string, pos: nat)
    requires At(text, pos, PrintKey(m)) && ValidKey(m)
    ensures At(text, pos + |m.before|, Quoted(m.key)) && ValidBody(m.key)
    ensures SkipSpace(text, pos) == pos + |m.before|
  {
    assert !IsSpace('"');
    hide At, AllSpace, ValidBody, SkipSpace, PrintKey, ValidKey, IsSpace;
    KeySpaces(m);
    KeyParts(text, pos, m);
    QuotedParts(text, pos + |m.before|, m.key);
    SkipsTo(text, pos, m.before);
  }

  /** Where it goes on from there: the colon and the value. */
  lemma KeyBack(m: Member, text: string, pos: nat, k: nat) returns (c: nat)
    requires At(text, pos, PrintKey(m)) && ValidKey(m)
    requires k == pos + |m.before| + |Quoted(m.key)|
    requires pos + |PrintKey(m)| < |text| && !IsSpace(text[pos + |PrintKey(m)|])
    ensures k <= c < pos + |PrintKey(m)|
    ensures SkipSpace(text, k) == c && text[c] == ':'
    ensures SkipSpace(text, c + 1) == pos + |PrintKey(m)|
  {
    assert !IsSpace(':');
    hide At, AllSpace, ValidBody, SkipSpace, PrintKey, ValidKey, IsSpace, Quoted;
    KeySpaces(m);
    KeyParts(text, pos, m);
    c := k + |m.afterKey|;
    SkipsTo(text, k, m.afterKey);
    SkipsTo(text, c + 1, m.afterColon);
  }

  lemma KeyString(text: string, q: nat, b: string)
    requires At(text, q, Quoted(b)) && ValidBody(b)
    ensures q < q + |Quoted(b)| <= |text| && text[q] == '"'
    ensures StringEndFrom(text, q + 1, false) == q + |Quoted(b)|
    ensures Decoded(text, q, q + |Quoted(b)|) == DecodedBody(b)
  {
    hide At, ValidBody, Decoded, DecodedBody, StringEndFrom;
    QuotedParts(text, q, b);
    StringEnds(text, q + 1, b);
    DecodedAnywhere(text, q, b);
  }

  lemma FindStep(text: string, pos: nat, q: nat, k: nat, c: nat, start: nat, end: nat, s: nat, name: string)
    requires pos <= q < k <= c < start <= end <= s < |text|
    requires SkipSpace(text, pos) == q && text[q] == '"' && StringEndFrom(text, q + 1, false) == k
    requires SkipSpace(text, k) == c && text[c] == ':' && SkipSpace(text, c + 1) == start
    requires ValueEndOf(text, start) == end && SkipSpace(text, end) == s
    ensures FindFrom(text, pos, name) ==
            if Decoded(text, q, k) == name then Some((start, end))
            else FindFrom(text, if text[s] == ',' then s + 1 else s, name)
  {
    hide SkipSpace, StringEndFrom, ValueEndOf, Decoded;
  }

  lemma BraceEndsSearch(text: string, pos: nat, pad: string, name: string)
    requires At(text, pos, pad + "}") && AllSpace(pad)
    ensures FindFrom(text, pos, name) == None
  {
    hide At, AllSpace, Decoded, ValueEndOf, StringEndFrom;
    AtSplit(text, pos, pad, "}");
    AtTail(text, pos + |pad|, "}");
    SkipsTo(text, pos, pad);
  }

  lemma {:induction false} FindsMember(members: seq<Member>, text: string, pos: nat, pad: string, name: string)
    requires ValidMembers(members) && AllSpace(pad) && At(text, pos, PrintMembers(members) + (pad + "}"))
    ensures Locates(text, FindFrom(text, pos, name), FirstNamed(members, name))
    decreases |members|
  {
    hide At, Print, PrintKey, FindFrom, DecodedBody, Valid, ValidKey, AllSpace;
    if members == [] {
      assert PrintMembers(members) + (pad + "}") == pad + "}";
      BraceEndsSearch(text, pos, pad, name);
    } else {
      var m := members[0];
      assert AllSpace(m.after) by { KeySpaces(m); }
      var gap := if |members| == 1 then m.after + pad else m.after;
      var stop := if |members| == 1 then '}' else ',';
      var rest := if |members| == 1 then "" else PrintMembers(members[1..]) + (pad + "}");
      MembersText(members, pad);
      SpaceAppend(m.after, pad);
      var head := PrintKey(m) + (Print(m.value) + (gap + [stop]));
      AtSplit(text, pos, head, rest);
      OneMember(m, text, pos, gap, stop, name);
      if |members| == 1 {
        assert members[1..] == [];
        StopBrace(text, pos + |head| - 1, name);
      } else {
        FindsMember(members[1..], text, pos + |head|, pad, name);
      }
    }
  }

  lemma KeySpaces(m: Member)
    requires ValidKey(m)
    ensures AllSpace(m.before) && AllSpace(m.afterKey) && AllSpace(m.afterColon) && AllSpace(m.after)
    ensures ValidBody(m.key)
  {
  }

  lemma SpaceAppend(a: string, b: string)
    requires AllSpace(a) && AllSpace(b)
    ensures AllSpace(a + b)
  {
  }

  lemma StopBrace(text: string, s: nat, name: string)
    requires s < |text| && text[s] == '}'
    ensures FindFrom(text, s, name) == None
  {
    assert text[s..s + 1] == "" + "}";
    BraceEndsSearch(text, s, "", name);
  }

  /** Members printed before the closing brace: the first one with its gap and stop, then the others. */
  lemma MembersText(members: seq<Member>, pad: string)
    requires members != []
    ensures var m := members[0];
            PrintMembers(members) + (pad + "}") ==
            (if |members| == 1 then PrintKey(m) + (Print(m.value) + ((m.after + pad) + "}")) + ""
             else PrintKey(m) + (Print(m.value) + (m.after + ",")) + (PrintMembers(members[1..]) + (pad + "}")))
  {
    hide Print, PrintKey;
    var m := members[0];
    if |members| == 1 {
      assert members[1..] == [] && PrintMembers(members[1..]) == "";
      RegroupLast(PrintKey(m), Print(m.value), m.after, pad);
    } else {
      RegroupMore(PrintKey(m), Print(m.value), m.after, PrintMembers(members[1..]), pad + "}");
    }
  }

  lemma RegroupLast(k: string, v: string, a: string, pad: string)
    ensures k + (v + (a + (Comma(false) + ""))) + (pad + "}") == k + (v + ((a + pad) + "}")) + ""
  {
    assert a + (Comma(false) + "") == a;
    assert v + a + (pad + "}") == v + ((a + pad) + "}");
    assert k + (v + a) + (pad + "}") == k + (v + a + (pad + "}"));
  }

  lemma RegroupMore(k: string, v: string, a: string, rest: string, close: string)
    ensures k + (v + (a + (Comma(true) + rest))) + close == k + (v + (a + ",")) + (rest + close)
  {
    assert a + (Comma(true) + rest) == (a + ",") + rest;
    assert v + ((a + ",") + rest) == (v + (a + ",")) + rest;
    var u := v + (a + ",");
    assert k + (u + rest) + close == k + u + (rest + close);
  }

  lemma BraceIsNoSpace()
    ensures !IsSpace('{')
  {
  }

  /** The text of an object with space before it and anything after it. */
  function ObjectText(lead: string, members: seq<Member>, pad: string, tail: string): string {
    lead + (Print(Obj(members, pad)) + tail)
  }

  /** Where the members of a printed object begin. */
  lemma ObjectPlaces(lead: string, inner: string, pad: string, tail: string)
    requires AllSpace(lead)
    ensures var text := lead + (("{" + inner + (pad + "}")) + tail);
            && |lead| < |text| && SkipSpace(text, 0) == |lead| && text[|lead|] == '{'
            && At(text, |lead| + 1, inner + (pad + "}"))
  {
    var printed := "{" + inner + (pad + "}");
    var text := lead + (printed + tail);
    assert At(text, 0, text);
    BraceIsNoSpace();
    hide At, AllSpace, SkipSpace, IsSpace;
    AtSplit(text, 0, lead, printed + tail);
    AtSplit(text, |lead|, printed, tail);
    assert printed == "{" + (inner + (pad + "}"));
    AtSplit(text, |lead|, "{", inner + (pad + "}"));
    AtTail(text, |lead|, "{");
    SkipsTo(text, 0, lead);
  }

  /** Looking a name up finds exactly the text of the first member of that name, or nothing. */
  lemma FindsFirst(lead: string, members: seq<Member>, pad: string, tail: string, name: string)
    requires AllSpace(lead) && Valid(Obj(members, pad))
    ensures var text := ObjectText(lead, members, pad, tail);
            Locates(text, FindMember(text, name), FirstNamed(members, name))
  {
    hide FindFrom, FirstNamed, PrintMembers, ValidMembers, At, AllSpace, SkipSpace, IsSpace, Locates;
    ObjectPlaces(lead, PrintMembers(members), pad, tail);
    FindsMember(members, ObjectText(lead, members, pad, tail), |lead| + 1, pad, name);
  }

  /** The result of string(name): the decoded body when the first such member is a string, else nothing. */
  lemma LooksUpFirst(lead: string, members: seq<Member>, pad: string, tail: string, name: string)
    requires AllSpace(lead) && Valid(Obj(members, pad))
    ensures Lookup(ObjectText(lead, members, pad, tail), name) ==
            match FirstNamed(members, name)
            case Some(Str(body)) => DecodedBody(body)
            case _ => ""
  {
    hide FindMember, ObjectText, Decoded, DecodedBody, At, StringEndFrom;
    var text := ObjectText(lead, members, pad, tail);
    FindsFirst(lead, members, pad, tail, name);
    var found := FirstNamed(members, name);
    if found.Some? {
      FirstValid(members, name);
      var start := FindMember(text, name).value.0;
      StartsValue(found.value, text, start);
      if found.value.Str? {
        DecodedAnywhere(text, start, found.value.body);
      }
    }
  }

  lemma {:induction false} FirstValid(members: seq<Member>, name: string)
    requires ValidMembers(members) && FirstNamed(members, name).Some?
    ensures Valid(FirstNamed(members, name).value)
    decreases |members|
  {
    hide DecodedBody, ValidKey;
    if DecodedBody(members[0].key) != name {
      FirstValid(members[1..], name);
    }
  }

  lemma {:induction false} FirstNamedEscaped(members: seq<Member>, names: seq<string>, i: nat)
    requires |members| == |names| && forall j | 0 <= j < |names| :: members[j].key == Escape(names[j])
    requires i <= |names|
    ensures i < |names| && names[i] !in names[..i] ==> FirstNamed(members, names[i]) == Some(members[i].value)
    ensures forall name | name !in names :: FirstNamed(members, name) == None
    decreases |members|
  {
    hide DecodedBody, Escape;
    if members != [] {
      DecodeInvertsEscape(names[0]);
      FirstNamedEscaped(members[1..], names[1..], if i > 0 then i - 1 else 0);
      if i > 0 && i < |names| && names[i] !in names[..i] {
        assert names[0] == names[..i][0];
        assert names[1..][..i - 1] == names[..i][1..];
      }
    }
  }

  /**
   Round trip: with escaped keys and strings, a name returns the original bytes of the first member of
   that name if it is a string, and nothing if that member is not a string or there is none.
   */
  lemma LookupRoundTrip(lead: string, members: seq<Member>, pad: string, tail: string, names: seq<string>, i: nat)
    requires AllSpace(lead) && Valid(Obj(members, pad))
    requires |members| == |names| && forall j | 0 <= j < |names| :: members[j].key == Escape(names[j])
    requires i < |names| && names[i] !in names[..i]
    ensures var text := ObjectText(lead, members, pad, tail);
            && (forall s | members[i].value == Str(Escape(s)) :: Lookup(text, names[i]) == s)
            && (!members[i].value.Str? ==> Lookup(text, names[i]) == "")
            && (forall name | name !in names :: Lookup(text, name) == "")
  {
    hide ObjectText, Lookup, DecodedBody, Escape;
    FirstNamedEscaped(members, names, i);
    LooksUpFirst(lead, members, pad, tail, names[i]);
    forall s | members[i].value == Str(Escape(s))
      ensures Lookup(ObjectText(lead, members, pad, tail), names[i]) == s
    {
      DecodeInvertsEscape(s);
    }
    forall name | name !in names
      ensures Lookup(ObjectText(lead, members, pad, tail), name) == ""
    {
      LooksUpFirst(lead, members, pad, tail, name);
    }
  }
}
