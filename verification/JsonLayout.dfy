/**
 JSON values with their layout (RFC 8259, sections 2 to 7), and the proof that the scanner finds the
 end of any value, and the members of any object, in a text printed from such a tree.
 */
module JsonLayout {
  import opened JsonReader

  /** A value as it is laid out; strings are kept as they stand between their quotes. */
  datatype Json =
    | Str(body: string)
    | Lit(text: string)
    | Arr(items: seq<Item>, pad: string)
    | Obj(members: seq<Member>, pad: string)

  datatype Item = Item(before: string, value: Json, after: string)

  datatype Member = Member(
    before: string, key: string, afterKey: string, afterColon: string, value: Json, after: string)

  // ----- printing -----

  function Print(v: Json): (t: string)
    decreases v, 1
  {
    match v
    case Str(body) => Quoted(body)
    case Lit(text) => text
    case Arr(items, pad) => "[" + PrintItems(items) + (pad + "]")
    case Obj(members, pad) => "{" + PrintMembers(members) + (pad + "}")
  }

  function Quoted(body: string): string {
    "\"" + body + "\""
  }

  function Comma(more: bool): string {
    if more then "," else ""
  }

  function PrintItems(items: seq<Item>): (t: string)
    decreases items, 0
  {
    if items == [] then "" else
      items[0].before + (Print(items[0].value) + (items[0].after + (Comma(|items| > 1) + PrintItems(items[1..]))))
  }

  function PrintKey(m: Member): string {
    m.before + (Quoted(m.key) + (m.afterKey + (":" + m.afterColon)))
  }

  function PrintMembers(members: seq<Member>): (t: string)
    decreases members, 0
  {
    if members == [] then "" else
      PrintKey(members[0])
      + (Print(members[0].value) + (members[0].after + (Comma(|members| > 1) + PrintMembers(members[1..]))))
  }

  // ----- what may be laid out -----

  predicate AllSpace(t: string) {
    forall i | 0 <= i < |t| :: IsSpace(t[i])
  }

  /** No quote without a backslash before it, and no backslash without a character after it. */
  predicate ValidBody(b: string) {
    b == "" || (if b[0] == '\\' then |b| >= 2 && ValidBody(b[2..]) else b[0] != '"' && ValidBody(b[1..]))
  }

  predicate LiteralChar(ch: char) {
    !IsSpace(ch) && ch !in {'"', '[', ']', '{', '}', ',', ':'}
  }

  /** Numbers, true, false and null, and anything else without structural characters. */
  predicate ValidLiteral(t: string) {
    t != "" && forall i | 0 <= i < |t| :: LiteralChar(t[i])
  }

  predicate Valid(v: Json)
    decreases v, 1
  {
    match v
    case Str(body) => ValidBody(body)
    case Lit(text) => ValidLiteral(text)
    case Arr(items, pad) => AllSpace(pad) && ValidItems(items)
    case Obj(members, pad) => AllSpace(pad) && ValidMembers(members)
  }

  predicate ValidItems(items: seq<Item>)
    decreases items, 0
  {
    items != [] ==>
      AllSpace(items[0].before) && AllSpace(items[0].after) && Valid(items[0].value) && ValidItems(items[1..])
  }

  predicate ValidKey(m: Member) {
    AllSpace(m.before) && AllSpace(m.afterKey) && AllSpace(m.afterColon) && AllSpace(m.after) && ValidBody(m.key)
  }

  predicate ValidMembers(members: seq<Member>)
    decreases members, 0
  {
    members != [] ==> ValidKey(members[0]) && Valid(members[0].value) && ValidMembers(members[1..])
  }

  // ----- fragments of a text -----

  predicate At(text: string, pos: nat, t: string) {
    pos + |t| <= |text| && text[pos..pos + |t|] == t
  }

  lemma AtSplit(text: string, pos: nat, a: string, b: string)
    ensures At(text, pos, a + b) <==> At(text, pos, a) && At(text, pos + |a|, b)
  {
    if At(text, pos, a + b) {
      var t := text[pos..pos + |a| + |b|];
      assert t[..|a|] == a && t[|a|..] == b;
      assert text[pos..pos + |a|] == t[..|a|];
      assert text[pos + |a|..pos + |a| + |b|] == t[|a|..];
    }
    if At(text, pos, a) && At(text, pos + |a|, b) {
      assert text[pos..pos + |a + b|] == text[pos..pos + |a|] + text[pos + |a|..pos + |a| + |b|];
    }
  }

  lemma AtTail(text: string, pos: nat, t: string)
    requires At(text, pos, t) && t != ""
    ensures text[pos] == t[0] && At(text, pos + 1, t[1..])
  {
    assert t == [t[0]] + t[1..];
    AtSplit(text, pos, [t[0]], t[1..]);
    assert text[pos..pos + 1][0] == text[pos];
  }

  // ----- the bracket scanner -----

  /** A place from which scanning outside strings, at this depth, goes on at that place. */
  ghost predicate Skips(text: string, a: nat, b: nat, open: char, close: char, depth: int) {
    ScanFrom(text, a, open, close, depth, false, false) == ScanFrom(text, b, open, close, depth, false, false)
  }

  predicate Brackets(open: char, close: char) {
    (open == '[' && close == ']') || (open == '{' && close == '}')
  }

  lemma {:induction false} PlainSkips(text: string, pos: nat, t: string, open: char, close: char, depth: int)
    requires At(text, pos, t)
    requires forall i | 0 <= i < |t| :: t[i] != '"' && t[i] != open && t[i] != close
    ensures Skips(text, pos, pos + |t|, open, close, depth)
    decreases |t|
  {
    if t != "" {
      AtTail(text, pos, t);
      PlainSkips(text, pos + 1, t[1..], open, close, depth);
    }
  }

  lemma SpaceSkips(text: string, pos: nat, t: string, open: char, close: char, depth: int)
    requires At(text, pos, t) && AllSpace(t) && Brackets(open, close)
    ensures Skips(text, pos, pos + |t|, open, close, depth)
  {
    assert forall i | 0 <= i < |t| :: IsSpace(t[i]);
    PlainSkips(text, pos, t, open, close, depth);
  }

  lemma {:induction false} BodySkips(text: string, pos: nat, b: string, open: char, close: char, depth: int)
    requires At(text, pos, b) && ValidBody(b)
    ensures ScanFrom(text, pos, open, close, depth, true, false)
            == ScanFrom(text, pos + |b|, open, close, depth, true, false)
    decreases |b|
  {
    if b != "" {
      AtTail(text, pos, b);
      if b[0] == '\\' {
        AtTail(text, pos + 1, b[1..]);
        assert b[1..][1..] == b[2..];
        BodySkips(text, pos + 2, b[2..], open, close, depth);
      } else {
        BodySkips(text, pos + 1, b[1..], open, close, depth);
      }
    }
  }

  lemma QuotedParts(text: string, pos: nat, b: string)
    requires At(text, pos, Quoted(b))
    ensures pos + |b| + 2 <= |text| && text[pos] == '"' && At(text, pos + 1, b) && text[pos + 1 + |b|] == '"'
  {
    AtSplit(text, pos, "\"" + b, "\"");
    AtSplit(text, pos, "\"", b);
    AtTail(text, pos, "\"");
    AtTail(text, pos + 1 + |b|, "\"");
  }

  lemma QuotedSkips(text: string, pos: nat, b: string, open: char, close: char, depth: int)
    requires At(text, pos, Quoted(b)) && ValidBody(b) && Brackets(open, close)
    ensures Skips(text, pos, pos + |Quoted(b)|, open, close, depth)
  {
    QuotedParts(text, pos, b);
    BodySkips(text, pos + 1, b, open, close, depth);
  }

  lemma CharSkips(text: string, pos: nat, t: string, open: char, close: char, depth: int)
    requires At(text, pos, t) && (t == "," || t == ":" || t == "") && Brackets(open, close)
    ensures Skips(text, pos, pos + |t|, open, close, depth)
  {
    PlainSkips(text, pos, t, open, close, depth);
  }

  /** An opening bracket, contents that keep the depth, and the closing bracket keep a depth of one or more. */
  lemma BracketsSkip(text: string, pos: nat, mid: nat, o: char, c: char, open: char, close: char, depth: int)
    requires Brackets(o, c) && Brackets(open, close) && depth >= 1
    requires pos < mid < |text| && text[pos] == o && text[mid] == c
    requires Skips(text, pos + 1, mid, open, close, if o == open then depth + 1 else depth)
    ensures Skips(text, pos, mid + 1, open, close, depth)
  {
  }

  /** Any value keeps the depth, whichever kind of bracket is being counted. */
  lemma {:induction false} ValueSkips(v: Json, text: string, pos: nat, open: char, close: char, depth: int)
    requires Valid(v) && At(text, pos, Print(v)) && Brackets(open, close) && depth >= 1
    ensures Skips(text, pos, pos + |Print(v)|, open, close, depth)
    decreases v, 1
  {
    hide ScanFrom, At, PrintItems, PrintMembers, ValidItems, ValidMembers, AllSpace, ValidBody, Skips;
    match v {
      case Str(body) =>
        QuotedSkips(text, pos, body, open, close, depth);
      case Lit(t) =>
        LiteralSkips(text, pos, t, open, close, depth);
      case Arr(items, pad) =>
        BracketParts(text, pos, '[', PrintItems(items), pad, ']');
        ItemsSkip(items, text, pos + 1, open, close, if '[' == open then depth + 1 else depth);
        WrappedSkips(text, pos, '[', PrintItems(items), pad, ']', open, close, depth);
      case Obj(members, pad) =>
        BracketParts(text, pos, '{', PrintMembers(members), pad, '}');
        MembersSkip(members, text, pos + 1, open, close, if '{' == open then depth + 1 else depth);
        WrappedSkips(text, pos, '{', PrintMembers(members), pad, '}', open, close, depth);
    }
  }

  lemma LiteralSkips(text: string, pos: nat, t: string, open: char, close: char, depth: int)
    requires At(text, pos, t) && ValidLiteral(t) && Brackets(open, close)
    ensures Skips(text, pos, pos + |t|, open, close, depth)
  {
    assert forall i | 0 <= i < |t| :: LiteralChar(t[i]);
    PlainSkips(text, pos, t, open, close, depth);
  }

  lemma WrappedSkips(text: string, pos: nat, o: char, inner: string, pad: string, c: char,
                     open: char, close: char, depth: int)
    requires At(text, pos, [o] + inner + (pad + [c])) && AllSpace(pad)
    requires Brackets(o, c) && Brackets(open, close) && depth >= 1
    requires Skips(text, pos + 1, pos + 1 + |inner|, open, close, if o == open then depth + 1 else depth)
    ensures Skips(text, pos, pos + |[o] + inner + (pad + [c])|, open, close, depth)
  {
    hide ScanFrom, At, AllSpace;
    BracketParts(text, pos, o, inner, pad, c);
    SpaceSkips(text, pos + 1 + |inner|, pad, open, close, if o == open then depth + 1 else depth);
    BracketsSkip(text, pos, pos + 1 + |inner| + |pad|, o, c, open, close, depth);
  }

  lemma WrappedEnds(text: string, pos: nat, o: char, inner: string, pad: string, c: char)
    requires At(text, pos, [o] + inner + (pad + [c])) && AllSpace(pad) && Brackets(o, c)
    requires Skips(text, pos + 1, pos + 1 + |inner|, o, c, 1)
    ensures ScanFrom(text, pos, o, c, 0, false, false) == pos + |[o] + inner + (pad + [c])|
    ensures pos < |text| && text[pos] == o
  {
    hide ScanFrom, At, AllSpace;
    BracketParts(text, pos, o, inner, pad, c);
    SpaceSkips(text, pos + 1 + |inner|, pad, o, c, 1);
    OuterBrackets(text, pos, pos + 1 + |inner| + |pad|, o, c);
  }

  lemma BracketParts(text: string, pos: nat, o: char, inner: string, pad: string, c: char)
    requires At(text, pos, [o] + inner + (pad + [c]))
    ensures pos + |inner| + |pad| + 2 <= |text|
    ensures text[pos] == o && At(text, pos + 1, inner) && At(text, pos + 1 + |inner|, pad)
    ensures text[pos + 1 + |inner| + |pad|] == c
  {
    AtSplit(text, pos, [o] + inner, pad + [c]);
    AtSplit(text, pos, [o], inner);
    AtSplit(text, pos + 1 + |inner|, pad, [c]);
    AtTail(text, pos, [o]);
    AtTail(text, pos + 1 + |inner| + |pad|, [c]);
  }

  lemma {:induction false} ItemsSkip(items: seq<Item>, text: string, pos: nat, open: char, close: char, depth: int)
    requires ValidItems(items) && At(text, pos, PrintItems(items)) && Brackets(open, close) && depth >= 1
    ensures Skips(text, pos, pos + |PrintItems(items)|, open, close, depth)
    decreases items, 0
  {
    hide ScanFrom, At;
    if items != [] {
      var i, rest := items[0], PrintItems(items[1..]);
      var comma := Comma(|items| > 1);
      AtSplit(text, pos, i.before, Print(i.value) + (i.after + (comma + rest)));
      SpaceSkips(text, pos, i.before, open, close, depth);
      var p := pos + |i.before|;
      TailSkips(text, p, i.value, i.after, comma, rest, open, close, depth);
      ItemsSkip(items[1..], text, p + |Print(i.value)| + |i.after| + |comma|, open, close, depth);
    }
  }

  lemma {:induction false} MembersSkip(members: seq<Member>, text: string, pos: nat,
                                       open: char, close: char, depth: int)
    requires ValidMembers(members) && At(text, pos, PrintMembers(members)) && Brackets(open, close) && depth >= 1
    ensures Skips(text, pos, pos + |PrintMembers(members)|, open, close, depth)
    decreases members, 0
  {
    hide ScanFrom, At;
    if members != [] {
      var m, rest := members[0], PrintMembers(members[1..]);
      var comma := Comma(|members| > 1);
      AtSplit(text, pos, PrintKey(m), Print(m.value) + (m.after + (comma + rest)));
      KeySkips(text, pos, m, open, close, depth);
      var p := pos + |PrintKey(m)|;
      TailSkips(text, p, m.value, m.after, comma, rest, open, close, depth);
      MembersSkip(members[1..], text, p + |Print(m.value)| + |m.after| + |comma|, open, close, depth);
    }
  }

  /** A value, the space after it and the comma. */
  lemma {:induction false} TailSkips(text: string, p: nat, v: Json, after: string, comma: string, rest: string,
                                     open: char, close: char, depth: int)
    requires At(text, p, Print(v) + (after + (comma + rest)))
    requires Valid(v) && AllSpace(after) && (comma == "," || comma == "") && Brackets(open, close) && depth >= 1
    ensures Skips(text, p, p + |Print(v)| + |after| + |comma|, open, close, depth)
    ensures At(text, p + |Print(v)| + |after| + |comma|, rest)
    decreases v, 2
  {
    hide ScanFrom, At;
    AtSplit(text, p, Print(v), after + (comma + rest));
    AtSplit(text, p + |Print(v)|, after, comma + rest);
    AtSplit(text, p + |Print(v)| + |after|, comma, rest);
    ValueSkips(v, text, p, open, close, depth);
    SpaceSkips(text, p + |Print(v)|, after, open, close, depth);
    CharSkips(text, p + |Print(v)| + |after|, comma, open, close, depth);
  }

  /** The parts of a printed key: where its quotes, its colon and its value are. */
  lemma KeyParts(text: string, pos: nat, m: Member)
    requires At(text, pos, PrintKey(m))
    ensures var q := pos + |m.before|;
            var k := q + |Quoted(m.key)|;
            var c := k + |m.afterKey|;
            && At(text, pos, m.before) && At(text, q, Quoted(m.key)) && At(text, k, m.afterKey)
            && At(text, c, ":") && c < |text| && text[c] == ':' && At(text, c + 1, m.afterColon)
            && c + 1 + |m.afterColon| == pos + |PrintKey(m)|
  {
    AtSplit(text, pos, m.before, Quoted(m.key) + (m.afterKey + (":" + m.afterColon)));
    var q := pos + |m.before|;
    AtSplit(text, q, Quoted(m.key), m.afterKey + (":" + m.afterColon));
    var k := q + |Quoted(m.key)|;
    AtSplit(text, k, m.afterKey, ":" + m.afterColon);
    AtSplit(text, k + |m.afterKey|, ":", m.afterColon);
    AtTail(text, k + |m.afterKey|, ":");
  }

  lemma KeySkips(text: string, pos: nat, m: Member, open: char, close: char, depth: int)
    requires At(text, pos, PrintKey(m)) && ValidKey(m) && Brackets(open, close)
    ensures Skips(text, pos, pos + |PrintKey(m)|, open, close, depth)
  {
    hide ScanFrom, At;
    KeyParts(text, pos, m);
    var q := pos + |m.before|;
    var k := q + |Quoted(m.key)|;
    var c := k + |m.afterKey|;
    SpaceSkips(text, pos, m.before, open, close, depth);
    QuotedSkips(text, q, m.key, open, close, depth);
    SpaceSkips(text, k, m.afterKey, open, close, depth);
    CharSkips(text, c, ":", open, close, depth);
    SpaceSkips(text, c + 1, m.afterColon, open, close, depth);
  }

  // ----- the end of a value -----

  lemma {:induction false} StringEnds(text: string, pos: nat, b: string)
    requires At(text, pos, b) && ValidBody(b) && pos + |b| < |text| && text[pos + |b|] == '"'
    ensures StringEndFrom(text, pos, false) == pos + |b| + 1
    decreases |b|
  {
    if b != "" {
      AtTail(text, pos, b);
      if b[0] == '\\' {
        AtTail(text, pos + 1, b[1..]);
        assert b[1..][1..] == b[2..];
        StringEnds(text, pos + 2, b[2..]);
      } else {
        StringEnds(text, pos + 1, b[1..]);
      }
    }
  }

  /** What follows a value inside an object: space, then a comma, a closing brace or the end of the text. */
  ghost predicate EndsScalar(text: string, pos: nat) {
    var p := SkipSpace(text, pos);
    p == |text| || (p < |text| && ScalarStop(text[p]))
  }

  lemma {:induction false} ScalarRuns(text: string, pos: nat, t: string)
    requires At(text, pos, t) && forall i | 0 <= i < |t| :: !ScalarStop(t[i])
    ensures ScalarRun(text, pos) == ScalarRun(text, pos + |t|)
    decreases |t|
  {
    if t != "" {
      AtTail(text, pos, t);
      ScalarRuns(text, pos + 1, t[1..]);
    }
  }

  lemma {:induction false} SpaceRuns(text: string, start: nat, pos: nat)
    requires start <= pos <= |text|
    ensures ScalarRun(text, pos) == ScalarRun(text, SkipSpace(text, pos))
    ensures TrimBack(text, start, SkipSpace(text, pos)) == TrimBack(text, start, pos)
    decreases |text| - pos
  {
    if pos < |text| && IsSpace(text[pos]) {
      SpaceRuns(text, start, pos + 1);
    }
  }

  lemma LiteralEnds(text: string, pos: nat, t: string)
    requires At(text, pos, t) && ValidLiteral(t) && EndsScalar(text, pos + |t|)
    ensures ValueEndOf(text, pos) == pos + |t|
  {
    assert LiteralChar(t[0]) && LiteralChar(t[|t| - 1]);
    assert text[pos] == text[pos..pos + |t|][0] && text[pos + |t| - 1] == text[pos..pos + |t|][|t| - 1];
    assert forall i | 0 <= i < |t| :: LiteralChar(t[i]);
    ScalarRuns(text, pos, t);
    SpaceRuns(text, pos, pos + |t|);
  }

  /**
   The scanner finds the end of any value: of strings, arrays and objects whatever follows them, and
   of other scalars when what ends them inside an object follows.
   */
  lemma ValueEnds(v: Json, text: string, pos: nat)
    requires Valid(v) && At(text, pos, Print(v))
    requires v.Lit? ==> EndsScalar(text, pos + |Print(v)|)
    ensures ValueEndOf(text, pos) == pos + |Print(v)|
  {
    hide ScanFrom, At, SkipSpace, TrimBack, ScalarRun, StringEndFrom, PrintItems, PrintMembers, ValidItems,
         ValidMembers, AllSpace, ValidBody, ValidLiteral, Skips, EndsScalar;
    match v {
      case Str(body) =>
        QuotedParts(text, pos, body);
        StringEnds(text, pos + 1, body);
      case Lit(t) =>
        LiteralEnds(text, pos, t);
      case Arr(items, pad) =>
        BracketParts(text, pos, '[', PrintItems(items), pad, ']');
        ItemsSkip(items, text, pos + 1, '[', ']', 1);
        WrappedEnds(text, pos, '[', PrintItems(items), pad, ']');
      case Obj(members, pad) =>
        BracketParts(text, pos, '{', PrintMembers(members), pad, '}');
        MembersSkip(members, text, pos + 1, '{', '}', 1);
        WrappedEnds(text, pos, '{', PrintMembers(members), pad, '}');
    }
  }

  lemma OuterBrackets(text: string, pos: nat, mid: nat, open: char, close: char)
    requires Brackets(open, close) && pos < mid < |text| && text[pos] == open && text[mid] == close
    requires Skips(text, pos + 1, mid, open, close, 1)
    ensures ScanFrom(text, pos, open, close, 0, false, false) == mid + 1
  {
  }
}
