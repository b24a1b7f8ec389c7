/**
 The light wallet's hand-written JSON scanner and escaper. Text is a string in which each character
 stands for one byte.
 */
module JsonReader {
  import opened Common

  // ----- characters -----

  /** isspace in the C locale. */
  predicate IsSpace(ch: char) {
    ch == ' ' || 9 <= ch as int <= 13
  }

  function HexDigit(n: nat): (ch: char)
    requires n < 16
  {
    if n < 10 then (n + 48) as char else (n + 87) as char
  }

  /** The value of a hexadecimal digit in either case, or -1. */
  function HexValue(ch: char): (v: int)
    ensures -1 <= v < 16
  {
    if '0' <= ch <= '9' then ch as int - 48
    else if 'a' <= ch <= 'f' then ch as int - 87
    else if 'A' <= ch <= 'F' then ch as int - 55
    else -1
  }

  lemma SpacesAre(ch: char)
    ensures IsSpace(ch) <==> ch in {' ', '\t', '\n', 11 as char, 12 as char, '\r'}
  {
  }

  /** The sixteen digits in either case, and their values. */
  lemma HexValueIs(ch: char, v: nat)
    requires v < 16
    ensures HexValue(ch) == v <==> ch == "0123456789abcdef"[v] || ch == "0123456789ABCDEF"[v]
    ensures HexDigit(v) == "0123456789abcdef"[v]
  {
  }

  const BACKSPACE := 8 as char
  const FORM_FEED := 12 as char

  // ----- escaping -----

  function EscapeChar(ch: char): (t: string)
    ensures 0 < |t| <= 6
  {
    if ch == '\\' then "\\\\"
    else if ch == '"' then "\\\""
    else if ch == BACKSPACE then "\\b"
    else if ch == FORM_FEED then "\\f"
    else if ch == '\n' then "\\n"
    else if ch == '\r' then "\\r"
    else if ch == '\t' then "\\t"
    else if ch as int < 0x20 then ['\\', 'u', '0', '0', HexDigit(ch as int / 16 % 16), HexDigit(ch as int % 16)]
    else [ch]
  }

  function Escape(value: string): (out: string) {
    if value == [] then [] else EscapeChar(value[0]) + Escape(value[1..])
  }

  lemma {:induction false} EscapeAppend(value: string, ch: char)
    ensures Escape(value + [ch]) == Escape(value) + EscapeChar(ch)
  {
    if value == [] {
      assert value + [ch] == [ch] && [ch][1..] == [];
      assert Escape([]) == [];
    } else {
      assert (value + [ch])[1..] == value[1..] + [ch];
      EscapeAppend(value[1..], ch);
    }
  }

  method JsonEscape(value: string) returns (out: string)
    ensures out == Escape(value)
  {
    hide EscapeChar;
    out := "";
    for i := 0 to |value|
      invariant out == Escape(value[..i])
    {
      EscapeAppend(value[..i], value[i]);
      assert value[..i + 1] == value[..i] + [value[i]];
      out := out + EscapeChar(value[i]);
    }
    assert value[..|value|] == value;
  }

  // ----- UTF-8 -----

  /** The bytes of a code point below 0x10000, surrogates included. */
  function Utf8(value: nat): (t: string)
    requires value <= 0xffff
    ensures 1 <= |t| <= 3
  {
    if value <= 0x7f then [value as char]
    else if value <= 0x7ff then [(0xc0 + value / 64) as char, (0x80 + value % 64) as char]
    else [(0xe0 + value / 4096) as char, (0x80 + value / 64 % 64) as char, (0x80 + value % 64) as char]
  }

  /** What a byte string means by the table of section 3 of RFC 3629. */
  function Utf8Meaning(t: string): int {
    if |t| == 1 && t[0] as int < 0x80 then t[0] as int
    else if |t| == 2 && 0xc0 <= t[0] as int < 0xe0 then (t[0] as int - 0xc0) * 64 + (t[1] as int - 0x80)
    else if |t| == 3 && 0xe0 <= t[0] as int < 0xf0 then
      (t[0] as int - 0xe0) * 4096 + (t[1] as int - 0x80) * 64 + (t[2] as int - 0x80)
    else if |t| == 4 && 0xf0 <= t[0] as int < 0xf8 then
      (t[0] as int - 0xf0) * 262144 + (t[1] as int - 0x80) * 4096 + (t[2] as int - 0x80) * 64 + (t[3] as int - 0x80)
    else -1
  }

  /** The written bytes mean the value, are no longer than they must be, and have continuation bytes after the first. */
  lemma Utf8Means(value: nat)
    requires value <= 0xffff
    ensures var t := Utf8(value);
            && Utf8Meaning(t) == value
            && (|t| == 1 <==> value < 0x80) && (|t| == 3 <==> value >= 0x800)
            && forall i | 1 <= i < |t| :: 0x80 <= t[i] as int < 0xc0
  {
    assert value == value / 64 * 64 + value % 64;
    assert value / 64 / 64 == value / 4096;
  }

  method AppendUtf8(out: string, value: nat) returns (r: string)
    requires value <= 0xffff
    ensures r == out + Utf8(value)
  {
    r := out;
    if value <= 0x7f {
      r := r + [value as char];
    } else if value <= 0x7ff {
      r := r + [(0xc0 + value / 64) as char];
      r := r + [(0x80 + value % 64) as char];
    } else {
      r := r + [(0xe0 + value / 4096) as char];
      r := r + [(0x80 + value / 64 % 64) as char];
      r := r + [(0x80 + value % 64) as char];
    }
  }

  // ----- white space and strings -----

  function SkipSpace(text: string, pos: nat): (p: nat)
    ensures pos <= p && (pos <= |text| ==> p <= |text|)
    decreases |text| - pos
  {
    if pos < |text| && IsSpace(text[pos]) then SkipSpace(text, pos + 1) else pos
  }

  method Whitespace(text: string, start: nat) returns (pos: nat)
    ensures pos == SkipSpace(text, start)
  {
    pos := start;
    while pos < |text| && IsSpace(text[pos])
      invariant start <= pos && SkipSpace(text, start) == SkipSpace(text, pos)
      decreases |text| - pos
    {
      pos := pos + 1;
    }
  }

  /** Just past the first quote at or after pos that is not escaped, or the end of the text. */
  function StringEndFrom(text: string, pos: nat, escaped: bool): (end: nat)
    ensures pos < |text| ==> pos < end <= |text|
    ensures pos >= |text| ==> end == |text|
    decreases |text| - pos
  {
    if pos >= |text| then |text|
    else if escaped then StringEndFrom(text, pos + 1, false)
    else if text[pos] == '\\' then StringEndFrom(text, pos + 1, true)
    else if text[pos] == '"' then pos + 1
    else StringEndFrom(text, pos + 1, false)
  }

  method StringEnd(text: string, start: nat) returns (end: nat)
    ensures end == StringEndFrom(text, start + 1, false)
  {
    var escaped := false;
    var pos := start + 1;
    while pos < |text|
      invariant start + 1 <= pos
      invariant StringEndFrom(text, start + 1, false) == StringEndFrom(text, pos, escaped)
      decreases |text| - pos
    {
      var ch := text[pos];
      if escaped {
        escaped := false;
      } else if ch == '\\' {
        escaped := true;
      } else if ch == '"' {
        return pos + 1;
      }
      pos := pos + 1;
    }
    end := |text|;
  }

  // ----- values -----

  /** Just past the bracket that brings the depth to zero, or the end of the text. */
  function ScanFrom(text: string, pos: nat, open: char, close: char, depth: int, inString: bool, escaped: bool)
    : (end: nat)
    ensures pos <= |text| ==> pos <= end <= |text|
    decreases |text| - pos
  {
    if pos >= |text| then |text|
    else
      var ch := text[pos];
      if inString then
        if escaped then ScanFrom(text, pos + 1, open, close, depth, true, false)
        else ScanFrom(text, pos + 1, open, close, depth, ch != '"', ch == '\\')
      else if ch == '"' then ScanFrom(text, pos + 1, open, close, depth, true, escaped)
      else if ch == open then ScanFrom(text, pos + 1, open, close, depth + 1, false, escaped)
      else if ch == close then
        if depth == 1 then pos + 1 else ScanFrom(text, pos + 1, open, close, depth - 1, false, escaped)
      else ScanFrom(text, pos + 1, open, close, depth, false, escaped)
  }

  predicate ScalarStop(ch: char) {
    ch == ',' || ch == '}'
  }

  function ScalarRun(text: string, pos: nat): (p: nat)
    requires pos <= |text|
    ensures pos <= p <= |text|
    decreases |text| - pos
  {
    if pos < |text| && !ScalarStop(text[pos]) then ScalarRun(text, pos + 1) else pos
  }

  function TrimBack(text: string, start: nat, pos: nat): (p: nat)
    requires start <= pos <= |text|
    ensures start <= p <= pos
  {
    if pos > start && IsSpace(text[pos - 1]) then TrimBack(text, start, pos - 1) else pos
  }

  function ValueEndOf(text: string, start: nat): (end: nat)
    ensures start <= |text| ==> start <= end <= |text|
  {
    if start >= |text| then start
    else if text[start] == '"' then StringEndFrom(text, start + 1, false)
    else if text[start] == '[' then ScanFrom(text, start, '[', ']', 0, false, false)
    else if text[start] == '{' then ScanFrom(text, start, '{', '}', 0, false, false)
    else TrimBack(text, start, ScalarRun(text, start))
  }

  method ScanBrackets(text: string, start: nat) returns (end: nat)
    requires start < |text| && (text[start] == '[' || text[start] == '{')
    ensures end == ScanFrom(text, start, text[start], if text[start] == '[' then ']' else '}', 0, false, false)
  {
    var open := text[start];
    var close := if open == '[' then ']' else '}';
    var depth := 0;
    var inString, escaped := false, false;
    var pos := start;
    while pos < |text|
      invariant start <= pos <= |text|
      invariant ScanFrom(text, start, open, close, 0, false, false)
                == ScanFrom(text, pos, open, close, depth, inString, escaped)
    {
      var ch := text[pos];
      if inString {
        if escaped {
          escaped := false;
        } else if ch == '\\' {
          escaped := true;
        } else if ch == '"' {
          inString := false;
        }
      } else if ch == '"' {
        inString := true;
      } else if ch == open {
        depth := depth + 1;
      } else if ch == close {
        depth := depth - 1;
        if depth == 0 {
          return pos + 1;
        }
      }
      pos := pos + 1;
    }
    end := |text|;
  }

  method ValueEnd(text: string, start: nat) returns (end: nat)
    ensures end == ValueEndOf(text, start)
  {
    hide ScanFrom, StringEndFrom, IsSpace;
    if start >= |text| {
      return start;
    }
    if text[start] == '"' {
      end := StringEnd(text, start);
      return;
    }
    if text[start] == '[' || text[start] == '{' {
      end := ScanBrackets(text, start);
      return;
    }
    var pos := start;
    while pos < |text| && text[pos] != ',' && text[pos] != '}'
      invariant start <= pos <= |text|
      invariant ScalarRun(text, start) == ScalarRun(text, pos)
    {
      pos := pos + 1;
    }
    ghost var stop := pos;
    while pos > start && IsSpace(text[pos - 1])
      invariant start <= pos <= stop
      invariant TrimBack(text, start, stop) == TrimBack(text, start, pos)
    {
      pos := pos - 1;
    }
    end := pos;
  }

  // ----- decoding -----

  function SimpleEscape(ch: char): char {
    if ch == 'b' then BACKSPACE
    else if ch == 'f' then FORM_FEED
    else if ch == 'n' then '\n'
    else if ch == 'r' then '\r'
    else if ch == 't' then '\t'
    else ch
  }

  /** Five letters stand for control characters; after a backslash everything else stands for itself. */
  lemma SimpleEscapeIs(ch: char)
    ensures SimpleEscape(ch) as int ==
              if ch == 'b' then 8 else if ch == 't' then 9 else if ch == 'n' then 10
              else if ch == 'f' then 12 else if ch == 'r' then 13 else ch as int
  {
  }

  /** The number written by n hexadecimal digits at pos, or -1. */
  function HexRun(text: string, pos: nat, n: nat): (v: int)
    requires pos + n <= |text|
    ensures v >= -1
  {
    if n == 0 then 0 else
      var v, d := HexRun(text, pos, n - 1), HexValue(text[pos + n - 1]);
      if v < 0 || d < 0 then -1 else v * 16 + d
  }

  function HexQuad(text: string, pos: nat): (v: int)
    requires pos + 4 <= |text|
    ensures -1 <= v <= 0xffff
  {
    assert HexRun(text, pos, 0) == 0;
    assert HexRun(text, pos, 1) <= 0xf;
    assert HexRun(text, pos, 2) <= 0xff;
    assert HexRun(text, pos, 3) <= 0xfff;
    HexRun(text, pos, 4)
  }

  /**
   What the character or escape at pos decodes to, and where decoding goes on. A backslash at the end
   and a bad or cut-off \u escape are dropped; the four digits of an escape may reach the character
   before end, which is normally the closing quote.
   */
  function DecodeOne(text: string, pos: nat, end: nat): (r: (string, nat))
    requires pos + 1 < end <= |text|
    ensures pos < r.1 <= end
  {
    if text[pos] != '\\' then ([text[pos]], pos + 1)
    else if pos + 2 >= end then ("", end)
    else if text[pos + 1] != 'u' then ([SimpleEscape(text[pos + 1])], pos + 2)
    else if pos + 5 >= end then ("", pos + 2)
    else
      var v := HexQuad(text, pos + 2);
      (if v >= 0 then Utf8(v) else "", pos + 6)
  }

  /** Escapes that are none: bad digits are dropped with their escape, a cut-off one up to its 'u'. */
  lemma MalformedEscapes(text: string, pos: nat, end: nat)
    requires pos + 1 < end <= |text| && text[pos] == '\\'
    ensures pos + 2 == end ==> DecodeOne(text, pos, end) == ("", end)
    ensures pos + 2 < end <= pos + 5 && text[pos + 1] == 'u' ==> DecodeOne(text, pos, end) == ("", pos + 2)
    ensures pos + 5 < end && text[pos + 1] == 'u'
              && (exists i | pos + 2 <= i < pos + 6 :: HexValue(text[i]) < 0)
            ==> DecodeOne(text, pos, end) == ("", pos + 6)
  {
    if pos + 5 < end {
      assert HexRun(text, pos + 2, 1) < 0 <==> HexValue(text[pos + 2]) < 0;
      assert HexRun(text, pos + 2, 2) < 0 <==> HexRun(text, pos + 2, 1) < 0 || HexValue(text[pos + 3]) < 0;
      assert HexRun(text, pos + 2, 3) < 0 <==> HexRun(text, pos + 2, 2) < 0 || HexValue(text[pos + 4]) < 0;
      assert HexRun(text, pos + 2, 4) < 0 <==> HexRun(text, pos + 2, 3) < 0 || HexValue(text[pos + 5]) < 0;
    }
  }

  /** What the characters from pos up to the last before end decode to. */
  function DecodeFrom(text: string, pos: nat, end: nat): (out: string)
    requires end <= |text|
    decreases end - pos
  {
    if pos + 1 >= end then "" else
      var (piece, next) := DecodeOne(text, pos, end);
      piece + DecodeFrom(text, next, end)
  }

  function Decoded(text: string, start: nat, end: nat): (out: string)
    requires end <= |text|
  {
    if end <= start + 1 || text[start] != '"' then "" else DecodeFrom(text, start + 1, end)
  }

  /** The digit loop of a \u escape. */
  method ReadHex(text: string, start: nat) returns (value: nat, valid: bool)
    requires start + 4 <= |text|
    ensures valid <==> HexQuad(text, start) >= 0
    ensures valid ==> value == HexQuad(text, start)
  {
    value, valid := 0, true;
    for digit := 0 to 4
      invariant valid <==> HexRun(text, start, digit) >= 0
      invariant valid ==> value == HexRun(text, start, digit)
    {
      var hex := text[start + digit];
      value := value * 16;
      if HexValue(hex) >= 0 {
        value := value + HexValue(hex);
      } else {
        valid := false;
      }
    }
  }

  /** The part of the loop that treats the character after a backslash; pos is that character's place. */
  method DecodeEscape(text: string, start: nat, end: nat, before: string) returns (out: string, pos: nat)
    requires 0 < start && start + 1 < end <= |text| && text[start - 1] == '\\'
    ensures out == before + DecodeOne(text, start - 1, end).0 && pos == DecodeOne(text, start - 1, end).1
  {
    hide HexQuad, Utf8, SimpleEscape;
    pos := start;
    var ch := text[pos];
    if ch == 'u' {
      out := before;
      if pos + 4 < end {
        var value, valid := ReadHex(text, pos + 1);
        if valid {
          out := AppendUtf8(out, value);
        }
        pos := pos + 4;
      }
    } else {
      out := before + [SimpleEscape(ch)];
    }
    pos := pos + 1;
  }

  lemma PlainCharacter(text: string, pos: nat, end: nat)
    requires pos + 1 < end <= |text| && text[pos] != '\\'
    ensures DecodeOne(text, pos, end) == ([text[pos]], pos + 1)
  {
  }

  lemma LoneBackslash(text: string, pos: nat, end: nat)
    requires pos + 1 < end <= |text| && text[pos] == '\\' && pos + 2 >= end
    ensures DecodeFrom(text, pos, end) == ""
  {
  }

  method DecodeString(text: string, start: nat, end: nat) returns (out: string)
    requires end <= |text|
    ensures out == Decoded(text, start, end)
  {
    hide DecodeOne;
    if end <= start + 1 || text[start] != '"' {
      return "";
    }
    out := "";
    var pos := start + 1;
    while pos + 1 < end
      invariant start + 1 <= pos <= end
      invariant out + DecodeFrom(text, pos, end) == DecodeFrom(text, start + 1, end)
      decreases end - pos
    {
      var ch := text[pos];
      if ch != '\\' {
        PlainCharacter(text, pos, end);
        out := out + [ch];
        pos := pos + 1;
        continue;
      }
      pos := pos + 1;
      if pos + 1 >= end {
        LoneBackslash(text, pos - 1, end);
        break;
      }
      out, pos := DecodeEscape(text, pos, end, out);
    }
  }

  // ----- members of an object -----

  /** The range of the first value whose key decodes to the wanted one, among the members from pos on. */
  function FindFrom(text: string, pos: nat, wanted: string): (r: Option<(nat, nat)>)
    requires pos <= |text|
    ensures r.Some? ==> r.value.0 <= r.value.1 <= |text|
    decreases |text| - pos
  {
    var p := SkipSpace(text, pos);
    if p >= |text| || text[p] != '"' then None
    else
      var keyEnd := StringEndFrom(text, p + 1, false);
      var q := SkipSpace(text, keyEnd);
      if q >= |text| || text[q] != ':' then None
      else
        var start := SkipSpace(text, q + 1);
        var end := ValueEndOf(text, start);
        if Decoded(text, p, keyEnd) == wanted then Some((start, end))
        else
          var s := SkipSpace(text, end);
          FindFrom(text, if s < |text| && text[s] == ',' then s + 1 else s, wanted)
  }

  function FindMember(text: string, wanted: string): (r: Option<(nat, nat)>)
    ensures r.Some? ==> r.value.0 <= r.value.1 <= |text|
  {
    var p := SkipSpace(text, 0);
    if p >= |text| || text[p] != '{' then None else FindFrom(text, p + 1, wanted)
  }

  /** A text whose first character is not a brace holds no members. */
  lemma NotAnObject(text: string, wanted: string)
    requires var p := SkipSpace(text, 0); p >= |text| || text[p] != '{'
    ensures FindMember(text, wanted) == None && Lookup(text, wanted) == ""
  {
    hide SkipSpace, FindFrom, Decoded;
  }

  /** The search ends without a result where no key begins, or where a key has no colon. */
  lemma NotAMember(text: string, pos: nat, wanted: string)
    requires pos <= |text|
    requires var p := SkipSpace(text, pos);
             p >= |text| || text[p] != '"'
             || var q := SkipSpace(text, StringEndFrom(text, p + 1, false)); q >= |text| || text[q] != ':'
    ensures FindFrom(text, pos, wanted) == None
  {
    hide SkipSpace, StringEndFrom, ValueEndOf, Decoded;
  }

  method ValueRange(text: string, wanted: string) returns (r: Option<(nat, nat)>)
    ensures r == FindMember(text, wanted)
  {
    hide StringEndFrom, ValueEndOf, Decoded, IsSpace, SkipSpace;
    var pos := Whitespace(text, 0);
    if pos >= |text| || text[pos] != '{' {
      return None;
    }
    pos := pos + 1;
    while pos < |text|
      invariant pos <= |text|
      invariant FindMember(text, wanted) == FindFrom(text, pos, wanted)
      decreases |text| - pos
    {
      ghost var from := pos;
      pos := Whitespace(text, pos);
      if pos < |text| && text[pos] == '}' {
        return None;
      }
      if pos >= |text| || text[pos] != '"' {
        return None;
      }
      var keyStart := pos;
      var keyEnd := StringEnd(text, pos);
      var key := DecodeString(text, keyStart, keyEnd);
      pos := Whitespace(text, keyEnd);
      if pos >= |text| || text[pos] != ':' {
        return None;
      }
      pos := Whitespace(text, pos + 1);
      var start := pos;
      var end := ValueEnd(text, start);
      if key == wanted {
        return Some((start, end));
      }
      pos := Whitespace(text, end);
      if pos < |text| && text[pos] == ',' {
        pos := pos + 1;
      }
    }
    assert SkipSpace(text, pos) >= |text|;
    r := None;
  }

  function Lookup(text: string, key: string): string {
    match FindMember(text, key)
    case None => ""
    case Some((start, end)) =>
      if start >= end || text[start] != '"' then "" else Decoded(text, start, end)
  }

  /** The reader's string(key). */
  method String(text: string, key: string) returns (value: string)
    ensures value == Lookup(text, key)
  {
    var range := ValueRange(text, key);
    if range.None? || range.value.0 >= range.value.1 || text[range.value.0] != '"' {
      return "";
    }
    value := DecodeString(text, range.value.0, range.value.1);
  }
}
