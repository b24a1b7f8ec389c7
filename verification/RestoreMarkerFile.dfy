/** The text of the restore-scan marker file and how its two heights are read back. */
module RestoreMarkerFile {
  import opened Common
  import opened Decimal

  function MarkerText(start: nat, scanned: nat): string {
    "startHeight=" + DecimalText(start) + "\n" + ("scannedHeight=" + DecimalText(scanned) + "\n")
  }

  /** The length of the first line of the text, without its end. */
  function LineLength(text: string): (n: nat)
    ensures n <= |text| && (forall i | 0 <= i < n :: text[i] != '\n') && (n < |text| ==> text[n] == '\n')
  {
    if text == "" || text[0] == '\n' then 0 else 1 + LineLength(text[1..])
  }

  function WithoutReturn(line: string): string {
    if line != "" && line[|line| - 1] == '\r' then line[..|line| - 1] else line
  }

  /** The lines of a text; an end of line at the very end does not begin another. */
  function Lines(text: string): seq<string>
    decreases |text|
  {
    if text == "" then [] else
      var n := LineLength(text);
      if n == |text| then [WithoutReturn(text)] else [WithoutReturn(text[..n])] + Lines(text[n + 1..])
  }

  /** What follows the prefix in the first line that has it. */
  function FindField(lines: seq<string>, prefix: string): Option<string> {
    if lines == [] then None
    else if prefix <= lines[0] then Some(lines[0][|prefix|..])
    else FindField(lines[1..], prefix)
  }

  predicate IsBlank(c: char) {
    c == ' ' || 9 <= c as int <= 13
  }

  function TrimStart(t: string): string {
    if t != "" && IsBlank(t[0]) then TrimStart(t[1..]) else t
  }

  function TrimEnd(t: string): string {
    if t != "" && IsBlank(t[|t| - 1]) then TrimEnd(t[..|t| - 1]) else t
  }

  function MarkerU64(text: string, key: string): Option<nat> {
    match FindField(Lines(text), key + "=")
    case None => None
    case Some(value) => ParseUnsigned(TrimEnd(TrimStart(value)), U64_MAX)
  }

  // ----- reading back what was written -----

  lemma LinesSplit(line: string, rest: string)
    requires forall i | 0 <= i < |line| :: line[i] != '\n' && line[i] != '\r'
    ensures Lines(line + "\n" + rest) == [line] + Lines(rest)
  {
    var text := line + "\n" + rest;
    var n := LineLength(text);
    assert forall i | 0 <= i < |line| :: text[i] == line[i];
    assert text[|line|] == '\n';
    assert n == |line|;
    assert text[..n] == line && text[n + 1..] == rest;
  }

  /** A line may end in "\r\n" too, and the last one in nothing. */
  lemma OtherEnds(line: string, rest: string)
    requires forall i | 0 <= i < |line| :: line[i] != '\n' && line[i] != '\r'
    ensures Lines(line + "\r\n" + rest) == [line] + Lines(rest)
    ensures line != "" ==> Lines(line) == [line]
  {
    var text := line + "\r\n" + rest;
    var n := LineLength(text);
    assert forall i | 0 <= i < |line| :: text[i] == line[i];
    assert text[|line|] == '\r' && text[|line| + 1] == '\n';
    assert n == |line| + 1;
    assert text[..n] == line + "\r" && text[n + 1..] == rest;
    assert (line + "\r")[..|line|] == line;
  }

  lemma BlanksAre(c: char)
    ensures IsBlank(c) <==> c in {' ', '\t', '\n', 11 as char, 12 as char, '\r'}
  {
  }

  predicate AllBlank(t: string) {
    forall i | 0 <= i < |t| :: IsBlank(t[i])
  }

  lemma {:induction false} TrimsStart(a: string, t: string)
    requires AllBlank(a) && (t != "" ==> !IsBlank(t[0]))
    ensures TrimStart(a + t) == t
  {
    if a == "" {
      assert a + t == t;
    } else {
      assert (a + t)[1..] == a[1..] + t;
      TrimsStart(a[1..], t);
    }
  }

  lemma {:induction false} TrimsEnd(t: string, b: string)
    requires AllBlank(b) && (t != "" ==> !IsBlank(t[|t| - 1]))
    ensures TrimEnd(t + b) == t
  {
    if b == "" {
      assert t + b == t;
    } else {
      var n := |b| - 1;
      assert (t + b)[..|t + b| - 1] == t + b[..n];
      TrimsEnd(t, b[..n]);
    }
  }

  lemma {:induction false} FirstFieldFound(lines: seq<string>, prefix: string, i: nat)
    requires i < |lines| && prefix <= lines[i] && forall j | 0 <= j < i :: !(prefix <= lines[j])
    ensures FindField(lines, prefix) == Some(lines[i][|prefix|..])
    decreases |lines|
  {
    if i > 0 {
      FirstFieldFound(lines[1..], prefix, i - 1);
    }
  }

  /** A height is read from the first line that begins with its key, with white space around it or not. */
  lemma PaddedField(text: string, i: nat, key: string, a: string, n: nat, b: string)
    requires AllBlank(a) && AllBlank(b)
    requires i < |Lines(text)| && Lines(text)[i] == key + "=" + (a + (DecimalText(n) + b))
    requires forall j | 0 <= j < i :: !(key + "=" <= Lines(text)[j])
    ensures MarkerU64(text, key) == if n <= U64_MAX then Some(n) else None
  {
    hide DecimalText, ParseUnsigned, DecimalValue, Lines, FindField;
    FirstFieldFound(Lines(text), key + "=", i);
    var line := Lines(text)[i];
    assert line[|key + "="|..] == a + (DecimalText(n) + b);
    DecimalRoundTrip(n);
    var d := DecimalText(n);
    assert '0' <= d[0] <= '9' && '0' <= d[|d| - 1] <= '9';
    assert (d + b)[0] == d[0];
    TrimsStart(a, d + b);
    TrimsEnd(d, b);
    ParsePrinted(n, U64_MAX);
  }

  lemma FieldLine(name: string, n: nat)
    requires forall i | 0 <= i < |name| :: name[i] != '\n' && name[i] != '\r'
    ensures var line := name + DecimalText(n); forall i | 0 <= i < |line| :: line[i] != '\n' && line[i] != '\r'
  {
    hide DecimalText;
    DecimalRoundTrip(n);
    var d := DecimalText(n);
    assert forall i | 0 <= i < |d| :: '0' <= d[i] <= '9';
  }

  lemma TrimDigits(n: nat)
    ensures TrimEnd(TrimStart(DecimalText(n))) == DecimalText(n)
  {
    hide DecimalText;
    DecimalRoundTrip(n);
    var d := DecimalText(n);
    assert '0' <= d[0] <= '9' && '0' <= d[|d| - 1] <= '9';
  }

  lemma TwoLines(start: nat, scanned: nat)
    ensures Lines(MarkerText(start, scanned))
            == ["startHeight=" + DecimalText(start), "scannedHeight=" + DecimalText(scanned)]
  {
    hide DecimalText;
    var a, b := "startHeight=" + DecimalText(start), "scannedHeight=" + DecimalText(scanned);
    FieldLine("startHeight=", start);
    FieldLine("scannedHeight=", scanned);
    LinesSplit(a, b + "\n");
    LinesSplit(b, "");
    assert b + "\n" + "" == b + "\n";
  }

  lemma PrefixOfLine(p: string, other: string, d: string)
    requires |p| > 1 && |other| > 1 && p[1] != other[1]
    ensures p <= p + d && (p + d)[|p|..] == d && !(other <= p + d)
  {
    var s := p + d;
    assert s[1] == p[1];
  }

  /** Both heights of a written marker are read back, whatever unsigned 64-bit numbers they are. */
  lemma MarkerRoundTrip(start: nat, scanned: nat)
    requires start <= U64_MAX && scanned <= U64_MAX
    ensures MarkerU64(MarkerText(start, scanned), "startHeight") == Some(start)
    ensures MarkerU64(MarkerText(start, scanned), "scannedHeight") == Some(scanned)
  {
    hide DecimalText, MarkerText, Lines, ParseUnsigned;
    TwoLines(start, scanned);
    var p, q := "startHeight" + "=", "scannedHeight" + "=";
    assert p == "startHeight=" && q == "scannedHeight=";
    PrefixOfLine(p, q, DecimalText(start));
    PrefixOfLine(q, p, DecimalText(scanned));
    TrimDigits(start);
    TrimDigits(scanned);
    ParsePrinted(start, U64_MAX);
    ParsePrinted(scanned, U64_MAX);
    var lines := Lines(MarkerText(start, scanned));
    assert lines[0] == p + DecimalText(start);
    assert lines[1..] == [q + DecimalText(scanned)];
    assert FindField(lines, q) == FindField(lines[1..], q) == Some(DecimalText(scanned));
  }
}
