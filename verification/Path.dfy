/** The path of a node, as the Normalized Path of section 2.7 of RFC 9535: `$['attachments'][1]['gateway']`.

    `Text` writes one as the program does. `Read` is the grammar of the RFC, read strictly, and is written
    without reference to the writer; the two are inverse both ways round. */
module Path {
  import opened Wrappers
  import T = Text

  datatype Segment = Name(name: string) | Index(index: nat)

  // ---- Writing ---------------------------------------------------------------------------------------

  function HexDigit(d: nat): char
    requires d < 16
  {
    if d < 10 then '0' + d as char else 'a' + (d - 10) as char
  }

  function Escaped(c: char): string
  {
    if c == '\U{8}' then "\\b"
    else if c == '\U{c}' then "\\f"
    else if c == '\n' then "\\n"
    else if c == '\r' then "\\r"
    else if c == '\t' then "\\t"
    else if c == '\'' then "\\'"
    else if c == '\\' then "\\\\"
    else if c < ' ' then "\\u00" + [HexDigit(c as int / 16), HexDigit(c as int % 16)]
    else [c]
  }

  function EscapedName(name: string): string
  {
    if name == [] then [] else Escaped(name[0]) + EscapedName(name[1..])
  }

  function SegmentText(segment: Segment): string
  {
    match segment
    case Index(index) => "[" + T.Decimal(index) + "]"
    case Name(name) => "['" + EscapedName(name) + "']"
  }

  function SegmentsText(segments: seq<Segment>): string
  {
    if segments == [] then [] else SegmentText(segments[0]) + SegmentsText(segments[1..])
  }

  function Text(segments: seq<Segment>): string
  {
    "$" + SegmentsText(segments)
  }

  lemma {:induction false} EscapedSnoc(name: string, c: char)
    ensures EscapedName(name + [c]) == EscapedName(name) + Escaped(c)
  {
    if name == [] {
      assert name + [c] == [c];
      assert EscapedName([c]) == Escaped(c) + EscapedName([]);
    } else {
      assert (name + [c])[1..] == name[1..] + [c];
      EscapedSnoc(name[1..], c);
    }
  }

  lemma {:induction false} SegmentsSnoc(segments: seq<Segment>, s: Segment)
    ensures SegmentsText(segments + [s]) == SegmentsText(segments) + SegmentText(s)
  {
    if segments == [] {
      assert segments + [s] == [s];
      assert SegmentsText([s]) == SegmentText(s) + SegmentsText([]);
    } else {
      assert (segments + [s])[1..] == segments[1..] + [s];
      SegmentsSnoc(segments[1..], s);
    }
  }

  // The path, appended to a segment and a character at a time.
  method Write(segments: seq<Segment>) returns (out: string)
    ensures out == Text(segments)
  {
    hide SegmentText;
    out := "$";
    for i := 0 to |segments|
      invariant out == Text(segments[..i])
    {
      SegmentsSnoc(segments[..i], segments[i]);
      assert segments[..i + 1] == segments[..i] + [segments[i]];
      var piece := WriteSegment(segments[i]);
      out := out + piece;
    }
    assert segments[..|segments|] == segments;
  }

  method WriteSegment(s: Segment) returns (piece: string)
    ensures piece == SegmentText(s)
  {
    hide Escaped, EscapedName;
    match s {
      case Index(index) =>
        piece := "[" + T.Decimal(index) + "]";
      case Name(name) =>
        var quoted := WriteName(name);
        piece := "['" + quoted + "']";
    }
  }

  method WriteName(name: string) returns (out: string)
    ensures out == EscapedName(name)
  {
    hide Escaped;
    out := "";
    for j := 0 to |name|
      invariant out == EscapedName(name[..j])
    {
      EscapedSnoc(name[..j], name[j]);
      assert name[..j + 1] == name[..j] + [name[j]];
      out := out + Escaped(name[j]);
    }
    assert name[..|name|] == name;
  }

  // ---- Reading, after the grammar --------------------------------------------------------------------

  function HexValue(c: char): Option<nat>
  {
    if '0' <= c <= '9' then Some(c as int - '0' as int)
    else if 'a' <= c <= 'f' then Some(c as int - 'a' as int + 10)
    else None
  }

  // The control characters that have a short escape, and so no other.
  predicate Short(c: int)
  {
    c == 8 || c == 9 || c == 10 || c == 12 || c == 13
  }

  // One character of a single-quoted name, and what follows it.
  function ReadChar(text: string): (r: Option<(char, string)>)
    ensures r.Some? ==> |r.value.1| < |text|
  {
    if text == [] || text[0] == '\'' || text[0] < ' ' then None
    else if text[0] != '\\' then Some((text[0], text[1..]))
    else if |text| < 2 then None
    else if text[1] == 'b' then Some(('\U{8}', text[2..]))
    else if text[1] == 'f' then Some(('\U{c}', text[2..]))
    else if text[1] == 'n' then Some(('\n', text[2..]))
    else if text[1] == 'r' then Some(('\r', text[2..]))
    else if text[1] == 't' then Some(('\t', text[2..]))
    else if text[1] == '\'' then Some(('\'', text[2..]))
    else if text[1] == '\\' then Some(('\\', text[2..]))
    else if text[1] == 'u' && |text| >= 6 && text[2] == '0' && text[3] == '0'
            && HexValue(text[4]).Some? && HexValue(text[5]).Some? then
      var value := HexValue(text[4]).value * 16 + HexValue(text[5]).value;
      if value < 32 && !Short(value) then Some((value as char, text[6..])) else None
    else None
  }

  // A name up to the quote that closes it, and what follows that quote.
  function ReadName(text: string): (r: Option<(string, string)>)
    ensures r.Some? ==> |r.value.1| < |text|
    decreases |text|
  {
    if text != [] && text[0] == '\'' then Some(([], text[1..]))
    else
      match ReadChar(text)
      case None => None
      case Some((c, rest)) =>
        match ReadName(rest)
        case None => None
        case Some((name, after)) => Some(([c] + name, after))
  }

  function DigitRun(text: string): (n: nat)
    ensures n <= |text| && T.AllDigits(text[..n])
    ensures n < |text| ==> !T.IsDigit(text[n])
  {
    if text != [] && T.IsDigit(text[0]) then
      var n := DigitRun(text[1..]);
      assert text[..1 + n] == [text[0]] + text[1..][..n];
      1 + n
    else 0
  }

  // One bracketed segment, and what follows it.
  function ReadSegment(text: string): (r: Option<(Segment, string)>)
    ensures r.Some? ==> |r.value.1| < |text|
  {
    if |text| < 2 || text[0] != '[' then None
    else if text[1] == '\'' then
      match ReadName(text[2..])
      case None => None
      case Some((name, rest)) =>
        if rest != [] && rest[0] == ']' then Some((Name(name), rest[1..])) else None
    else
      var inside := text[1..];
      var n := DigitRun(inside);
      if n == 0 || (inside[0] == '0' && n > 1) || n >= |inside| || inside[n] != ']' then None
      else Some((Index(T.DecimalValue(inside[..n])), inside[n + 1..]))
  }

  function ReadSegments(text: string): Option<seq<Segment>>
    decreases |text|
  {
    if text == [] then Some([])
    else
      match ReadSegment(text)
      case None => None
      case Some((s, rest)) =>
        match ReadSegments(rest)
        case None => None
        case Some(more) => Some([s] + more)
  }

  function Read(text: string): Option<seq<Segment>>
  {
    if text == [] || text[0] != '$' then None else ReadSegments(text[1..])
  }

  // ---- Inverse, both ways round ----------------------------------------------------------------------

  lemma CharReads(c: char, rest: string)
    ensures ReadChar(Escaped(c) + rest) == Some((c, rest))
    ensures Escaped(c)[0] != '\''
  {
    if c < ' ' && !Short(c as int) {
      var text := Escaped(c) + rest;
      assert text[4] == HexDigit(c as int / 16) && text[5] == HexDigit(c as int % 16);
      assert text[6..] == rest;
      assert HexValue(text[4]) == Some(c as int / 16) && HexValue(text[5]) == Some(c as int % 16);
    }
  }

  lemma CharWrites(text: string)
    requires ReadChar(text).Some?
    ensures text == Escaped(ReadChar(text).value.0) + ReadChar(text).value.1
  {
    if text[0] == '\\' && text[1] == 'u' {
      var high, low := HexValue(text[4]).value, HexValue(text[5]).value;
      var c := (high * 16 + low) as char;
      assert c as int / 16 == high && c as int % 16 == low;
      assert HexDigit(high) == text[4] && HexDigit(low) == text[5];
      assert text == text[..6] + text[6..];
      assert text[..6] == ['\\', 'u', '0', '0', text[4], text[5]];
    } else if text[0] == '\\' {
      assert text == [text[0], text[1]] + text[2..];
    } else {
      assert text == [text[0]] + text[1..];
    }
  }

  lemma {:induction false} NameReads(name: string, rest: string)
    ensures ReadName(EscapedName(name) + "'" + rest) == Some((name, rest))
    decreases |name|
  {
    var text := EscapedName(name) + "'" + rest;
    if name == [] {
      assert text == ['\''] + rest;
      assert text[1..] == rest;
    } else {
      var after := EscapedName(name[1..]) + "'" + rest;
      assert text == Escaped(name[0]) + after;
      CharReads(name[0], after);
      NameReads(name[1..], rest);
      assert name == [name[0]] + name[1..];
    }
  }

  lemma {:induction false} NameWrites(text: string)
    requires ReadName(text).Some?
    ensures text == EscapedName(ReadName(text).value.0) + "'" + ReadName(text).value.1
    decreases |text|
  {
    if text[0] == '\'' {
      assert text == [text[0]] + text[1..];
    } else {
      CharWrites(text);
      var (c, rest) := ReadChar(text).value;
      NameWrites(rest);
      var (name, after) := ReadName(rest).value;
      assert ([c] + name)[1..] == name;
      assert Escaped(c) + (EscapedName(name) + "'" + after) == EscapedName([c] + name) + "'" + after;
    }
  }

  lemma {:induction false} DigitRunIs(digits: string, rest: string)
    requires T.AllDigits(digits) && rest != [] && !T.IsDigit(rest[0])
    ensures DigitRun(digits + rest) == |digits|
  {
    if digits == [] {
      assert digits + rest == rest;
    } else {
      assert (digits + rest)[1..] == digits[1..] + rest;
      DigitRunIs(digits[1..], rest);
    }
  }

  lemma SegmentReads(s: Segment, rest: string)
    ensures SegmentText(s) != [] && ReadSegment(SegmentText(s) + rest) == Some((s, rest))
  {
    match s
    case Name(name) => NameSegmentReads(name, rest);
    case Index(index) => IndexSegmentReads(index, rest);
  }

  lemma NameSegmentReads(name: string, rest: string)
    ensures ReadSegment(SegmentText(Name(name)) + rest) == Some((Name(name), rest))
  {
    hide Escaped, EscapedName, ReadChar, ReadName, DigitRun;
    var text := SegmentText(Name(name)) + rest;
    assert text[2..] == EscapedName(name) + "'" + ("]" + rest);
    NameReads(name, "]" + rest);
    assert ("]" + rest)[1..] == rest;
    assert text[0] == '[' && text[1] == '\'';
  }

  lemma IndexSegmentReads(index: nat, rest: string)
    ensures ReadSegment(SegmentText(Index(index)) + rest) == Some((Index(index), rest))
  {
    T.DecimalReads(index);
    hide T.Decimal, T.DecimalValue, ReadName;
    var digits := T.Decimal(index);
    var text := SegmentText(Index(index)) + rest;
    var inside := text[1..];
    assert inside == digits + ("]" + rest);
    DigitRunIs(digits, "]" + rest);
    hide DigitRun;
    assert inside[..|digits|] == digits;
    assert inside[|digits| + 1..] == rest;
    assert inside[|digits|] == ']' && inside[0] == digits[0] && text[0] == '[' && text[1] == digits[0];
  }

  lemma SegmentWrites(text: string)
    requires ReadSegment(text).Some?
    ensures text == SegmentText(ReadSegment(text).value.0) + ReadSegment(text).value.1
  {
    hide SegmentText, ReadName, DigitRun, T.DecimalValue;
    if text[1] == '\'' {
      NameSegmentWrites(text);
    } else {
      IndexSegmentWrites(text);
    }
  }

  lemma NameSegmentWrites(text: string)
    requires ReadSegment(text).Some? && text[1] == '\''
    ensures text == SegmentText(ReadSegment(text).value.0) + ReadSegment(text).value.1
  {
    hide Escaped, EscapedName, ReadChar, ReadName, DigitRun;
    NameWrites(text[2..]);
    var (name, after) := ReadName(text[2..]).value;
    assert after == [after[0]] + after[1..];
    NameSegmentIs(text, EscapedName(name), after[1..]);
  }

  lemma IndexSegmentWrites(text: string)
    requires ReadSegment(text).Some? && text[1] != '\''
    ensures text == SegmentText(ReadSegment(text).value.0) + ReadSegment(text).value.1
  {
    hide ReadName, DigitRun, T.Decimal;
    var inside := text[1..];
    var n := DigitRun(inside);
    T.DecimalWrites(inside[..n]);
    assert inside == inside[..n] + ([inside[n]] + inside[n + 1..]);
    assert text == [text[0]] + inside;
  }

  lemma NameSegmentIs(text: string, quoted: string, rest: string)
    requires |text| >= 2 && text[0] == '[' && text[1] == '\'' && text[2..] == quoted + "'" + ("]" + rest)
    ensures text == "['" + quoted + "']" + rest
  {
    assert text == "['" + text[2..];
    assert "'" + ("]" + rest) == "']" + rest;
  }

  lemma {:induction false} SegmentsRead(segments: seq<Segment>)
    ensures ReadSegments(SegmentsText(segments)) == Some(segments)
  {
    if segments != [] {
      var rest := SegmentsText(segments[1..]);
      SegmentReads(segments[0], rest);
      SegmentsRead(segments[1..]);
      assert segments == [segments[0]] + segments[1..];
    }
  }

  lemma {:induction false} SegmentsWrite(text: string)
    requires ReadSegments(text).Some?
    ensures SegmentsText(ReadSegments(text).value) == text
    decreases |text|
  {
    if text != [] {
      SegmentWrites(text);
      var (s, rest) := ReadSegment(text).value;
      SegmentsWrite(rest);
      assert ([s] + ReadSegments(rest).value)[1..] == ReadSegments(rest).value;
    }
  }

  /** Every path the program writes is a Normalized Path, and every Normalized Path is the path it writes
      of exactly one list of segments. */
  lemma ReadsBack(segments: seq<Segment>)
    ensures Read(Text(segments)) == Some(segments)
  {
    assert Text(segments)[1..] == SegmentsText(segments);
    SegmentsRead(segments);
  }

  lemma WritesBack(text: string)
    requires Read(text).Some?
    ensures Text(Read(text).value) == text
  {
    SegmentsWrite(text[1..]);
    assert text == "$" + text[1..];
  }

  lemma Injective(a: seq<Segment>, b: seq<Segment>)
    requires Text(a) == Text(b)
    ensures a == b
  {
    ReadsBack(a);
    ReadsBack(b);
  }
}
