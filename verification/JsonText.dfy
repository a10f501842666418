/** JSON as text: a printer, names in order, that says which value it printed and prints no control character. */
module JsonText {
  import opened Json
  import T = Text
  import P = Path

  // ---- The printer -------------------------------------------------------------------------------------

  function Escaped(c: char): string
  {
    if c == '"' then "\\\""
    else if c == '\\' then "\\\\"
    else if c == '\U{8}' then "\\b"
    else if c == '\U{9}' then "\\t"
    else if c == '\U{a}' then "\\n"
    else if c == '\U{c}' then "\\f"
    else if c == '\U{d}' then "\\r"
    else if c < ' ' then "\\u00" + [P.HexDigit(c as int / 16), P.HexDigit(c as int % 16)]
    else [c]
  }

  // What follows the opening quote, the closing one included.
  function Quoted(text: string): string
  {
    if text == [] then "\"" else Escaped(text[0]) + Quoted(text[1..])
  }

  function Signed(i: int): string
  {
    if i < 0 then "-" + T.Decimal(-i) else T.Decimal(i)
  }

  function NumberText(n: Number): string
  {
    match n
    case Int(i) => Signed(i)
    case Decimal(digits, power) => Signed(digits) + "e" + Signed(power)
  }

  ghost function Print(value: Json): string
    decreases value, 1
  {
    match value
    case Null => "null"
    case Bool(b) => if b then "true" else "false"
    case Number(n) => NumberText(n)
    case String(text) => "\"" + Quoted(text)
    case Array(items) => "[" + PrintItems(value, 0)
    case Object(members) => "{" + PrintMembers(value, T.Sorted(members.Keys), 0)
  }

  // The items from the `i`th on and what closes them.
  ghost function PrintItems(value: Json, i: nat): string
    requires value.Array? && i <= |value.items|
    decreases value, 0, |value.items| - i
  {
    if i == |value.items| then "]" else Comma(i) + (Print(value.items[i]) + PrintItems(value, i + 1))
  }

  function Comma(i: nat): string
  {
    if i == 0 then "" else ","
  }

  ghost function PrintMembers(value: Json, names: seq<string>, i: nat): string
    requires value.Object? && i <= |names| && forall n | n in names :: n in value.members
    decreases value, 0, |names| - i
  {
    if i == |names| then "}"
    else
      Comma(i) + ("\"" + (Quoted(names[i]) + (":" + (Print(value.members[names[i]]) +
                                                   PrintMembers(value, names, i + 1)))))
  }

  // ---- What is printed says what it is -----------------------------------------------------------------

  predicate Stops(text: string)
  {
    text == "" || text[0] == ',' || text[0] == ']' || text[0] == '}'
  }

  lemma HexDigits(c: char, d: char)
    requires c < ' ' && d < ' '
    requires P.HexDigit(c as int / 16) == P.HexDigit(d as int / 16)
    requires P.HexDigit(c as int % 16) == P.HexDigit(d as int % 16)
    ensures c == d
  {
  }

  lemma EscapedSame(c: char, x: string, d: char, y: string)
    requires Escaped(c) + x == Escaped(d) + y
    ensures c == d && x == y
  {
    var s, t := Escaped(c) + x, Escaped(d) + y;
    assert s[0] == Escaped(c)[0] && t[0] == Escaped(d)[0];
    if Escaped(c)[0] == '\\' {
      assert s[1] == Escaped(c)[1] && t[1] == Escaped(d)[1];
      if s[1] == 'u' {
        assert s[4] == Escaped(c)[4] && t[4] == Escaped(d)[4];
        assert s[5] == Escaped(c)[5] && t[5] == Escaped(d)[5];
        HexDigits(c, d);
      }
    }
    assert c == d;
    assert x == s[|Escaped(c)|..] && y == t[|Escaped(d)|..];
  }

  lemma QuotedOpens(a: string, x: string)
    ensures a == [] ==> Quoted(a) + x == "\"" + x
    ensures a != [] ==> Quoted(a) + x == Escaped(a[0]) + (Quoted(a[1..]) + x)
  {
    hide Escaped;
  }

  lemma {:induction false} QuotedSame(a: string, x: string, b: string, y: string)
    requires Quoted(a) + x == Quoted(b) + y
    ensures a == b && x == y
  {
    hide Quoted, Escaped;
    QuotedOpens(a, x);
    QuotedOpens(b, y);
    if a != [] && b != [] {
      EscapedSame(a[0], Quoted(a[1..]) + x, b[0], Quoted(b[1..]) + y);
      QuotedSame(a[1..], x, b[1..], y);
      assert a == [a[0]] + a[1..] && b == [b[0]] + b[1..];
    } else if a != [] {
      QuoteIsNotEscaped(a[0], Quoted(a[1..]) + x, y);
    } else if b != [] {
      QuoteIsNotEscaped(b[0], Quoted(b[1..]) + y, x);
    } else {
      assert ("\"" + x)[1..] == x && ("\"" + y)[1..] == y;
    }
  }

  lemma QuoteIsNotEscaped(c: char, x: string, y: string)
    ensures Escaped(c) + x != "\"" + y
  {
    assert (Escaped(c) + x)[0] == Escaped(c)[0];
    assert ("\"" + y)[0] == '"';
  }

  // ---- Numbers -----------------------------------------------------------------------------------------

  // A run of digits ends where no digit follows.
  lemma DigitsSame(a: string, x: string, b: string, y: string)
    requires T.AllDigits(a) && T.AllDigits(b) && a + x == b + y
    requires (x == "" || !T.IsDigit(x[0])) && (y == "" || !T.IsDigit(y[0]))
    ensures a == b && x == y
  {
    var s, t := a + x, b + y;
    assert forall i | 0 <= i < |a| :: s[i] == a[i];
    assert forall i | 0 <= i < |b| :: t[i] == b[i];
    assert x != "" ==> s[|a|] == x[0];
    assert y != "" ==> t[|b|] == y[0];
    assert |a| == |b|;
    assert a == s[..|a|] && b == t[..|b|] && x == s[|a|..] && y == t[|b|..];
  }

  predicate Ends(text: string)
  {
    text == "" || !T.IsDigit(text[0])
  }

  lemma SignedOpens(i: int, x: string)
    ensures i >= 0 ==> Signed(i) + x == T.Decimal(i) + x && T.IsDigit((Signed(i) + x)[0])
    ensures i < 0 ==> Signed(i) + x == "-" + (T.Decimal(-i) + x)
  {
    hide T.Decimal;
  }

  lemma SignedSame(a: int, x: string, b: int, y: string)
    requires Signed(a) + x == Signed(b) + y && Ends(x) && Ends(y)
    ensures a == b && x == y
  {
    hide Signed, T.Decimal;
    var c, d := if a < 0 then -a else a, if b < 0 then -b else b;
    SignedOpens(a, x);
    SignedOpens(b, y);
    if a < 0 {
      assert ("-" + (T.Decimal(c) + x))[1..] == T.Decimal(c) + x;
      assert (Signed(b) + y)[0] == '-';
      assert ("-" + (T.Decimal(d) + y))[1..] == T.Decimal(d) + y;
    }
    DigitsSame(T.Decimal(c), x, T.Decimal(d), y);
    T.DecimalInjective(c, d);
  }

  // The whole part of a number, and what follows it.
  function Whole(n: Number): int
  {
    if n.Int? then n.i else n.digits
  }

  function AfterWhole(n: Number, x: string): string
  {
    if n.Int? then x else "e" + (Signed(n.power) + x)
  }

  lemma NumberOpens(n: Number, x: string)
    ensures NumberText(n) + x == Signed(Whole(n)) + AfterWhole(n, x)
    ensures Stops(x) ==> Ends(AfterWhole(n, x)) && Ends(x)
  {
    hide Signed;
    if n.Decimal? {
      Joined(Signed(n.digits), Signed(n.power), x);
    }
  }

  lemma Joined(p: string, q: string, x: string)
    ensures (p + "e" + q) + x == p + ("e" + (q + x))
  {
  }

  lemma NumberSame(a: Number, x: string, b: Number, y: string)
    requires NumberText(a) + x == NumberText(b) + y && Stops(x) && Stops(y)
    ensures a == b && x == y
  {
    hide Signed, NumberText;
    NumberOpens(a, x);
    NumberOpens(b, y);
    SignedSame(Whole(a), AfterWhole(a, x), Whole(b), AfterWhole(b, y));
    if a.Decimal? && b.Decimal? {
      assert AfterWhole(a, x)[1..] == Signed(a.power) + x && AfterWhole(b, y)[1..] == Signed(b.power) + y;
      SignedSame(a.power, x, b.power, y);
    }
  }

  // ---- Values ------------------------------------------------------------------------------------------

  function Head(value: Json): set<char>
  {
    match value
    case Null => {'n'}
    case Bool(b) => if b then {'t'} else {'f'}
    case Number(_) => {'-', '0', '1', '2', '3', '4', '5', '6', '7', '8', '9'}
    case String(_) => {'"'}
    case Array(_) => {'['}
    case Object(_) => {'{'}
  }

  lemma Begins(value: Json)
    ensures Print(value) != "" && Print(value)[0] in Head(value)
  {
    hide T.Sorted, PrintItems, PrintMembers, Quoted;
    if value.Number? {
      var i := if value.number.Int? then value.number.i else value.number.digits;
      assert T.IsDigit(T.Decimal(if i < 0 then -i else i)[0]);
      hide T.Decimal;
      assert NumberText(value.number)[0] == Signed(i)[0];
    }
  }

  // Values printed alike at the front of longer texts are of one kind.
  lemma SameKind(a: Json, x: string, b: Json, y: string)
    requires Print(a) + x == Print(b) + y
    ensures Head(a) == Head(b)
  {
    hide Print;
    Begins(a);
    Begins(b);
    assert (Print(a) + x)[0] == Print(a)[0] && (Print(b) + y)[0] == Print(b)[0];
  }

  /** What is printed, and what may follow it, are told apart: no value's text begins another's. */
  lemma {:induction false} PrintSame(a: Json, x: string, b: Json, y: string)
    requires Print(a) + x == Print(b) + y && Stops(x) && Stops(y)
    ensures a == b && x == y
    decreases a, 1
  {
    SameKind(a, x, b, y);
    if a.Number? {
      assert b.Number?;
      NumberSame(a.number, x, b.number, y);
    } else if a.String? {
      assert b.String?;
      TextSame(a.text, x, b.text, y);
    } else if a.Array? {
      assert b.Array?;
      ArraySame(a, x, b, y);
    } else if a.Object? {
      assert b.Object?;
      ObjectSame(a, x, b, y);
    } else {
      assert a == b;
      assert x == (Print(a) + x)[|Print(a)|..] && y == (Print(b) + y)[|Print(b)|..];
    }
  }

  lemma TextSame(a: string, x: string, b: string, y: string)
    requires Print(String(a)) + x == Print(String(b)) + y
    ensures a == b && x == y
  {
    hide Quoted;
    assert (Print(String(a)) + x)[1..] == Quoted(a) + x && (Print(String(b)) + y)[1..] == Quoted(b) + y;
    QuotedSame(a, x, b, y);
  }

  lemma {:induction false} ArraySame(a: Json, x: string, b: Json, y: string)
    requires a.Array? && b.Array? && Print(a) + x == Print(b) + y && Stops(x) && Stops(y)
    ensures a == b && x == y
    decreases a, 0, |a.items| + 1
  {
    hide PrintItems;
    assert (Print(a) + x)[1..] == PrintItems(a, 0) + x && (Print(b) + y)[1..] == PrintItems(b, 0) + y;
    ItemsSame(a, x, b, y, 0);
    assert a.items == a.items[0..] && b.items == b.items[0..];
  }

  lemma ItemsOpen(a: Json, x: string, i: nat)
    requires a.Array? && i <= |a.items|
    ensures i == |a.items| ==> PrintItems(a, i) + x == "]" + x
    ensures i < |a.items| ==> PrintItems(a, i) + x == Comma(i) + (Print(a.items[i]) + (PrintItems(a, i + 1) + x))
    ensures Stops(PrintItems(a, i) + x) || i == 0
  {
    hide Print;
  }

  lemma {:induction false} ItemsSame(a: Json, x: string, b: Json, y: string, i: nat)
    requires a.Array? && b.Array? && i <= |a.items| && i <= |b.items|
    requires PrintItems(a, i) + x == PrintItems(b, i) + y && Stops(x) && Stops(y)
    ensures a.items[i..] == b.items[i..] && x == y
    decreases a, 0, |a.items| - i
  {
    hide Print, PrintItems, Stops;
    ItemsOpen(a, x, i);
    ItemsOpen(b, y, i);
    if i < |a.items| && i < |b.items| {
      var afterA, afterB := PrintItems(a, i + 1) + x, PrintItems(b, i + 1) + y;
      ItemsOpen(a, x, i + 1);
      ItemsOpen(b, y, i + 1);
      CommaSame(i, Print(a.items[i]) + afterA, Print(b.items[i]) + afterB);
      PrintSame(a.items[i], afterA, b.items[i], afterB);
      ItemsSame(a, x, b, y, i + 1);
      assert a.items[i..] == [a.items[i]] + a.items[i + 1..] && b.items[i..] == [b.items[i]] + b.items[i + 1..];
    } else if i < |a.items| {
      ItemIsNoClose(a.items[i], PrintItems(a, i + 1) + x, ']', y, i);
    } else if i < |b.items| {
      ItemIsNoClose(b.items[i], PrintItems(b, i + 1) + y, ']', x, i);
    } else {
      assert ("]" + x)[1..] == x && ("]" + y)[1..] == y;
    }
  }

  lemma CommaSame(i: nat, x: string, y: string)
    requires Comma(i) + x == Comma(i) + y
    ensures x == y
  {
    assert x == (Comma(i) + x)[|Comma(i)|..] && y == (Comma(i) + y)[|Comma(i)|..];
  }

  lemma ItemIsNoClose(value: Json, x: string, close: char, y: string, i: nat)
    requires close == ']' || close == '}'
    ensures Comma(i) + (Print(value) + x) != [close] + y
  {
    hide Print;
    Begins(value);
    assert (Print(value) + x)[0] == Print(value)[0];
    assert ([close] + y)[0] == close;
    if i > 0 {
      assert (Comma(i) + (Print(value) + x))[0] == ',';
    } else {
      assert Comma(i) + (Print(value) + x) == Print(value) + x;
    }
  }

  lemma {:induction false} ObjectSame(a: Json, x: string, b: Json, y: string)
    requires a.Object? && b.Object? && Print(a) + x == Print(b) + y && Stops(x) && Stops(y)
    ensures a == b && x == y
    decreases a, 0, |a.members| + 1
  {
    hide PrintMembers, T.Sorted;
    var m, n := T.Sorted(a.members.Keys), T.Sorted(b.members.Keys);
    assert (Print(a) + x)[1..] == PrintMembers(a, m, 0) + x && (Print(b) + y)[1..] == PrintMembers(b, n, 0) + y;
    MembersSame(a, m, x, b, n, y, 0);
    assert m == m[0..] && n == n[0..];
    forall k | k in a.members ensures k in b.members && a.members[k] == b.members[k] {
      var i :| 0 <= i < |m| && m[i] == k;
    }
    assert a.members.Keys == b.members.Keys;
    assert a.members == b.members;
  }

  // What follows a member's opening quote.
  ghost function AfterQuote(a: Json, names: seq<string>, x: string, i: nat): string
    requires a.Object? && i < |names| && forall n | n in names :: n in a.members
  {
    Quoted(names[i]) + (":" + (Print(a.members[names[i]]) + (PrintMembers(a, names, i + 1) + x)))
  }

  lemma MembersOpen(a: Json, names: seq<string>, x: string, i: nat)
    requires a.Object? && i <= |names| && forall n | n in names :: n in a.members
    ensures i == |names| ==> PrintMembers(a, names, i) + x == "}" + x
    ensures i < |names| ==> PrintMembers(a, names, i) + x == Comma(i) + ("\"" + AfterQuote(a, names, x, i))
    ensures Stops(PrintMembers(a, names, i) + x) || i == 0
  {
    hide Print, Quoted;
    if i < |names| {
      var p, q := Print(a.members[names[i]]), PrintMembers(a, names, i + 1);
      hide PrintMembers;
      Regroup(Comma(i), Quoted(names[i]), p, q, x);
    }
  }

  lemma Regroup(comma: string, quoted: string, p: string, q: string, x: string)
    ensures (comma + ("\"" + (quoted + (":" + (p + q))))) + x == comma + ("\"" + (quoted + (":" + (p + (q + x)))))
  {
  }

  lemma {:induction false} MembersSame(a: Json, m: seq<string>, x: string, b: Json, n: seq<string>, y: string, i: nat)
    requires a.Object? && b.Object? && i <= |m| && i <= |n|
    requires (forall k | k in m :: k in a.members) && (forall k | k in n :: k in b.members)
    requires PrintMembers(a, m, i) + x == PrintMembers(b, n, i) + y && Stops(x) && Stops(y)
    ensures |m| == |n| && m[i..] == n[i..] && x == y
    ensures forall j | i <= j < |m| :: a.members[m[j]] == b.members[n[j]]
    decreases a, 0, |m| - i
  {
    hide Print, PrintMembers, Stops, AfterQuote;
    MembersOpen(a, m, x, i);
    MembersOpen(b, n, y, i);
    if i < |m| && i < |n| {
      CommaSame(i, "\"" + AfterQuote(a, m, x, i), "\"" + AfterQuote(b, n, y, i));
      assert ("\"" + AfterQuote(a, m, x, i))[1..] == AfterQuote(a, m, x, i);
      assert ("\"" + AfterQuote(b, n, y, i))[1..] == AfterQuote(b, n, y, i);
      MemberSame(a, m, x, b, n, y, i);
      MembersSame(a, m, x, b, n, y, i + 1);
      assert m[i..] == [m[i]] + m[i + 1..] && n[i..] == [n[i]] + n[i + 1..];
    } else if i < |m| {
      QuoteIsNoClose(AfterQuote(a, m, x, i), y, i);
    } else if i < |n| {
      QuoteIsNoClose(AfterQuote(b, n, y, i), x, i);
    } else {
      assert ("}" + x)[1..] == x && ("}" + y)[1..] == y;
    }
  }

  lemma {:induction false} MemberSame(a: Json, m: seq<string>, x: string, b: Json, n: seq<string>, y: string, i: nat)
    requires a.Object? && b.Object? && i < |m| && i < |n| && Stops(x) && Stops(y)
    requires (forall k | k in m :: k in a.members) && (forall k | k in n :: k in b.members)
    requires AfterQuote(a, m, x, i) == AfterQuote(b, n, y, i)
    ensures m[i] == n[i] && a.members[m[i]] == b.members[n[i]]
    ensures PrintMembers(a, m, i + 1) + x == PrintMembers(b, n, i + 1) + y
    decreases a, 0, 0
  {
    MembersOpen(a, m, x, i + 1);
    MembersOpen(b, n, y, i + 1);
    hide Print, PrintMembers, Stops, Quoted;
    var p := Print(a.members[m[i]]) + (PrintMembers(a, m, i + 1) + x);
    var q := Print(b.members[n[i]]) + (PrintMembers(b, n, i + 1) + y);
    QuotedSame(m[i], ":" + p, n[i], ":" + q);
    assert (":" + p)[1..] == p && (":" + q)[1..] == q;
    PrintSame(a.members[m[i]], PrintMembers(a, m, i + 1) + x, b.members[n[i]], PrintMembers(b, n, i + 1) + y);
  }

  lemma QuoteIsNoClose(after: string, y: string, i: nat)
    ensures Comma(i) + ("\"" + after) != "}" + y
  {
    assert ("}" + y)[0] == '}';
    assert (Comma(i) + ("\"" + after))[0] == if i == 0 then '"' else ',';
  }

  // ---- And no control character ------------------------------------------------------------------------

  predicate Visible(text: string)
  {
    forall i | 0 <= i < |text| :: text[i] >= ' '
  }

  lemma {:induction false} QuotedIsVisible(text: string)
    ensures Visible(Quoted(text))
  {
    if text != [] {
      QuotedIsVisible(text[1..]);
      assert Visible(Escaped(text[0]));
    }
  }

  lemma {:induction false} PrintIsVisible(value: Json)
    ensures Visible(Print(value))
    decreases value, 1
  {
    match value
    case Null =>
    case Bool(b) =>
    case Number(n) => NumberIsVisible(n);
    case String(text) => QuotedIsVisible(text);
    case Array(items) => ItemsAreVisible(value, 0);
    case Object(members) => MembersAreVisible(value, T.Sorted(members.Keys), 0);
  }

  lemma NumberIsVisible(n: Number)
    ensures Visible(NumberText(n))
  {
    hide T.Decimal;
  }

  lemma {:induction false} ItemsAreVisible(value: Json, i: nat)
    requires value.Array? && i <= |value.items|
    ensures Visible(PrintItems(value, i))
    decreases value, 0, |value.items| - i
  {
    hide Print;
    if i < |value.items| {
      PrintIsVisible(value.items[i]);
      ItemsAreVisible(value, i + 1);
    }
  }

  lemma {:induction false} MembersAreVisible(value: Json, names: seq<string>, i: nat)
    requires value.Object? && i <= |names| && forall n | n in names :: n in value.members
    ensures Visible(PrintMembers(value, names, i))
    decreases value, 0, |names| - i
  {
    hide Print, Quoted;
    if i < |names| {
      QuotedIsVisible(names[i]);
      PrintIsVisible(value.members[names[i]]);
      MembersAreVisible(value, names, i + 1);
    }
  }
}
