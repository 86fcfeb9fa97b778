/** The text shared by every line format of the browser: escaped fields, fields
    cut at a separator, and decimal numbers. Each loop is proved against a
    function on strings, and the functions against each other. */
module Text {
  import opened Sequences

  // --- Escaping -----------------------------------------------------------------

  function EscapeOf(c: char): string {
    match c
    case '\\' => "\\\\"
    case '\t' => "\\t"
    case '\n' => "\\n"
    case '\r' => "\\r"
    case _ => [c]
  }

  function Escaped(value: string): string {
    if value == [] then [] else EscapeOf(value[0]) + Escaped(value[1..])
  }

  function PlainOf(c: char): char {
    match c
    case 't' => '\t'
    case 'n' => '\n'
    case 'r' => '\r'
    case _ => c
  }

  function Unescaped(value: string): string {
    if value == [] then []
    else if value[0] != '\\' || |value| == 1 then [value[0]] + Unescaped(value[1..])
    else [PlainOf(value[1])] + Unescaped(value[2..])
  }

  method EscapeField(value: string) returns (escaped: string)
    ensures escaped == Escaped(value)
  {
    escaped := [];
    for i := 0 to |value|
      invariant escaped + Escaped(value[i..]) == Escaped(value)
    {
      escaped := escaped + EscapeOf(value[i]);
      assert value[i..][1..] == value[i + 1..];
    }
  }

  method UnescapeField(value: string) returns (plain: string)
    ensures plain == Unescaped(value)
  {
    plain := [];
    var index := 0;
    while index < |value|
      invariant index <= |value|
      invariant plain + Unescaped(value[index..]) == Unescaped(value)
    {
      ghost var rest := value[index..];
      if value[index] != '\\' || index + 1 >= |value| {
        plain := plain + [value[index]];
        assert rest[1..] == value[index + 1..];
      } else {
        index := index + 1;
        plain := plain + [PlainOf(value[index])];
        assert rest[2..] == value[index + 1..];
      }
      index := index + 1;
    }
  }

  lemma UnescapeOne(c: char, tail: string)
    ensures Unescaped(EscapeOf(c) + tail) == [c] + Unescaped(tail)
  {
    var head := EscapeOf(c);
    assert (head + tail)[|head|..] == tail;
  }

  /** A field carries whatever a document called itself and comes back as it was. */
  lemma {:induction false} UnescapeUndoesEscape(value: string)
    ensures Unescaped(Escaped(value)) == value
  {
    if value != [] {
      UnescapeUndoesEscape(value[1..]);
      UnescapeOne(value[0], Escaped(value[1..]));
    }
  }

  /** No escaped field can end a field or a line. */
  ghost predicate IsField(s: string) {
    '\t' !in s && '\n' !in s && '\r' !in s
  }

  lemma {:induction false} EscapedIsField(value: string)
    ensures IsField(Escaped(value))
    ensures Escaped(value) == [] <==> value == []
  {
    if value != [] {
      EscapedIsField(value[1..]);
    }
  }

  // --- Cutting ------------------------------------------------------------------

  /** Whether cutting at `separator` keeps `c`: cutting lines drops carriage returns. */
  predicate Keeps(separator: char, c: char) {
    separator != '\n' || c != '\r'
  }

  function Cut(text: string, separator: char, current: string): seq<string> {
    if text == [] then [current]
    else if text[0] == separator then [current] + Cut(text[1..], separator, [])
    else Cut(text[1..], separator, if Keeps(separator, text[0]) then current + [text[0]] else current)
  }

  method SplitOn(text: string, separator: char) returns (parts: seq<string>)
    ensures parts == Cut(text, separator, [])
  {
    parts := [];
    var current := [];
    for i := 0 to |text|
      invariant parts + Cut(text[i..], separator, current) == Cut(text, separator, [])
    {
      assert text[i..][1..] == text[i + 1..];
      if text[i] == separator {
        parts := parts + [current];
        current := [];
      } else if Keeps(separator, text[i]) {
        current := current + [text[i]];
      }
    }
    assert text[|text|..] == [];
    parts := parts + [current];
  }

  /** Text a cut at `separator` takes whole. */
  ghost predicate Uncut(s: string, separator: char) {
    forall c <- s :: c != separator && Keeps(separator, c)
  }

  lemma {:induction false} CutAtFirst(s: string, separator: char, rest: string, current: string)
    requires Uncut(s, separator)
    ensures Cut(s + [separator] + rest, separator, current) == [current + s] + Cut(rest, separator, [])
    ensures Cut(s, separator, current) == [current + s]
  {
    var whole := s + [separator] + rest;
    if s == [] {
      assert whole[1..] == rest;
      assert current + s == current;
    } else {
      CutAtFirst(s[1..], separator, rest, current + [s[0]]);
      assert whole[1..] == s[1..] + [separator] + rest;
      assert current + [s[0]] + s[1..] == current + s;
    }
  }

  /** Fields with one separator between each two. */
  function Joined(fields: seq<string>, separator: char): string {
    if fields == [] then []
    else if |fields| == 1 then fields[0]
    else fields[0] + [separator] + Joined(fields[1..], separator)
  }

  lemma {:induction false} CutUndoesJoin(fields: seq<string>, separator: char)
    requires fields != [] && forall f <- fields :: Uncut(f, separator)
    ensures Cut(Joined(fields, separator), separator, []) == fields
  {
    if |fields| == 1 {
      CutAtFirst(fields[0], separator, [], []);
      assert [] + fields[0] == fields[0];
    } else {
      var rest := Joined(fields[1..], separator);
      CutAtFirst(fields[0], separator, rest, []);
      CutUndoesJoin(fields[1..], separator);
      assert [] + fields[0] == fields[0];
      assert Joined(fields, separator) == fields[0] + [separator] + rest;
      assert [fields[0]] + fields[1..] == fields;
    }
  }

  /** Lines, each ended by a line feed. */
  function Ended(lines: seq<string>): string {
    if lines == [] then [] else lines[0] + ['\n'] + Ended(lines[1..])
  }

  lemma {:induction false} EndedAppends(lines: seq<string>, line: string)
    ensures Ended(lines + [line]) == Ended(lines) + line + ['\n']
  {
    if lines == [] {
      assert Ended([line]) == line + ['\n'] + Ended([line][1..]);
    } else {
      EndedAppends(lines[1..], line);
      assert (lines + [line])[1..] == lines[1..] + [line];
    }
  }

  lemma {:induction false} EndedConcat(front: seq<string>, back: seq<string>)
    ensures Ended(front + back) == Ended(front) + Ended(back)
  {
    if front == [] {
      assert front + back == back;
    } else {
      EndedConcat(front[1..], back);
      assert (front + back)[1..] == front[1..] + back && (front + back)[0] == front[0];
      Associates(front[0] + ['\n'], Ended(front[1..]), Ended(back));
    }
  }

  lemma {:induction false} CutUndoesEnded(lines: seq<string>)
    requires forall line <- lines :: Uncut(line, '\n')
    ensures Cut(Ended(lines), '\n', []) == lines + [[]]
  {
    if lines != [] {
      CutAtFirst(lines[0], '\n', Ended(lines[1..]), []);
      CutUndoesEnded(lines[1..]);
      assert [] + lines[0] == lines[0];
    }
  }

  ghost predicate AllUncut(lines: seq<string>) {
    forall line <- lines :: Uncut(line, '\n')
  }

  lemma OneMoreLine(line: string, rest: seq<string>) returns (lines: seq<string>)
    ensures lines == [line] + rest && lines[0] == line && lines[1..] == rest
    ensures Ended(lines) == line + "\n" + Ended(rest)
    ensures AllUncut(rest) && Uncut(line, '\n') ==> AllUncut(lines)
  {
    lines := [line] + rest;
    assert lines[1..] == rest;
  }

  /** A file of a header and ended lines is cut into them, and an empty line after. */
  lemma HeadedCuts(header: string, lines: seq<string>)
    requires Uncut(header, '\n') && AllUncut(lines)
    ensures Cut(header + "\n" + Ended(lines), '\n', []) == [header] + (lines + [[]])
  {
    var all := OneMoreLine(header, lines);
    CutUndoesEnded(all);
    assert all + [[]] == [header] + (lines + [[]]);
  }

  lemma {:induction false} JoinedIsUncut(fields: seq<string>)
    requires forall f <- fields :: IsField(f)
    ensures Uncut(Joined(fields, '\t'), '\n')
  {
    if |fields| > 0 {
      assert IsField(fields[0]) && Uncut(fields[0], '\n');
      if |fields| > 1 {
        JoinedIsUncut(fields[1..]);
        assert Uncut(fields[0] + ['\t'], '\n');
      }
    }
  }

  // --- Numbers ------------------------------------------------------------------

  predicate IsDigit(c: char) {
    '0' <= c <= '9'
  }

  function DigitOf(d: nat): char
    requires d < 10
  {
    '0' + d as char
  }

  function Decimal(n: nat): string {
    if n < 10 then [DigitOf(n)] else Decimal(n / 10) + [DigitOf(n % 10)]
  }

  function ToString(n: int): string {
    if n < 0 then ['-'] + Decimal(-n) else Decimal(n)
  }

  /** The number the leading digits spell, continuing from `parsed`. */
  function ParsedDigits(value: string, parsed: int): int {
    if value == [] || !IsDigit(value[0]) then parsed
    else ParsedDigits(value[1..], parsed * 10 + (value[0] as int - '0' as int))
  }

  predicate HasSign(value: string) {
    value != [] && (value[0] == '-' || value[0] == '+')
  }

  function ParsedSigned(value: string): int {
    var digits := if HasSign(value) then value[1..] else value;
    if HasSign(value) && value[0] == '-' then -ParsedDigits(digits, 0) else ParsedDigits(digits, 0)
  }

  method ParseSigned(value: string) returns (r: int)
    ensures r == ParsedSigned(value)
  {
    var parsed := 0;
    var negative := false;
    var index := 0;
    if index < |value| && (value[index] == '-' || value[index] == '+') {
      negative := value[index] == '-';
      index := index + 1;
    }
    ghost var digits := value[index..];
    while index < |value|
      invariant index <= |value|
      invariant ParsedDigits(value[index..], parsed) == ParsedDigits(digits, 0)
    {
      if value[index] < '0' || value[index] > '9' {
        break;
      }
      assert value[index..][1..] == value[index + 1..];
      parsed := parsed * 10 + (value[index] as int - '0' as int);
      index := index + 1;
    }
    r := if negative then -parsed else parsed;
  }

  lemma {:induction false} DigitsSpell(n: nat, rest: string)
    ensures ParsedDigits(Decimal(n) + rest, 0) == ParsedDigits(rest, n)
    ensures Decimal(n) != [] && forall c <- Decimal(n) :: IsDigit(c)
  {
    if n < 10 {
      assert (Decimal(n) + rest)[1..] == rest;
    } else {
      var last := [DigitOf(n % 10)];
      DigitsSpell(n / 10, last + rest);
      assert Decimal(n) + rest == Decimal(n / 10) + (last + rest);
      assert (last + rest)[1..] == rest;
    }
  }

  lemma ParseUndoesToString(n: int)
    ensures ParsedSigned(ToString(n)) == n
    ensures IsField(ToString(n)) && ToString(n) != []
  {
    var digits := Decimal(if n < 0 then -n else n);
    DigitsSpell(if n < 0 then -n else n, []);
    assert digits + [] == digits;
    if n < 0 {
      assert ToString(n)[1..] == digits;
    }
  }
}
