/**
 The JSON tree parser and printer of contrib/cJSON/cJSON.c: what they compute, and that
 parsing undoes printing (the grammar of sections 3 to 7 of RFC 8259).

 A text is the characters up to the terminator; the character at the end is NUL.
 */
module Json {
  import opened Common
  import opened Decimals

  /** A cJSON item: its type and value. Integers carry both value fields, as in the source. */
  datatype Value =
    | Null
    | False
    | True
    | Number(valueint: int, valuedouble: real)
    | String(text: string)
    | Array(kids: Kids)
    | Object(kids: Kids)

  /** The list of siblings below an array or object; only the members of an object have a name. */
  datatype Kids = End | Kid(name: Option<string>, value: Value, next: Kids)

  /** Unmodelled: a \u escape, or a read past the terminator. */
  datatype Parsed<+T> = Ok(value: T, rest: string) | Fail | Unmodelled

  const QUOTE := 34 as char
  const BACKSLASH := 92 as char
  const BACKSPACE := 8 as char
  const FORMFEED := 12 as char
  const NEWLINE := 10 as char
  const RETURN := 13 as char
  const TAB := 9 as char

  function Head(s: string): char {
    if s == [] then NUL else s[0]
  }

  // ---------------------------------------------------------------- white space

  predicate Blank(c: char) {
    0 < c as int <= 32
  }

  /** skip */
  function Skip(s: string): (r: string)
    ensures |r| <= |s| && !Blank(Head(r))
  {
    if s != [] && Blank(s[0]) then Skip(s[1..]) else s
  }

  lemma {:induction false} SkipBlanks(blanks: string, s: string)
    requires forall i :: 0 <= i < |blanks| ==> Blank(blanks[i])
    ensures Skip(blanks + s) == Skip(s)
  {
    if blanks == [] {
      assert blanks + s == s;
    } else {
      SkipBlanks(blanks[1..], s);
      assert (blanks + s)[1..] == blanks[1..] + s;
    }
  }

  // ---------------------------------------------------------------- numbers

  function ReadDigits(acc: int, s: string): (r: (int, string))
    ensures |r.1| <= |s|
    decreases |s|
  {
    if IsDigit(Head(s)) then ReadDigits(acc * 10 + (s[0] as int - 48), s[1..]) else (acc, s)
  }

  /** The digits of a fraction: the character after the point is taken whatever it is. */
  function ReadFraction(acc: int, scale: int, s: string): (r: (int, int, string))
    requires s != []
    ensures |r.2| < |s|
    decreases |s|
  {
    var acc' := acc * 10 + Signed(s[0]) - 48;
    if IsDigit(Head(s[1..])) then ReadFraction(acc', scale - 1, s[1..]) else (acc', scale - 1, s[1..])
  }

  /** The value of a signed char. */
  function Signed(c: char): int {
    (c as int + 128) % 256 - 128
  }

  function Pow10(e: int): real
    decreases if e < 0 then -e else e
  {
    if e == 0 then 1.0 else if e > 0 then 10.0 * Pow10(e - 1) else Pow10(e + 1) / 10.0
  }

  /** Conversion of a double to an integer. */
  function Trunc(x: real): int {
    if x >= 0.0 then x.Floor else -(-x).Floor
  }

  /** The value fields from sign, digits, scale and exponent. */
  function MakeNumber(negative: bool, n: int, i: int, scale: int, exponent: int): Value {
    var x := (if negative then -1.0 else 1.0) * n as real * Pow10(scale + exponent);
    Number(if scale != 0 || exponent != 0 then Trunc(x) else if negative then -i else i, x)
  }

  /** The exponent part, if there is one: its value and the rest. */
  function ReadExponent(s: string): (r: (int, string))
    ensures |r.1| <= |s|
  {
    if Head(s) != 'e' && Head(s) != 'E' then (0, s)
    else if Head(s[1..]) == '+' then ReadDigits(0, s[2..])
    else if Head(s[1..]) == '-' then var (e, r) := ReadDigits(0, s[2..]); (-e, r)
    else ReadDigits(0, s[1..])
  }

  /** The integer part. */
  function ReadInteger(s: string): (r: (int, string))
    ensures |r.1| <= |s|
    ensures IsDigit(Head(s)) ==> |r.1| < |s|
  {
    var s1 := if Head(s) == '0' then s[1..] else s;
    if '1' <= Head(s1) <= '9' then ReadDigits(s1[0] as int - 48, s1[1..]) else (0, s1)
  }

  /** parse_number */
  function ParseNumber(s: string): (r: Parsed<Value>)
    ensures r.Ok? ==> |r.rest| <= |s| && (Head(s) == '-' || IsDigit(Head(s)) ==> |r.rest| < |s|)
    ensures !r.Fail? && (r.Ok? ==> r.value.Number?)
  {
    var negative := Head(s) == '-';
    var (i, s3) := ReadInteger(if negative then s[1..] else s);
    if Head(s3) == '.' && |s3| == 1 then Unmodelled
    else
      var (n, scale, s4) := if Head(s3) == '.' then ReadFraction(i, 0, s3[1..]) else (i, 0, s3);
      var (exponent, rest) := ReadExponent(s4);
      Ok(MakeNumber(negative, n, i, scale, exponent), rest)
  }

  /** print_number on an item whose two value fields agree. */
  function PrintNumber(k: int): (r: string)
    ensures |r| > 0 && (r[0] == '-' || IsDigit(r[0]))
  {
    if k < 0 then "-" + Decimal(-k) else Decimal(k)
  }

  lemma {:induction false} ReadDigitsAll(acc: int, done: string, digits: string, suffix: string)
    requires AllDigits(digits) && AllDigits(done) && !IsDigit(Head(suffix))
    ensures ReadDigits(DigitsValue(acc, done), digits + suffix) == (DigitsValue(acc, done + digits), suffix)
    decreases |digits|
  {
    if digits == [] {
      assert digits + suffix == suffix && done + digits == done;
    } else {
      var done' := done + [digits[0]];
      assert done'[..|done'| - 1] == done && done' + digits[1..] == done + digits;
      assert (digits + suffix)[1..] == digits[1..] + suffix;
      ReadDigitsAll(acc, done', digits[1..], suffix);
    }
  }

  lemma ReadDecimal(n: nat, suffix: string)
    requires !IsDigit(Head(suffix))
    ensures ReadInteger(Decimal(n) + suffix) == (n, suffix)
  {
    var d := Decimal(n);
    var s := d + suffix;
    DecimalValue(n);
    if n == 0 {
      assert s[1..] == suffix;
    } else {
      assert s[1..] == d[1..] + suffix && d == [d[0]] + d[1..] && [d[0]][..0] == [];
      assert DigitsValue(0, [d[0]]) == d[0] as int - 48;
      ReadDigitsAll(0, [d[0]], d[1..], suffix);
    }
  }

  /** A suffix that the characters of a number cannot run into. */
  predicate Stops(suffix: string) {
    var c := Head(suffix);
    !IsDigit(c) && c != '.' && c != 'e' && c != 'E'
  }

  lemma WholeNumber(negative: bool, n: int)
    ensures MakeNumber(negative, n, n, 0, 0) == (if negative then Number(-n, (-n) as real) else Number(n, n as real))
  {
    assert Pow10(0) == 1.0;
    assert -1.0 * n as real == (-n) as real;
  }

  lemma NumberRoundTrip(k: int, suffix: string)
    requires Stops(suffix)
    ensures ParseNumber(PrintNumber(k) + suffix) == Ok(Number(k, k as real), suffix)
  {
    hide ReadInteger, ReadFraction, ReadDigits, MakeNumber, Decimal;
    var n := if k < 0 then -k else k;
    var s := PrintNumber(k) + suffix;
    if k < 0 {
      assert s[1..] == Decimal(n) + suffix;
    }
    ReadDecimal(n, suffix);
    WholeNumber(k < 0, n);
  }

  // ---------------------------------------------------------------- strings

  /** The character a two-character escape stands for. */
  function Unescaped(c: char): char {
    if c == 'b' then BACKSPACE
    else if c == 'f' then FORMFEED
    else if c == 'n' then NEWLINE
    else if c == 'r' then RETURN
    else if c == 't' then TAB
    else c
  }

  /** The second pass of parse_string, from behind the opening quote. An unterminated string is accepted. */
  function Unescape(s: string): (r: Parsed<string>)
    ensures !r.Fail? && (r.Ok? ==> |r.rest| <= |s|)
  {
    if Head(s) == QUOTE then Ok("", s[1..])
    else if Head(s) as int <= 31 then Ok("", s)
    else if s[0] != BACKSLASH then Prefixed(s[0], Unescape(s[1..]))
    else if |s| == 1 || s[1] == 'u' then Unmodelled
    else Prefixed(Unescaped(s[1]), Unescape(s[2..]))
  }

  function Prefixed(c: char, p: Parsed<string>): Parsed<string> {
    if p.Ok? then Ok([c] + p.value, p.rest) else p
  }

  /** parse_string */
  function ParseString(s: string): (r: Parsed<string>)
    ensures r.Ok? ==> |r.rest| < |s|
  {
    if Head(s) != QUOTE then Fail else Unescape(s[1..])
  }

  /** What print_string_ptr writes for one character; other control characters are dropped. */
  function Escaped(c: char): (r: string)
    ensures |r| <= 2
  {
    if c as int > 31 && c != QUOTE && c != BACKSLASH then [c]
    else if c == BACKSLASH || c == QUOTE then [BACKSLASH, c]
    else if c == BACKSPACE then [BACKSLASH, 'b']
    else if c == FORMFEED then [BACKSLASH, 'f']
    else if c == NEWLINE then [BACKSLASH, 'n']
    else if c == RETURN then [BACKSLASH, 'r']
    else if c == TAB then [BACKSLASH, 't']
    else []
  }

  function EscapedAll(s: string): string {
    if s == [] then [] else Escaped(s[0]) + EscapedAll(s[1..])
  }

  /** print_string_ptr */
  function PrintString(s: string): (r: string)
    ensures |r| > 0 && r[0] == QUOTE
  {
    [QUOTE] + EscapedAll(s) + [QUOTE]
  }

  /** A character that survives printing: printable, or one of the five escaped control characters. */
  predicate Clean(c: char) {
    c as int > 31 || c in {BACKSPACE, FORMFEED, NEWLINE, RETURN, TAB}
  }

  ghost predicate CleanText(s: string) {
    forall i :: 0 <= i < |s| ==> Clean(s[i])
  }

  lemma UnescapeOne(c: char, tail: string)
    requires Clean(c)
    ensures Unescape(Escaped(c) + tail) == Prefixed(c, Unescape(tail))
  {
    var e := Escaped(c);
    var t := e + tail;
    assert |e| == 1 ==> t[0] == c && t[1..] == tail;
    assert |e| == 2 ==> t[0] == e[0] && t[1] == e[1] && t[2..] == tail;
  }

  lemma {:induction false} UnescapeUndoes(s: string, suffix: string)
    requires CleanText(s)
    ensures Unescape(EscapedAll(s) + [QUOTE] + suffix) == Ok(s, suffix)
  {
    hide Escaped;
    var t := EscapedAll(s) + [QUOTE] + suffix;
    if s == [] {
      assert t[1..] == suffix;
    } else {
      var tail := EscapedAll(s[1..]) + [QUOTE] + suffix;
      UnescapeUndoes(s[1..], suffix);
      UnescapeOne(s[0], tail);
      assert t == Escaped(s[0]) + tail && s == [s[0]] + s[1..];
    }
  }

  /** A string is read back exactly when it holds no control character that printing drops. */
  lemma {:induction false} StringRoundTripIff(s: string, suffix: string)
    ensures ParseString(PrintString(s) + suffix) == Ok(s, suffix) <==> CleanText(s)
  {
    var t := PrintString(s) + suffix;
    var k := Cleaned(s);
    EscapesOnlyClean(s);
    assert t[1..] == EscapedAll(k) + [QUOTE] + suffix;
    UnescapeUndoes(k, suffix);
    CleanedSame(s);
  }

  /** The characters of a string that printing keeps. */
  function Cleaned(s: string): (r: string)
    ensures CleanText(r) && |r| <= |s|
  {
    if s == [] then [] else if Clean(s[0]) then [s[0]] + Cleaned(s[1..]) else Cleaned(s[1..])
  }

  lemma {:induction false} CleanedSame(s: string)
    ensures Cleaned(s) == s <==> CleanText(s)
  {
    if s != [] {
      CleanedSame(s[1..]);
      assert s == [s[0]] + s[1..];
      assert CleanText(s) <==> Clean(s[0]) && CleanText(s[1..]);
    }
  }

  lemma {:induction false} EscapesOnlyClean(s: string)
    ensures EscapedAll(Cleaned(s)) == EscapedAll(s)
  {
    if s != [] {
      EscapesOnlyClean(s[1..]);
      if Clean(s[0]) {
        assert Cleaned(s)[0] == s[0] && Cleaned(s)[1..] == Cleaned(s[1..]);
      } else {
        assert Escaped(s[0]) == [] && [] + EscapedAll(s[1..]) == EscapedAll(s[1..]);
      }
    }
  }

  // ---------------------------------------------------------------- trees

  predicate StartsWith(s: string, word: string): (r: bool)
    ensures r && word != [] ==> s != [] && s[0] == word[0]
  {
    |word| <= |s| && s[..|word|] == word
  }

  /** parse_value */
  function ParseValue(s: string): (r: Parsed<Value>)
    ensures r.Ok? ==> |r.rest| < |s|
    decreases |s|, 0
  {
    if StartsWith(s, "null") then Ok(Null, s[4..])
    else if StartsWith(s, "false") then Ok(False, s[5..])
    else if StartsWith(s, "true") then Ok(True, s[4..])
    else if Head(s) == QUOTE then
      match ParseString(s)
      case Ok(text, rest) => Ok(String(text), rest)
      case Fail => Fail
      case Unmodelled => Unmodelled
    else if Head(s) == '-' || IsDigit(Head(s)) then ParseNumber(s)
    else if Head(s) == '[' then
      var s1 := Skip(s[1..]);
      if Head(s1) == ']' then Ok(Array(End), s1[1..]) else Wrap(false, ParseItems(s1))
    else if Head(s) == '{' then
      var s1 := Skip(s[1..]);
      if Head(s1) == '}' then Ok(Object(End), s1[1..]) else Wrap(true, ParseMembers(s1))
    else Fail
  }

  function Wrap(named: bool, p: Parsed<Kids>): Parsed<Value> {
    match p
    case Ok(kids, rest) => Ok(if named then Object(kids) else Array(kids), rest)
    case Fail => Fail
    case Unmodelled => Unmodelled
  }

  /** The elements of a non-empty array up to and including the closing bracket. */
  function ParseItems(s: string): (r: Parsed<Kids>)
    ensures r.Ok? ==> |r.rest| < |s|
    decreases |s|, 1
  {
    match ParseValue(Skip(s))
    case Fail => Fail
    case Unmodelled => Unmodelled
    case Ok(v, rest) =>
      var s1 := Skip(rest);
      if Head(s1) == ',' then Onto(None, v, ParseItems(s1[1..]))
      else if Head(s1) == ']' then Ok(Kid(None, v, End), s1[1..])
      else Fail
  }

  function Onto(name: Option<string>, v: Value, p: Parsed<Kids>): Parsed<Kids> {
    if p.Ok? then Ok(Kid(name, v, p.value), p.rest) else p
  }

  /** A member's name up to and including the colon. */
  function ParseName(s: string): (r: Parsed<string>)
    ensures r.Ok? ==> |r.rest| < |s|
  {
    match ParseString(Skip(s))
    case Ok(name, rest) => (var s1 := Skip(rest); if Head(s1) == ':' then Ok(name, s1[1..]) else Fail)
    case Fail => Fail
    case Unmodelled => Unmodelled
  }

  /** The members of a non-empty object up to and including the closing brace. */
  function ParseMembers(s: string): (r: Parsed<Kids>)
    ensures r.Ok? ==> |r.rest| < |s|
    decreases |s|, 1
  {
    match ParseName(s)
    case Fail => Fail
    case Unmodelled => Unmodelled
    case Ok(name, s1) =>
      match ParseValue(Skip(s1))
      case Fail => Fail
      case Unmodelled => Unmodelled
      case Ok(v, rest) =>
        var s2 := Skip(rest);
        if Head(s2) == ',' then Onto(Some(name), v, ParseMembers(s2[1..]))
        else if Head(s2) == '}' then Ok(Kid(Some(name), v, End), s2[1..])
        else Fail
  }

  /** Every number in the tree is an integer of type int, in both value fields. */
  ghost predicate Whole(v: Value) {
    match v
    case Number(k, x) => INT_MIN <= k <= INT_MAX && x == k as real
    case Array(kids) => WholeKids(kids)
    case Object(kids) => WholeKids(kids)
    case _ => true
  }

  ghost predicate WholeKids(kids: Kids) {
    kids.End? || (Whole(kids.value) && WholeKids(kids.next))
  }

  function Tabs(n: nat): (r: string)
    ensures |r| == n && forall i :: 0 <= i < n ==> r[i] == TAB
  {
    seq(n, _ => TAB)
  }

  function When(fmt: bool, s: string): string {
    if fmt then s else []
  }

  /** print_value at a depth, formatted or not. */
  function PrintValue(v: Value, depth: nat, fmt: bool): string
    requires Whole(v)
  {
    match v
    case Null => "null"
    case False => "false"
    case True => "true"
    case Number(k, _) => PrintNumber(k)
    case String(text) => PrintString(text)
    case Array(kids) => "[" + PrintItems(kids, depth + 1, fmt) + "]"
    case Object(kids) => "{" + When(fmt, [NEWLINE]) + PrintMembers(kids, depth + 1, fmt) + When(fmt, Tabs(depth)) + "}"
  }

  function PrintItems(kids: Kids, depth: nat, fmt: bool): string
    requires WholeKids(kids)
  {
    match kids
    case End => []
    case Kid(_, v, End) => PrintValue(v, depth, fmt)
    case Kid(_, v, next) => PrintValue(v, depth, fmt) + "," + When(fmt, " ") + PrintItems(next, depth, fmt)
  }

  /** A member up to its value. */
  function PrintName(name: Option<string>, depth: nat, fmt: bool): string {
    When(fmt, Tabs(depth)) + (if name.Some? then PrintString(name.value) else []) + ":" + When(fmt, [TAB])
  }

  function PrintMembers(kids: Kids, depth: nat, fmt: bool): string
    requires WholeKids(kids)
  {
    match kids
    case End => []
    case Kid(name, v, next) =>
      PrintName(name, depth, fmt) + PrintValue(v, depth, fmt) + When(next.Kid?, ",") + When(fmt, [NEWLINE])
        + PrintMembers(next, depth, fmt)
  }

  lemma NoMembers(depth: nat, fmt: bool)
    ensures PrintMembers(End, depth, fmt) == []
  {
  }

  /** The elements or the members of a list. */
  function ParseList(named: bool, s: string): Parsed<Kids> {
    if named then ParseMembers(s) else ParseItems(s)
  }

  lemma SkipNone(s: string)
    requires !Blank(Head(s))
    ensures Skip(s) == s
  {
  }

  /** What the parser does on an opening bracket or brace. */
  lemma Brackets(s: string)
    ensures Head(s) == '[' ==> var s1 := Skip(s[1..]);
              ParseValue(s) == if Head(s1) == ']' then Ok(Array(End), s1[1..]) else Wrap(false, ParseItems(s1))
    ensures Head(s) == '{' ==> var s1 := Skip(s[1..]);
              ParseValue(s) == if Head(s1) == '}' then Ok(Object(End), s1[1..]) else Wrap(true, ParseMembers(s1))
  {
    hide ParseItems, ParseMembers, ParseNumber, ParseString, Skip;
  }

  /** ParseItems skips blanks in front of the first element. */
  lemma SkipFirst(s: string, t: string)
    requires Skip(s) == t && Skip(t) == t
    ensures ParseItems(s) == ParseItems(t) && ParseMembers(s) == ParseMembers(t)
  {
    hide ParseValue, Skip, ParseString;
  }

  /** cJSON_Parse; what follows the value is ignored. */
  function Parse(text: string): (r: Option<Value>) {
    match ParseValue(Skip(text))
    case Ok(v, _) => Some(v)
    case _ => None
  }
}
