/**
 The texts that cJSON_Parse accepts, with any layout, and what they mean (the grammar of sections 2 to 7 of
 RFC 8259, and what the parser lets pass beyond it).
 */
module JsonLayout {
  import opened Common
  import opened Decimals
  import opened Json

  // ---------------------------------------------------------------- written texts

  /** A character of a string: as it is, or behind a backslash. */
  datatype Unit = Raw(c: char) | Escape(c: char)

  /** A string; the parser takes a control character or the end of the text for the closing quote. */
  datatype Quoted = Quoted(units: seq<Unit>, closed: bool)

  /** The part of a number behind the point: any character, and digits. */
  datatype Fraction = Fraction(first: char, digits: string)

  datatype Exponent = Exponent(letter: char, sign: string, digits: string)

  /** A number; `whole` does not start with a zero, `zero` stands for one in front of it. */
  datatype Numeral = Numeral(
    minus: bool, zero: bool, whole: string, fraction: Option<Fraction>, exponent: Option<Exponent>)

  /** A member's name with the blanks in front of the colon and behind it. */
  datatype Key = Key(name: Quoted, gap: string, lead: string)

  /** A text as it is written, with the blanks in it. */
  datatype Source =
    | Word(value: Value)
    | Num(numeral: Numeral)
    | Str(quoted: Quoted)
    | Arr(gap: string, entries: Entries)
    | Obj(gap: string, entries: Entries)

  datatype Entries = Done | Entry(lead: string, key: Option<Key>, value: Source, trail: string, next: Entries)

  // What is written, with the text that follows it.

  function UnitsText(units: seq<Unit>, tail: string): string {
    if units == [] then tail
    else if units[0].Raw? then [units[0].c] + UnitsText(units[1..], tail)
    else ['\\', units[0].c] + UnitsText(units[1..], tail)
  }

  function QuotedText(q: Quoted, tail: string): string {
    ['"'] + UnitsText(q.units, if q.closed then ['"'] + tail else tail)
  }

  function ExponentText(e: Option<Exponent>, tail: string): string {
    if e.None? then tail else [e.value.letter] + (e.value.sign + (e.value.digits + tail))
  }

  function FractionText(f: Option<Fraction>, tail: string): string {
    if f.None? then tail else ['.', f.value.first] + (f.value.digits + tail)
  }

  /** What follows the integer part. */
  function PartsText(n: Numeral, tail: string): string {
    FractionText(n.fraction, ExponentText(n.exponent, tail))
  }

  function NumeralText(n: Numeral, tail: string): string {
    (if n.minus then "-" else "") + ((if n.zero then "0" else "") + (n.whole + PartsText(n, tail)))
  }

  function Text(src: Source, tail: string): string
    decreases src, 2
  {
    match src
    case Word(v) => (if v.Null? then "null" else if v.False? then "false" else "true") + tail
    case Num(n) => NumeralText(n, tail)
    case Str(q) => QuotedText(q, tail)
    case Arr(gap, es) => ['['] + (gap + EntriesText(es, ']', tail))
    case Obj(gap, es) => ['{'] + (gap + EntriesText(es, '}', tail))
  }

  /** The entries of a list and its closing bracket. */
  function EntriesText(es: Entries, close: char, tail: string): string
    decreases es, 1
  {
    match es
    case Done => [close] + tail
    case Entry(lead, key, v, _, _) => lead + KeyText(key, Text(v, RestText(es, close, tail)))
  }

  /** What follows the value of the first entry. */
  function RestText(es: Entries, close: char, tail: string): string
    requires es.Entry?
    decreases es, 0
  {
    es.trail + if es.next.Done? then [close] + tail else [','] + EntriesText(es.next, close, tail)
  }

  function KeyText(key: Option<Key>, tail: string): string {
    if key.None? then tail
    else QuotedText(key.value.name, key.value.gap + ([':'] + (key.value.lead + tail)))
  }

  // What it means.

  function UnitMeans(u: Unit): char {
    match u
    case Raw(c) => c
    case Escape(c) =>
      match c
      case 'b' => 8 as char
      case 't' => 9 as char
      case 'n' => 10 as char
      case 'f' => 12 as char
      case 'r' => 13 as char
      case _ => c
  }

  function UnitsMean(units: seq<Unit>): string {
    seq(|units|, i requires 0 <= i < |units| => UnitMeans(units[i]))
  }

  /** Powers of ten. */
  function Tens(e: int): real {
    if e >= 0 then Ten(e) as real else 1.0 / Ten(-e) as real
  }

  function Ten(n: nat): (r: nat)
    ensures r > 0
  {
    if n == 0 then 1 else 10 * Ten(n - 1)
  }

  ghost function WholePart(n: Numeral): int
    requires NumeralFits(n)
  {
    DigitsValue(0, n.whole)
  }

  /** All digits as one number, and where the point is. */
  ghost function Scaled(n: Numeral): (int, int)
    requires NumeralFits(n)
  {
    match n.fraction
    case None => (WholePart(n), 0)
    case Some(f) => (DigitsValue(10 * WholePart(n) + Signed(f.first) - 48, f.digits), -1 - |f.digits|)
  }

  ghost function Shift(n: Numeral): int
    requires NumeralFits(n)
  {
    match n.exponent
    case None => 0
    case Some(e) => DigitsValue(0, e.digits) * if e.sign == "-" then -1 else 1
  }

  ghost function NumeralValue(n: Numeral): real
    requires NumeralFits(n)
  {
    (if n.minus then -1.0 else 1.0) * Scaled(n).0 as real * Tens(Scaled(n).1 + Shift(n))
  }

  /** The integer next to a number on the side of zero. */
  function TowardZero(x: real): (k: int)
    ensures x >= 0.0 ==> k as real <= x < k as real + 1.0
    ensures x < 0.0 ==> k as real - 1.0 < x <= k as real
  {
    if x >= 0.0 then x.Floor else -(-x).Floor
  }

  ghost function Means(src: Source): Value
    requires Fits(src)
  {
    match src
    case Word(v) => v
    case Num(n) => Number(TowardZero(NumeralValue(n)), NumeralValue(n))
    case Str(q) => String(UnitsMean(q.units))
    case Arr(_, es) => Array(EntriesMean(es))
    case Obj(_, es) => Object(EntriesMean(es))
  }

  ghost function EntriesMean(es: Entries): Kids
    requires EntriesFit(es)
  {
    match es
    case Done => End
    case Entry(_, key, v, _, next) =>
      Kid(if key.Some? then Some(UnitsMean(key.value.name.units)) else None, Means(v), EntriesMean(next))
  }

  // When it can be written.

  /** Digits where digits are read. */
  ghost predicate NumeralFits(n: Numeral) {
    && AllDigits(n.whole) && (n.fraction.Some? ==> AllDigits(n.fraction.value.digits))
    && (n.exponent.Some? ==> AllDigits(n.exponent.value.digits))
  }

  ghost predicate Fits(src: Source) {
    match src
    case Num(n) => NumeralFits(n)
    case Arr(_, es) => EntriesFit(es)
    case Obj(_, es) => EntriesFit(es)
    case _ => true
  }

  ghost predicate EntriesFit(es: Entries) {
    es.Done? || (Fits(es.value) && EntriesFit(es.next))
  }

  ghost predicate Blanks(s: string) {
    forall i :: 0 <= i < |s| ==> 0 < s[i] as int <= 32
  }

  /** A quote, a backslash and control characters are not written as they are; \u is not modelled. */
  ghost predicate UnitWritten(u: Unit) {
    match u
    case Raw(c) => c as int > 31 && c != '"' && c != '\\'
    case Escape(c) => c != 'u'
  }

  /** An open string ends where a control character or nothing follows. */
  ghost predicate QuotedWritten(q: Quoted, tail: string) {
    && (forall i :: 0 <= i < |q.units| ==> UnitWritten(q.units[i]))
    && (q.closed || Head(tail) as int <= 31)
  }

  /** Each part of a number takes all the characters that can belong to it. */
  ghost predicate NumeralWritten(n: Numeral, tail: string) {
    && NumeralFits(n) && (n.minus || n.zero || n.whole != [])
    && (n.whole != [] ==> n.whole[0] != '0' && !IsDigit(Head(PartsText(n, tail))))
    && (n.whole == [] ==> !('1' <= Head(PartsText(n, tail)) <= '9') && (n.zero || Head(PartsText(n, tail)) != '0'))
    && FractionWritten(n.fraction, ExponentText(n.exponent, tail)) && ExponentWritten(n.exponent, tail)
  }

  ghost predicate FractionWritten(f: Option<Fraction>, tail: string) {
    match f
    case None => Head(tail) != '.'
    case Some(g) => AllDigits(g.digits) && !IsDigit(Head(tail))
  }

  ghost predicate ExponentWritten(e: Option<Exponent>, tail: string) {
    match e
    case None => Head(tail) !in {'e', 'E'}
    case Some(x) =>
      && x.letter in {'e', 'E'} && x.sign in {"", "+", "-"} && AllDigits(x.digits) && !IsDigit(Head(tail))
      && (x.sign == "" && x.digits == [] ==> Head(tail) !in {'+', '-'})
  }

  ghost predicate Written(src: Source, tail: string) {
    match src
    case Word(v) => v.Null? || v.False? || v.True?
    case Num(n) => NumeralWritten(n, tail)
    case Str(q) => QuotedWritten(q, tail)
    case Arr(gap, es) => Blanks(gap) && EntriesWritten(es, false, ']', tail)
    case Obj(gap, es) => Blanks(gap) && EntriesWritten(es, true, '}', tail)
  }

  ghost predicate EntriesWritten(es: Entries, named: bool, close: char, tail: string) {
    match es
    case Done => true
    case Entry(lead, key, v, trail, next) =>
      && Blanks(lead) && Blanks(trail) && (key.Some? <==> named)
      && (key.Some? ==> KeyWritten(key.value))
      && Written(v, RestText(es, close, tail)) && EntriesWritten(next, named, close, tail)
  }

  ghost predicate KeyWritten(key: Key) {
    Blanks(key.gap) && Blanks(key.lead) && QuotedWritten(key.name, key.gap + [':'])
  }

  lemma {:induction false} WrittenFits(src: Source, tail: string)
    requires Written(src, tail)
    ensures Fits(src)
    decreases src
  {
    match src
    case Arr(_, es) => EntriesWrittenFit(es, false, ']', tail);
    case Obj(_, es) => EntriesWrittenFit(es, true, '}', tail);
    case _ =>
  }

  lemma {:induction false} EntriesWrittenFit(es: Entries, named: bool, close: char, tail: string)
    requires EntriesWritten(es, named, close, tail)
    ensures EntriesFit(es)
    decreases es
  {
    if es.Entry? {
      WrittenFits(es.value, RestText(es, close, tail));
      EntriesWrittenFit(es.next, named, close, tail);
    }
  }

  // ---------------------------------------------------------------- whatever is written is read

  lemma {:induction false} UnitsRead(units: seq<Unit>, closed: bool, tail: string)
    requires QuotedWritten(Quoted(units, closed), tail)
    ensures Unescape(UnitsText(units, if closed then ['"'] + tail else tail)) == Ok(UnitsMean(units), tail)
  {
    hide UnitsMean, UnitMeans, UnitsText;
    var end := if closed then ['"'] + tail else tail;
    if units == [] {
      UnitsNone();
      assert UnitsText([], end) == end by { TextNone(end); }
      assert closed ==> end[0] == QUOTE && end[1..] == tail;
    } else {
      var u, more := units[0], UnitsText(units[1..], end);
      UnitsRead(units[1..], closed, tail);
      assert units == [u] + units[1..] && UnitWritten(u);
      UnitsMore(u, units[1..], end);
      assert u.Raw? ==> ([u.c] + more)[1..] == more;
      assert u.Escape? ==> (['\\', u.c] + more)[1] == u.c && (['\\', u.c] + more)[2..] == more;
    }
  }

  lemma TextNone(tail: string)
    ensures UnitsText([], tail) == tail
  {
  }

  lemma QuotedRead(q: Quoted, tail: string)
    requires QuotedWritten(q, tail)
    ensures ParseString(QuotedText(q, tail)) == Ok(UnitsMean(q.units), tail)
  {
    hide Unescape;
    var inner := UnitsText(q.units, if q.closed then ['"'] + tail else tail);
    assert QuotedText(q, tail)[1..] == inner;
    UnitsRead(q.units, q.closed, tail);
  }

  lemma {:induction false} TensStep(e: int)
    ensures Pow10(e) == Tens(e)
    decreases if e < 0 then -e else e
  {
    if e > 0 {
      TensStep(e - 1);
    } else if e < 0 {
      TensStep(e + 1);
      var t := Ten(-e - 1) as real;
      assert Ten(-e) as real == 10.0 * t;
      TenthOf(t);
    }
  }

  lemma TenthOf(t: real)
    requires t > 0.0
    ensures 1.0 / t / 10.0 == 1.0 / (10.0 * t)
  {
  }

  lemma DigitsRead(digits: string, tail: string)
    requires AllDigits(digits) && !IsDigit(Head(tail))
    ensures ReadDigits(0, digits + tail) == (DigitsValue(0, digits), tail)
  {
    ReadDigitsAll(0, [], digits, tail);
    assert [] + digits == digits;
  }

  lemma ExponentRead(e: Option<Exponent>, tail: string)
    requires ExponentWritten(e, tail)
    ensures ReadExponent(ExponentText(e, tail)) ==
            (match e case None => 0 case Some(x) => DigitsValue(0, x.digits) * if x.sign == "-" then -1 else 1, tail)
  {
    hide ReadDigits, DigitsValue;
    if e.Some? {
      var x := e.value;
      var s, more := ExponentText(e, tail), x.digits + tail;
      DigitsRead(x.digits, tail);
      if x.sign == "" {
        assert s[1..] == more;
        assert Head(more) == if x.digits == [] then Head(tail) else x.digits[0];
      } else {
        assert s[1..] == [x.sign[0]] + more && s[2..] == more;
      }
    }
  }

  lemma {:induction false} FractionDigits(acc: int, scale: int, first: char, digits: string, tail: string)
    requires AllDigits(digits) && !IsDigit(Head(tail))
    ensures ReadFraction(acc, scale, [first] + (digits + tail)) ==
            (DigitsValue(10 * acc + Signed(first) - 48, digits), scale - 1 - |digits|, tail)
    decreases |digits|
  {
    var s := [first] + (digits + tail);
    assert s[1..] == digits + tail;
    if digits == [] {
      assert digits + tail == tail;
    } else {
      var acc' := 10 * acc + Signed(first) - 48;
      FractionDigits(acc', scale - 1, digits[0], digits[1..], tail);
      assert digits + tail == [digits[0]] + (digits[1..] + tail);
      DigitsFirst(acc', digits);
    }
  }

  lemma {:induction false} DigitsFirst(acc: int, digits: string)
    requires AllDigits(digits) && digits != []
    ensures DigitsValue(acc, digits) == DigitsValue(10 * acc + digits[0] as int - 48, digits[1..])
  {
    var n := |digits| - 1;
    if n == 0 {
      assert digits[..0] == [] && digits[1..] == [];
    } else {
      DigitsFirst(acc, digits[..n]);
      assert digits[..n][1..] == digits[1..][..n - 1];
    }
  }

  lemma WholeRead(n: Numeral, tail: string)
    requires NumeralWritten(n, tail)
    ensures ReadInteger((if n.zero then "0" else "") + (n.whole + PartsText(n, tail))) ==
            (DigitsValue(0, n.whole), PartsText(n, tail))
  {
    hide ReadDigits, PartsText;
    var more := PartsText(n, tail);
    var s1 := n.whole + more;
    var s := (if n.zero then "0" else "") + s1;
    assert if n.zero then s[0] == '0' && s[1..] == s1 else s == s1;
    if n.whole == [] {
      assert s1 == more;
    } else {
      assert IsDigit(n.whole[0]) && s1[1..] == n.whole[1..] + more;
      ReadDigitsAll(0, [n.whole[0]], n.whole[1..], more);
      assert [n.whole[0]] + n.whole[1..] == n.whole && [n.whole[0]][..0] == [];
      assert DigitsValue(0, [n.whole[0]]) == n.whole[0] as int - 48;
    }
  }

  lemma NumeralRead(n: Numeral, tail: string)
    requires NumeralWritten(n, tail)
    ensures ParseNumber(NumeralText(n, tail)) == Ok(Means(Num(n)), tail)
  {
    hide ReadInteger, ReadFraction, ReadExponent, MakeNumber, DigitsValue, NumeralValue, ExponentText, ExponentWritten;
    var s, more := NumeralText(n, tail), ExponentText(n.exponent, tail);
    var unsigned := (if n.zero then "0" else "") + (n.whole + PartsText(n, tail));
    if !n.minus {
      NoSign(n, tail);
    }
    assert if n.minus then s[1..] == unsigned else s == unsigned;
    WholeRead(n, tail);
    if n.fraction.Some? {
      var f := n.fraction.value;
      var s3 := PartsText(n, tail);
      assert s3[1..] == [f.first] + (f.digits + more);
      FractionDigits(DigitsValue(0, n.whole), 0, f.first, f.digits, more);
    }
    ExponentRead(n.exponent, tail);
    NumberMade(n);
  }

  lemma NoSign(n: Numeral, tail: string)
    requires NumeralWritten(n, tail) && !n.minus
    ensures Head((if n.zero then "0" else "") + (n.whole + PartsText(n, tail))) != '-'
  {
    hide PartsText;
  }

  /** The value fields. */
  lemma NumberMade(n: Numeral)
    requires NumeralFits(n)
    ensures MakeNumber(n.minus, Scaled(n).0, WholePart(n), Scaled(n).1, Shift(n)) == Means(Num(n))
  {
    hide DigitsValue, Signed, MakeNumber, Shift, Tens, TowardZero;
    FieldsMade(n.minus, Scaled(n).0, WholePart(n), Scaled(n).1, Shift(n));
  }

  lemma FieldsMade(minus: bool, digits: int, whole: int, scale: int, e: int)
    requires scale == 0 && e == 0 ==> digits == whole
    ensures var x := (if minus then -1.0 else 1.0) * digits as real * Tens(scale + e);
            MakeNumber(minus, digits, whole, scale, e) == Number(TowardZero(x), x)
  {
    hide Tens, Pow10, TowardZero, Trunc;
    TensStep(scale + e);
    var x := (if minus then -1.0 else 1.0) * digits as real * Tens(scale + e);
    assert (if minus then -1.0 else 1.0) * digits as real * Pow10(scale + e) == x;
    TruncIs(x);
    if scale == 0 && e == 0 {
      assert Tens(0) == 1.0 by { TensNone(); }
      WholeKept(minus, digits);
      assert x == (if minus then -1.0 else 1.0) * digits as real * 1.0;
    } else {
      assert MakeNumber(minus, digits, whole, scale, e).valuedouble == x;
      assert MakeNumber(minus, digits, whole, scale, e).valueint == Trunc(x);
    }
  }

  lemma TruncIs(x: real)
    ensures Trunc(x) == TowardZero(x)
  {
  }

  lemma TensNone()
    ensures Tens(0) == 1.0
  {
  }

  lemma WholeKept(minus: bool, k: int)
    ensures var x := (if minus then -1.0 else 1.0) * k as real * 1.0; TowardZero(x) == if minus then -k else k
  {
    assert (if minus then -1.0 else 1.0) * k as real * 1.0 == (if minus then -k else k) as real;
  }

  lemma BlanksSkipped(blanks: string, s: string)
    requires Blanks(blanks)
    ensures Skip(blanks + s) == Skip(s)
  {
    hide Skip;
    SkipBlanks(blanks, s);
  }

  /** A value starts with none of the characters that separate values. */
  lemma TextHead(src: Source, tail: string)
    requires Written(src, tail)
    ensures var s := Text(src, tail); s != [] && Skip(s) == s && s[0] !in {']', '}'}
  {
    hide EntriesText, PartsText, UnitsText;
  }

  lemma KeyHead(key: Key, tail: string)
    ensures var s := KeyText(Some(key), tail); s != [] && Skip(s) == s && s[0] == QUOTE
  {
    hide UnitsText;
  }

  /** Behind a value stand blanks and then a comma or the closing bracket. */
  lemma RestRead(es: Entries, named: bool, close: char, tail: string)
    requires EntriesWritten(es, named, close, tail) && es.Entry? && close in {']', '}'}
    ensures var s := Skip(RestText(es, close, tail));
            if es.next.Done? then s == [close] + tail else s == [','] + EntriesText(es.next, close, tail)
  {
    hide EntriesText, Skip, Written;
    var more := if es.next.Done? then [close] + tail else [','] + EntriesText(es.next, close, tail);
    BlanksSkipped(es.trail, more);
    SkipNone(more);
  }

  /** The parser reads a written text for what it means and leaves exactly what follows it. */
  lemma {:induction false} WrittenIsRead(src: Source, tail: string)
    requires Written(src, tail)
    ensures Fits(src) && ParseValue(Text(src, tail)) == Ok(Means(src), tail)
    decreases src
  {
    hide ParseNumber, ParseString, Skip, ParseItems, ParseMembers, EntriesText, UnitsText, PartsText, NumeralWritten;
    WrittenFits(src, tail);
    var s := Text(src, tail);
    match src {
      case Word(v) => WordRead(v, tail);
      case Num(n) =>
        NumeralHead(n, tail);
        NumeralRead(n, tail);
      case Str(q) => QuotedRead(q, tail);
      case Arr(gap, es) =>
        Brackets(s);
        assert s[1..] == gap + EntriesText(es, ']', tail);
        ListRead(gap, es, false, ']', tail);
      case Obj(gap, es) =>
        Brackets(s);
        assert s[1..] == gap + EntriesText(es, '}', tail);
        ListRead(gap, es, true, '}', tail);
    }
  }

  lemma WordRead(v: Value, tail: string)
    requires v.Null? || v.False? || v.True?
    ensures ParseValue(Text(Word(v), tail)) == Ok(v, tail)
  {
    hide ParseNumber, ParseString, ParseItems, ParseMembers, Skip;
    var s := Text(Word(v), tail);
    assert if v.False? then s[..5] == "false" && s[5..] == tail
           else s[..4] == (if v.Null? then "null" else "true") && s[4..] == tail;
  }

  lemma NumeralHead(n: Numeral, tail: string)
    requires NumeralWritten(n, tail)
    ensures var s := NumeralText(n, tail); s != [] && (s[0] == '-' || IsDigit(s[0]))
  {
    hide PartsText;
  }

  /** What is between two brackets, up to the closing one. */
  lemma {:induction false} ListRead(gap: string, es: Entries, named: bool, close: char, tail: string)
    requires Blanks(gap) && EntriesWritten(es, named, close, tail) && close == (if named then '}' else ']')
    ensures var s := Skip(gap + EntriesText(es, close, tail));
            && EntriesFit(es)
            && (es.Done? ==> Head(s) == close && s[1..] == tail)
            && (es.Entry? ==> Head(s) != close)
            && (es.Entry? && !named ==> ParseItems(s) == Ok(EntriesMean(es), tail))
            && (es.Entry? && named ==> ParseMembers(s) == Ok(EntriesMean(es), tail))
    decreases es, 1
  {
    hide ParseItems, ParseMembers, Skip, EntriesText, EntriesMean;
    EntriesWrittenFit(es, named, close, tail);
    var text := EntriesText(es, close, tail);
    BlanksSkipped(gap, text);
    if es.Done? {
      DoneText(close, tail);
      SkipNone(text);
    } else {
      EntriesHead(es, named, close, tail);
      EntriesRead(es, named, close, tail);
      SkipFirst(text, Skip(text));
    }
  }

  lemma DoneText(close: char, tail: string)
    ensures EntriesText(Done, close, tail) == [close] + tail && ([close] + tail)[1..] == tail
  {
  }

  lemma EntriesHead(es: Entries, named: bool, close: char, tail: string)
    requires EntriesWritten(es, named, close, tail) && es.Entry?
    ensures var s := Skip(EntriesText(es, close, tail));
            s == KeyText(es.key, Text(es.value, RestText(es, close, tail))) && Skip(s) == s && Head(s) !in {']', '}'}
  {
    hide Text, RestText, Skip, Written, KeyWritten, QuotedText;
    var value := Text(es.value, RestText(es, close, tail));
    BlanksSkipped(es.lead, KeyText(es.key, value));
    if es.key.Some? {
      KeyHead(es.key.value, value);
    } else {
      TextHead(es.value, RestText(es, close, tail));
    }
  }

  lemma {:induction false} EntriesRead(es: Entries, named: bool, close: char, tail: string)
    requires EntriesWritten(es, named, close, tail) && es.Entry? && close == (if named then '}' else ']')
    ensures EntriesFit(es)
    ensures !named ==> ParseItems(EntriesText(es, close, tail)) == Ok(EntriesMean(es), tail)
    ensures named ==> ParseMembers(EntriesText(es, close, tail)) == Ok(EntriesMean(es), tail)
    decreases es, 0
  {
    hide ParseValue, Skip, Text, EntriesText, RestText, Written, KeyText, ParseName;
    var rest := RestText(es, close, tail);
    EntriesWrittenFit(es, named, close, tail);
    EntriesHead(es, named, close, tail);
    WrittenIsRead(es.value, rest);
    RestRead(es, named, close, tail);
    if es.next.Entry? {
      EntriesRead(es.next, named, close, tail);
    }
    if named {
      KeyRead(es, close, tail);
    } else {
      NoKey(Text(es.value, rest));
    }
  }

  lemma NoKey(s: string)
    ensures KeyText(None, s) == s
  {
  }

  /** The name, the colon and the blanks around it. */
  lemma KeyRead(es: Entries, close: char, tail: string)
    requires EntriesWritten(es, true, close, tail) && es.Entry?
    ensures var p := ParseName(EntriesText(es, close, tail));
            && p.Ok? && p.value == UnitsMean(es.key.value.name.units)
            && Skip(p.rest) == Text(es.value, RestText(es, close, tail))
  {
    hide ParseString, Skip, EntriesText, Text, RestText, Written, QuotedText, UnitsMean;
    var key, value := es.key.value, Text(es.value, RestText(es, close, tail));
    var colon := [':'] + (key.lead + value);
    EntriesHead(es, true, close, tail);
    assert QuotedWritten(key.name, key.gap + colon) by { assert Head(key.gap + [':']) == Head(key.gap + colon); }
    QuotedRead(key.name, key.gap + colon);
    BlanksSkipped(key.gap, colon);
    SkipNone(colon);
    assert colon[1..] == key.lead + value;
    BlanksSkipped(key.lead, value);
    TextHead(es.value, RestText(es, close, tail));
  }

  // ---------------------------------------------------------------- and nothing else is read

  lemma {:induction false} UnitsFound(s: string) returns (q: Quoted)
    requires Unescape(s).Ok?
    ensures var r := Unescape(s);
            && QuotedWritten(q, r.rest) && UnitsMean(q.units) == r.value
            && s == UnitsText(q.units, if q.closed then ['"'] + r.rest else r.rest)
  {
    hide UnitsMean, UnitMeans;
    if Head(s) == QUOTE {
      q := Quoted([], true);
      assert s == ['"'] + s[1..];
      UnitsNone();
    } else if Head(s) as int <= 31 {
      q := Quoted([], false);
      UnitsNone();
    } else {
      var u := if s[0] != BACKSLASH then Raw(s[0]) else Escape(s[1]);
      var more := s[if u.Raw? then 1 else 2..];
      var p := UnitsFound(more);
      q := Quoted([u] + p.units, p.closed);
      UnitsMore(u, p.units, if q.closed then ['"'] + Unescape(s).rest else Unescape(s).rest);
      assert s == (if u.Raw? then [s[0]] else [s[0], s[1]]) + more;
    }
  }

  lemma UnitsNone()
    ensures UnitsMean([]) == []
  {
  }

  lemma UnitsMore(u: Unit, units: seq<Unit>, tail: string)
    ensures UnitsMean([u] + units) == [UnitMeans(u)] + UnitsMean(units)
    ensures UnitsText([u] + units, tail) == (if u.Raw? then [u.c] else ['\\', u.c]) + UnitsText(units, tail)
    ensures UnitMeans(u) == if u.Raw? then u.c else Unescaped(u.c)
  {
    assert ([u] + units)[1..] == units;
  }

  lemma QuotedFound(s: string) returns (q: Quoted)
    requires ParseString(s).Ok?
    ensures var r := ParseString(s);
            QuotedWritten(q, r.rest) && UnitsMean(q.units) == r.value && s == QuotedText(q, r.rest)
  {
    hide Unescape, UnitsText;
    q := UnitsFound(s[1..]);
    assert s == ['"'] + s[1..];
  }

  lemma {:induction false} DigitsFound(acc: int, s: string) returns (digits: string)
    ensures var r := ReadDigits(acc, s);
            AllDigits(digits) && s == digits + r.1 && !IsDigit(Head(r.1)) && r.0 == DigitsValue(acc, digits)
    decreases |s|
  {
    if IsDigit(Head(s)) {
      var more := DigitsFound(acc * 10 + (s[0] as int - 48), s[1..]);
      digits := [s[0]] + more;
      assert digits[1..] == more;
      DigitsFirst(acc, digits);
      assert s == [s[0]] + s[1..];
    } else {
      digits := [];
      assert s == [] + s;
    }
  }

  lemma {:induction false} FractionFound(acc: int, scale: int, s: string) returns (digits: string)
    requires s != []
    ensures var r := ReadFraction(acc, scale, s);
            && AllDigits(digits) && s == [s[0]] + (digits + r.2) && !IsDigit(Head(r.2))
            && r.0 == DigitsValue(10 * acc + Signed(s[0]) - 48, digits) && r.1 == scale - 1 - |digits|
    decreases |s|
  {
    var acc' := 10 * acc + Signed(s[0]) - 48;
    assert s == [s[0]] + s[1..];
    if IsDigit(Head(s[1..])) {
      var more := FractionFound(acc', scale - 1, s[1..]);
      digits := [s[1]] + more;
      assert digits[1..] == more;
      DigitsFirst(acc', digits);
      assert s[1..] == digits + ReadFraction(acc', scale - 1, s[1..]).2;
    } else {
      digits := [];
      assert s[1..] == [] + s[1..];
    }
  }

  lemma SignFound(s: string) returns (e: Exponent)
    requires Head(s) in {'e', 'E'} && Head(s[1..]) in {'+', '-'}
    ensures var r := ReadDigits(0, s[2..]);
            && ExponentWritten(Some(e), r.1) && s == ExponentText(Some(e), r.1)
            && r.0 == DigitsValue(0, e.digits) && e.sign == [s[1]]
  {
    hide ReadDigits, DigitsValue;
    var digits := DigitsFound(0, s[2..]);
    e := Exponent(s[0], [s[1]], digits);
    assert s == [s[0]] + ([s[1]] + s[2..]);
  }

  lemma NoSignFound(s: string) returns (e: Exponent)
    requires Head(s) in {'e', 'E'} && Head(s[1..]) !in {'+', '-'}
    ensures var r := ReadDigits(0, s[1..]);
            && ExponentWritten(Some(e), r.1) && s == ExponentText(Some(e), r.1)
            && r.0 == DigitsValue(0, e.digits) && e.sign == ""
  {
    hide ReadDigits, DigitsValue;
    var digits := DigitsFound(0, s[1..]);
    e := Exponent(s[0], "", digits);
    assert s == [s[0]] + ("" + s[1..]);
    assert digits == [] ==> s[1..] == ReadDigits(0, s[1..]).1;
  }

  lemma ExponentFound(s: string) returns (e: Option<Exponent>)
    ensures var r := ReadExponent(s);
            ExponentWritten(e, r.1) && s == ExponentText(e, r.1) &&
            r.0 == match e case None => 0 case Some(x) => DigitsValue(0, x.digits) * if x.sign == "-" then -1 else 1
  {
    hide ReadDigits, DigitsValue, ExponentWritten, ExponentText;
    if Head(s) !in {'e', 'E'} {
      NoExponent(s);
      e := None;
    } else if Head(s[1..]) in {'+', '-'} {
      var x := SignFound(s);
      e := Some(x);
    } else {
      var x := NoSignFound(s);
      e := Some(x);
    }
  }

  lemma NoExponent(s: string)
    ensures ExponentText(None, s) == s && (ExponentWritten(None, s) <==> Head(s) !in {'e', 'E'})
  {
  }

  lemma DigitsFollow(s: string) returns (whole: string)
    requires '1' <= Head(s) <= '9'
    ensures var r := ReadDigits(s[0] as int - 48, s[1..]);
            && s == whole + r.1 && AllDigits(whole) && r.0 == DigitsValue(0, whole)
            && whole != [] && whole[0] != '0' && !IsDigit(Head(r.1))
  {
    hide ReadDigits, DigitsValue;
    var more := DigitsFound(s[0] as int - 48, s[1..]);
    whole := [s[0]] + more;
    assert whole[1..] == more && s == [s[0]] + s[1..];
    DigitsFirst(0, whole);
  }

  lemma WholeFound(s: string) returns (zero: bool, whole: string)
    ensures var r := ReadInteger(s);
            && s == (if zero then "0" else "") + (whole + r.1) && AllDigits(whole) && r.0 == DigitsValue(0, whole)
            && (whole != [] ==> whole[0] != '0' && !IsDigit(Head(r.1)))
            && (whole == [] ==> !('1' <= Head(r.1) <= '9') && (zero || Head(r.1) != '0'))
  {
    hide ReadDigits;
    zero := Head(s) == '0';
    var s1 := if zero then s[1..] else s;
    assert s == (if zero then "0" else "") + s1;
    if '1' <= Head(s1) <= '9' {
      whole := DigitsFollow(s1);
    } else {
      whole := [];
      assert [] + s1 == s1;
    }
  }

  /** The point and what follows it, if there is one. */
  lemma PointFound(i: int, s: string) returns (f: Option<Fraction>)
    requires !(Head(s) == '.' && |s| == 1)
    ensures var (n, scale, rest) := if Head(s) == '.' then ReadFraction(i, 0, s[1..]) else (i, 0, s);
            && FractionWritten(f, rest) && s == FractionText(f, rest)
            && (f.None? ==> n == i && scale == 0)
            && (f.Some? ==> n == DigitsValue(10 * i + Signed(f.value.first) - 48, f.value.digits) &&
                            scale == -1 - |f.value.digits|)
  {
    hide ReadFraction, DigitsValue, Signed;
    f := None;
    if Head(s) == '.' {
      var digits := FractionFound(i, 0, s[1..]);
      f := Some(Fraction(s[1], digits));
      assert s == ['.'] + s[1..];
    }
  }

  lemma NumeralFound(s: string) returns (n: Numeral)
    requires ParseNumber(s).Ok? && (Head(s) == '-' || IsDigit(Head(s)))
    ensures var r := ParseNumber(s);
            NumeralWritten(n, r.rest) && s == NumeralText(n, r.rest) && Means(Num(n)) == r.value
  {
    hide ReadInteger, ReadFraction, ReadExponent, MakeNumber, DigitsValue, ExponentText, FractionText, NumeralValue,
      TowardZero, ExponentWritten, FractionWritten, Signed;
    var minus := Head(s) == '-';
    var s1 := if minus then s[1..] else s;
    assert s == (if minus then "-" else "") + s1;
    var zero, whole := WholeFound(s1);
    var (i, s3) := ReadInteger(s1);
    var f := PointFound(i, s3);
    var s4 := if Head(s3) == '.' then ReadFraction(i, 0, s3[1..]).2 else s3;
    var e := ExponentFound(s4);
    n := Numeral(minus, zero, whole, f, e);
    DigitsWritten(f, s4, e, ReadExponent(s4).1);
    assert PartsText(n, ReadExponent(s4).1) == s3;
    NumberMade(n);
  }

  lemma DigitsWritten(f: Option<Fraction>, s: string, e: Option<Exponent>, tail: string)
    requires FractionWritten(f, s) && ExponentWritten(e, tail)
    ensures f.Some? ==> AllDigits(f.value.digits)
    ensures e.Some? ==> AllDigits(e.value.digits)
  {
  }

  lemma {:induction false} SkipFound(s: string) returns (blanks: string)
    ensures Blanks(blanks) && s == blanks + Skip(s)
  {
    if s != [] && Blank(s[0]) {
      var more := SkipFound(s[1..]);
      blanks := [s[0]] + more;
      assert Skip(s) == Skip(s[1..]);
      assert blanks + Skip(s) == [s[0]] + (more + Skip(s[1..]));
    } else {
      blanks := [];
    }
  }

  /** Whatever the parser accepts is a written text, with what it is read for as its meaning. */
  lemma {:induction false} Found(s: string) returns (src: Source)
    requires ParseValue(s).Ok?
    ensures var r := ParseValue(s); Written(src, r.rest) && s == Text(src, r.rest)
    ensures Fits(src) && Means(src) == ParseValue(s).value
    decreases |s|, 2
  {
    hide ParseNumber, ParseString, Skip, ParseItems, ParseMembers, EntriesText, QuotedText, QuotedWritten, UnitsMean,
      NumeralWritten, NumeralText, NumeralFits, NumeralValue, TowardZero, EntriesWritten, EntriesMean, EntriesFit,
      Blanks;
    var r := ParseValue(s);
    if r.value.Null? || r.value.False? || r.value.True? {
      src := Word(r.value);
      WordFound(s);
    } else if r.value.String? {
      StringHead(s);
      var q := QuotedFound(s);
      src := Str(q);
    } else if r.value.Number? {
      NumberHead(s);
      var n := NumeralFound(s);
      src := Num(n);
    } else {
      src := ListFound(s);
    }
    WrittenFits(src, r.rest);
  }

  lemma WordFound(s: string)
    requires ParseValue(s).Ok?
    ensures var r := ParseValue(s);
            r.value.Null? || r.value.False? || r.value.True? ==> s == Text(Word(r.value), r.rest)
  {
    hide ParseNumber, ParseString, Skip, ParseItems, ParseMembers;
    assert |s| >= 4 ==> s == s[..4] + s[4..];
    assert |s| >= 5 ==> s == s[..5] + s[5..];
  }

  lemma StringHead(s: string)
    requires ParseValue(s).Ok? && ParseValue(s).value.String?
    ensures ParseString(s) == Ok(ParseValue(s).value.text, ParseValue(s).rest)
  {
    hide ParseString, Skip, ParseItems, ParseMembers;
  }

  lemma NumberHead(s: string)
    requires ParseValue(s).Ok? && ParseValue(s).value.Number?
    ensures ParseNumber(s) == ParseValue(s) && (Head(s) == '-' || IsDigit(Head(s)))
  {
    hide ParseString, Skip, ParseItems, ParseMembers, ParseNumber;
  }

  lemma ListHead(s: string)
    requires ParseValue(s).Ok? && (ParseValue(s).value.Array? || ParseValue(s).value.Object?)
    ensures Head(s) == if ParseValue(s).value.Object? then '{' else '['
  {
    hide ParseString, Skip, ParseItems, ParseMembers, ParseNumber;
  }

  lemma {:induction false} ListFound(s: string) returns (src: Source)
    requires ParseValue(s).Ok? && (ParseValue(s).value.Array? || ParseValue(s).value.Object?)
    ensures var r := ParseValue(s);
            Written(src, r.rest) && s == Text(src, r.rest) && Fits(src) && Means(src) == r.value
    decreases |s|, 1
  {
    hide ParseValue, Skip, ParseItems, ParseMembers, EntriesText, EntriesWritten, EntriesMean, EntriesFit, Blanks;
    ListHead(s);
    Brackets(s);
    var named, close := Head(s) == '{', if Head(s) == '{' then '}' else ']';
    var r, s1 := ParseValue(s), Skip(s[1..]);
    var gap := SkipFound(s[1..]);
    assert s == [s[0]] + s[1..];
    var es := Done;
    if Head(s1) == close {
      DoneText(close, r.rest);
      assert s1 == [close] + s1[1..];
    } else {
      es := EntriesFound(s1, named, close);
    }
    src := if named then Obj(gap, es) else Arr(gap, es);
    EntriesDone(named, close, r.rest);
    assert Written(src, r.rest);
    WrittenFits(src, r.rest);
  }

  lemma EntriesDone(named: bool, close: char, tail: string)
    ensures EntriesWritten(Done, named, close, tail) && EntriesFit(Done) && EntriesMean(Done) == End
  {
  }

  lemma {:induction false} EntriesFound(s: string, named: bool, close: char) returns (es: Entries)
    requires ParseList(named, s).Ok? && close == (if named then '}' else ']')
    ensures var r := ParseList(named, s);
            && es.Entry? && EntriesWritten(es, named, close, r.rest) && s == EntriesText(es, close, r.rest)
            && EntriesFit(es) && EntriesMean(es) == r.value
    decreases |s|, 3
  {
    hide ParseValue, Skip, Text, Written, QuotedText, QuotedWritten, ParseName, UnitsMean, Blanks, KeyText, KeyWritten;
    var tail := ParseList(named, s).rest;
    var lead, key := LeadFound(s, named);
    var t := Skip(if named then ParseName(s).rest else s);
    var v := Found(t);
    var rest := ParseValue(t).rest;
    var trail := SkipFound(rest);
    var s1 := Skip(rest);
    var next := Done;
    assert s1 == [s1[0]] + s1[1..];
    if Head(s1) == ',' {
      next := EntriesFound(s1[1..], named, close);
    }
    es := Entry(lead, key, v, trail, next);
    assert RestText(es, close, tail) == rest;
    EntriesWrittenFit(es, named, close, tail);
  }

  /** What stands in front of a value: blanks, and in an object the name and the colon. */
  lemma LeadFound(s: string, named: bool) returns (lead: string, key: Option<Key>)
    requires named ==> ParseName(s).Ok?
    ensures Blanks(lead) && (key.Some? <==> named) && (key.Some? ==> KeyWritten(key.value))
    ensures s == lead + KeyText(key, Skip(if named then ParseName(s).rest else s))
    ensures named ==> UnitsMean(key.value.name.units) == ParseName(s).value
  {
    hide Skip, QuotedText, UnitsMean, ParseString;
    lead := SkipFound(s);
    key := None;
    if named {
      var q := QuotedFound(Skip(s));
      var rest := ParseString(Skip(s)).rest;
      var gap := SkipFound(rest);
      var s1 := Skip(rest);
      var behind := SkipFound(s1[1..]);
      key := Some(Key(q, gap, behind));
      assert s1 == [':'] + s1[1..];
      assert Head(rest) == Head(gap + [':']);
    }
  }

  /** The language of the parser: a text is read for a value exactly if it is a written text that means it. */
  lemma ReadIffWritten(s: string, v: Value, tail: string)
    ensures ParseValue(s) == Ok(v, tail) <==>
            exists src :: Written(src, tail) && Text(src, tail) == s && Fits(src) && Means(src) == v
  {
    hide ParseValue, Text, Written, Fits, Means;
    if ParseValue(s) == Ok(v, tail) {
      var src := Found(s);
      assert Means(src) == v;
    }
    forall src | Written(src, tail) && Text(src, tail) == s && Fits(src) && Means(src) == v
      ensures ParseValue(s) == Ok(v, tail)
    {
      WrittenIsRead(src, tail);
    }
  }

  /** cJSON_Parse on any text of a tree, with blanks in front of it and anything behind. */
  lemma ParsesAnyLayout(src: Source, blanks: string, rest: string)
    requires Written(src, rest) && Blanks(blanks)
    ensures Fits(src) && Parse(blanks + Text(src, rest)) == Some(Means(src))
  {
    hide ParseValue, Text, Means, Skip;
    BlanksSkipped(blanks, Text(src, rest));
    TextHead(src, rest);
    WrittenIsRead(src, rest);
  }

  /** The text is one for the value, with blanks in front and anything behind. */
  ghost predicate Denotes(text: string, v: Value) {
    exists blanks, src, rest ::
      Blanks(blanks) && Written(src, rest) && text == blanks + Text(src, rest) && Fits(src) && Means(src) == v
  }

  /** What the parser accepts as a document: exactly the texts of values, each for the one value it denotes. */
  lemma DocumentIff(text: string, v: Value)
    ensures Denotes(text, v) <==> ParseValue(Skip(text)).Ok? && ParseValue(Skip(text)).value == v
  {
    hide ParseValue, Text, Means, Skip, Written, Fits, Blanks;
    if ParseValue(Skip(text)).Ok? {
      var blanks := SkipFound(text);
      var src := Found(Skip(text));
      var rest := ParseValue(Skip(text)).rest;
      assert text == blanks + Text(src, rest);
    }
    if Denotes(text, v) {
      var blanks, src, rest :|
        Blanks(blanks) && Written(src, rest) && text == blanks + Text(src, rest) && Fits(src) && Means(src) == v;
      BlanksSkipped(blanks, Text(src, rest));
      TextHead(src, rest);
      WrittenIsRead(src, rest);
    }
  }
}
