/**
 Texts of the standard, the layout that cJSON_Print chooses, and that parsing undoes printing.
 */
module JsonRoundTrip {
  import opened Common
  import opened Decimals
  import opened Json
  import opened JsonLayout

  // ---------------------------------------------------------------- standard texts

  /** A number as the standard wants it. */
  ghost predicate StandardNumeral(n: Numeral) {
    && NumeralFits(n) && (n.zero <==> n.whole == []) && (n.whole != [] ==> n.whole[0] != '0')
    && (n.fraction.Some? ==> IsDigit(n.fraction.value.first))
    && (n.exponent.Some? ==> var e := n.exponent.value;
          e.letter in {'e', 'E'} && e.sign in {"", "+", "-"} && e.digits != [])
  }

  ghost predicate StandardQuoted(q: Quoted) {
    q.closed && forall i :: 0 <= i < |q.units| ==> UnitWritten(q.units[i])
  }

  /** A text of the standard: closed strings, whole numbers, and blanks between any two tokens. */
  ghost predicate Standard(src: Source) {
    match src
    case Word(v) => v.Null? || v.False? || v.True?
    case Num(n) => StandardNumeral(n)
    case Str(q) => StandardQuoted(q)
    case Arr(gap, es) => Blanks(gap) && StandardEntries(es, false)
    case Obj(gap, es) => Blanks(gap) && StandardEntries(es, true)
  }

  ghost predicate StandardEntries(es: Entries, named: bool) {
    match es
    case Done => true
    case Entry(lead, key, v, trail, next) =>
      && Blanks(lead) && Blanks(trail) && (key.Some? <==> named)
      && (key.Some? ==> Blanks(key.value.gap) && Blanks(key.value.lead) && StandardQuoted(key.value.name))
      && Standard(v) && StandardEntries(next, named)
  }

  lemma NumeralIsWritten(n: Numeral, tail: string)
    requires StandardNumeral(n) && Stops(tail)
    ensures NumeralWritten(n, tail)
  {
    if n.exponent.Some? {
      var e := n.exponent.value;
      assert ExponentText(n.exponent, tail)[0] == e.letter;
    }
    assert n.fraction.Some? ==> PartsText(n, tail)[0] == '.';
  }

  lemma {:induction false} StandardIsWritten(src: Source, tail: string)
    requires Standard(src) && (src.Num? ==> Stops(tail))
    ensures Written(src, tail)
    decreases src
  {
    hide NumeralWritten, StandardNumeral, Stops;
    match src
    case Num(n) => NumeralIsWritten(n, tail);
    case Arr(_, es) => EntriesAreWritten(es, false, ']', tail);
    case Obj(_, es) => EntriesAreWritten(es, true, '}', tail);
    case _ =>
  }

  lemma {:induction false} EntriesAreWritten(es: Entries, named: bool, close: char, tail: string)
    requires StandardEntries(es, named) && close in {']', '}'}
    ensures EntriesWritten(es, named, close, tail)
    decreases es
  {
    hide Standard, Written, EntriesText;
    if es.Entry? {
      var rest := RestText(es, close, tail);
      assert Stops(rest) by { assert es.trail == [] ==> rest[0] in {close, ','}; }
      StandardIsWritten(es.value, rest);
      EntriesAreWritten(es.next, named, close, tail);
    }
  }

  /** Every standard text is read for what it means, whatever blanks are in it, and what follows is left. */
  lemma StandardIsRead(src: Source, tail: string)
    requires Standard(src) && (src.Num? ==> Stops(tail))
    ensures Fits(src) && ParseValue(Text(src, tail)) == Ok(Means(src), tail)
  {
    hide ParseValue, Text, Written, Standard;
    StandardIsWritten(src, tail);
    WrittenIsRead(src, tail);
  }

  /** All digits of a standard number behind the integer part. */
  function Digits(n: Numeral): string {
    if n.fraction.Some? then [n.fraction.value.first] + n.fraction.value.digits else []
  }

  lemma StandardScaled(n: Numeral)
    requires StandardNumeral(n)
    ensures AllDigits(n.whole + Digits(n)) && Scaled(n) == (DigitsValue(0, n.whole + Digits(n)), -|Digits(n)|)
  {
    hide DigitsValue;
    var f := Digits(n);
    if n.fraction.Some? {
      DigitsJoin(0, n.whole, f);
      DigitsFirst(WholePart(n), f);
      assert f[1..] == n.fraction.value.digits;
    } else {
      assert n.whole + [] == n.whole;
    }
  }

  /** The value of a standard number: all its digits as one integer, times a power of ten. */
  lemma StandardValue(n: Numeral)
    requires StandardNumeral(n)
    ensures AllDigits(n.whole + Digits(n))
    ensures NumeralValue(n) == (if n.minus then -1.0 else 1.0) * DigitsValue(0, n.whole + Digits(n)) as real
                                 * Tens(Shift(n) - |Digits(n)|)
  {
    hide Tens, Shift, DigitsValue, Scaled;
    StandardScaled(n);
  }

  lemma {:induction false} DigitsJoin(acc: int, a: string, b: string)
    requires AllDigits(a) && AllDigits(b)
    ensures DigitsValue(acc, a + b) == DigitsValue(DigitsValue(acc, a), b)
  {
    if b == [] {
      assert a + b == a;
    } else {
      var n := |b| - 1;
      DigitsJoin(acc, a, b[..n]);
      assert (a + b)[..|a + b| - 1] == a + b[..n];
    }
  }

  // ---------------------------------------------------------------- the printed layout

  /** Array elements have no name and members have one. */
  ghost predicate Shaped(v: Value) {
    match v
    case Array(kids) => ShapedKids(kids, false)
    case Object(kids) => ShapedKids(kids, true)
    case _ => true
  }

  ghost predicate ShapedKids(kids: Kids, named: bool) {
    kids.End? || ((kids.name.Some? <==> named) && Shaped(kids.value) && ShapedKids(kids.next, named))
  }

  /** The tree without the control characters that printing drops. */
  function Stripped(v: Value): Value {
    match v
    case String(text) => String(Cleaned(text))
    case Array(kids) => Array(StrippedKids(kids))
    case Object(kids) => Object(StrippedKids(kids))
    case _ => v
  }

  function StrippedKids(kids: Kids): Kids {
    match kids
    case End => End
    case Kid(name, v, next) =>
      Kid(if name.Some? then Some(Cleaned(name.value)) else None, Stripped(v), StrippedKids(next))
  }

  /** Array elements have no name, members have one, and printing drops no character of any string. */
  ghost predicate Plain(v: Value) {
    match v
    case String(text) => CleanText(text)
    case Array(kids) => PlainKids(kids, false)
    case Object(kids) => PlainKids(kids, true)
    case _ => true
  }

  ghost predicate PlainKids(kids: Kids, named: bool) {
    match kids
    case End => true
    case Kid(name, v, next) =>
      && (if named then name.Some? && CleanText(name.value) else name.None?)
      && Plain(v) && PlainKids(next, named)
  }

  /** What is printed for a character; other control characters are dropped. */
  function PrintedUnit(c: char): seq<Unit> {
    if c as int > 31 && c != '"' && c != '\\' then [Raw(c)]
    else match c as int
      case 8 => [Escape('b')]
      case 9 => [Escape('t')]
      case 10 => [Escape('n')]
      case 12 => [Escape('f')]
      case 13 => [Escape('r')]
      case _ => if c == '"' || c == '\\' then [Escape(c)] else []
  }

  function PrintedString(s: string): Quoted {
    Quoted(PrintedUnits(s), true)
  }

  function PrintedUnits(s: string): seq<Unit> {
    if s == [] then [] else PrintedUnit(s[0]) + PrintedUnits(s[1..])
  }

  /** A new line with its indentation, where the text is formatted. */
  function Line(fmt: bool, depth: nat): string {
    if fmt then [10 as char] + seq(depth, _ => 9 as char) else []
  }

  /**
   The layout that cJSON_Print chooses: array elements in one line with a blank behind each comma, and every member of
   an object in a line of its own, one tab deeper, with a tab behind the colon; cJSON_PrintUnformatted has no blanks.
   */
  function Printed(v: Value, depth: nat, fmt: bool): Source
    requires Whole(v)
  {
    match v
    case Number(k, _) =>
      Num(Numeral(k < 0, k == 0, if k == 0 then [] else Decimal(if k < 0 then -k else k), None, None))
    case String(text) => Str(PrintedString(text))
    case Array(kids) => Arr([], PrintedItems(kids, [], depth + 1, fmt))
    case Object(End) => Obj(Line(fmt, depth), Done)
    case Object(kids) => Obj([], PrintedMembers(kids, depth + 1, fmt))
    case _ => Word(v)
  }

  function PrintedItems(kids: Kids, lead: string, depth: nat, fmt: bool): Entries
    requires WholeKids(kids)
  {
    match kids
    case End => Done
    case Kid(_, v, next) =>
      Entry(lead, None, Printed(v, depth, fmt), [], PrintedItems(next, if fmt then " " else [], depth, fmt))
  }

  function PrintedMembers(kids: Kids, depth: nat, fmt: bool): Entries
    requires WholeKids(kids) && depth > 0
  {
    match kids
    case End => Done
    case Kid(name, v, next) =>
      var key := Key(PrintedString(if name.Some? then name.value else []), [], if fmt then [9 as char] else []);
      Entry(Line(fmt, depth), Some(key), Printed(v, depth, fmt), if next.End? then Line(fmt, depth - 1) else [],
        PrintedMembers(next, depth, fmt))
  }

  lemma UnitPrinted(c: char)
    ensures var us := PrintedUnit(c);
            && (us == [] <==> !Clean(c)) && (us == [] ==> Escaped(c) == [])
            && (us != [] ==> |us| == 1 && UnitWritten(us[0]) && UnitMeans(us[0]) == c &&
                             Escaped(c) == if us[0].Raw? then [us[0].c] else ['\\', us[0].c])
  {
  }

  lemma {:induction false} UnitsPrinted(s: string, tail: string)
    ensures EscapedAll(s) + tail == UnitsText(PrintedUnits(s), tail)
    ensures UnitsMean(PrintedUnits(s)) == Cleaned(s) && StandardQuoted(PrintedString(s))
  {
    hide UnitsMean, UnitMeans, UnitsText, PrintedUnit, Escaped, Clean, UnitWritten;
    if s == [] {
      UnitsNone();
      TextNone(tail);
    } else {
      UnitsPrinted(s[1..], tail);
      UnitPrinted(s[0]);
      var us, more := PrintedUnit(s[0]), PrintedUnits(s[1..]);
      assert EscapedAll(s) + tail == Escaped(s[0]) + (EscapedAll(s[1..]) + tail);
      if us == [] {
        assert us + more == more;
      } else {
        UnitsMore(us[0], more, tail);
        assert us + more == [us[0]] + more;
      }
    }
  }

  lemma StringPrinted(s: string, tail: string)
    ensures PrintString(s) + tail == QuotedText(PrintedString(s), tail)
    ensures UnitsMean(PrintedUnits(s)) == Cleaned(s) && StandardQuoted(PrintedString(s))
  {
    hide UnitsText, UnitsMean, EscapedAll;
    UnitsPrinted(s, ['"'] + tail);
    assert PrintString(s) + tail == ['"'] + (EscapedAll(s) + (['"'] + tail));
  }

  /** What is printed is this layout, and it is standard. */
  lemma {:induction false} PrintedText(v: Value, depth: nat, fmt: bool, tail: string)
    requires Whole(v) && Shaped(v)
    ensures PrintValue(v, depth, fmt) + tail == Text(Printed(v, depth, fmt), tail) && Standard(Printed(v, depth, fmt))
    decreases v
  {
    hide PrintString, PrintItems, PrintMembers, EntriesText, QuotedText, StandardEntries, StandardQuoted, Decimal,
      PrintedUnits;
    match v {
      case Number(k, _) => NumberPrinted(k, tail);
      case String(text) => StringPrinted(text, tail);
      case Array(kids) =>
        ItemsPrinted(kids, [], depth + 1, fmt, tail);
        assert PrintValue(v, depth, fmt) + tail == ['['] + (PrintItems(kids, depth + 1, fmt) + ("]" + tail));
      case Object(kids) => ObjectPrinted(kids, depth, fmt, tail);
      case _ =>
    }
  }

  lemma NumberPrinted(k: int, tail: string)
    ensures var n := Numeral(k < 0, k == 0, if k == 0 then [] else Decimal(if k < 0 then -k else k), None, None);
            PrintNumber(k) + tail == NumeralText(n, tail) && StandardNumeral(n)
  {
    if k == 0 {
      assert Decimal(0) == "0";
    }
  }

  lemma {:induction false} ItemsPrinted(kids: Kids, lead: string, depth: nat, fmt: bool, tail: string)
    requires WholeKids(kids) && ShapedKids(kids, false) && Blanks(lead)
    ensures var es := PrintedItems(kids, lead, depth, fmt);
            && StandardEntries(es, false)
            && (When(kids.Kid?, lead) + (PrintItems(kids, depth, fmt) + ("]" + tail))) == EntriesText(es, ']', tail)
    decreases kids
  {
    hide PrintValue, Printed, Text, Standard, Shaped, Whole;
    if kids.Kid? {
      var es := PrintedItems(kids, lead, depth, fmt);
      var rest, next := RestText(es, ']', tail), When(fmt, " ");
      ItemsPrinted(kids.next, next, depth, fmt, tail);
      PrintedText(kids.value, depth, fmt, rest);
      var value := PrintValue(kids.value, depth, fmt);
      assert PrintItems(kids, depth, fmt) + ("]" + tail) == value + rest by {
        if kids.next.Kid? {
          assert value + "," + next + PrintItems(kids.next, depth, fmt) + ("]" + tail) ==
                 value + ([','] + (next + (PrintItems(kids.next, depth, fmt) + ("]" + tail))));
        }
      }
    }
  }

  lemma Regroup(a: string, b: string, c: string, d: string, e: string, f: string, g: string, h: string, i: string)
    ensures (a + b + c + d) + e + f + g + h + i == a + (b + (c + (d + (e + (f + (g + (h + i)))))))
  {
    var t := f + (g + (h + i));
    assert (((a + b + c + d) + e) + f) + g + h + i == ((a + b + c + d) + e) + t;
    assert ((a + b + c + d) + e) + t == (a + b) + (c + (d + (e + t)));
    assert (a + b) + (c + (d + (e + t))) == a + (b + (c + (d + (e + t))));
  }

  lemma {:induction false} MembersPrinted(kids: Kids, depth: nat, fmt: bool, tail: string)
    requires WholeKids(kids) && ShapedKids(kids, true) && kids.Kid? && depth > 0
    ensures var es := PrintedMembers(kids, depth, fmt);
            && StandardEntries(es, true)
            && When(fmt, [NEWLINE]) + (PrintMembers(kids, depth, fmt) + (When(fmt, Tabs(depth - 1)) + ("}" + tail)))
               == EntriesText(es, '}', tail)
    decreases kids, 0
  {
    hide PrintValue, Printed, Text, Standard, Shaped, Whole, RestText, EntriesText, PrintMembers, When, Tabs,
      StandardQuoted, Line;
    var rest := RestText(PrintedMembers(kids, depth, fmt), '}', tail);
    if kids.next.Kid? {
      MembersPrinted(kids.next, depth, fmt, tail);
    }
    RestPrinted(kids, depth, fmt, tail);
    PrintedText(kids.value, depth, fmt, rest);
    MemberPrinted(kids, depth, fmt, tail);
    StringPrinted(kids.name.value, []);
    LineIs(fmt, depth);
    LineIs(fmt, depth - 1);
  }

  /** A member with its line, its name and its value. */
  lemma MemberPrinted(kids: Kids, depth: nat, fmt: bool, tail: string)
    requires WholeKids(kids) && kids.Kid? && kids.name.Some? && depth > 0
    requires var rest := RestText(PrintedMembers(kids, depth, fmt), '}', tail);
             && rest == When(kids.next.Kid?, ",") + (When(fmt, [NEWLINE]) +
                  (PrintMembers(kids.next, depth, fmt) + (When(fmt, Tabs(depth - 1)) + ("}" + tail))))
             && PrintValue(kids.value, depth, fmt) + rest == Text(Printed(kids.value, depth, fmt), rest)
    ensures When(fmt, [NEWLINE]) + (PrintMembers(kids, depth, fmt) + (When(fmt, Tabs(depth - 1)) + ("}" + tail)))
            == EntriesText(PrintedMembers(kids, depth, fmt), '}', tail)
  {
    hide PrintValue, Printed, Text, RestText, PrintMembers, EntriesText, PrintString, QuotedText, PrintedUnits, Tabs;
    var es, close := PrintedMembers(kids, depth, fmt), When(fmt, Tabs(depth - 1)) + ("}" + tail);
    var rest, nl, tabs, tab := RestText(es, '}', tail), When(fmt, [NEWLINE]), When(fmt, Tabs(depth)), When(fmt, [TAB]);
    var name, value := PrintString(kids.name.value), PrintValue(kids.value, depth, fmt);
    var colon := [':'] + (tab + (value + rest));
    MemberText(kids, depth, fmt, close);
    StringPrinted(kids.name.value, colon);
    LineIs(fmt, depth);
    assert nl + (tabs + (name + colon)) == Line(fmt, depth) + (name + colon);
    EntryText(es, '}', tail);
    assert [] + colon == colon;
  }

  lemma EntryText(es: Entries, close: char, tail: string)
    requires es.Entry?
    ensures EntriesText(es, close, tail) == es.lead + KeyText(es.key, Text(es.value, RestText(es, close, tail)))
  {
  }

  lemma MemberText(kids: Kids, depth: nat, fmt: bool, close: string)
    requires WholeKids(kids) && kids.Kid? && kids.name.Some?
    ensures PrintMembers(kids, depth, fmt) + close ==
            When(fmt, Tabs(depth)) + (PrintString(kids.name.value) + (":" + (When(fmt, [TAB]) +
              (PrintValue(kids.value, depth, fmt) + (When(kids.next.Kid?, ",") + (When(fmt, [NEWLINE]) +
                (PrintMembers(kids.next, depth, fmt) + close)))))))
  {
    hide PrintValue, PrintString, Tabs, When;
    Regroup(When(fmt, Tabs(depth)), PrintString(kids.name.value), ":", When(fmt, [TAB]),
      PrintValue(kids.value, depth, fmt), When(kids.next.Kid?, ","), When(fmt, [NEWLINE]),
      PrintMembers(kids.next, depth, fmt), close);
  }

  /** Behind a member. */
  lemma RestPrinted(kids: Kids, depth: nat, fmt: bool, tail: string)
    requires WholeKids(kids) && kids.Kid? && depth > 0
    requires kids.next.Kid? ==>
      When(fmt, [NEWLINE]) + (PrintMembers(kids.next, depth, fmt) + (When(fmt, Tabs(depth - 1)) + ("}" + tail)))
        == EntriesText(PrintedMembers(kids.next, depth, fmt), '}', tail)
    ensures When(kids.next.Kid?, ",") + (When(fmt, [NEWLINE]) + (PrintMembers(kids.next, depth, fmt) +
              (When(fmt, Tabs(depth - 1)) + ("}" + tail))))
            == RestText(PrintedMembers(kids, depth, fmt), '}', tail)
  {
    hide PrintValue, Printed, EntriesText, Tabs, PrintMembers;
    var nl, tabs, end := When(fmt, [NEWLINE]), When(fmt, Tabs(depth - 1)), "}" + tail;
    LineIs(fmt, depth - 1);
    if kids.next.Kid? {
      assert When(true, ",") == [','] && PrintedMembers(kids, depth, fmt).trail == [];
    } else {
      NoMembers(depth, fmt);
      assert [] + (nl + ([] + (tabs + end))) == (nl + tabs) + end;
    }
  }

  lemma StandardNone()
    ensures StandardEntries(Done, true)
  {
  }

  lemma LineIs(fmt: bool, depth: nat)
    ensures Line(fmt, depth) == When(fmt, [NEWLINE]) + When(fmt, Tabs(depth)) && Blanks(Line(fmt, depth))
  {
  }

  lemma ObjectText(kids: Kids, depth: nat, fmt: bool, tail: string)
    requires WholeKids(kids)
    ensures PrintValue(Object(kids), depth, fmt) + tail ==
            ['{'] + (When(fmt, [NEWLINE]) +
                     (PrintMembers(kids, depth + 1, fmt) + (When(fmt, Tabs(depth)) + ("}" + tail))))
  {
    hide PrintMembers, Tabs, When;
    var a, b, c := When(fmt, [NEWLINE]), PrintMembers(kids, depth + 1, fmt), When(fmt, Tabs(depth));
    assert "{" + a + b + c + "}" + tail == ['{'] + (a + (b + (c + ("}" + tail))));
  }

  lemma {:induction false} ObjectPrinted(kids: Kids, depth: nat, fmt: bool, tail: string)
    requires WholeKids(kids) && ShapedKids(kids, true)
    ensures var src := Printed(Object(kids), depth, fmt);
            PrintValue(Object(kids), depth, fmt) + tail == Text(src, tail) && Standard(src)
    decreases kids, 1
  {
    hide PrintMembers, EntriesText, StandardEntries, Tabs, PrintValue, When, Line, PrintedMembers;
    ObjectText(kids, depth, fmt, tail);
    if kids.Kid? {
      MembersPrinted(kids, depth + 1, fmt, tail);
      assert [] + EntriesText(PrintedMembers(kids, depth + 1, fmt), '}', tail) ==
             EntriesText(PrintedMembers(kids, depth + 1, fmt), '}', tail);
    } else {
      NoMembers(depth + 1, fmt);
      StandardNone();
      LineIs(fmt, depth);
      DoneText('}', tail);
      var nl, tabs, end := When(fmt, [NEWLINE]), When(fmt, Tabs(depth)), "}" + tail;
      assert nl + ([] + (tabs + end)) == (nl + tabs) + end;
    }
  }

  /** The printed text means the tree without the dropped control characters: the same exactly if it is plain. */
  lemma {:induction false} PrintedMeans(v: Value, depth: nat, fmt: bool)
    requires Whole(v) && Shaped(v)
    ensures var src := Printed(v, depth, fmt); Fits(src) && Means(src) == Stripped(v)
    ensures Stripped(v) == v <==> Plain(v)
    decreases v, 1
  {
    hide PrintedUnits, Cleaned, CleanText, Decimal, DigitsValue, UnitsMean, PrintedMembers, PrintedItems;
    match v {
      case Number(k, _) => WholeMeans(k);
      case String(text) =>
        UnitsPrinted(text, []);
        CleanedSame(text);
      case Array(kids) => KidsMean(kids, false, [], depth + 1, fmt);
      case Object(kids) =>
        KidsMean(kids, true, [], depth + 1, fmt);
        NoneMean();
      case _ =>
    }
  }

  lemma NoneMean()
    ensures EntriesFit(Done) && EntriesMean(Done) == End
  {
  }

  lemma WholeMeans(k: int)
    ensures var n := Numeral(k < 0, k == 0, if k == 0 then [] else Decimal(if k < 0 then -k else k), None, None);
            NumeralFits(n) && Means(Num(n)) == Number(k, k as real)
  {
    hide Decimal, TowardZero;
    var m := if k < 0 then -k else k;
    DecimalValue(m);
    TensNone();
    WholeKept(k < 0, m);
    assert (if k < 0 then -1.0 else 1.0) * m as real * 1.0 == k as real;
  }

  lemma {:induction false} KidsMean(kids: Kids, named: bool, lead: string, depth: nat, fmt: bool)
    requires WholeKids(kids) && ShapedKids(kids, named) && depth > 0
    ensures var es := if named then PrintedMembers(kids, depth, fmt) else PrintedItems(kids, lead, depth, fmt);
            EntriesFit(es) && EntriesMean(es) == StrippedKids(kids)
    ensures StrippedKids(kids) == kids <==> PlainKids(kids, named)
    decreases kids, 0
  {
    hide Printed, Stripped, Plain, Whole, Shaped, Means, Fits, PrintedUnits, Cleaned, CleanText, UnitsMean;
    if kids.Kid? {
      PrintedMeans(kids.value, depth, fmt);
      KidsMean(kids.next, named, if fmt then " " else [], depth, fmt);
      if named {
        UnitsPrinted(kids.name.value, []);
        CleanedSame(kids.name.value);
      }
    }
  }

  /**
   Parsing a printed tree gives the tree without the dropped control characters and leaves exactly the
   text that follows; so it gives the same tree if and only if that is plain.
   */
  lemma RoundTripIff(v: Value, depth: nat, fmt: bool, suffix: string)
    requires Whole(v) && Shaped(v) && (v.Number? ==> Stops(suffix))
    ensures ParseValue(PrintValue(v, depth, fmt) + suffix) == Ok(Stripped(v), suffix)
    ensures ParseValue(PrintValue(v, depth, fmt) + suffix) == Ok(v, suffix) <==> Plain(v)
  {
    hide PrintValue, ParseValue, Plain, Whole, Shaped, Standard, Text, Means, Stops;
    PrintedText(v, depth, fmt, suffix);
    PrintedMeans(v, depth, fmt);
    StandardIsRead(Printed(v, depth, fmt), suffix);
  }

  /** cJSON_Parse on what cJSON_Print or cJSON_PrintUnformatted wrote, with blanks in front and anything behind. */
  lemma PrintThenParse(v: Value, fmt: bool, blanks: string, rest: string)
    requires Whole(v) && Shaped(v) && (v.Number? ==> Stops(rest)) && Blanks(blanks)
    ensures Parse(blanks + PrintValue(v, 0, fmt) + rest) == Some(Stripped(v))
    ensures Parse(blanks + PrintValue(v, 0, fmt) + rest) == Some(v) <==> Plain(v)
  {
    hide PrintValue, Parse, Plain, Whole, Shaped, Standard, Text, Means, Written, Stops;
    assert blanks + PrintValue(v, 0, fmt) + rest == blanks + (PrintValue(v, 0, fmt) + rest);
    PrintedText(v, 0, fmt, rest);
    PrintedMeans(v, 0, fmt);
    StandardIsWritten(Printed(v, 0, fmt), rest);
    ParsesAnyLayout(Printed(v, 0, fmt), blanks, rest);
  }

  /** A string whose only control character does not come back. */
  lemma LostCharacter()
    ensures Parse(PrintValue(String(['a', 1 as char]), 0, false)) == Some(String("a"))
  {
    hide PrintValue, Parse;
    var v := String(['a', 1 as char]);
    PrintThenParse(v, false, [], []);
    assert [] + PrintValue(v, 0, false) + [] == PrintValue(v, 0, false);
    assert Cleaned(['a']) == ['a'] && Cleaned(['a', 1 as char]) == ['a'];
  }
}
