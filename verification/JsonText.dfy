/**
 The loops of contrib/cJSON/cJSON.c over characters, proved against the functions of module
 Json; where the source computes the size of a buffer, that the size suffices.
 */
module JsonText {
  import opened Common
  import opened Decimals
  import opened Json

  /** The character at a position; NUL at the end. */
  function At(s: string, i: nat): char
    requires i <= |s|
  {
    if i < |s| then s[i] else NUL
  }

  /** skip */
  method SkipSpace(s: string) returns (r: string)
    ensures r == Skip(s)
  {
    var i := 0;
    assert s[0..] == s;
    while At(s, i) != NUL && At(s, i) as int <= 32
      invariant i <= |s| && Skip(s[i..]) == Skip(s)
      decreases |s| - i
    {
      assert s[i..][1..] == s[i + 1..];
      i := i + 1;
    }
    r := s[i..];
  }

  /** The loops of parse_number over the digits of the integer part and of the exponent. */
  method ScanDigits(acc: int, s: string, start: nat) returns (n: int, num: nat)
    requires start <= |s|
    ensures start <= num <= |s| && ReadDigits(acc, s[start..]) == (n, s[num..])
  {
    n, num := acc, start;
    while IsDigit(At(s, num))
      invariant start <= num <= |s| && ReadDigits(n, s[num..]) == ReadDigits(acc, s[start..])
      decreases |s| - num
    {
      assert s[num..][1..] == s[num + 1..];
      n := n * 10 + (s[num] as int - 48);
      num := num + 1;
    }
  }

  /** The do-while loop over the digits behind the point. */
  method ScanFraction(acc: int, s: string, start: nat) returns (n: int, scale: int, num: nat)
    requires start < |s|
    ensures start < num <= |s| && ReadFraction(acc, 0, s[start..]) == (n, scale, s[num..])
  {
    n, scale, num := acc * 10 + Signed(s[start]) - 48, -1, start + 1;
    assert s[start..][1..] == s[start + 1..];
    while IsDigit(At(s, num))
      invariant start < num <= |s|
      invariant ReadFraction(acc, 0, s[start..]) == if IsDigit(At(s, num)) then ReadFraction(n, scale, s[num..])
        else (n, scale, s[num..])
      decreases |s| - num
    {
      assert s[num..][1..] == s[num + 1..];
      SignedDigit(s[num]);
      n := n * 10 + (s[num] as int - 48);
      scale := scale - 1;
      num := num + 1;
    }
  }

  lemma SignedDigit(c: char)
    requires IsDigit(c)
    ensures Signed(c) == c as int
  {
  }

  /** parse_number */
  method ScanNumber(s: string) returns (r: Parsed<Value>)
    ensures r == ParseNumber(s)
  {
    hide ReadDigits, ReadFraction, MakeNumber;
    var num, negative := 0, false;
    assert s[0..] == s;
    if At(s, num) == '-' {
      negative, num := true, num + 1;
    }
    ghost var whole := s[num..];
    if At(s, num) == '0' {
      assert s[num..][1..] == s[num + 1..];
      num := num + 1;
    }
    var i := 0;
    if '1' <= At(s, num) <= '9' {
      assert s[num..][1..] == s[num + 1..];
      i, num := ScanDigits(s[num] as int - 48, s, num + 1);
    }
    assert ReadInteger(whole) == (i, s[num..]);
    r := ScanRest(negative, i, s, num);
  }

  method ScanRest(negative: bool, i: int, s: string, start: nat) returns (r: Parsed<Value>)
    requires start <= |s|
    ensures var s3 := s[start..];
            r == if Head(s3) == '.' && |s3| == 1 then Unmodelled
                 else
                   var (n, scale, s4) := if Head(s3) == '.' then ReadFraction(i, 0, s3[1..]) else (i, 0, s3);
                   var (exponent, rest) := ReadExponent(s4);
                   Ok(MakeNumber(negative, n, i, scale, exponent), rest)
  {
    hide ReadFraction, ReadExponent, MakeNumber;
    var n, scale, num := i, 0, start;
    if At(s, num) == '.' {
      if num + 1 == |s| {
        return Unmodelled;
      }
      assert s[num..][1..] == s[num + 1..];
      n, scale, num := ScanFraction(i, s, num + 1);
    }
    var exponent;
    exponent, num := ScanExponent(s, num);
    r := Ok(MakeNumber(negative, n, i, scale, exponent), s[num..]);
  }

  /** The exponent of parse_number, if there is one. */
  method ScanExponent(s: string, start: nat) returns (exponent: int, num: nat)
    requires start <= |s|
    ensures num <= |s| && ReadExponent(s[start..]) == (exponent, s[num..])
  {
    hide ReadDigits;
    num := start;
    ghost var s4 := s[num..];
    var subscale, signsubscale := 0, 1;
    if At(s, num) == 'e' || At(s, num) == 'E' {
      assert s[num..][1..] == s[num + 1..];
      num := num + 1;
      if At(s, num) == '+' {
        assert s4[2..] == s[num + 1..];
        num := num + 1;
      } else if At(s, num) == '-' {
        assert s4[2..] == s[num + 1..];
        signsubscale, num := -1, num + 1;
      }
      subscale, num := ScanDigits(0, s, num);
    }
    exponent := subscale * signsubscale;
  }

  /** parse_string: the first pass counts, the second fills a buffer of that size and the terminator. */
  method ScanString(s: string) returns (r: Parsed<string>)
    ensures r == ParseString(s)
  {
    hide Unescape;
    if At(s, 0) != QUOTE {
      return Fail;
    }
    var len, modelled := CountString(s);
    if !modelled {
      return Unmodelled;
    }
    var out := new char[len + 1];
    var ptr, ptr2 := 1, 0;
    ghost var whole, rest := Unescape(s[1..]), Unescape(s[1..]);
    assert out[..0] + rest.value == rest.value;
    while At(s, ptr) != QUOTE && At(s, ptr) as int > 31
      invariant 1 <= ptr <= |s| && ptr2 <= len && rest == Unescape(s[ptr..]) && rest.Ok?
      invariant whole == Ok(out[..ptr2] + rest.value, rest.rest) && |whole.value| == len
      decreases |s| - ptr
    {
      UnescapeAt(s, ptr);
      if s[ptr] != BACKSLASH {
        out[ptr2] := s[ptr];
        ptr := ptr + 1;
      } else {
        ptr := ptr + 1;
        out[ptr2] := Unescaped(s[ptr]);
        ptr := ptr + 1;
      }
      rest := Unescape(s[ptr..]);
      Shift(out[..ptr2], out[ptr2], rest.value);
      assert out[..ptr2 + 1] == out[..ptr2] + [out[ptr2]];
      ptr2 := ptr2 + 1;
    }
    UnescapeAt(s, ptr);
    assert out[..ptr2] + [] == out[..ptr2];
    out[ptr2] := NUL;
    if At(s, ptr) == QUOTE {
      ptr := ptr + 1;
    }
    r := Ok(out[..ptr2], s[ptr..]);
  }

  lemma Shift(a: string, c: char, b: string)
    ensures a + ([c] + b) == a + [c] + b
  {
  }

  /** One step of Unescape at a position. */
  lemma UnescapeAt(s: string, ptr: nat)
    requires ptr <= |s|
    ensures At(s, ptr) == QUOTE ==> Unescape(s[ptr..]) == Ok("", s[ptr + 1..])
    ensures At(s, ptr) as int <= 31 ==> Unescape(s[ptr..]) == Ok("", s[ptr..])
    ensures At(s, ptr) != QUOTE && At(s, ptr) as int > 31 && s[ptr] != BACKSLASH ==>
              Unescape(s[ptr..]) == Prefixed(s[ptr], Unescape(s[ptr + 1..]))
    ensures At(s, ptr) == BACKSLASH ==>
              Unescape(s[ptr..]) == if ptr + 1 == |s| || s[ptr + 1] == 'u' then Unmodelled
                                    else Prefixed(Unescaped(s[ptr + 1]), Unescape(s[ptr + 2..]))
  {
    var here := s[ptr..];
    assert ptr < |s| ==> here[0] == s[ptr] && here[1..] == s[ptr + 1..];
    assert ptr + 1 < |s| ==> here[1] == s[ptr + 1] && here[2..] == s[ptr + 2..];
  }

  /** The first pass of parse_string. */
  method CountString(s: string) returns (len: nat, modelled: bool)
    requires s != []
    ensures modelled == Unescape(s[1..]).Ok? && (!modelled ==> Unescape(s[1..]).Unmodelled?)
    ensures modelled ==> |Unescape(s[1..]).value| == len
  {
    hide Unescape;
    var ptr := 1;
    len := 0;
    ghost var whole := Unescape(s[1..]);
    while At(s, ptr) != QUOTE && At(s, ptr) as int > 31
      invariant 1 <= ptr <= |s|
      invariant if whole.Ok? then Unescape(s[ptr..]).Ok? && |whole.value| == len + |Unescape(s[ptr..]).value|
                else Unescape(s[ptr..]) == whole
      decreases |s| - ptr
    {
      UnescapeAt(s, ptr);
      len := len + 1;
      ptr := ptr + 1;
      if s[ptr - 1] == BACKSLASH {
        if ptr == |s| || s[ptr] == 'u' {
          return len, false;
        }
        ptr := ptr + 1;
      }
    }
    UnescapeAt(s, ptr);
    modelled := true;
  }

  /** print_string_ptr with the size of its buffer, terminator included. */
  method WriteString(s: string) returns (out: string, size: nat)
    ensures out == PrintString(s) && |out| + 1 <= size
  {
    size := 0;
    var i := 0;
    while i < |s|
      invariant i <= |s| && |EscapedAll(s[..i])| <= size
    {
      EscapedMore(s, i);
      size := size + 1;
      if s[i] as int < 32 || s[i] == QUOTE || s[i] == BACKSLASH {
        size := size + 1;
      }
      i := i + 1;
    }
    size := size + 3;
    assert s[..|s|] == s;
    out := [QUOTE];
    i := 0;
    while i < |s|
      invariant i <= |s| && out == [QUOTE] + EscapedAll(s[..i])
    {
      EscapedMore(s, i);
      out := out + Escaped(s[i]);
      i := i + 1;
    }
    out := out + [QUOTE];
  }

  lemma {:induction false} EscapedJoin(a: string, b: string)
    ensures EscapedAll(a + b) == EscapedAll(a) + EscapedAll(b)
  {
    hide Escaped;
    if a == [] {
      assert a + b == b;
    } else {
      EscapedJoin(a[1..], b);
      var e, x, y := Escaped(a[0]), EscapedAll(a[1..]), EscapedAll(b);
      assert (a + b)[0] == a[0] && (a + b)[1..] == a[1..] + b;
      assert e + (x + y) == e + x + y;
    }
  }

  lemma EscapedMore(s: string, i: nat)
    requires i < |s|
    ensures EscapedAll(s[..i + 1]) == EscapedAll(s[..i]) + Escaped(s[i])
  {
    assert s[..i + 1] == s[..i] + [s[i]];
    EscapedJoin(s[..i], [s[i]]);
    assert [s[i]][1..] == [] && Escaped(s[i]) + EscapedAll([]) == Escaped(s[i]);
  }
}
