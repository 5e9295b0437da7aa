/**
 Host specifications and host lists of src/hostlist.cc. A specification is a C string: it
 ends at the first NUL. isalnum and strtol are those of the C locale.
 */
module HostList {
  import opened Common
  import opened Decimals

  datatype Host = Host(host: string, port: string, ipv6: bool)

  const NI_MAXHOST := 1025
  const NI_MAXSERV := 32
  const LONG_MAX := 0x7fff_ffff_ffff_ffff

  /** strstr for one character: the first position, or -1. */
  function IndexOf(s: string, c: char): (r: int)
    ensures -1 <= r < |s|
    ensures r >= 0 ==> s[r] == c && forall i :: 0 <= i < r ==> s[i] != c
    ensures r < 0 <==> c !in s
  {
    if s == [] then -1
    else if s[0] == c then 0
    else
      var r := IndexOf(s[1..], c);
      assert s == [s[0]] + s[1..];
      if r < 0 then -1 else r + 1
  }

  /** The part before the first occurrence of a character. */
  function Before(s: string, c: char): (r: string)
    ensures c !in r && (c !in s ==> r == s)
  {
    var i := IndexOf(s, c);
    if i < 0 then s else s[..i]
  }

  const SCHEME_END := "://"

  /** The part behind the first "://", or everything. */
  function AfterScheme(s: string): string {
    var i := SchemeAt(s);
    if i < 0 then s else s[i + 3..]
  }

  function SchemeAt(s: string): (r: int)
    ensures -1 <= r && (r >= 0 ==> r + 3 <= |s| && s[r..r + 3] == SCHEME_END)
    ensures '/' !in s ==> r == -1
  {
    if |s| < 3 then -1
    else if s[..3] == SCHEME_END then assert s[1] == '/'; 0
    else
      var r := SchemeAt(s[1..]);
      assert r >= 0 ==> s[1..][r..r + 3] == s[r + 1..r + 4];
      if r < 0 then -1 else r + 1
  }

  // ---------------------------------------------------------------- ports

  predicate IsSpace(c: char) {
    c == ' ' || 9 <= c as int <= 13
  }

  function SkipSpaces(s: string): (r: string)
    ensures |r| <= |s|
  {
    if s != [] && IsSpace(s[0]) then SkipSpaces(s[1..]) else s
  }

  /** Whether strtol takes the whole text and does not reach either limit of a long. */
  ghost predicate PortNumber(port: string) {
    var s := SkipSpaces(port);
    var negative := s != [] && s[0] == '-';
    var digits := if s != [] && (s[0] == '-' || s[0] == '+') then s[1..] else s;
    digits != [] && AllDigits(digits) && (if negative then DigitsValue(0, digits) <= LONG_MAX
      else DigitsValue(0, digits) < LONG_MAX)
  }

  // ---------------------------------------------------------------- parsing

  datatype Outcome = Good(host: Host) | Invalid

  predicate IsAlnum(c: char) {
    '0' <= c <= '9' || 'A' <= c <= 'Z' || 'a' <= c <= 'z'
  }

  predicate HostChar(c: char, ipv6: bool) {
    IsAlnum(c) || c in {'.', '-', '_'} || (ipv6 && c in {':', '[', ']'})
  }

  ghost predicate HostChars(s: string, ipv6: bool) {
    forall i :: 0 <= i < |s| ==> HostChar(s[i], ipv6)
  }

  /** Host and port text before they are checked; no port text where the specification has none. */
  datatype Pieces = Pieces(host: string, port: Option<string>, ipv6: bool) | Unclosed

  function Cut(s: string): Pieces {
    var colon := IndexOf(s, ':');
    if colon < 0 then Pieces(s, None, false)
    else if ':' !in s[colon + 1..] then Pieces(s[..colon], Some(s[colon + 1..]), false)
    else if s[0] != '[' then Pieces(s, None, true)
    else
      var t := s[1..];
      var end := IndexOf(t, ']');
      if end < 0 then Unclosed
      else Pieces(t[..end], if end + 1 < |t| && t[end + 1] == ':' then Some(t[end + 2..]) else None, true)
  }

  /** lcb_host_parse */
  ghost function ParseHost(spec: string, deflport: int): Outcome {
    if spec == [] || deflport < 1 then Invalid
    else Checked(Cut(Before(AfterScheme(Before(spec, NUL)), '/')), deflport)
  }

  ghost function Checked(p: Pieces, deflport: int): Outcome
    requires deflport >= 1
  {
    if p.Unclosed? then Invalid
    else if p.port.Some? && !PortNumber(p.port.value) then Invalid
    else if |p.host| > NI_MAXHOST || (p.port.Some? && |p.port.value| > NI_MAXSERV) || p.host == [] then Invalid
    else if !HostChars(p.host, p.ipv6) then Invalid
    else Good(Host(p.host, if p.port.Some? then p.port.value else Decimal(deflport), p.ipv6))
  }

  /** The text ensure_strlist makes of a host. */
  function Render(h: Host): string {
    (if h.ipv6 then "[" + h.host + "]" else h.host) + ":" + h.port
  }

  /** What every parsed host satisfies. */
  ghost predicate Sound(h: Host) {
    && 0 < |h.host| <= NI_MAXHOST && HostChars(h.host, h.ipv6)
    && |h.port| <= NI_MAXSERV && PortNumber(h.port)
  }

  /** An address in brackets reads back as an address only if it has a colon and no closing bracket. */
  ghost predicate WellFormed(h: Host) {
    Sound(h) && (h.ipv6 ==> ':' in h.host && ']' !in h.host)
  }

  lemma {:induction false} SkipSpacesSuffix(s: string)
    ensures exists k :: 0 <= k <= |s| && SkipSpaces(s) == s[k..] && forall i :: 0 <= i < k ==> IsSpace(s[i])
  {
    if s != [] && IsSpace(s[0]) {
      SkipSpacesSuffix(s[1..]);
      var k :| 0 <= k <= |s[1..]| && SkipSpaces(s[1..]) == s[1..][k..] && forall i :: 0 <= i < k ==> IsSpace(s[1..][i]);
      assert s[1..][k..] == s[k + 1..];
      assert forall i :: 0 < i < k + 1 ==> s[i] == s[1..][i - 1];
    } else {
      assert s[0..] == s;
    }
  }

  /** A port has none of the characters that delimit it. */
  lemma PortChars(port: string, c: char)
    requires PortNumber(port) && c in port
    ensures IsSpace(c) || IsDigit(c) || c == '-' || c == '+'
  {
    SkipSpacesSuffix(port);
    var k :| 0 <= k <= |port| && SkipSpaces(port) == port[k..] && forall i :: 0 <= i < k ==> IsSpace(port[i]);
    var i :| 0 <= i < |port| && port[i] == c;
    if i >= k {
      var s := port[k..];
      assert s[i - k] == c;
      if s[0] == '-' || s[0] == '+' {
        assert i > k ==> s[1..][i - k - 1] == c;
      }
    }
  }

  /** The default port is printed as a valid port. */
  lemma DefaultPort(n: nat)
    requires 1 <= n <= INT_MAX
    ensures PortNumber(Decimal(n)) && |Decimal(n)| <= 10
  {
    var d := Decimal(n);
    assert SkipSpaces(d) == d;
    DecimalValue(n);
    DecimalLength(n, 10, 10_000_000_000);
  }

  lemma {:induction false} DecimalLength(n: nat, k: nat, bound: nat)
    requires k > 0 && n < bound && bound == Power(k)
    ensures |Decimal(n)| <= k
  {
    if n >= 10 {
      DecimalLength(n / 10, k - 1, Power(k - 1));
    }
  }

  function Power(k: nat): nat {
    if k == 0 then 1 else 10 * Power(k - 1)
  }

  lemma ParsedIsSound(spec: string, deflport: int)
    requires deflport <= INT_MAX
    ensures ParseHost(spec, deflport).Good? ==> Sound(ParseHost(spec, deflport).host)
  {
    hide PortNumber, Cut;
    if deflport >= 1 {
      DefaultPort(deflport);
    }
  }

  /** None of the characters a specification is cut at occurs in a rendered host. */
  lemma RenderedChars(h: Host, c: char)
    requires Sound(h) && c in {'/', ';', NUL}
    ensures c !in Render(h)
  {
    hide PortNumber;
    if c in h.port {
      PortChars(h.port, c);
    }
    assert c !in h.host;
  }

  lemma IndexAt(a: string, c: char, b: string)
    requires c !in a
    ensures IndexOf(a + [c] + b, c) == |a|
  {
    hide IndexOf;
    var s := a + [c] + b;
    assert s[|a|] == c && forall i :: 0 <= i < |a| ==> s[i] == a[i];
  }

  // ---------------------------------------------------------------- what a specification means

  /** The ways to write a host. */
  datatype Form =
    | Name(host: string)
    | NamePort(host: string, port: string)
    | Bare(host: string)                             // an IPv6 address
    | Bracketed(host: string)
    | BracketedPort(host: string, port: string)

  function Text(f: Form): string {
    match f
    case Name(h) => h
    case NamePort(h, p) => h + ":" + p
    case Bare(h) => h
    case Bracketed(h) => "[" + h + "]"
    case BracketedPort(h, p) => "[" + h + "]:" + p
  }

  ghost predicate TwoColons(s: string) {
    exists i, j :: 0 <= i < j < |s| && s[i] == s[j] == ':'
  }

  /** The text can be taken for no other form. */
  ghost predicate Definite(f: Form) {
    match f
    case Name(h) => ':' !in h
    case NamePort(h, p) => ':' !in h && ':' !in p
    case Bare(h) => TwoColons(h) && h[0] != '['
    case Bracketed(h) => TwoColons(h) && ']' !in h
    case BracketedPort(h, p) => ':' in h && ']' !in h
  }

  ghost predicate IsAddress(f: Form) {
    f.Bare? || f.Bracketed? || f.BracketedPort?
  }

  ghost predicate HasPort(f: Form) {
    f.NamePort? || f.BracketedPort?
  }

  /** Letters, digits, point, hyphen and underscore; in an address also colon and brackets. */
  ghost predicate Acceptable(f: Form) {
    && 0 < |f.host| <= 1025
    && (forall c :: c in f.host ==>
          || 'a' <= c <= 'z' || 'A' <= c <= 'Z' || '0' <= c <= '9' || c in {'.', '-', '_'}
          || (IsAddress(f) && c in {':', '[', ']'}))
    && (HasPort(f) ==> |f.port| <= 32 && PortNumber(f.port))
  }

  ghost predicate HasScheme(s: string) {
    exists i :: 0 <= i && i + 3 <= |s| && s[i] == ':' && s[i + 1] == s[i + 2] == '/'
  }

  /** A specification: an optional scheme, the text, and optionally a slash with anything behind it. */
  function Spec(scheme: Option<string>, text: string, path: Option<string>): string {
    var rest := text + if path.Some? then "/" + path.value else "";
    if scheme.Some? then scheme.value + "://" + rest else rest
  }

  lemma SchemeEnd(s: string, i: nat)
    requires i + 3 <= |s|
    ensures s[i..i + 3] == SCHEME_END <==> s[i] == ':' && s[i + 1] == s[i + 2] == '/'
  {
    var x := s[i..i + 3];
    assert x[0] == s[i] && x[1] == s[i + 1] && x[2] == s[i + 2];
    assert x == [x[0], x[1], x[2]];
  }

  lemma SchemeTail(s: string)
    requires s != []
    ensures HasScheme(s[1..]) ==> HasScheme(s)
  {
    if HasScheme(s[1..]) {
      var i :| 0 <= i && i + 3 <= |s| - 1 && s[1..][i] == ':' && s[1..][i + 1] == s[1..][i + 2] == '/';
      assert s[i + 1] == ':';
    }
  }

  /** "://" begins neither in the scheme nor across its end. */
  lemma NotAtFront(scheme: string, rest: string)
    requires scheme != [] && !HasScheme(scheme)
    ensures (scheme + "://" + rest)[..3] != SCHEME_END
  {
    var s := scheme + "://" + rest;
    SchemeEnd(s, 0);
    assert s[0..3] == s[..3];
    assert |scheme| == 1 ==> s[1] == ':';
    assert |scheme| == 2 ==> s[2] == ':';
    assert |scheme| >= 3 ==> s[0] == scheme[0] && s[1] == scheme[1] && s[2] == scheme[2];
  }

  lemma SchemeAtHead(s: string)
    requires |s| >= 3
    ensures s[..3] == SCHEME_END ==> SchemeAt(s) == 0
    ensures s[..3] != SCHEME_END && SchemeAt(s[1..]) >= 0 ==> SchemeAt(s) == SchemeAt(s[1..]) + 1
  {
  }

  lemma {:induction false} SchemeFirst(scheme: string, rest: string)
    requires !HasScheme(scheme)
    ensures SchemeAt(scheme + "://" + rest) == |scheme|
  {
    hide SchemeAt, HasScheme;
    var s := scheme + "://" + rest;
    SchemeAtHead(s);
    if scheme == [] {
      assert s[..3] == SCHEME_END;
    } else {
      SchemeTail(scheme);
      SchemeFirst(scheme[1..], rest);
      NotAtFront(scheme, rest);
      assert s[1..] == scheme[1..] + "://" + rest;
    }
  }

  lemma SchemeFound(s: string)
    ensures SchemeAt(s) >= 0 ==> HasScheme(s)
  {
    var r := SchemeAt(s);
    if r >= 0 {
      SchemeEnd(s, r);
    }
  }

  /** Scheme and path are cut off, if the scheme is the first one and the text has no slash. */
  lemma Unwrapped(scheme: Option<string>, text: string, path: Option<string>)
    requires '/' !in text && NUL !in Spec(scheme, text, path)
    requires if scheme.Some? then !HasScheme(scheme.value) else !HasScheme(Spec(None, text, path))
    ensures Before(AfterScheme(Before(Spec(scheme, text, path), NUL)), '/') == text
  {
    hide SchemeAt, IndexOf, HasScheme;
    var rest := Spec(None, text, path);
    if scheme.Some? {
      SchemeFirst(scheme.value, rest);
      assert (scheme.value + "://" + rest)[|scheme.value| + 3..] == rest;
    } else {
      SchemeFound(rest);
    }
    if path.Some? {
      assert rest == text + ['/'] + path.value;
      IndexAt(text, '/', path.value);
      assert rest[..|text|] == text;
    }
  }

  lemma CutName(h: string)
    requires ':' !in h
    ensures Cut(h) == Pieces(h, None, false)
  {
  }

  lemma CutNamePort(h: string, p: string)
    requires ':' !in h && ':' !in p
    ensures Cut(h + ":" + p) == Pieces(h, Some(p), false)
  {
    hide IndexOf;
    var s := h + ":" + p;
    IndexAt(h, ':', p);
    assert s[|h| + 1..] == p && s[..|h|] == h;
  }

  lemma ColonsApart(s: string)
    requires TwoColons(s)
    ensures var colon := IndexOf(s, ':'); 0 <= colon && ':' in s[colon + 1..]
  {
    hide IndexOf;
    var i, j :| 0 <= i < j < |s| && s[i] == s[j] == ':';
    var colon := IndexOf(s, ':');
    assert s[colon + 1..][j - colon - 1] == ':';
  }

  lemma CutBare(s: string)
    requires TwoColons(s) && s[0] != '['
    ensures Cut(s) == Pieces(s, None, true)
  {
    hide IndexOf, TwoColons;
    ColonsApart(s);
  }

  lemma BracketColons(h: string, end: string)
    requires TwoColons(h) || (':' in h && end != [] && end[0] == ':')
    ensures TwoColons("[" + h + "]" + end)
  {
    var s := "[" + h + "]" + end;
    if TwoColons(h) {
      var i, j :| 0 <= i < j < |h| && h[i] == h[j] == ':';
      assert s[i + 1] == ':' && s[j + 1] == ':';
    } else {
      var i :| 0 <= i < |h| && h[i] == ':';
      assert s[i + 1] == ':' && s[|h| + 2] == ':';
    }
  }

  lemma CutOpen(s: string)
    requires TwoColons(s) && s[0] == '['
    ensures var t := s[1..];
            var end := IndexOf(t, ']');
            Cut(s) == if end < 0 then Unclosed
                      else
                        var port := end + 1 < |t| && t[end + 1] == ':';
                        Pieces(t[..end], if port then Some(t[end + 2..]) else None, true)
  {
    hide IndexOf, TwoColons;
    ColonsApart(s);
  }

  lemma CutBrackets(h: string, end: string)
    requires ']' !in h && TwoColons("[" + h + "]" + end)
    ensures Cut("[" + h + "]" + end) ==
            Pieces(h, if end != [] && end[0] == ':' then Some(end[1..]) else None, true)
  {
    hide IndexOf, TwoColons, Cut;
    var s, t := "[" + h + "]" + end, h + [']'] + end;
    CutOpen(s);
    IndexAt(h, ']', end);
    assert s[1..] == t && t[..|h|] == h;
    assert end != [] ==> t[|h| + 1] == end[0] && t[|h| + 2..] == end[1..];
  }

  /** Each form is cut into its parts. */
  lemma CutForm(f: Form)
    requires Definite(f)
    ensures Cut(Text(f)) == Pieces(f.host, if HasPort(f) then Some(f.port) else None, IsAddress(f))
  {
    hide Cut, TwoColons;
    match f {
      case Name(h) => CutName(h);
      case NamePort(h, p) => CutNamePort(h, p);
      case Bare(h) => CutBare(h);
      case Bracketed(h) =>
        BracketColons(h, []);
        CutBrackets(h, []);
        assert "[" + h + "]" + [] == "[" + h + "]";
      case BracketedPort(h, p) =>
        BracketColons(h, ":" + p);
        CutBrackets(h, ":" + p);
        assert "[" + h + "]" + (":" + p) == "[" + h + "]:" + p && (":" + p)[1..] == p;
    }
  }

  /**
   What a specification means, with or without scheme and path: the host, the port that is given or else the default one
   in decimal digits, and whether it is an address; and it is refused exactly if these are not acceptable.
   */
  lemma ParsesAs(scheme: Option<string>, f: Form, path: Option<string>, d: int) returns (port: string)
    requires Definite(f) && '/' !in Text(f) && NUL !in Spec(scheme, Text(f), path)
    requires if scheme.Some? then !HasScheme(scheme.value) else !HasScheme(Spec(None, Text(f), path))
    ensures ParseHost(Spec(scheme, Text(f), path), d) ==
            if d >= 1 && Acceptable(f) then Good(Host(f.host, port, IsAddress(f))) else Invalid
    ensures HasPort(f) ==> port == f.port
    ensures !HasPort(f) && d >= 1 ==> port != [] && AllDigits(port) && DigitsValue(0, port) == d
  {
    hide Cut, Before, AfterScheme, PortNumber, HasScheme, Definite, Decimal, HostChars, Acceptable, Spec, Text;
    port := if HasPort(f) then f.port else [];
    Unwrapped(scheme, Text(f), path);
    CutForm(f);
    if d >= 1 {
      DecimalValue(d);
      if !HasPort(f) {
        port := Decimal(d);
      }
    }
    AcceptableIs(f);
    if Spec(scheme, Text(f), path) == [] {
      EmptyText(scheme, f, path);
    }
  }

  lemma AcceptableIs(f: Form)
    ensures Acceptable(f) <==>
            && 0 < |f.host| <= NI_MAXHOST && HostChars(f.host, IsAddress(f))
            && (HasPort(f) ==> |f.port| <= NI_MAXSERV && PortNumber(f.port))
  {
    hide PortNumber;
    assert forall i :: 0 <= i < |f.host| ==> f.host[i] in f.host;
    assert HostChars(f.host, IsAddress(f)) ==> forall c :: c in f.host ==> HostChar(c, IsAddress(f));
  }

  lemma EmptyText(scheme: Option<string>, f: Form, path: Option<string>)
    requires Spec(scheme, Text(f), path) == [] && Definite(f)
    ensures f.host == []
  {
    assert |Text(f)| >= |f.host|;
  }

  lemma {:induction false} SpacesSkipped(spaces: string, rest: string)
    requires (forall i :: 0 <= i < |spaces| ==> IsSpace(spaces[i])) && rest != [] && !IsSpace(rest[0])
    ensures SkipSpaces(spaces + rest) == rest
  {
    if spaces == [] {
      assert [] + rest == rest;
    } else {
      SpacesSkipped(spaces[1..], rest);
      assert (spaces + rest)[1..] == spaces[1..] + rest;
    }
  }

  /** A port may have blanks and a sign in front of its digits; its value must be inside the limits of a long. */
  lemma PortMeans(spaces: string, sign: string, digits: string)
    requires forall i :: 0 <= i < |spaces| ==> spaces[i] == ' ' || 9 <= spaces[i] as int <= 13
    requires sign in {"", "-", "+"} && digits != [] && AllDigits(digits)
    ensures PortNumber(spaces + (sign + digits)) <==>
            var value := DigitsValue(0, digits) * if sign == "-" then -1 else 1;
            -0x8000_0000_0000_0000 < value < 0x7fff_ffff_ffff_ffff
  {
    hide SkipSpaces, DigitsValue;
    var s := sign + digits;
    assert s[0] == if sign == "" then digits[0] else sign[0];
    assert if sign == "" then s == digits else s[1..] == digits;
    assert IsDigit(digits[0]);
    DigitsNatural(0, digits);
    SpacesSkipped(spaces, s);
  }

  lemma CutPlain(h: Host)
    requires Sound(h) && !h.ipv6
    ensures Cut(Render(h)) == Pieces(h.host, Some(h.port), false)
  {
    hide PortNumber, Cut;
    assert ':' !in h.host;
    NoColonInPort(h);
    CutNamePort(h.host, h.port);
  }

  /** Without a colon of its own an address in brackets is not taken for one. */
  lemma CutNoColon(h: Host)
    requires Sound(h) && h.ipv6 && ':' !in h.host
    ensures Cut(Render(h)) == Pieces("[" + h.host + "]", Some(h.port), false)
  {
    hide PortNumber, Cut;
    NoColonInPort(h);
    CutNamePort("[" + h.host + "]", h.port);
  }

  lemma NoColonInPort(h: Host)
    requires Sound(h)
    ensures ':' !in h.port
  {
    hide PortNumber, HostChars;
    if ':' in h.port {
      PortChars(h.port, ':');
    }
  }

  lemma CutBracketed(h: Host)
    requires Sound(h) && h.ipv6 && ':' in h.host
    ensures if ']' in h.host then Cut(Render(h)).Pieces? && |Cut(Render(h)).host| < |h.host|
            else Cut(Render(h)) == Pieces(h.host, Some(h.port), true)
  {
    hide Cut, TwoColons, IndexOf, Sound;
    var s := Render(h);
    BracketColons(h.host, ":" + h.port);
    assert s == "[" + h.host + "]" + (":" + h.port);
    if ']' in h.host {
      var j := IndexOf(h.host, ']');
      var a, b := h.host[..j], h.host[j + 1..] + "]:" + h.port;
      assert s == "[" + a + "]" + b;
      CutBrackets(a, b);
    } else {
      CutBrackets(h.host, ":" + h.port);
      assert (":" + h.port)[1..] == h.port;
    }
  }

  /** A rendered host is parsed back to itself exactly when it is well-formed. */
  lemma RenderThenParseIff(h: Host, deflport: int)
    requires Sound(h) && deflport >= 1
    ensures ParseHost(Render(h), deflport) == Good(h) <==> WellFormed(h)
  {
    hide PortNumber, Cut, Before, AfterScheme;
    var s := Render(h);
    RenderedChars(h, '/');
    RenderedChars(h, NUL);
    Unchanged(s);
    assert s != [];
    if h.ipv6 && ':' !in h.host {
      CutNoColon(h);
      assert ("[" + h.host + "]")[0] == '[';
    } else if h.ipv6 {
      CutBracketed(h);
    } else {
      CutPlain(h);
    }
  }

  lemma CutNoColonInBrackets()
    ensures Cut("[abc]x::") == Pieces("abc", None, true)
  {
    hide IndexOf;
    var s, t := "[abc]x::", "abc]x::";
    assert s == "[abc]x" + [':'] + ":" && t == "abc" + [']'] + "x::";
    IndexAt("[abc]x", ':', ":");
    IndexAt("abc", ']', "x::");
    assert s[7..] == ":" && s[1..] == t && t[..3] == "abc";
  }

  lemma PortOne()
    ensures Decimal(1) == "1" && PortNumber("1")
  {
    DefaultPort(1);
    assert Decimal(1) == "1";
  }

  /** Accepted as the IPv6 host "abc", which is rendered as "[abc]:1" and then rejected. */
  lemma NoColonInBrackets()
    ensures ParseHost("[abc]x::", 1) == Good(Host("abc", "1", true))
    ensures !WellFormed(Host("abc", "1", true)) && ParseHost(Render(Host("abc", "1", true)), 1)
      != Good(Host("abc", "1", true))
  {
    hide PortNumber, Cut, Before, AfterScheme, Decimal, Render;
    CutNoColonInBrackets();
    Unchanged("[abc]x::");
    PortOne();
    RenderThenParseIff(Host("abc", "1", true), 1);
  }

  lemma Unchanged(s: string)
    requires '/' !in s && NUL !in s
    ensures Before(AfterScheme(Before(s, NUL)), '/') == s
  {
  }

  // ---------------------------------------------------------------- lists of hosts

  /** lcb_host_equals: the address family is not compared. */
  predicate HostEquals(a: Host, b: Host) {
    a.host == b.host && a.port == b.port
  }

  predicate Has(hosts: seq<Host>, h: Host) {
    exists i :: 0 <= i < |hosts| && HostEquals(h, hosts[i])
  }

  ghost predicate Distinct(hosts: seq<Host>) {
    forall i, j :: 0 <= i < j < |hosts| ==> !HostEquals(hosts[i], hosts[j])
  }

  /** Hostlist::add of one host. */
  function Added(hosts: seq<Host>, h: Host): (r: seq<Host>)
    ensures Distinct(hosts) ==> Distinct(r)
    ensures Has(r, h)
  {
    if Has(hosts, h) then hosts
    else
      assert HostEquals(h, (hosts + [h])[|hosts|]);
      hosts + [h]
  }

  /** Hostlist::add of a text in which every piece ends with a semicolon; false on an invalid piece. */
  ghost function AddPieces(hosts: seq<Host>, s: string, deflport: int): (r: (seq<Host>, bool))
    ensures Distinct(hosts) ==> Distinct(r.0)
    decreases |s|
  {
    var k := IndexOf(s, ';');
    if k < 0 then (hosts, true)
    else if k == 0 then AddPieces(hosts, s[1..], deflport)
    else match ParseHost(s[..k], deflport)
      case Invalid => (hosts, false)
      case Good(h) => AddPieces(Added(hosts, h), s[k + 1..], deflport)
  }

  /** Hostlist::add of a text. */
  ghost function AddText(hosts: seq<Host>, text: string, deflport: int): (seq<Host>, bool) {
    if text == [] then (hosts, true)
    else AddPieces(hosts, Before(if text[|text| - 1] != ';' then text + ";" else text, NUL), deflport)
  }

  /** Texts without semicolons, each with one behind it. */
  function Joined(pieces: seq<string>): string {
    if pieces == [] then [] else pieces[0] + ";" + Joined(pieces[1..])
  }

  /** The hosts of the pieces that are not empty. */
  ghost function Hosts(pieces: seq<string>, deflport: int): seq<Host>
    requires forall i :: 0 <= i < |pieces| ==> pieces[i] == [] || ParseHost(pieces[i], deflport).Good?
  {
    if pieces == [] then []
    else (if pieces[0] == [] then [] else [ParseHost(pieces[0], deflport).host]) + Hosts(pieces[1..], deflport)
  }

  /** Of the first n of a list, those that neither the old hosts nor an earlier one of the list equals. */
  ghost function Fresh(hosts: seq<Host>, list: seq<Host>, n: nat): seq<Host>
    requires n <= |list|
  {
    if n == 0 then []
    else Fresh(hosts, list, n - 1) +
         if Has(hosts, list[n - 1]) || Has(list[..n - 1], list[n - 1]) then [] else [list[n - 1]]
  }

  function AddAll(hosts: seq<Host>, list: seq<Host>): seq<Host>
    decreases |list|
  {
    if list == [] then hosts else AddAll(Added(hosts, list[0]), list[1..])
  }

  lemma {:induction false} AddAllMore(hosts: seq<Host>, list: seq<Host>, h: Host)
    ensures AddAll(hosts, list + [h]) == Added(AddAll(hosts, list), h)
    decreases |list|
  {
    hide Added;
    if list == [] {
      assert ([] + [h])[1..] == [];
    } else {
      AddAllMore(Added(hosts, list[0]), list[1..], h);
      assert (list + [h])[1..] == list[1..] + [h];
    }
  }

  lemma HasJoin(a: seq<Host>, b: seq<Host>, h: Host)
    ensures Has(a + b, h) <==> Has(a, h) || Has(b, h)
  {
    if Has(b, h) {
      var i :| 0 <= i < |b| && HostEquals(h, b[i]);
      assert (a + b)[|a| + i] == b[i];
    }
    if Has(a, h) {
      var i :| 0 <= i < |a| && HostEquals(h, a[i]);
      assert (a + b)[i] == a[i];
    }
  }

  /** Whatever is in the list equals an old host or a fresh one, and the other way round. */
  lemma {:induction false} FreshHas(hosts: seq<Host>, list: seq<Host>, n: nat, h: Host)
    requires n <= |list|
    ensures Has(hosts + Fresh(hosts, list, n), h) <==> Has(hosts, h) || Has(list[..n], h)
  {
    hide Has;
    HasJoin(hosts, Fresh(hosts, list, n), h);
    if n > 0 {
      var x := list[n - 1];
      FreshHas(hosts, list, n - 1, h);
      HasJoin(hosts, Fresh(hosts, list, n - 1), h);
      HasJoin(Fresh(hosts, list, n - 1), [x], h);
      assert list[..n] == list[..n - 1] + [x];
      HasJoin(list[..n - 1], [x], h);
      HasOne(hosts, x, h);
      HasOne(list[..n - 1], x, h);
      assert Fresh(hosts, list, n - 1) + [] == Fresh(hosts, list, n - 1);
    }
  }

  lemma HasOne(hosts: seq<Host>, x: Host, h: Host)
    ensures Has([x], h) <==> HostEquals(h, x)
    ensures Has([x], h) && Has(hosts, x) ==> Has(hosts, h)
    ensures !Has([], h)
  {
    assert [x][0] == x;
  }

  lemma {:induction false} AddAllIs(hosts: seq<Host>, list: seq<Host>, n: nat)
    requires n <= |list|
    ensures AddAll(hosts, list[..n]) == hosts + Fresh(hosts, list, n)
  {
    hide Has;
    if n > 0 {
      AddAllIs(hosts, list, n - 1);
      assert list[..n] == list[..n - 1] + [list[n - 1]];
      AddAllMore(hosts, list[..n - 1], list[n - 1]);
      FreshHas(hosts, list, n - 1, list[n - 1]);
    }
  }

  lemma {:induction false} PiecesAdded(hosts: seq<Host>, pieces: seq<string>, rest: string, deflport: int)
    requires forall i :: 0 <= i < |pieces| ==> ';' !in pieces[i]
    requires forall i :: 0 <= i < |pieces| ==> pieces[i] == [] || ParseHost(pieces[i], deflport).Good?
    ensures AddPieces(hosts, Joined(pieces) + rest, deflport) ==
            AddPieces(AddAll(hosts, Hosts(pieces, deflport)), rest, deflport)
    decreases |pieces|
  {
    hide ParseHost, Added, IndexOf;
    if pieces == [] {
      assert [] + rest == rest;
    } else {
      var p, more := pieces[0], Joined(pieces[1..]) + rest;
      var s := Joined(pieces) + rest;
      assert s == p + [';'] + more;
      IndexAt(p, ';', more);
      assert s[..|p|] == p && s[|p| + 1..] == more;
      var next := if p == [] then hosts else Added(hosts, ParseHost(p, deflport).host);
      PiecesAdded(next, pieces[1..], rest, deflport);
      var hs := Hosts(pieces, deflport);
      assert if p == [] then hs == Hosts(pieces[1..], deflport)
             else hs[0] == ParseHost(p, deflport).host && hs[1..] == Hosts(pieces[1..], deflport);
    }
  }

  /**
   Adding a text: the hosts of its pieces up to the first invalid one, in order, each unless there is an equal one
   already; and the outcome says whether there was an invalid one. Empty pieces do not matter.
   */
  lemma AddTextMeans(hosts: seq<Host>, pieces: seq<string>, bad: Option<string>, rest: string, deflport: int)
    requires forall i :: 0 <= i < |pieces| ==> ';' !in pieces[i]
    requires forall i :: 0 <= i < |pieces| ==> pieces[i] == [] || ParseHost(pieces[i], deflport).Good?
    requires bad.Some? ==> bad.value != [] && ';' !in bad.value && ParseHost(bad.value, deflport).Invalid?
    ensures var list := Hosts(pieces, deflport);
            AddPieces(hosts, Joined(pieces) + (if bad.Some? then bad.value + ";" + rest else []), deflport) ==
            (hosts + Fresh(hosts, list, |list|), bad.None?)
  {
    hide ParseHost, IndexOf, Fresh, Joined, Hosts, AddAll;
    var list := Hosts(pieces, deflport);
    var end := if bad.Some? then bad.value + ";" + rest else [];
    PiecesAdded(hosts, pieces, end, deflport);
    AddAllIs(hosts, list, |list|);
    assert list[..|list|] == list;
    if bad.Some? {
      IndexAt(bad.value, ';', rest);
      assert end[..|bad.value|] == bad.value;
    }
  }

  lemma {:induction false} JoinedLast(pieces: seq<string>)
    requires pieces != []
    ensures var n := |pieces| - 1; Joined(pieces) == Joined(pieces[..n]) + pieces[n] + ";"
  {
    var n := |pieces| - 1;
    if n == 0 {
      assert pieces[..0] == [] && pieces[1..] == [];
      assert Joined(pieces) == pieces[0] + ";" + [];
    } else {
      JoinedLast(pieces[1..]);
      assert pieces[1..][..n - 1] == pieces[..n][1..] && pieces[..n][0] == pieces[0];
    }
  }

  /** The semicolon behind the last piece can be left out. */
  lemma LastSemicolon(hosts: seq<Host>, pieces: seq<string>, deflport: int)
    requires pieces != [] && pieces[|pieces| - 1] != [] && NUL !in Joined(pieces)
    requires forall i :: 0 <= i < |pieces| ==> ';' !in pieces[i]
    ensures var text := Joined(pieces);
            AddText(hosts, text, deflport) == AddText(hosts, text[..|text| - 1], deflport) ==
            AddPieces(hosts, text, deflport)
  {
    hide AddPieces, IndexOf, Joined;
    JoinedLast(pieces);
    var n := |pieces| - 1;
    var text, last, a := Joined(pieces), pieces[n], Joined(pieces[..n]);
    var cut := text[..|text| - 1];
    assert cut == a + last && cut + ";" == text;
    assert cut[|cut| - 1] == last[|last| - 1] && last[|last| - 1] in last;
  }

  /** The hosts of a list rendered one after the other, each with a semicolon. */
  function Listing(hosts: seq<Host>): string {
    if hosts == [] then [] else Render(hosts[0]) + ";" + Listing(hosts[1..])
  }

  /** Adding the listing of distinct well-formed hosts adds exactly these hosts, in order. */
  lemma {:induction false} ListingReadBack(done: seq<Host>, hosts: seq<Host>, deflport: int)
    requires Distinct(done + hosts) && deflport >= 1 && forall i :: 0 <= i < |hosts| ==> WellFormed(hosts[i])
    ensures AddPieces(done, Listing(hosts), deflport) == (done + hosts, true)
    decreases |hosts|
  {
    hide ParseHost, Render, IndexOf, Sound, HostEquals;
    var s := Listing(hosts);
    if hosts == [] {
      assert done + hosts == done;
    } else {
      var h, text := hosts[0], Render(hosts[0]);
      assert WellFormed(h);
      RenderedChars(h, ';');
      IndexAt(text, ';', Listing(hosts[1..]));
      RenderedSome(h);
      assert s[..|text|] == text && s[|text| + 1..] == Listing(hosts[1..]);
      RenderThenParseIff(h, deflport);
      AddedNew(done, hosts);
      assert done + [h] + hosts[1..] == done + hosts;
      ListingReadBack(done + [h], hosts[1..], deflport);
    }
  }

  lemma RenderedSome(h: Host)
    ensures Render(h) != []
  {
  }

  lemma AddedNew(done: seq<Host>, hosts: seq<Host>)
    requires Distinct(done + hosts) && hosts != []
    ensures Added(done, hosts[0]) == done + [hosts[0]]
  {
    forall i | 0 <= i < |done| ensures !HostEquals(hosts[0], done[i]) {
      assert (done + hosts)[i] == done[i] && (done + hosts)[|done|] == hosts[0];
    }
  }

  // ---------------------------------------------------------------- the loops

  /** strtol on a port: whether it takes the whole text and stays inside the limits. */
  method ScanPort(port: string) returns (ok: bool)
    ensures ok == PortNumber(port)
  {
    var i := 0;
    assert port[0..] == port;
    while i < |port| && IsSpace(port[i])
      invariant i <= |port| && SkipSpaces(port[i..]) == SkipSpaces(port)
    {
      assert port[i..][1..] == port[i + 1..];
      i := i + 1;
    }
    var s := port[i..];
    assert s == SkipSpaces(port);
    var negative := s != [] && s[0] == '-';
    var digits := if s != [] && (s[0] == '-' || s[0] == '+') then s[1..] else s;
    var n, j := 0, 0;
    while j < |digits| && IsDigit(digits[j])
      invariant j <= |digits| && AllDigits(digits[..j]) && n == DigitsValue(0, digits[..j])
    {
      n := n * 10 + (digits[j] as int - 48);
      assert digits[..j + 1][..j] == digits[..j];
      j := j + 1;
    }
    assert digits[..|digits|] == digits;
    ok := digits != [] && j == |digits| && if negative then n <= LONG_MAX else n < LONG_MAX;
  }

  /** The character check of lcb_host_parse. */
  method CheckChars(host: string, ipv6: bool) returns (ok: bool)
    ensures ok == HostChars(host, ipv6)
  {
    hide HostChar;
    var ii := 0;
    while ii < |host|
      invariant ii <= |host| && forall i :: 0 <= i < ii ==> HostChar(host[i], ipv6)
    {
      if !HostChar(host[ii], ipv6) {
        return false;
      }
      ii := ii + 1;
    }
    ok := true;
  }

  /** The part of lcb_host_parse that cuts the buffer into host and port. */
  method CutSpec(buffer: string) returns (r: Pieces)
    ensures r == Cut(buffer)
  {
    hide IndexOf;
    var host := buffer;
    var port: Option<string>, ipv6 := None, false;
    var colon := IndexOf(host, ':');
    if colon >= 0 && ':' in host[colon + 1..] {
      ipv6 := true;
      if host[0] == '[' {
        host := host[1..];
        var end := IndexOf(host, ']');
        if end < 0 {
          return Unclosed;
        }
        if end + 1 < |host| && host[end + 1] == ':' {
          port := Some(host[end + 2..]);
        }
        host := host[..end];
      }
    } else if colon >= 0 {
      port := Some(host[colon + 1..]);
      host := host[..colon];
    }
    r := Pieces(host, port, ipv6);
  }

  /** lcb_host_parse */
  method ParseSpec(spec: string, deflport: int) returns (r: Outcome)
    ensures r == ParseHost(spec, deflport)
  {
    hide PortNumber, Before, AfterScheme, Cut, HostChars;
    if spec == [] || deflport < 1 {
      return Invalid;
    }
    var p := CutSpec(Before(AfterScheme(Before(spec, NUL)), '/'));
    if p.Unclosed? {
      return Invalid;
    }
    if p.port.Some? {
      var number := ScanPort(p.port.value);
      if !number {
        return Invalid;
      }
    }
    if |p.host| > NI_MAXHOST || (p.port.Some? && |p.port.value| > NI_MAXSERV) || p.host == [] {
      return Invalid;
    }
    var ok := CheckChars(p.host, p.ipv6);
    if !ok {
      return Invalid;
    }
    r := Good(Host(p.host, if p.port.Some? then p.port.value else Decimal(deflport), p.ipv6));
  }

  /** What get_strlist returns for a list: the rendered hosts and a terminator. */
  function Strings(hosts: seq<Host>): (r: seq<Option<string>>)
    ensures |r| == |hosts| + 1 && r[|hosts|] == None
    ensures forall i :: 0 <= i < |hosts| ==> r[i] == Some(Render(hosts[i]))
  {
    seq(|hosts|, i requires 0 <= i < |hosts| => Some(Render(hosts[i]))) + [None]
  }

  class Hostlist {
    var hosts: seq<Host>
    var hoststrs: seq<Option<string>>
    var ix: nat

    /** No host twice, and a cache that is empty or up to date. */
    ghost predicate Valid()
      reads this
    {
      Distinct(hosts) && (hoststrs == [] || hoststrs == Strings(hosts)) && ix <= |hosts|
    }

    constructor ()
      ensures Valid() && hosts == [] && ix == 0
    {
      hosts, hoststrs, ix := [], [], 0;
    }

    method ResetStrlist()
      modifies this`hoststrs
      ensures hoststrs == []
    {
      hoststrs := [];
    }

    /** Hostlist::exists */
    method Exists(h: Host) returns (found: bool)
      ensures found == Has(hosts, h)
      ensures found <==> exists i :: 0 <= i < |hosts| && hosts[i].host == h.host && hosts[i].port == h.port
    {
      var i := 0;
      while i < |hosts|
        invariant i <= |hosts| && forall j :: 0 <= j < i ==> !HostEquals(h, hosts[j])
      {
        if HostEquals(h, hosts[i]) {
          return true;
        }
        i := i + 1;
      }
      found := false;
    }

    /** Hostlist::exists of a text: the default port is 1. */
    method ExistsText(text: string) returns (found: bool)
      ensures found == (ParseHost(text, 1).Good? && Has(hosts, ParseHost(text, 1).host))
    {
      var r := ParseSpec(text, 1);
      if r.Invalid? {
        return false;
      }
      found := Exists(r.host);
    }

    method Add(h: Host)
      requires Valid()
      modifies this`hosts, this`hoststrs
      ensures Valid() && hosts == Added(old(hosts), h)
    {
      var found := Exists(h);
      if found {
        return;
      }
      hosts := hosts + [h];
      ResetStrlist();
    }

    /** Hostlist::add of a text; the hosts in front of an invalid one stay. */
    method AddString(text: string, deflport: int) returns (ok: bool)
      requires Valid()
      modifies this`hosts, this`hoststrs
      ensures Valid() && (hosts, ok) == AddText(old(hosts), text, deflport)
    {
      hide IndexOf, ParseHost, Before;
      if text == [] {
        return true;
      }
      var ss := Before(if text[|text| - 1] != ';' then text + ";" else text, NUL);
      var cur := ss;
      while true
        invariant Valid() && AddPieces(hosts, cur, deflport) == AddPieces(old(hosts), ss, deflport)
        decreases |cur|
      {
        var delim := IndexOf(cur, ';');
        if delim < 0 {
          return true;
        }
        if delim == 0 {
          cur := cur[1..];
        } else {
          var r := ParseSpec(cur[..delim], deflport);
          if r.Invalid? {
            return false;
          }
          Add(r.host);
          cur := cur[delim + 1..];
        }
      }
    }

    /** Hostlist::next */
    method Next(wrap: bool) returns (r: Option<Host>)
      requires Valid()
      modifies this`ix
      ensures Valid()
      ensures if hosts == [] || (old(ix) == |hosts| && !wrap) then r == None && ix == old(ix)
              else r == Some(hosts[old(ix) % |hosts|]) && ix == old(ix) % |hosts| + 1
    {
      if hosts == [] {
        return None;
      }
      if ix == |hosts| {
        if wrap {
          ix := 0;
        } else {
          return None;
        }
      }
      r := Some(hosts[ix]);
      ix := ix + 1;
    }

    method Clear()
      modifies this
      ensures Valid() && hosts == [] && hoststrs == [] && ix == 0
    {
      hosts := [];
      ResetStrlist();
      ix := 0;
    }

    /** Hostlist::randomize; `shuffled` is what std::shuffle makes of the list. */
    method Randomize(shuffled: seq<Host>)
      requires Valid() && multiset(shuffled) == multiset(hosts)
      modifies this`hosts, this`hoststrs
      ensures Valid() && hosts == shuffled
    {
      ShuffleDistinct(hosts, shuffled);
      SameLength(hosts, shuffled);
      hosts := shuffled;
      ResetStrlist();
    }

    /** Hostlist::get_strlist with ensure_strlist */
    method GetStrlist() returns (r: seq<Option<string>>)
      requires Valid()
      modifies this`hoststrs
      ensures Valid() && r == hoststrs == Strings(hosts)
    {
      if hoststrs == [] {
        var i := 0;
        while i < |hosts|
          invariant i <= |hosts| && hoststrs == Strings(hosts)[..i]
        {
          var h := hosts[i];
          var ss: string := [];
          if h.ipv6 {
            ss := ss + "[" + h.host + "]";
          } else {
            ss := ss + h.host;
          }
          ss := ss + ":" + h.port;
          assert ss == Render(h);
          hoststrs := hoststrs + [Some(ss)];
          i := i + 1;
        }
        hoststrs := hoststrs + [None];
      }
      r := hoststrs;
    }

    /** Hostlist::assign; a list assigned to itself ends up empty. */
    method Assign(src: Hostlist)
      requires src.Valid()
      modifies this
      ensures Valid() && hosts == (if src == this then [] else src.hosts) && ix == 0
    {
      Clear();
      var ii := 0;
      while ii < |src.hosts|
        invariant ii <= |src.hosts| && Valid() && hosts == src.hosts[..ii] && ix == 0
        invariant if src == this then hosts == [] else src.hosts == old(src.hosts)
      {
        assert src.hosts[..ii] + src.hosts[ii..] == src.hosts && src.hosts[ii..][0] == src.hosts[ii];
        AddedNew(src.hosts[..ii], src.hosts[ii..]);
        Add(src.hosts[ii]);
        ii := ii + 1;
      }
    }
  }

  lemma SameLength(a: seq<Host>, b: seq<Host>)
    requires multiset(a) == multiset(b)
    ensures |a| == |b|
  {
    assert |multiset(a)| == |a|;
  }

  /** Shuffling keeps hosts distinct. */
  lemma ShuffleDistinct(a: seq<Host>, b: seq<Host>)
    requires Distinct(a) && multiset(a) == multiset(b)
    ensures Distinct(b)
  {
    forall i, j | 0 <= i < j < |b| ensures !HostEquals(b[i], b[j]) {
      if b[i] == b[j] {
        Twice(b, i, j);
        Once(a, b[i]);
      } else {
        assert b[i] in multiset(a) && b[j] in multiset(a);
      }
    }
  }

  lemma Twice(b: seq<Host>, i: nat, j: nat)
    requires i < j < |b| && b[i] == b[j]
    ensures multiset(b)[b[i]] >= 2
  {
    assert b == b[..i] + [b[i]] + b[i + 1..j] + [b[j]] + b[j + 1..];
  }

  lemma {:induction false} Once(a: seq<Host>, h: Host)
    requires Distinct(a)
    ensures multiset(a)[h] <= 1
  {
    if a != [] {
      var n := |a| - 1;
      Once(a[..n], h);
      assert a == a[..n] + [a[n]];
      if a[n] == h {
        assert h !in a[..n];
      }
    }
  }
}
