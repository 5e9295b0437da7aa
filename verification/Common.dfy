/** What several components share: optional values, integer widths, status codes and decimal digits. */
module Common {
  datatype Option<+T> = None | Some(value: T)

  const UINT8 := 0x100
  const UINT32 := 0x1_0000_0000
  const INT_MIN := -0x8000_0000
  const INT_MAX := 0x7fff_ffff

  /** The retries field of a packet, eight bits wide. */
  type Retries = x: int | 0 <= x < UINT8

  /** ++ on that field. */
  function OneMore(n: Retries): (r: Retries)
    ensures r == n + 1 <==> n < UINT8 - 1
    ensures n == UINT8 - 1 ==> r == 0
  {
    (n + 1) % UINT8
  }
}

/** The values of lcb_STATUS that the model names, from include/libcouchbase/error.h. */
module Statuses {
  type Status = int

  const SUCCESS: Status := 0
  const ERR_GENERIC: Status := 100
  const ERR_TIMEOUT: Status := 201
  const ERR_REQUEST_CANCELED: Status := 202
  const ERR_AUTHENTICATION_FAILURE: Status := 206
  const ERR_TEMPORARY_FAILURE: Status := 207
  const ERR_BUCKET_NOT_FOUND: Status := 210
  const ERR_COLLECTION_NOT_FOUND: Status := 211
  const ERR_SCOPE_NOT_FOUND: Status := 217
  const ERR_DOCUMENT_LOCKED: Status := 303
  const ERR_DURABLE_WRITE_IN_PROGRESS: Status := 310
  const ERR_DURABLE_WRITE_RE_COMMIT_IN_PROGRESS: Status := 311
  const ERR_FD_LIMIT_REACHED: Status := 1004
  const ERR_NODE_UNREACHABLE: Status := 1005
  const ERR_NO_MATCHING_SERVER: Status := 1010
  const ERR_CONNECTION_REFUSED: Status := 1024
  const ERR_SOCKET_SHUTDOWN: Status := 1025
  const ERR_CONNECTION_RESET: Status := 1026
  const ERR_CANNOT_GET_PORT: Status := 1027
  const ERR_TOO_MANY_REDIRECTS: Status := 1036
  const ERR_MAP_CHANGED: Status := 1037
  const ERR_NOT_MY_VBUCKET: Status := 1038
  const ERR_NAMESERVER: Status := 1041
  const ERR_NETWORK: Status := 1048
  const ERR_UNKNOWN_HOST: Status := 1049
  const ERR_PROTOCOL_ERROR: Status := 1050
  const ERR_CONNECT_ERROR: Status := 1051
  const ERR_TOPOLOGY_CHANGE: Status := 1055

  /** LCB_ERROR_IS_NETWORK */
  predicate IsNetwork(e: Status) {
    e in {ERR_TIMEOUT, ERR_FD_LIMIT_REACHED, ERR_NODE_UNREACHABLE, ERR_CONNECTION_REFUSED, ERR_SOCKET_SHUTDOWN,
          ERR_CONNECTION_RESET, ERR_CANNOT_GET_PORT, ERR_TOO_MANY_REDIRECTS, ERR_NOT_MY_VBUCKET, ERR_NAMESERVER,
          ERR_NETWORK, ERR_UNKNOWN_HOST, ERR_PROTOCOL_ERROR, ERR_CONNECT_ERROR}
  }
}

/** Decimal digits and their values. */
module Decimals {
  const NUL := 0 as char

  predicate IsDigit(c: char) {
    '0' <= c <= '9'
  }

  ghost predicate AllDigits(s: string) {
    forall i :: 0 <= i < |s| ==> IsDigit(s[i])
  }

  function Digit(d: nat): (c: char)
    requires d < 10
    ensures IsDigit(c) && c as int - 48 == d
  {
    (48 + d) as char
  }

  /** The decimal digits of a number. */
  function Decimal(n: nat): (r: string)
    ensures |r| > 0 && AllDigits(r)
    ensures r[0] == '0' <==> n == 0
    ensures n < 10 ==> |r| == 1
  {
    if n < 10 then [Digit(n)] else Decimal(n / 10) + [Digit(n % 10)]
  }

  function DigitsValue(acc: int, digits: string): int
    requires AllDigits(digits)
  {
    if digits == [] then acc
    else DigitsValue(acc, digits[..|digits| - 1]) * 10 + (digits[|digits| - 1] as int - 48)
  }

  lemma {:induction false} DigitsNatural(acc: nat, digits: string)
    requires AllDigits(digits)
    ensures DigitsValue(acc, digits) >= 0
  {
    if digits != [] {
      DigitsNatural(acc, digits[..|digits| - 1]);
    }
  }

  lemma {:induction false} DecimalValue(n: nat)
    ensures DigitsValue(0, Decimal(n)) == n
  {
    var d := Decimal(n);
    if n < 10 {
      assert d[..0] == [];
    } else {
      DecimalValue(n / 10);
      assert d[..|d| - 1] == Decimal(n / 10);
    }
  }
}
