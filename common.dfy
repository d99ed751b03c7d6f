/** Types shared by every part of the model: wrappers, fixed-width integers,
    UUIDs with their canonical text form, timestamps, HTTP outcomes and the
    names of the fallible storage calls. */
module Common {

  /** An unsigned byte. */
  type byte = b: int | 0 <= b < 256

  /** Rust's `i32`; every integer column of the database has this width. */
  type Int32 = x: int | -0x8000_0000 <= x < 0x8000_0000

  datatype Option<+T> = None | Some(value: T)

  datatype Result<+T, +E> = Ok(value: T) | Err(error: E)

  /** Rust's `Option::unwrap_or`. */
  function UnwrapOr<T>(o: Option<T>, default: T): (r: T)
    ensures o.Some? ==> r == o.value
    ensures o.None? ==> r == default
  {
    match o
    case Some(v) => v
    case None => default
  }

  // ---------------------------------------------------------------------------
  // UUIDs
  // ---------------------------------------------------------------------------

  /** A UUID is its sixteen bytes in network order. */
  type Uuid = s: seq<byte> | |s| == 16 witness [0, 0, 0, 0, 0, 0, 0, 0, 0, 0, 0, 0, 0, 0, 0, 0]

  predicate IsNil(u: Uuid) {
    forall i :: 0 <= i < 16 ==> u[i] == 0
  }

  /** The version field: the high nibble of byte 6. */
  function VersionNum(u: Uuid): (n: nat)
    ensures n < 16
  {
    u[6] / 16
  }

  datatype UuidVersion = Nil | Mac | Dce | Md5 | Random | Sha1 | SortMac | SortRand | Custom | Max

  /** The version the uuid crate (1.x) reports: a recognised version number,
      the nil UUID as `Nil`, and `None` for the unassigned numbers. */
  function GetVersion(u: Uuid): (v: Option<UuidVersion>)
    ensures IsNil(u) ==> v == Some(Nil)
    ensures v == Some(Random) <==> VersionNum(u) == 4
    ensures v == Some(Nil) ==> IsNil(u)
  {
    match VersionNum(u)
    case 0 => if IsNil(u) then Some(Nil) else None
    case 1 => Some(Mac)
    case 2 => Some(Dce)
    case 3 => Some(Md5)
    case 4 => Some(Random)
    case 5 => Some(Sha1)
    case 6 => Some(SortMac)
    case 7 => Some(SortRand)
    case 8 => Some(Custom)
    case 15 => Some(Max)
    case _ => None
  }

  /** One lower-case hexadecimal digit. */
  function HexDigit(n: nat): (c: char)
    requires n < 16
    ensures c != '-'
  {
    if n < 10 then ('0' as int + n) as char else ('a' as int + n - 10) as char
  }

  /** The value of a digit written by `HexDigit`. */
  function DigitValue(c: char): nat {
    if '0' <= c <= '9' then c as int - '0' as int
    else if 'a' <= c <= 'f' then c as int - 'a' as int + 10
    else 0
  }

  lemma HexDigitValue(n: nat)
    requires n < 16
    ensures DigitValue(HexDigit(n)) == n
  {
  }

  /** Two lower-case hexadecimal digits per byte, high nibble first. */
  function HexBytes(s: seq<byte>): (h: string)
    ensures |h| == 2 * |s|
    ensures forall i :: 0 <= i < |h| ==> h[i] != '-'
  {
    if s == [] then [] else [HexDigit(s[0] / 16), HexDigit(s[0] % 16)] + HexBytes(s[1..])
  }

  /** The hyphenated form `8-4-4-4-12`, which is also what `to_string` gives. */
  function Hyphenated(u: Uuid): (h: string)
    ensures |h| == 36
  {
    HexBytes(u[..4]) + ("-" + (HexBytes(u[4..6]) + ("-" + (HexBytes(u[6..8]) +
      ("-" + (HexBytes(u[8..10]) + ("-" + HexBytes(u[10..]))))))))
  }

  /** Reads back the bytes of a string of hexadecimal digit pairs,
      skipping hyphens. */
  function Unhex(h: string): seq<byte> {
    if |h| < 2 then []
    else if h[0] == '-' then Unhex(h[1..])
    else
      var hi, lo := DigitValue(h[0]), DigitValue(h[1]);
      [if hi < 16 && lo < 16 then hi * 16 + lo else 0] + Unhex(h[2..])
  }

  lemma {:induction false} UnhexHexBytes(s: seq<byte>, rest: string)
    requires rest == [] || rest[0] == '-'
    ensures Unhex(HexBytes(s) + rest) == s + Unhex(rest)
  {
    if s == [] {
      assert HexBytes(s) + rest == rest;
    } else {
      var b := s[0];
      HexDigitValue(b / 16);
      HexDigitValue(b % 16);
      var h := HexBytes(s) + rest;
      assert h == [HexDigit(b / 16), HexDigit(b % 16)] + (HexBytes(s[1..]) + rest);
      assert h[2..] == HexBytes(s[1..]) + rest;
      UnhexHexBytes(s[1..], rest);
      assert s == [b] + s[1..];
    }
  }

  /** One group of digits followed by a hyphen and the rest of the text. */
  lemma UnhexGroup(g: seq<byte>, t: string)
    requires |t| >= 2
    ensures Unhex(HexBytes(g) + ("-" + t)) == g + Unhex(t)
  {
    UnhexHexBytes(g, "-" + t);
    assert ("-" + t)[1..] == t;
  }

  /** The hyphenated text determines the UUID. */
  lemma UnhexHyphenated(u: Uuid)
    ensures Unhex(Hyphenated(u)) == u
  {
    var g0, g1, g2, g3, g4 := u[..4], u[4..6], u[6..8], u[8..10], u[10..];
    var t4 := HexBytes(g4);
    UnhexHexBytes(g4, []);
    assert t4 + [] == t4;
    var t3 := HexBytes(g3) + ("-" + t4);
    UnhexGroup(g3, t4);
    var t2 := HexBytes(g2) + ("-" + t3);
    UnhexGroup(g2, t3);
    var t1 := HexBytes(g1) + ("-" + t2);
    UnhexGroup(g1, t2);
    UnhexGroup(g0, t1);
    assert Hyphenated(u) == HexBytes(g0) + ("-" + t1);
    assert u == g0 + (g1 + (g2 + (g3 + g4)));
  }

  lemma HyphenatedInjective(a: Uuid, b: Uuid)
    ensures Hyphenated(a) == Hyphenated(b) <==> a == b
  {
    UnhexHyphenated(a);
    UnhexHyphenated(b);
  }

  // ---------------------------------------------------------------------------
  // Characters and their UTF-8 length
  // ---------------------------------------------------------------------------

  predicate IsAscii(c: char) {
    c as int < 0x80
  }

  predicate IsAsciiUpper(c: char) {
    'A' <= c <= 'Z'
  }

  predicate IsAsciiLower(c: char) {
    'a' <= c <= 'z'
  }

  predicate IsAsciiDigit(c: char) {
    '0' <= c <= '9'
  }

  /** Rust's `char::is_whitespace`: the Unicode White_Space property. */
  predicate IsWhitespace(c: char) {
    || ('\t' <= c <= '\r')
    || c == ' '
    || c == '\U{0085}'
    || c == '\U{00A0}'
    || c == '\U{1680}'
    || ('\U{2000}' <= c <= '\U{200A}')
    || c == '\U{2028}'
    || c == '\U{2029}'
    || c == '\U{202F}'
    || c == '\U{205F}'
    || c == '\U{3000}'
  }

  /** Rust's `char::to_ascii_lowercase`: only `A`..`Z` change. */
  function ToAsciiLower(c: char): (d: char)
    ensures !IsAsciiUpper(d)
    ensures IsAsciiUpper(c) ==> d as int == c as int + 32
    ensures !IsAsciiUpper(c) ==> d == c
  {
    if IsAsciiUpper(c) then (c as int + 32) as char else c
  }

  /** Rust's `str::to_ascii_lowercase`. */
  function LowerAscii(s: string): (r: string)
    ensures |r| == |s|
    ensures forall i :: 0 <= i < |s| ==> r[i] == ToAsciiLower(s[i])
  {
    seq(|s|, i requires 0 <= i < |s| => ToAsciiLower(s[i]))
  }

  /** The number of bytes of a character in UTF-8. */
  function Utf8Width(c: char): nat {
    if c as int < 0x80 then 1 else if c as int < 0x800 then 2 else if c as int < 0x10000 then 3 else 4
  }

  /** Rust's `str::len`: the length in UTF-8 bytes. */
  function Utf8Len(s: string): nat {
    if s == [] then 0 else Utf8Width(s[0]) + Utf8Len(s[1..])
  }

  /** For ASCII text, bytes and characters coincide. */
  lemma {:induction false} AsciiUtf8Len(s: string)
    requires forall i :: 0 <= i < |s| ==> IsAscii(s[i])
    ensures Utf8Len(s) == |s|
  {
    if s != [] {
      AsciiUtf8Len(s[1..]);
    }
  }

  // ---------------------------------------------------------------------------
  // Time, HTTP outcomes, request headers, storage failures
  // ---------------------------------------------------------------------------

  /** A database timestamp (`NOW()`); only its identity matters here. */
  datatype Timestamp = Timestamp(instant: int)

  datatype Status =
    | Ok200
    | BadRequest400
    | Unauthorized401
    | Forbidden403
    | NotFound404
    | Conflict409
    | InternalError500
      /** The handler panics (an `unwrap` on an error, an index out of range). */
    | Panicked

  /** A handler's reply: the status and the `status` text of its JSON body. */
  datatype Response = Response(status: Status, message: string)

  /** A request header: absent, present but not visible ASCII (so `to_str`
      fails), or readable text. */
  datatype Header = Absent | Unreadable | Text(value: string)

  /** The fallible storage calls of the handlers. A call named in a handler's
      `faults` set fails; a failed statement changes nothing. */
  datatype Io =
    | TokenLookup
    | TokenRemoveAll
    | TokenInsert
    | UserLookup
    | UsernameCheck
    | UserUpsert
    | UserIdLookup
    | UserByIdLookup
    | RecordFilter
    | RecordInsert
    | RecordUpdate
    | BlobWrite
    | FileExists
    | FileWrite
    | ItemInsert

  type Faults = set<Io>
}
