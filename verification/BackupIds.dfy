/** Backup identifiers: how they are printed as object keys, parsed back and ordered.

    Text is a sequence of bytes, written as `char`s below 256.  Components are
    percent-encoded as in sections 2.1 and 2.3 of RFC 3986, and more strictly so. */
module BackupIds {
  import opened Wrappers

  type Text = string

  /** `createdAt` counts seconds: identifiers have second precision. */
  datatype BackupId = BackupId(prefix: Text, createdAt: int, description: Text, extensions: seq<Text>)

  datatype ParseError = NoPrefix | NoTimestamp | BadInteger | BadTimestamp | NoExtension | InvalidUtf8

  predicate IsBytes(s: Text) { forall i :: 0 <= i < |s| ==> s[i] as int < 256 }

  // ---- percent-encoding ----

  /** Unreserved characters, which are not encoded. */
  predicate Unreserved(c: char) {
    'A' <= c <= 'Z' || 'a' <= c <= 'z' || '0' <= c <= '9' || c == '-' || c == '.' || c == '_' || c == '~'
  }

  function HexDigit(n: int): (c: char)
    requires 0 <= n < 16
    ensures HexValue(c) == Some(n)
    ensures c != '-' && c != '.' && c != '/'
  {
    if n < 10 then (n + '0' as int) as char else (n - 10 + 'A' as int) as char
  }

  function HexValue(c: char): Option<int> {
    if '0' <= c <= '9' then Some(c as int - '0' as int)
    else if 'A' <= c <= 'F' then Some(c as int - 'A' as int + 10)
    else if 'a' <= c <= 'f' then Some(c as int - 'a' as int + 10)
    else None
  }

  function EncodeByte(c: char): Text
    requires c as int < 256
  {
    if Unreserved(c) then [c] else ['%', HexDigit(c as int / 16), HexDigit(c as int % 16)]
  }

  /** The library's encoder. */
  function UrlEncode(s: Text): Text
    requires IsBytes(s)
  {
    if s == "" then "" else EncodeByte(s[0]) + UrlEncode(s[1..])
  }

  function Replace(s: Text, c: char, sub: Text): Text {
    if s == "" then "" else (if s[0] == c then sub else [s[0]]) + Replace(s[1..], c, sub)
  }

  /** ... followed by three more replacements. */
  function EncodeComponent(s: Text): Text
    requires IsBytes(s)
  {
    Replace(Replace(Replace(UrlEncode(s), '-', "%2D"), '.', "%2E"), '/', "%2F")
  }

  /** The library's decoder: `%` and two hexadecimal digits make a byte, anything else
      stands for itself. */
  function UrlDecode(s: Text): Text {
    if s == "" then ""
    else if s[0] == '%' && |s| >= 3 && HexValue(s[1]).Some? && HexValue(s[2]).Some? then
      [(16 * HexValue(s[1]).value + HexValue(s[2]).value) as char] + UrlDecode(s[3..])
    else [s[0]] + UrlDecode(s[1..])
  }

  /** The same encoding, byte by byte. */
  function StrictByte(c: char): (t: Text)
    requires c as int < 256
    ensures |t| >= 1 && forall i :: 0 <= i < |t| ==> t[i] != '-' && t[i] != '.' && t[i] != '/'
  {
    if Unreserved(c) && c != '-' && c != '.' then [c]
    else ['%', HexDigit(c as int / 16), HexDigit(c as int % 16)]
  }

  function StrictEncode(s: Text): (t: Text)
    requires IsBytes(s)
    ensures forall i :: 0 <= i < |t| ==> t[i] != '-' && t[i] != '.' && t[i] != '/'
  {
    if s == "" then "" else StrictByte(s[0]) + StrictEncode(s[1..])
  }

  lemma {:induction false} ReplaceAppend(a: Text, b: Text, c: char, sub: Text)
    ensures Replace(a + b, c, sub) == Replace(a, c, sub) + Replace(b, c, sub)
  {
    if a == "" {
      assert a + b == b;
    } else {
      ReplaceAppend(a[1..], b, c, sub);
      assert (a + b)[1..] == a[1..] + b && (a + b)[0] == a[0];
      var head := if a[0] == c then sub else [a[0]];
      assert head + (Replace(a[1..], c, sub) + Replace(b, c, sub)) ==
        (head + Replace(a[1..], c, sub)) + Replace(b, c, sub);
    }
  }

  lemma {:induction false} ReplaceNothing(s: Text, c: char, sub: Text)
    requires forall i :: 0 <= i < |s| ==> s[i] != c
    ensures Replace(s, c, sub) == s
  {
    if s != "" { ReplaceNothing(s[1..], c, sub); }
  }

  function Stricter(t: Text): Text {
    Replace(Replace(Replace(t, '-', "%2D"), '.', "%2E"), '/', "%2F")
  }

  lemma StricterByte(c: char)
    requires c as int < 256
    ensures Stricter(EncodeByte(c)) == StrictByte(c)
  {
    if c == '-' {
      assert "-"[1..] == "";
      assert Replace("-", '-', "%2D") == "%2D" + "";
      ReplaceNothing("%2D", '.', "%2E");
      ReplaceNothing("%2D", '/', "%2F");
    } else if c == '.' {
      ReplaceNothing(".", '-', "%2D");
      assert "."[1..] == "";
      assert Replace(".", '.', "%2E") == "%2E" + "";
      ReplaceNothing("%2E", '/', "%2F");
    } else {
      var t := EncodeByte(c);
      ReplaceNothing(t, '-', "%2D");
      ReplaceNothing(t, '.', "%2E");
      ReplaceNothing(t, '/', "%2F");
    }
  }

  /** The chain of replacements amounts to a stricter encoding of each byte. */
  lemma {:induction false} EncodesStrictly(s: Text)
    requires IsBytes(s)
    ensures EncodeComponent(s) == StrictEncode(s)
  {
    if s != "" {
      EncodesStrictly(s[1..]);
      StricterByte(s[0]);
      var a, b := EncodeByte(s[0]), UrlEncode(s[1..]);
      ReplaceAppend(a, b, '-', "%2D");
      ReplaceAppend(Replace(a, '-', "%2D"), Replace(b, '-', "%2D"), '.', "%2E");
      ReplaceAppend(Replace(Replace(a, '-', "%2D"), '.', "%2E"), Replace(Replace(b, '-', "%2D"), '.', "%2E"), '/',
        "%2F");
    }
  }

  /** Decoding undoes encoding, whatever follows. */
  lemma {:induction false} DecodesStrict(s: Text)
    requires IsBytes(s)
    ensures UrlDecode(StrictEncode(s)) == s
  {
    if s != "" {
      DecodesStrict(s[1..]);
      var c, rest := s[0], StrictEncode(s[1..]);
      var t := StrictByte(c) + rest;
      if |StrictByte(c)| == 1 {
        assert t[0] == c && t[1..] == rest;
        assert c != '%';
      } else {
        assert t[0] == '%' && t[1] == HexDigit(c as int / 16) && t[2] == HexDigit(c as int % 16) && t[3..] == rest;
      }
    }
  }

  /** Encoded components hold no separator, and decode to what was encoded. */
  lemma ComponentRoundTrip(s: Text)
    requires IsBytes(s)
    ensures UrlDecode(EncodeComponent(s)) == s
    ensures forall i :: 0 <= i < |EncodeComponent(s)| ==>
      EncodeComponent(s)[i] != '-' && EncodeComponent(s)[i] != '.' && EncodeComponent(s)[i] != '/'
  {
    EncodesStrictly(s);
    DecodesStrict(s);
  }

  lemma StrictFirst(c: char, rest: Text)
    requires c as int < 256 && IsBytes(rest)
    ensures IsBytes([c] + rest) && StrictEncode([c] + rest) == StrictByte(c) + StrictEncode(rest)
  {
    assert ([c] + rest)[1..] == rest;
  }

  lemma Associates(a: Text, b: Text, c: Text)
    ensures a + (b + c) == (a + b) + c
  {
  }

  lemma {:induction false} StrictAppend(a: Text, b: Text)
    requires IsBytes(a) && IsBytes(b)
    ensures IsBytes(a + b) && StrictEncode(a + b) == StrictEncode(a) + StrictEncode(b)
  {
    if a == "" {
      assert a + b == b;
    } else {
      StrictAppend(a[1..], b);
      StrictFirst(a[0], a[1..] + b);
      assert [a[0]] + (a[1..] + b) == a + b;
      Associates(StrictByte(a[0]), StrictEncode(a[1..]), StrictEncode(b));
    }
  }

  /** What a component is made of: bytes are encoded one by one; letters, digits, `_` and `~`
      stand for themselves, and any other byte is written as `%` and two hexadecimal digits,
      in capitals. */
  lemma EncodedByByte(c: char, rest: Text)
    requires c as int < 256 && IsBytes(rest)
    ensures var hex := "0123456789ABCDEF";
      EncodeComponent([c] + rest) ==
        (if 'A' <= c <= 'Z' || 'a' <= c <= 'z' || '0' <= c <= '9' || c == '_' || c == '~' then [c]
         else ['%', hex[c as int / 16], hex[c as int % 16]])
        + EncodeComponent(rest)
    ensures EncodeComponent("") == ""
  {
    EncodesStrictly([c] + rest);
    EncodesStrictly(rest);
    assert ([c] + rest)[1..] == rest;
    HexDigits(c as int / 16);
    HexDigits(c as int % 16);
  }

  lemma HexDigits(n: nat)
    requires n < 16
    ensures HexDigit(n) == "0123456789ABCDEF"[n]
  {
  }

  /** Letters, digits, `_` and `~` only. */
  predicate Plain(s: Text) {
    forall i :: 0 <= i < |s| ==>
      'A' <= s[i] <= 'Z' || 'a' <= s[i] <= 'z' || '0' <= s[i] <= '9' || s[i] == '_' || s[i] == '~'
  }

  lemma {:induction false} PlainStays(s: Text)
    requires Plain(s)
    ensures IsBytes(s) && StrictEncode(s) == s
  {
    if s != "" {
      PlainStays(s[1..]);
      assert s == [s[0]] + s[1..];
    }
  }

  lemma TwoWords(a: Text, c: char, b: Text)
    requires Plain(a) && Plain(b) && c as int < 256
    ensures IsBytes(a + ([c] + b)) && EncodeComponent(a + ([c] + b)) == a + (StrictByte(c) + b)
  {
    PlainStays(a);
    PlainStays(b);
    StrictFirst(c, b);
    StrictAppend(a, [c] + b);
    EncodesStrictly(a + ([c] + b));
  }

  // ---- timestamps ----

  const MAX_TIMESTAMP := 9_999_999_999

  function Digit(n: int): char
    requires 0 <= n < 10
  {
    (n + '0' as int) as char
  }

  function Decimal(n: nat): Text {
    if n < 10 then [Digit(n)] else Decimal(n / 10) + [Digit(n % 10)]
  }

  function Zeros(n: nat): Text {
    if n == 0 then "" else Zeros(n - 1) + "0"
  }

  function Pad(s: Text, width: nat): Text {
    if |s| >= width then s else Zeros(width - |s|) + s
  }

  /** `{:010}`: zeros up to ten characters, the sign included. */
  function FormatTimestamp(n: int): Text {
    if n >= 0 then Pad(Decimal(n), 10) else "-" + Pad(Decimal(-n), 9)
  }

  /** The last `width` decimal digits. */
  function Digits(n: nat, width: nat): (t: Text)
    ensures |t| == width && forall i :: 0 <= i < |t| ==> '0' <= t[i] <= '9'
  {
    if width == 0 then "" else Digits(n / 10, width - 1) + [Digit(n % 10)]
  }

  function Pow10(n: nat): nat {
    if n == 0 then 1 else 10 * Pow10(n - 1)
  }

  lemma {:induction false} DigitsOfZero(width: nat)
    ensures Digits(0, width) == Zeros(width)
  {
    if width > 0 { DigitsOfZero(width - 1); }
  }

  lemma {:induction false} ZerosLength(n: nat)
    ensures |Zeros(n)| == n
  {
    if n > 0 { ZerosLength(n - 1); }
  }

  lemma {:induction false} PaddedIsFixedWidth(n: nat, width: nat)
    requires width > 0 && n < Pow10(width)
    ensures |Decimal(n)| <= width && Pad(Decimal(n), width) == Digits(n, width)
  {
    if n < 10 {
      DigitsOfZero(width - 1);
      ZerosLength(width - 1);
      assert Digits(n / 10, width - 1) == Zeros(width - 1);
    } else {
      assert width > 1;
      PaddedIsFixedWidth(n / 10, width - 1);
      var d := [Digit(n % 10)];
      var k: nat := width - |Decimal(n)|;
      assert Zeros(k) + (Decimal(n / 10) + d) == (Zeros(k) + Decimal(n / 10)) + d;
      if k == 0 {
        assert Zeros(0) + Decimal(n / 10) == Decimal(n / 10);
      }
    }
  }

  lemma TimestampIsTenDigits(n: int)
    requires 0 <= n <= MAX_TIMESTAMP
    ensures FormatTimestamp(n) == Digits(n, 10)
  {
    TenDigits();
    PaddedIsFixedWidth(n, 10);
  }

  lemma TenDigits()
    ensures Pow10(10) == MAX_TIMESTAMP + 1
  {
    assert Pow10(10) == 10 * Pow10(9) == 100 * Pow10(8) == 1000 * Pow10(7);
    assert Pow10(7) == 10 * Pow10(6) == 100 * Pow10(5) == 1000 * Pow10(4);
    assert Pow10(4) == 10 * Pow10(3) == 100 * Pow10(2) == 1000 * Pow10(1);
    assert Pow10(1) == 10 * Pow10(0) == 10;
  }

  function ParseDigits(s: Text): Option<int> {
    if s == "" then None
    else
      var c := s[|s| - 1];
      if !('0' <= c <= '9') then None
      else if |s| == 1 then Some(c as int - '0' as int)
      else
        match ParseDigits(s[..|s| - 1])
        case None => None
        case Some(high) => Some(10 * high + (c as int - '0' as int))
  }

  /** A 64-bit integer: an optional sign and at least one digit. */
  function ParseInt(s: Text): Option<int> {
    var value :=
      if s != "" && s[0] == '-' then (match ParseDigits(s[1..]) case Some(n) => Some(-n) case None => None)
      else if s != "" && s[0] == '+' then ParseDigits(s[1..])
      else ParseDigits(s);
    match value
    case Some(n) => if -0x8000_0000_0000_0000 <= n <= 0x7FFF_FFFF_FFFF_FFFF then Some(n) else None
    case None => None
  }

  lemma {:induction false} ParsesDigits(n: nat, width: nat)
    requires width > 0 && n < Pow10(width)
    ensures ParseDigits(Digits(n, width)) == Some(n)
  {
    var high, low := Digits(n / 10, width - 1), Digit(n % 10);
    LastDigit(high, low);
    if width == 1 {
      assert Pow10(1) == 10 * Pow10(0);
    } else {
      ParsesDigits(n / 10, width - 1);
    }
  }

  lemma LastDigit(high: Text, low: char)
    requires '0' <= low <= '9'
    ensures ParseDigits(high + [low]) ==
      if high == "" then Some(low as int - '0' as int)
      else match ParseDigits(high) case None => None case Some(h) => Some(10 * h + (low as int - '0' as int))
  {
    assert (high + [low])[..|high|] == high;
  }

  predicate AllDigits(t: Text) { forall i :: 0 <= i < |t| ==> '0' <= t[i] <= '9' }

  /** The number that digits denote. */
  function Value(s: Text): nat
    requires AllDigits(s)
  {
    if s == "" then 0 else (s[0] as int - '0' as int) * Pow10(|s| - 1) + Value(s[1..])
  }

  lemma TenTimes(d: int, p: int)
    ensures d * (10 * p) == 10 * (d * p)
  {
  }

  lemma {:induction false} ValueOfLast(high: Text, low: char)
    requires '0' <= low <= '9' && AllDigits(high)
    ensures AllDigits(high + [low]) && Value(high + [low]) == 10 * Value(high) + (low as int - '0' as int)
  {
    var s := high + [low];
    if high == "" {
      assert s[1..] == "" && Pow10(0) == 1;
    } else {
      ValueOfLast(high[1..], low);
      assert s[1..] == high[1..] + [low] && s[0] == high[0];
      assert Pow10(|high|) == 10 * Pow10(|high| - 1);
      TenTimes(high[0] as int - '0' as int, Pow10(|high| - 1));
    }
  }

  /** Digits are read exactly when there is at least one and nothing else, as the number they
      denote. */
  lemma {:induction false} ReadsDigits(s: Text)
    ensures ParseDigits(s).Some? <==> s != "" && AllDigits(s)
    ensures ParseDigits(s).Some? ==> ParseDigits(s).value == Value(s)
  {
    if |s| > 1 {
      var high, low := s[..|s| - 1], s[|s| - 1];
      ReadsDigits(high);
      assert s == high + [low];
      if ParseDigits(s).Some? { ValueOfLast(high, low); }
    } else if |s| == 1 {
      assert s[1..] == "" && Pow10(0) == 1;
    }
  }

  // ---- splitting ----

  function IndexOf(s: Text, c: char): (i: nat)
    ensures i <= |s| && (i < |s| ==> s[i] == c) && forall k :: 0 <= k < i ==> s[k] != c
  {
    if s == "" || s[0] == c then 0 else 1 + IndexOf(s[1..], c)
  }

  function SplitOnce(s: Text, c: char): Option<(Text, Text)> {
    var i := IndexOf(s, c);
    if i < |s| then Some((s[..i], s[i + 1..])) else None
  }

  function SplitAll(s: Text, c: char): seq<Text>
    decreases |s|
  {
    var i := IndexOf(s, c);
    if i < |s| then [s[..i]] + SplitAll(s[i + 1..], c) else [s]
  }

  function Join(parts: seq<Text>, c: char): Text {
    if parts == [] then "" else if |parts| == 1 then parts[0] else parts[0] + [c] + Join(parts[1..], c)
  }

  predicate Lacks(s: Text, c: char) { forall i :: 0 <= i < |s| ==> s[i] != c }

  lemma SplitOnceAt(a: Text, c: char, b: Text)
    requires Lacks(a, c)
    ensures SplitOnce(a + [c] + b, c) == Some((a, b))
  {
    var s := a + [c] + b;
    assert s[|a|] == c;
    assert forall k :: 0 <= k < |a| ==> s[k] == a[k];
    assert IndexOf(s, c) == |a|;
    assert s[..|a|] == a && s[|a| + 1..] == b;
  }

  lemma {:induction false} SplitLacks(s: Text, c: char)
    ensures |SplitAll(s, c)| >= 1 && forall i :: 0 <= i < |SplitAll(s, c)| ==> Lacks(SplitAll(s, c)[i], c)
    decreases |s|
  {
    var i := IndexOf(s, c);
    if i < |s| { SplitLacks(s[i + 1..], c); }
  }

  lemma {:induction false} SplitUndoesJoin(parts: seq<Text>, c: char)
    requires parts != [] && forall i :: 0 <= i < |parts| ==> Lacks(parts[i], c)
    ensures SplitAll(Join(parts, c), c) == parts
  {
    var s := Join(parts, c);
    if |parts| == 1 {
      assert IndexOf(s, c) == |s|;
      assert parts == [parts[0]];
    } else {
      SplitUndoesJoin(parts[1..], c);
      SplitOnceAt(parts[0], c, Join(parts[1..], c));
      assert SplitAll(s, c) == [parts[0]] + SplitAll(Join(parts[1..], c), c);
    }
  }

  /** Joining then splitting gives the parts back exactly when there is one and none holds
      the separator. */
  lemma SplitJoinExact(parts: seq<Text>, c: char)
    ensures SplitAll(Join(parts, c), c) == parts <==> parts != [] && forall i :: 0 <= i < |parts| ==> Lacks(parts[i], c)
  {
    SplitLacks(Join(parts, c), c);
    if parts != [] && forall i :: 0 <= i < |parts| ==> Lacks(parts[i], c) {
      SplitUndoesJoin(parts, c);
    }
  }

  // ---- identifiers ----

  /** What printing asserts. */
  predicate Printable(id: BackupId) {
    && IsBytes(id.prefix) && 0 < |id.prefix| <= 256
    && IsBytes(id.description) && 0 < |id.description| <= 256
    && id.createdAt <= MAX_TIMESTAMP
  }

  function Print(id: BackupId): Text
    requires Printable(id)
  {
    EncodeComponent(id.prefix) + "-" + FormatTimestamp(id.createdAt) + "-" + EncodeComponent(id.description) + "." +
    Join(id.extensions, '.')
  }

  /** The dates the time library can represent. */
  predicate ValidDate(secs: int) { -377705116800 <= secs <= 253402300799 }

  function Parse(s: Text, utf8: Text -> bool): Result<BackupId, ParseError> {
    match SplitOnce(s, '-')
    case None => Failure(NoPrefix)
    case Some((prefix, rest)) =>
      match SplitOnce(rest, '-')
      case None => Failure(NoTimestamp)
      case Some((timestamp, rest)) =>
        match ParseInt(timestamp)
        case None => Failure(BadInteger)
        case Some(secs) =>
          if !ValidDate(secs) then Failure(BadTimestamp)
          else
            match SplitOnce(rest, '.')
            case None => Failure(NoExtension)
            case Some((description, extensions)) =>
              if !utf8(UrlDecode(prefix)) || !utf8(UrlDecode(description)) then Failure(InvalidUtf8)
              else Success(BackupId(UrlDecode(prefix), secs, UrlDecode(description), SplitAll(extensions, '.')))
  }

  /** The three separators are found again as long as no part holds the next one. */
  lemma ParseParts(p: Text, t: Text, d: Text, e: Text, utf8: Text -> bool, secs: int)
    requires Lacks(p, '-') && Lacks(t, '-') && Lacks(d, '.')
    requires ParseInt(t) == Some(secs) && ValidDate(secs) && utf8(UrlDecode(p)) && utf8(UrlDecode(d))
    ensures Parse(p + "-" + t + "-" + d + "." + e, utf8) ==
      Success(BackupId(UrlDecode(p), secs, UrlDecode(d), SplitAll(e, '.')))
  {
    RegroupParts(p, t, d, e);
    SplitOnceAt(p, '-', t + ['-'] + (d + ['.'] + e));
    SplitOnceAt(t, '-', d + ['.'] + e);
    SplitOnceAt(d, '.', e);
  }

  lemma RegroupParts(p: Text, t: Text, d: Text, e: Text)
    ensures p + "-" + t + "-" + d + "." + e == p + ['-'] + (t + ['-'] + (d + ['.'] + e))
  {
  }

  /** Without a leading `+`. */
  function Unsigned(t: Text): Text { if t != "" && t[0] == '+' then t[1..] else t }

  /** A timestamp as it may be written: digits, with a `+` or without. */
  ghost predicate Denotes(t: Text, secs: int) {
    Unsigned(t) != "" && AllDigits(Unsigned(t)) && Value(Unsigned(t)) == secs
  }

  lemma ReadsUnsigned(t: Text)
    requires Lacks(t, '-')
    ensures ParseInt(t) ==
      match ParseDigits(Unsigned(t))
      case Some(n) => if n <= 0x7FFF_FFFF_FFFF_FFFF then Some(n) else None
      case None => None
  {
    assert t != "" ==> t[0] != '-';
    ReadsDigits(Unsigned(t));
  }

  lemma ReadsTimestamp(t: Text, secs: int)
    requires Lacks(t, '-') && ValidDate(secs)
    ensures ParseInt(t) == Some(secs) <==> Denotes(t, secs)
  {
    ReadsUnsigned(t);
    ReadsDigits(Unsigned(t));
  }

  lemma SplitOnceMeans(s: Text, c: char)
    requires SplitOnce(s, c).Some?
    ensures var (a, b) := SplitOnce(s, c).value; s == a + [c] + b && Lacks(a, c)
  {
  }

  /** The parts of a name: up to the first hyphen, to the second one, to the first dot after
      that, and the rest. */
  ghost predicate MadeOf(s: Text, p: Text, t: Text, d: Text, e: Text) {
    s == p + "-" + t + "-" + d + "." + e && Lacks(p, '-') && Lacks(t, '-') && Lacks(d, '.')
  }

  /** The parts say what the identifier is: two decode to UTF-8, and the second denotes a
      date from 1970 to the end of the year 9999. */
  ghost predicate Says(p: Text, t: Text, d: Text, e: Text, id: BackupId, utf8: Text -> bool) {
    && Denotes(t, id.createdAt) && 0 <= id.createdAt <= 253_402_300_799
    && utf8(UrlDecode(p)) && utf8(UrlDecode(d))
    && id == BackupId(UrlDecode(p), id.createdAt, UrlDecode(d), SplitAll(e, '.'))
  }

  lemma Stages(s: Text, utf8: Text -> bool)
    requires Parse(s, utf8).Success?
    ensures SplitOnce(s, '-').Some?
    ensures var (p, rest) := SplitOnce(s, '-').value;
      && SplitOnce(rest, '-').Some?
      && var (t, rest') := SplitOnce(rest, '-').value;
      && ParseInt(t).Some? && ValidDate(ParseInt(t).value) && SplitOnce(rest', '.').Some?
      && var (d, e) := SplitOnce(rest', '.').value;
      && utf8(UrlDecode(p)) && utf8(UrlDecode(d))
      && Parse(s, utf8) == Success(BackupId(UrlDecode(p), ParseInt(t).value, UrlDecode(d), SplitAll(e, '.')))
  {
  }

  lemma PartsOf(s: Text, id: BackupId, utf8: Text -> bool) returns (p: Text, t: Text, d: Text, e: Text)
    requires Parse(s, utf8) == Success(id)
    ensures MadeOf(s, p, t, d, e) && Says(p, t, d, e, id, utf8)
  {
    Stages(s, utf8);
    SplitOnceMeans(s, '-');
    var first := SplitOnce(s, '-').value;
    SplitOnceMeans(first.1, '-');
    var second := SplitOnce(first.1, '-').value;
    SplitOnceMeans(second.1, '.');
    var third := SplitOnce(second.1, '.').value;
    p, t, d, e := first.0, second.0, third.0, third.1;
    RegroupParts(p, t, d, e);
    ReadsTimestamp(t, id.createdAt);
  }

  lemma PartsRead(s: Text, p: Text, t: Text, d: Text, e: Text, id: BackupId, utf8: Text -> bool)
    requires MadeOf(s, p, t, d, e) && Says(p, t, d, e, id, utf8)
    ensures Parse(s, utf8) == Success(id)
  {
    ReadsTimestamp(t, id.createdAt);
    ParseParts(p, t, d, e, utf8, id.createdAt);
  }

  /** A name is read as an identifier exactly when it is made of parts that say so. */
  lemma ParsesExactly(s: Text, id: BackupId, utf8: Text -> bool)
    ensures Parse(s, utf8) == Success(id) <==>
      exists p, t, d, e :: MadeOf(s, p, t, d, e) && Says(p, t, d, e, id, utf8)
  {
    if Parse(s, utf8) == Success(id) {
      var p, t, d, e := PartsOf(s, id, utf8);
    }
    forall p, t, d, e | MadeOf(s, p, t, d, e) && Says(p, t, d, e, id, utf8) ensures Parse(s, utf8) == Success(id) {
      PartsRead(s, p, t, d, e, id, utf8);
    }
  }

  /** Parsing a printed identifier, whatever its extensions. */
  lemma ParsePrinted(id: BackupId, utf8: Text -> bool)
    requires Printable(id) && id.createdAt >= 0 && utf8(id.prefix) && utf8(id.description)
    ensures Parse(Print(id), utf8) == Success(id.(extensions := SplitAll(Join(id.extensions, '.'), '.')))
  {
    ComponentRoundTrip(id.prefix);
    ComponentRoundTrip(id.description);
    TimestampIsTenDigits(id.createdAt);
    TimestampParses(id.createdAt);
    ParseParts(EncodeComponent(id.prefix), FormatTimestamp(id.createdAt), EncodeComponent(id.description),
               Join(id.extensions, '.'), utf8, id.createdAt);
  }

  lemma TimestampParses(n: int)
    requires 0 <= n <= MAX_TIMESTAMP
    ensures ParseInt(Digits(n, 10)) == Some(n) && Lacks(Digits(n, 10), '-')
  {
    TimestampIsTenDigits(n);
    TenDigits();
    ParsesDigits(n, 10);
  }

  lemma EmptyTimestamp(p: Text, rest: Text, utf8: Text -> bool)
    requires Lacks(p, '-')
    ensures Parse(p + "-" + ("-" + rest), utf8) == Failure(BadInteger)
  {
    assert p + "-" + ("-" + rest) == p + ['-'] + ("-" + rest);
    SplitOnceAt(p, '-', "-" + rest);
    assert "-" + rest == "" + ['-'] + rest;
    SplitOnceAt("", '-', rest);
    assert ParseInt("") == None;
  }

  lemma Regroup(p: Text, t: Text, d: Text, e: Text)
    ensures p + "-" + ("-" + t) + "-" + d + "." + e == p + "-" + ("-" + (t + "-" + d + "." + e))
  {
  }

  /** A negative timestamp starts with the separator and cannot be read back. */
  lemma NegativeTimestamp(id: BackupId, utf8: Text -> bool)
    requires Printable(id) && id.createdAt < 0
    ensures Parse(Print(id), utf8) == Failure(BadInteger)
  {
    var rest := PrintedNegative(id);
    ComponentRoundTrip(id.prefix);
    EmptyTimestamp(EncodeComponent(id.prefix), rest, utf8);
  }

  lemma PrintedNegative(id: BackupId) returns (rest: Text)
    requires Printable(id) && id.createdAt < 0
    ensures Print(id) == EncodeComponent(id.prefix) + "-" + ("-" + rest)
  {
    var t, d, e := Pad(Decimal(-id.createdAt), 9), EncodeComponent(id.description), Join(id.extensions, '.');
    rest := t + "-" + d + "." + e;
    Regroup(EncodeComponent(id.prefix), t, d, e);
  }

  /** The timestamp is not negative and there are extensions, none of which holds a dot. */
  predicate Readable(id: BackupId) {
    id.createdAt >= 0 && id.extensions != [] && forall i :: 0 <= i < |id.extensions| ==> Lacks(id.extensions[i], '.')
  }

  /** Identifiers round-trip, to the second, exactly when they are readable. */
  lemma IdentifiersRoundTrip(id: BackupId, utf8: Text -> bool)
    requires Printable(id) && utf8(id.prefix) && utf8(id.description)
    ensures Parse(Print(id), utf8) == Success(id) <==> Readable(id)
  {
    if id.createdAt >= 0 {
      ParsePrinted(id, utf8);
      SplitJoinExact(id.extensions, '.');
    } else {
      NegativeTimestamp(id, utf8);
    }
  }

  /** So two such identifiers never share a key. */
  lemma KeysAreDistinct(a: BackupId, b: BackupId)
    requires Printable(a) && Printable(b) && Readable(a) && Readable(b)
    ensures Print(a) == Print(b) ==> a == b
  {
    var utf8: Text -> bool := text => true;
    IdentifiersRoundTrip(a, utf8);
    IdentifiersRoundTrip(b, utf8);
  }

  lemma ThousandBelow(n: nat, width: nat)
    requires width >= 3
    ensures Digits(n, width) ==
      Digits(n / 1000, width - 3) + [Digit(n / 100 % 10), Digit(n / 10 % 10), Digit(n % 10)]
  {
    var h, t, o := Digit(n / 100 % 10), Digit(n / 10 % 10), Digit(n % 10);
    assert n / 10 / 10 == n / 100 && n / 100 / 10 == n / 1000;
    assert Digits(n / 100, width - 2) == Digits(n / 1000, width - 3) + [h];
    assert Digits(n / 10, width - 1) == Digits(n / 100, width - 2) + [t];
    assert Digits(n / 1000, width - 3) + [h] + [t] + [o] == Digits(n / 1000, width - 3) + [h, t, o];
  }

  lemma DocumentedTimestamp()
    ensures FormatTimestamp(1772432392) == "1772432392"
  {
    TimestampIsTenDigits(1772432392);
    ThousandBelow(1772432392, 10);
    ThousandBelow(1772432, 7);
    ThousandBelow(1772, 4);
    assert Digits(1, 1) == "" + "1";
  }

  lemma EncodedWords(text: Text, a: Text, c: char, b: Text)
    requires text == a + ([c] + b) && Plain(a) && Plain(b) && c as int < 256
    ensures IsBytes(text) && EncodeComponent(text) == a + (StrictByte(c) + b)
  {
    TwoWords(a, c, b);
  }

  lemma DocumentedPrefix()
    ensures IsBytes("prose-backup") && EncodeComponent("prose-backup") == "prose" + ("%2D" + "backup")
  {
    assert "prose-backup" == "prose" + (['-'] + "backup");
    assert StrictByte('-') == "%2D";
    EncodedWords("prose-backup", "prose", '-', "backup");
  }

  lemma DocumentedDescription()
    ensures IsBytes("Automatic backup")
    ensures EncodeComponent("Automatic backup") == "Automatic" + ("%20" + "backup")
  {
    assert "Automatic backup" == "Automatic" + ([' '] + "backup");
    assert StrictByte(' ') == "%20";
    EncodedWords("Automatic backup", "Automatic", ' ', "backup");
  }

  /** The name the documentation gives as an example. */
  lemma DocumentedName(id: BackupId)
    requires id == BackupId("prose-backup", 1772432392, "Automatic backup", ["tar", "zst", "pgp"])
    ensures Printable(id)
    ensures Print(id) ==
      "prose" + ("%2D" + "backup") + "-" + "1772432392" + "-" + ("Automatic" + ("%20" + "backup")) + "." +
      ("tar" + "." + "zst" + "." + "pgp")
  {
    DocumentedPrefix();
    DocumentedDescription();
    DocumentedTimestamp();
    JoinThree("tar", "zst", "pgp");
  }

  lemma JoinThree(a: Text, b: Text, c: Text)
    ensures Join([a, b, c], '.') == a + "." + b + "." + c
  {
    assert [a, b, c][1..] == [b, c] && [b, c][1..] == [c];
    assert Join([b, c], '.') == b + ['.'] + c;
  }

  // ---- order ----

  /** Byte order, as object stores and `sort` use it. */
  predicate Before(a: Text, b: Text) {
    b != "" && (a == "" || a[0] < b[0] || (a[0] == b[0] && Before(a[1..], b[1..])))
  }

  lemma {:induction false} BeforeSamePrefix(p: Text, a: Text, b: Text)
    ensures Before(p + a, p + b) <==> Before(a, b)
  {
    if p == "" {
      assert p + a == a && p + b == b;
    } else {
      BeforeSamePrefix(p[1..], a, b);
      assert (p + a)[1..] == p[1..] + a && (p + b)[1..] == p[1..] + b;
    }
  }

  /** A difference inside the first parts decides, whatever follows. */
  lemma {:induction false} BeforeDecided(a: Text, b: Text, x: Text, y: Text)
    requires |a| == |b| && Before(a, b)
    ensures Before(a + x, b + y)
  {
    assert (a + x)[0] == a[0] && (b + y)[0] == b[0];
    if a[0] == b[0] {
      BeforeDecided(a[1..], b[1..], x, y);
      assert (a + x)[1..] == a[1..] + x && (b + y)[1..] == b[1..] + y;
    }
  }

  /** Fixed-width digits are ordered as the numbers they denote. */
  lemma {:induction false} DigitsOrder(m: nat, n: nat, width: nat)
    requires m < n < Pow10(width)
    ensures Before(Digits(m, width), Digits(n, width))
  {
    var a, b := Digits(m / 10, width - 1), Digits(n / 10, width - 1);
    if m / 10 < n / 10 {
      DigitsOrder(m / 10, n / 10, width - 1);
      BeforeDecided(a, b, [Digit(m % 10)], [Digit(n % 10)]);
    } else {
      BeforeSamePrefix(a, [Digit(m % 10)], [Digit(n % 10)]);
      assert Digit(m % 10) < Digit(n % 10);
    }
  }

  /** Backups that share a prefix sort by creation time, whatever is appended to their
      names. */
  lemma OlderDecides(a: BackupId, b: BackupId, x: Text, y: Text)
    requires Printable(a) && Printable(b) && a.prefix == b.prefix
    requires 0 <= a.createdAt < b.createdAt
    ensures Before(Print(a) + x, Print(b) + y)
  {
    var p := EncodeComponent(a.prefix);
    var ta, tb := FormatTimestamp(a.createdAt), FormatTimestamp(b.createdAt);
    var da, db := EncodeComponent(a.description), EncodeComponent(b.description);
    var ea, eb := Join(a.extensions, '.'), Join(b.extensions, '.');
    TimestampIsTenDigits(a.createdAt);
    TimestampIsTenDigits(b.createdAt);
    TenDigits();
    DigitsOrder(a.createdAt, b.createdAt, 10);
    BeforeDecided(ta, tb, "-" + da + "." + ea + x, "-" + db + "." + eb + y);
    BeforeSamePrefix(p + "-", ta + ("-" + da + "." + ea + x), tb + ("-" + db + "." + eb + y));
    RegroupTail(p, ta, da, ea, x);
    RegroupTail(p, tb, db, eb, y);
  }

  lemma OlderSortsBefore(a: BackupId, b: BackupId)
    requires Printable(a) && Printable(b) && a.prefix == b.prefix
    requires 0 <= a.createdAt < b.createdAt
    ensures Before(Print(a), Print(b))
  {
    OlderDecides(a, b, "", "");
    assert Print(a) + "" == Print(a) && Print(b) + "" == Print(b);
  }

  lemma RegroupTail(p: Text, t: Text, d: Text, e: Text, x: Text)
    ensures p + "-" + t + "-" + d + "." + e + x == (p + "-") + (t + ("-" + d + "." + e + x))
  {
  }

  lemma {:induction false} BeforeTransitive(a: Text, b: Text, c: Text)
    requires Before(a, b) && Before(b, c)
    ensures Before(a, c)
  {
    if a != "" && a[0] == b[0] && b[0] == c[0] {
      BeforeTransitive(a[1..], b[1..], c[1..]);
    }
  }

  lemma {:induction false} BeforeIsAsymmetric(a: Text, b: Text)
    requires Before(a, b)
    ensures !Before(b, a)
  {
    if a != "" && a[0] == b[0] {
      BeforeIsAsymmetric(a[1..], b[1..]);
    }
  }

  lemma {:induction false} BeforeExtension(a: Text, x: Text)
    requires x != ""
    ensures Before(a, a + x)
  {
    BeforeSamePrefix(a, "", x);
    assert a + "" == a;
  }
}
