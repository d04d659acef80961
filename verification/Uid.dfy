/** Magento UIDs: padded Base64 (section 4 of RFC 4648) of the decimal print of an ID (`uidEncode`, `uidDecode`). */
module Uid {
  import opened Text

  // ----- decimal -----

  const UINT64_LIMIT: nat := 0x1_0000_0000_0000_0000

  function Digit(d: nat): char
    requires d < 10
  {
    ('0' as int + d) as char
  }

  predicate IsDigit(c: char) {
    '0' <= c <= '9'
  }

  function DigitValue(c: char): nat
    requires IsDigit(c)
  {
    c as int - '0' as int
  }

  /** `strconv.FormatUint(n, 10)`. */
  function FormatUint(n: nat): string {
    if n < 10 then [Digit(n)] else FormatUint(n / 10) + [Digit(n % 10)]
  }

  function DecimalValue(s: string): nat
    requires forall i :: 0 <= i < |s| ==> IsDigit(s[i])
  {
    if s == "" then 0 else 10 * DecimalValue(s[..|s| - 1]) + DigitValue(s[|s| - 1])
  }

  /** `strconv.ParseUint(s, 10, 64)`: an error for an empty string, a non-digit or a value out of range. */
  function ParseUint(s: string): Option<nat> {
    if s == "" || exists i :: 0 <= i < |s| && !IsDigit(s[i]) then None
    else if DecimalValue(s) >= UINT64_LIMIT then None
    else Some(DecimalValue(s))
  }

  lemma {:induction false} FormatUintValue(n: nat)
    ensures FormatUint(n) != ""
    ensures forall i :: 0 <= i < |FormatUint(n)| ==> IsDigit(FormatUint(n)[i])
    ensures DecimalValue(FormatUint(n)) == n
    ensures FormatUint(n)[0] == '0' <==> n == 0
    ensures n < 10 ==> FormatUint(n) == ["0123456789"[n]]
  {
    if n < 10 {
      assert FormatUint(n)[..0] == "";
    } else {
      FormatUintValue(n / 10);
      assert FormatUint(n)[..|FormatUint(n)| - 1] == FormatUint(n / 10);
    }
  }

  lemma FormatUintInjective(a: nat, b: nat)
    requires FormatUint(a) == FormatUint(b)
    ensures a == b
  {
    FormatUintValue(a);
    FormatUintValue(b);
  }

  // ----- Base64 -----

  type Byte = n: nat | n < 256

  function SextetChar(i: nat): char
    requires i < 64
  {
    if i < 26 then ('A' as int + i) as char
    else if i < 52 then ('a' as int + (i - 26)) as char
    else if i < 62 then ('0' as int + (i - 52)) as char
    else if i == 62 then '+'
    else '/'
  }

  function CharSextet(c: char): Option<nat> {
    if 'A' <= c <= 'Z' then Some(c as int - 'A' as int)
    else if 'a' <= c <= 'z' then Some(c as int - 'a' as int + 26)
    else if '0' <= c <= '9' then Some(c as int - '0' as int + 52)
    else if c == '+' then Some(62)
    else if c == '/' then Some(63)
    else None
  }

  /** The alphabet of Table 1 of RFC 4648, written out in rows of eight. */
  lemma Alphabet(k: nat)
    requires k < 8
    ensures SextetChar(k) == "ABCDEFGH"[k] && SextetChar(8 + k) == "IJKLMNOP"[k]
    ensures SextetChar(16 + k) == "QRSTUVWX"[k] && SextetChar(24 + k) == "YZabcdef"[k]
    ensures SextetChar(32 + k) == "ghijklmn"[k] && SextetChar(40 + k) == "opqrstuv"[k]
    ensures SextetChar(48 + k) == "wxyz0123"[k] && SextetChar(56 + k) == "456789+/"[k]
  {
  }

  lemma SextetRoundTrip(i: nat)
    requires i < 64
    ensures CharSextet(SextetChar(i)) == Some(i)
    ensures SextetChar(i) != '=' && SextetChar(i) != '\r' && SextetChar(i) != '\n'
  {
  }

  /** `StdEncoding.EncodeToString`: three bytes to four characters, the rest padded. */
  function EncodeToString(b: seq<Byte>): string {
    if b == [] then ""
    else if |b| == 1 then [SextetChar(b[0] / 4), SextetChar(b[0] % 4 * 16), '=', '=']
    else if |b| == 2 then
      [SextetChar(b[0] / 4), SextetChar(b[0] % 4 * 16 + b[1] / 16), SextetChar(b[1] % 16 * 4), '=']
    else
      [SextetChar(b[0] / 4), SextetChar(b[0] % 4 * 16 + b[1] / 16), SextetChar(b[1] % 16 * 4 + b[2] / 64),
       SextetChar(b[2] % 64)]
      + EncodeToString(b[3..])
  }

  /** The position of a character in the alphabet; padding and anything else count as 0. */
  function Sextet(c: char): nat {
    match CharSextet(c) case Some(i) => i case None => 0
  }

  /**
   Section 4 of RFC 4648: every group of up to three bytes becomes four characters whose six-bit values are the bits of
   the group, most significant first, filled up with zero bits; characters without any bit of the group are `=`.
   */
  lemma {:induction false} EncodesBits(b: seq<Byte>)
    requires b != []
    ensures var s := EncodeToString(b);
            var b1: nat := if |b| > 1 then b[1] else 0;
            var b2: nat := if |b| > 2 then b[2] else 0;
            && |s| >= 4 && (|b| <= 3 ==> |s| == 4) && (|b| > 3 ==> s[4..] == EncodeToString(b[3..]))
            && Sextet(s[0]) * 262144 + Sextet(s[1]) * 4096 + Sextet(s[2]) * 64 + Sextet(s[3]) ==
               b[0] as nat * 65536 + b1 * 256 + b2
            && s[0] != '=' && s[1] != '=' && (s[2] == '=' <==> |b| == 1) && (s[3] == '=' <==> |b| <= 2)
  {
    hide SextetChar, CharSextet;
    var b1: nat := if |b| > 1 then b[1] else 0;
    var b2: nat := if |b| > 2 then b[2] else 0;
    SextetRoundTrip(b[0] / 4);
    SextetRoundTrip(b[0] % 4 * 16 + b1 / 16);
    SextetRoundTrip(b1 % 16 * 4 + b2 / 64);
    SextetRoundTrip(b2 % 64);
    PaddingIsZero();
    var s := EncodeToString(b);
    if |b| == 1 {
      assert s == [SextetChar(b[0] / 4), SextetChar(b[0] % 4 * 16), '=', '='];
    } else if |b| == 2 {
      assert s == [SextetChar(b[0] / 4), SextetChar(b[0] % 4 * 16 + b1 / 16), SextetChar(b1 % 16 * 4), '='];
    } else {
      var head := [SextetChar(b[0] / 4), SextetChar(b[0] % 4 * 16 + b1 / 16), SextetChar(b1 % 16 * 4 + b2 / 64),
                   SextetChar(b2 % 64)];
      assert s == head + EncodeToString(b[3..]);
      assert s[4..] == EncodeToString(b[3..]);
      if |b| == 3 {
        assert EncodeToString(b[3..]) == "";
      }
    }
  }

  lemma PaddingIsZero()
    ensures Sextet('=') == 0
  {
  }

  /** The decoder skips carriage returns and line feeds wherever they are. */
  function StripNewlines(s: string): string {
    if s == "" then ""
    else if s[0] == '\r' || s[0] == '\n' then StripNewlines(s[1..])
    else [s[0]] + StripNewlines(s[1..])
  }

  /** Groups of four; padding only at the very end; leftover bits are not checked. */
  function DecodeQuanta(s: string): Option<seq<Byte>> {
    if s == "" then Some([])
    else if |s| < 4 then None
    else
      match (CharSextet(s[0]), CharSextet(s[1]))
      case (Some(c0), Some(c1)) =>
        if s[2] == '=' then
          if s[3] == '=' && |s| == 4 then Some([c0 * 4 + c1 / 16]) else None
        else (
          match CharSextet(s[2])
          case None => None
          case Some(c2) =>
            if s[3] == '=' then
              if |s| == 4 then Some([c0 * 4 + c1 / 16, c1 % 16 * 16 + c2 / 4]) else None
            else (
              match (CharSextet(s[3]), DecodeQuanta(s[4..]))
              case (Some(c3), Some(rest)) => Some([c0 * 4 + c1 / 16, c1 % 16 * 16 + c2 / 4, c2 % 4 * 64 + c3] + rest)
              case _ => None))
      case _ => None
  }

  /** Whole groups of characters of the alphabet, the last one with up to two characters of padding. */
  predicate Padded(s: string) {
    && |s| % 4 == 0
    && forall i :: 0 <= i < |s| ==>
         CharSextet(s[i]).Some? || (s[i] == '=' && (i == |s| - 1 || (i == |s| - 2 && s[|s| - 1] == '=')))
  }

  /** The decoder accepts exactly the padded strings. */
  lemma {:induction false} DecodesPadded(s: string)
    ensures DecodeQuanta(s).Some? <==> Padded(s)
  {
    hide CharSextet;
    PaddingIsNoSextet();
    if |s| > 4 {
      DecodesPadded(s[4..]);
      PaddedMore(s);
      DecodesGroup(s);
    } else if |s| == 4 {
      assert s[4..] == "";
      NoQuanta();
    }
  }

  /** In front of more characters, a group is four characters of the alphabet. */
  lemma DecodesGroup(s: string)
    requires |s| > 4
    ensures DecodeQuanta(s).Some? <==>
            DecodeQuanta(s[4..]).Some? && forall i :: 0 <= i < 4 ==> CharSextet(s[i]).Some?
  {
    hide CharSextet;
    PaddingIsNoSextet();
    assert (forall i :: 0 <= i < 4 ==> CharSextet(s[i]).Some?) <==>
           CharSextet(s[0]).Some? && CharSextet(s[1]).Some? && CharSextet(s[2]).Some? && CharSextet(s[3]).Some?;
  }

  lemma PaddedMore(s: string)
    requires |s| > 4
    ensures Padded(s) <==> Padded(s[4..]) && forall i :: 0 <= i < 4 ==> CharSextet(s[i]).Some?
  {
    hide CharSextet;
    PaddingIsNoSextet();
    assert forall i :: 4 <= i < |s| ==> s[i] == s[4..][i - 4];
    if Padded(s) {
      assert |s| >= 8;
    }
  }

  lemma PaddingIsNoSextet()
    ensures CharSextet('=').None?
  {
  }

  function DecodeString(s: string): Option<seq<Byte>> {
    DecodeQuanta(StripNewlines(s))
  }

  lemma {:induction false} EncodeHasNoNewlines(b: seq<Byte>)
    ensures forall i :: 0 <= i < |EncodeToString(b)| ==> EncodeToString(b)[i] != '\r' && EncodeToString(b)[i] != '\n'
  {
    hide SextetChar;
    if b != [] {
      SextetRoundTrip(b[0] / 4);
      if |b| == 1 {
        SextetRoundTrip(b[0] % 4 * 16);
      } else {
        SextetRoundTrip(b[0] % 4 * 16 + b[1] / 16);
        if |b| == 2 {
          SextetRoundTrip(b[1] % 16 * 4);
        } else {
          SextetRoundTrip(b[1] % 16 * 4 + b[2] / 64);
          SextetRoundTrip(b[2] % 64);
          EncodeHasNoNewlines(b[3..]);
        }
      }
    }
  }

  lemma {:induction false} NothingStripped(s: string)
    requires forall i :: 0 <= i < |s| ==> s[i] != '\r' && s[i] != '\n'
    ensures StripNewlines(s) == s
  {
    if s != "" {
      NothingStripped(s[1..]);
    }
  }

  lemma LastByte(b0: Byte)
    ensures DecodeQuanta([SextetChar(b0 / 4), SextetChar(b0 % 4 * 16), '=', '=']) == Some([b0])
  {
    hide SextetChar, CharSextet;
    SextetRoundTrip(b0 / 4);
    SextetRoundTrip(b0 % 4 * 16);
  }

  lemma LastTwoBytes(b0: Byte, b1: Byte)
    ensures DecodeQuanta([SextetChar(b0 / 4), SextetChar(b0 % 4 * 16 + b1 / 16), SextetChar(b1 % 16 * 4), '=']) ==
            Some([b0, b1])
  {
    hide SextetChar, CharSextet;
    var c1 := b0 % 4 * 16 + b1 / 16;
    SextetRoundTrip(b0 / 4);
    SextetRoundTrip(c1);
    SextetRoundTrip(b1 % 16 * 4);
    assert c1 / 16 == b0 % 4 && c1 % 16 == b1 / 16;
  }

  lemma {:induction false} ThreeBytes(b0: Byte, b1: Byte, b2: Byte, tail: string, rest: seq<Byte>)
    requires DecodeQuanta(tail) == Some(rest)
    ensures DecodeQuanta([SextetChar(b0 / 4), SextetChar(b0 % 4 * 16 + b1 / 16),
                          SextetChar(b1 % 16 * 4 + b2 / 64), SextetChar(b2 % 64)] + tail) == Some([b0, b1, b2] + rest)
  {
    hide SextetChar, CharSextet;
    var c0, c1, c2, c3 := b0 / 4, b0 % 4 * 16 + b1 / 16, b1 % 16 * 4 + b2 / 64, b2 % 64;
    SextetRoundTrip(c0);
    SextetRoundTrip(c1);
    SextetRoundTrip(c2);
    SextetRoundTrip(c3);
    assert c1 / 16 == b0 % 4 && c1 % 16 == b1 / 16;
    assert c2 / 4 == b1 % 16 && c2 % 4 == b2 / 64;
    var s := [SextetChar(c0), SextetChar(c1), SextetChar(c2), SextetChar(c3)] + tail;
    assert s[4..] == tail;
  }

  lemma {:induction false} QuantaRoundTrip(b: seq<Byte>)
    ensures DecodeQuanta(EncodeToString(b)) == Some(b)
  {
    hide SextetChar, DecodeQuanta;
    if b == [] {
      NoQuanta();
    } else if |b| == 1 {
      LastByte(b[0]);
      assert b == [b[0]];
    } else if |b| == 2 {
      LastTwoBytes(b[0], b[1]);
      assert b == [b[0], b[1]];
    } else {
      QuantaRoundTrip(b[3..]);
      ThreeBytes(b[0], b[1], b[2], EncodeToString(b[3..]), b[3..]);
      assert b == [b[0], b[1], b[2]] + b[3..];
    }
  }

  lemma NoQuanta()
    ensures DecodeQuanta("") == Some([])
  {
  }

  /** Decoding undoes encoding on every byte string. */
  lemma {:induction false} Base64RoundTrip(b: seq<Byte>)
    ensures DecodeString(EncodeToString(b)) == Some(b)
  {
    EncodeHasNoNewlines(b);
    NothingStripped(EncodeToString(b));
    QuantaRoundTrip(b);
  }

  // ----- UIDs -----

  /** `[]byte(s)` for an ASCII string. */
  function Bytes(s: string): seq<Byte>
    requires forall i :: 0 <= i < |s| ==> s[i] < 128 as char
  {
    seq(|s|, i requires 0 <= i < |s| => s[i] as int)
  }

  /** `string(b)`, byte by byte; a byte that is not ASCII is no digit either way. */
  function Chars(b: seq<Byte>): string {
    seq(|b|, i requires 0 <= i < |b| => b[i] as char)
  }

  function UidEncode(id: nat): string {
    FormatUintValue(id);
    EncodeToString(Bytes(FormatUint(id)))
  }

  function UidDecode(uid: string): Option<nat> {
    match DecodeString(uid)
    case None => None
    case Some(b) => ParseUint(Chars(b))
  }

  /** A UID leads back to the ID it was made from, for every 64-bit ID and for no larger number. */
  lemma {:induction false} UidRoundTrip(id: nat)
    ensures UidDecode(UidEncode(id)) == if id <= 0xFFFF_FFFF_FFFF_FFFF then Some(id) else None
  {
    hide EncodeToString, DecodeString, FormatUint, DecimalValue;
    FormatUintValue(id);
    var s := FormatUint(id);
    Base64RoundTrip(Bytes(s));
    assert Chars(Bytes(s)) == s;
  }

  /**
   A string is decoded exactly if, without line breaks, it is padded Base64 of a non-empty string of digits whose value
   fits into 64 bits; and then to that value.
   */
  lemma DecodesDigitsOnly(uid: string)
    ensures UidDecode(uid).Some? ==> Padded(StripNewlines(uid))
    ensures Padded(StripNewlines(uid)) ==>
              && DecodeString(uid).Some?
              && var s := Chars(DecodeString(uid).value);
              && (UidDecode(uid).Some? <==>
                    && s != "" && (forall i :: 0 <= i < |s| ==> '0' <= s[i] <= '9')
                    && DecimalValue(s) <= 0xFFFF_FFFF_FFFF_FFFF)
              && (UidDecode(uid).Some? ==> UidDecode(uid).value == DecimalValue(s))
  {
    hide DecodeQuanta, DecimalValue;
    DecodesPadded(StripNewlines(uid));
  }

  /** Different IDs have different UIDs. */
  lemma UidInjective(a: nat, b: nat)
    requires a <= 0xFFFF_FFFF_FFFF_FFFF && b <= 0xFFFF_FFFF_FFFF_FFFF && UidEncode(a) == UidEncode(b)
    ensures a == b
  {
    UidRoundTrip(a);
    UidRoundTrip(b);
  }
}
