/** URL encoding and decoding (src/httplib.h): `encode_url`, `decode_url` and the helpers
    they use. */
module UrlCodec {
  import opened Prelude
  import opened Numerals

  const UPPER_HEX: seq<byte> := "0123456789ABCDEF"

  // ---------- helpers ----------

  /** The value of the first cnt bytes, if all of them are hex digits. */
  function HexRun(s: seq<byte>, cnt: nat, val: nat): (r: Option<nat>)
    ensures r.Some? ==> cnt <= |s|
    decreases cnt
  {
    if cnt == 0 then Some(val)
    else if s == [] || DigitValue(s[0], 16).None? then None
    else HexRun(s[1..], cnt - 1, val * 16 + DigitValue(s[0], 16).value)
  }

  /** false for a digit missing, also at the end, where C reads the terminating NUL. */
  method from_hex_to_i(s: seq<byte>, start: nat, count: nat) returns (ok: bool, val: nat)
    requires count > 0
    ensures ok == (start <= |s| && HexRun(s[start..], count, 0).Some?)
    ensures ok ==> HexRun(s[start..], count, 0) == Some(val)
  {
    val := 0;
    if start >= |s| {
      return false, val;
    }
    var i, cnt := start, count;
    while cnt > 0
      invariant start <= i <= |s| && cnt <= count
      invariant HexRun(s[start..], count, 0) == HexRun(s[i..], cnt, val)
      decreases cnt
    {
      var c := if i < |s| then s[i] else NUL;
      if c == NUL || DigitValue(c, 16).None? {
        return false, val;
      }
      val := val * 16 + DigitValue(c, 16).value;
      assert s[i..][1..] == s[i + 1..];
      i, cnt := i + 1, cnt - 1;
    }
    ok := true;
  }

  // ---------- UTF-8 ----------

  function Byte(n: int): byte
    requires 0 <= n < 256
  {
    n as char
  }

  /** 0xC0 | x and the like, for x that fits under the mark. */
  function ToUtf8(code: nat): (s: seq<byte>)
    ensures |s| <= 4 && (code < 0x10000 ==> |s| <= 3)
  {
    if code < 0x80 then [Byte(code)]
    else if code < 0x800 then [Byte(0xC0 + code / 64 % 32), Byte(0x80 + code % 64)]
    else if code < 0xD800 then [Byte(0xE0 + code / 4096 % 16), Byte(0x80 + code / 64 % 64), Byte(0x80 + code % 64)]
    else if code < 0xE000 then []
    else if code < 0x10000 then [Byte(0xE0 + code / 4096 % 16), Byte(0x80 + code / 64 % 64), Byte(0x80 + code % 64)]
    else if code < 0x110000 then
      [Byte(0xF0 + code / 262144 % 8), Byte(0x80 + code / 4096 % 64),
       Byte(0x80 + code / 64 % 64), Byte(0x80 + code % 64)]
    else []
  }

  method to_utf8(code: nat, buff: array<byte>) returns (len: nat)
    requires buff.Length >= 4
    modifies buff
    ensures len <= 4 && buff[..len] == ToUtf8(code)
  {
    if code < 0x80 {
      buff[0] := Byte(code % 128);
      return 1;
    } else if code < 0x800 {
      buff[0] := Byte(0xC0 + code / 64 % 32);
      buff[1] := Byte(0x80 + code % 64);
      return 2;
    } else if code < 0xD800 {
      buff[0] := Byte(0xE0 + code / 4096 % 16);
      buff[1] := Byte(0x80 + code / 64 % 64);
      buff[2] := Byte(0x80 + code % 64);
      return 3;
    } else if code < 0xE000 {
      return 0;
    } else if code < 0x10000 {
      buff[0] := Byte(0xE0 + code / 4096 % 16);
      buff[1] := Byte(0x80 + code / 64 % 64);
      buff[2] := Byte(0x80 + code % 64);
      return 3;
    } else if code < 0x110000 {
      buff[0] := Byte(0xF0 + code / 262144 % 8);
      buff[1] := Byte(0x80 + code / 4096 % 64);
      buff[2] := Byte(0x80 + code / 64 % 64);
      buff[3] := Byte(0x80 + code % 64);
      return 4;
    }
    return 0;
  }

  predicate In(c: byte, lo: int, hi: int) {
    lo <= c as int <= hi
  }

  /** The well-formed sequences of section 4 of RFC 3629, and the number each stands for. */
  function Utf8Value(s: seq<byte>): Option<nat> {
    if |s| == 1 && In(s[0], 0x00, 0x7F) then Some(s[0] as int)
    else if |s| == 2 && In(s[0], 0xC2, 0xDF) && In(s[1], 0x80, 0xBF) then
      Some((s[0] as int - 0xC0) * 64 + (s[1] as int - 0x80))
    else if |s| == 3 && In(s[2], 0x80, 0xBF)
            && ((s[0] as int == 0xE0 && In(s[1], 0xA0, 0xBF)) || (In(s[0], 0xE1, 0xEC) && In(s[1], 0x80, 0xBF))
                || (s[0] as int == 0xED && In(s[1], 0x80, 0x9F)) || (In(s[0], 0xEE, 0xEF) && In(s[1], 0x80, 0xBF))) then
      Some((s[0] as int - 0xE0) * 4096 + (s[1] as int - 0x80) * 64 + (s[2] as int - 0x80))
    else if |s| == 4 && In(s[2], 0x80, 0xBF) && In(s[3], 0x80, 0xBF)
            && ((s[0] as int == 0xF0 && In(s[1], 0x90, 0xBF)) || (In(s[0], 0xF1, 0xF3) && In(s[1], 0x80, 0xBF))
                || (s[0] as int == 0xF4 && In(s[1], 0x80, 0x8F))) then
      Some((s[0] as int - 0xF0) * 262144 + (s[1] as int - 0x80) * 4096
           + (s[2] as int - 0x80) * 64 + (s[3] as int - 0x80))
    else None
  }

  /** Six-bit groups. */
  lemma Groups(code: nat)
    ensures code == code / 64 * 64 + code % 64
    ensures code / 64 == code / 4096 * 64 + code / 64 % 64
    ensures code / 4096 == code / 262144 * 64 + code / 4096 % 64
  {
    assert code / 64 / 64 == code / 4096;
    assert code / 4096 / 64 == code / 262144;
  }

  lemma ToUtf8ReadsShort(code: nat)
    requires code < 0x800
    ensures Utf8Value(ToUtf8(code)) == Some(code)
  {
    Groups(code);
  }

  lemma ToUtf8ReadsThree(code: nat)
    requires 0x800 <= code < 0x10000 && !(0xD800 <= code < 0xE000)
    ensures Utf8Value(ToUtf8(code)) == Some(code)
  {
    Groups(code);
    var a, b := code / 4096, code / 64 % 64;
    assert a < 16 && (a == 0 ==> b >= 32) && (a == 13 ==> b < 32);
    assert code == a * 4096 + b * 64 + code % 64;
  }

  lemma ToUtf8ReadsFour(code: nat)
    requires 0x10000 <= code < 0x110000
    ensures Utf8Value(ToUtf8(code)) == Some(code)
  {
    Groups(code);
    var a, b := code / 262144, code / 4096 % 64;
    assert a < 8 && (a == 0 ==> b >= 16) && (a == 4 ==> b < 16) && a <= 4;
  }

  lemma ToUtf8Reads(code: nat)
    ensures Utf8Value(ToUtf8(code)) == if ToUtf8(code) == [] then None else Some(code)
  {
    if code < 0x800 {
      ToUtf8ReadsShort(code);
    } else if 0xD800 <= code < 0xE000 || code >= 0x110000 {
    } else if code < 0x10000 {
      ToUtf8ReadsThree(code);
    } else {
      ToUtf8ReadsFour(code);
    }
  }

  lemma FourGroups(code: nat, a: nat, b: nat, c: nat, d: nat)
    requires code == a * 262144 + b * 4096 + c * 64 + d && b < 64 && c < 64 && d < 64
    ensures code / 262144 == a && code / 4096 % 64 == b && code / 64 % 64 == c && code % 64 == d
  {
    Groups(code);
    assert code % 64 == d && code / 64 == a * 4096 + b * 64 + c;
    assert code / 64 % 64 == c && code / 4096 == a * 64 + b;
  }

  lemma OneForm(s: seq<byte>, code: nat)
    requires |s| <= 2 && Utf8Value(s) == Some(code)
    ensures s == ToUtf8(code)
  {
    if |s| == 2 {
      FourGroups(code, 0, 0, s[0] as int - 0xC0, s[1] as int - 0x80);
      Groups(code);
      assert code / 64 == s[0] as int - 0xC0;
    }
  }

  lemma ThreeForm(s: seq<byte>, code: nat)
    requires |s| == 3 && Utf8Value(s) == Some(code)
    ensures s == ToUtf8(code)
  {
    FourGroups(code, 0, s[0] as int - 0xE0, s[1] as int - 0x80, s[2] as int - 0x80);
    Groups(code);
    assert code / 4096 == s[0] as int - 0xE0;
    assert 0x800 <= code < 0x10000 && !(0xD800 <= code < 0xE000);
  }

  lemma FourForm(s: seq<byte>, code: nat)
    requires |s| == 4 && Utf8Value(s) == Some(code)
    ensures s == ToUtf8(code)
  {
    FourGroups(code, s[0] as int - 0xF0, s[1] as int - 0x80, s[2] as int - 0x80, s[3] as int - 0x80);
    assert 0x10000 <= code < 0x110000;
  }

  /** to_utf8 produces the one well-formed form of every code point, and nothing for the rest. */
  lemma Utf8IsUnique(code: nat, s: seq<byte>)
    ensures Utf8Value(s) == Some(code) <==> s == ToUtf8(code) && s != []
    ensures ToUtf8(code) == [] <==> 0xD800 <= code < 0xE000 || code >= 0x110000
  {
    ToUtf8Reads(code);
    if Utf8Value(s) == Some(code) {
      if |s| <= 2 {
        OneForm(s, code);
      } else if |s| == 3 {
        ThreeForm(s, code);
      } else {
        FourForm(s, code);
      }
    }
  }

  // ---------- encode_url and decode_url ----------

  predicate MustEscape(c: byte) {
    c in {' ', '+', '\r', '\n', '\'', ',', ':', ';'} || c as int >= 0x80
  }

  function Escape(c: byte): seq<byte> {
    ['%', UPPER_HEX[c as int / 16], UPPER_HEX[c as int % 16]]
  }

  function EncodeByte(c: byte): (s: seq<byte>)
    ensures s != [] && (s[0] == '%' || s == [c])
  {
    if MustEscape(c) then Escape(c) else [c]
  }

  /** encode_url works on the C string, up to the first NUL. */
  function Encode(s: seq<byte>): seq<byte> {
    if s == [] || s[0] == NUL then [] else EncodeByte(s[0]) + Encode(s[1..])
  }

  /** %hh or %uhhhh at the front. */
  predicate EscapeAt(s: seq<byte>) {
    |s| > 1 && s[0] == '%'
    && if s[1] == 'u' then HexRun(s[2..], 4, 0).Some? else HexRun(s[1..], 2, 0).Some?
  }

  /** The bytes of the escape at the front, and its length. */
  function Unescape(s: seq<byte>): (r: (seq<byte>, nat))
    requires EscapeAt(s)
    ensures 3 <= r.1 <= |s| && |r.0| < r.1
  {
    if s[1] == 'u' then
      HexRunBound(s[2..], 4, 0, 1); ShiftedOne();
      (ToUtf8(HexRun(s[2..], 4, 0).value), 6)
    else
      HexRunBound(s[1..], 2, 0, 1); ShiftedOne();
      ([Byte(HexRun(s[1..], 2, 0).value)], 3)
  }

  function Decode(s: seq<byte>): (r: seq<byte>)
    ensures |r| <= |s|
  {
    if s == [] then []
    else if EscapeAt(s) then Unescape(s).0 + Decode(s[Unescape(s).1..])
    else [if s[0] == '+' then ' ' else s[0]] + Decode(s[1..])
  }

  function Shifted(n: nat, digits: nat): nat
    decreases digits
  {
    if digits == 0 then n else Shifted(16 * n, digits - 1)
  }

  lemma {:induction false} HexRunBound(s: seq<byte>, cnt: nat, val: nat, bound: nat)
    requires val < bound
    ensures HexRun(s, cnt, val).Some? ==> HexRun(s, cnt, val).value < Shifted(bound, cnt)
    decreases cnt
  {
    if cnt > 0 && s != [] && DigitValue(s[0], 16).Some? {
      HexRunBound(s[1..], cnt - 1, val * 16 + DigitValue(s[0], 16).value, 16 * bound);
    }
  }

  lemma ShiftedOne()
    ensures Shifted(1, 2) == 256 && Shifted(1, 4) == 65536
  {
    assert Shifted(1, 4) == Shifted(16, 3) == Shifted(256, 2) == Shifted(4096, 1);
  }

  // ---------- the code computes these functions ----------

  /** The switch of encode_url. */
  method EncodeSwitch(c: byte) returns (piece: seq<byte>)
    ensures piece == EncodeByte(c)
  {
    match c
    case ' ' => piece := "%20";
    case '+' => piece := "%2B";
    case '\r' => piece := "%0D";
    case '\n' => piece := "%0A";
    case '\'' => piece := "%27";
    case ',' => piece := "%2C";
    case ':' => piece := "%3A";
    case ';' => piece := "%3B";
    case _ =>
      if c as int >= 0x80 {
        piece := ['%', UPPER_HEX[c as int / 16], UPPER_HEX[c as int % 16]];
      } else {
        piece := [c];
      }
  }

  method encode_url(s: seq<byte>) returns (result: seq<byte>)
    ensures result == Encode(s)
  {
    result := [];
    var i := 0;
    while i < |s| && s[i] != NUL
      invariant 0 <= i <= |s|
      invariant Encode(s) == result + Encode(s[i..])
      decreases |s| - i
    {
      var piece := EncodeSwitch(s[i]);
      assert s[i..][1..] == s[i + 1..];
      Assoc(result, piece, Encode(s[i + 1..]));
      result := result + piece;
      i := i + 1;
    }
  }

  /** One round of decode_url's loop: what it appends, and how far it moves on. */
  method DecodeRound(s: seq<byte>, i: nat, buff: array<byte>) returns (piece: seq<byte>, next: nat)
    requires i < |s| && buff.Length == 4
    modifies buff
    ensures i < next <= |s| && Decode(s[i..]) == piece + Decode(s[next..])
  {
    ghost var t := s[i..];
    assert t[1..] == s[i + 1..];
    assert |t| > 1 ==> t[2..] == s[i + 2..];
    piece, next := [s[i]], i + 1;
    if s[i] == '%' && i + 1 < |s| {
      if s[i + 1] == 'u' {
        var ok, val := from_hex_to_i(s, i + 2, 4);
        if ok {
          var len := to_utf8(val, buff);
          piece := if len > 0 then buff[..len] else [];
          next := i + 6;
          assert t[6..] == s[next..];
        }
      } else {
        var ok, val := from_hex_to_i(s, i + 1, 2);
        if ok {
          HexRunBound(s[i + 1..], 2, 0, 1);
          ShiftedOne();
          piece := [val as char];
          next := i + 3;
          assert t[3..] == s[next..];
        }
      }
    } else if s[i] == '+' {
      piece := [' '];
    }
  }

  method decode_url(s: seq<byte>) returns (result: seq<byte>)
    ensures result == Decode(s)
  {
    result := [];
    var buff := new byte[4];
    var i := 0;
    while i < |s|
      invariant 0 <= i <= |s|
      invariant Decode(s) == result + Decode(s[i..])
    {
      var piece, next := DecodeRound(s, i, buff);
      Assoc(result, piece, Decode(s[next..]));
      result := result + piece;
      i := next;
    }
  }

  // ---------- the round trip ----------

  predicate HasEscape(s: seq<byte>) {
    exists i | 0 <= i < |s| :: EscapeAt(s[i..])
  }

  lemma TwoDigits(s: seq<byte>)
    requires |s| >= 2 && DigitValue(s[0], 16).Some? && DigitValue(s[1], 16).Some?
    ensures HexRun(s, 2, 0) == Some(16 * DigitValue(s[0], 16).value + DigitValue(s[1], 16).value)
  {
    var hi := DigitValue(s[0], 16).value;
    assert s[1..][0] == s[1];
    assert HexRun(s, 2, 0) == HexRun(s[1..], 1, hi) == HexRun(s[1..][1..], 0, hi * 16 + DigitValue(s[1], 16).value);
  }

  lemma UpperHexReads(d: nat)
    requires d < 16
    ensures DigitValue(UPPER_HEX[d], 16) == Some(d) && UPPER_HEX[d] != 'u'
  {
  }

  lemma EscapeReads(c: byte, rest: seq<byte>)
    ensures EscapeAt(Escape(c) + rest) && Unescape(Escape(c) + rest) == ([c], 3)
  {
    var s := Escape(c) + rest;
    UpperHexReads(c as int / 16);
    UpperHexReads(c as int % 16);
    assert s[1..][0] == Escape(c)[1] && s[1..][1] == Escape(c)[2];
    TwoDigits(s[1..]);
  }

  lemma EncodedHead(s: seq<byte>)
    requires s != [] && s[0] != NUL
    ensures Encode(s) != [] && DigitValue(Encode(s)[0], 16) == DigitValue(s[0], 16)
    ensures DigitValue(s[0], 16).Some? ==> Encode(s)[1..] == Encode(s[1..])
  {
    assert Encode(s)[0] == EncodeByte(s[0])[0];
  }

  /** Hex digits pass the encoder unchanged, and nothing else becomes one. */
  lemma {:induction false} HexRunOfEncoded(s: seq<byte>, cnt: nat, val: nat)
    ensures HexRun(Encode(s), cnt, val) == HexRun(s, cnt, val)
    ensures HexRun(s, cnt, val).Some? ==> Encode(s)[cnt..] == Encode(s[cnt..])
    decreases cnt
  {
    if cnt > 0 && s != [] && s[0] != NUL {
      EncodedHead(s);
      if DigitValue(s[0], 16).Some? {
        HexRunOfEncoded(s[1..], cnt - 1, val * 16 + DigitValue(s[0], 16).value);
        if HexRun(s, cnt, val).Some? {
          assert s[1..][cnt - 1..] == s[cnt..];
          assert Encode(s)[cnt..] == Encode(s)[1..][cnt - 1..];
        }
      }
    }
  }

  lemma Further(s: seq<byte>, a: nat, b: nat)
    requires a + b <= |s|
    ensures s[a..][b..] == s[a + b..]
  {
  }

  lemma EncodePlain(s: seq<byte>)
    requires s != [] && (s[0] == '%' || s[0] == 'u')
    ensures Encode(s) != [] && Encode(s)[0] == s[0] && Encode(s)[1..] == Encode(s[1..])
  {
  }

  /** Behind %u. */
  lemma UnicodeOfEncoded(s: seq<byte>)
    requires |s| > 1 && s[0] == '%' && s[1] == 'u'
    ensures var e := Encode(s);
            && |e| > 1 && e[0] == '%' && e[1] == 'u' && HexRun(e[2..], 4, 0) == HexRun(s[2..], 4, 0)
            && (HexRun(s[2..], 4, 0).Some? ==> e[6..] == Encode(s[6..]))
  {
    var e := Encode(s);
    EncodePlain(s);
    EncodePlain(s[1..]);
    Further(s, 1, 1);
    Further(e, 1, 1);
    HexRunOfEncoded(s[2..], 4, 0);
    if HexRun(s[2..], 4, 0).Some? {
      Further(s, 2, 4);
      Further(e, 2, 4);
    }
  }

  /** Behind % and anything else. */
  lemma HexOfEncoded(s: seq<byte>)
    requires s != [] && s[0] == '%' && (|s| > 1 ==> s[1] != 'u')
    ensures var e := Encode(s);
            && e != [] && e[0] == '%' && (|e| > 1 ==> e[1] != 'u') && HexRun(e[1..], 2, 0) == HexRun(s[1..], 2, 0)
            && (HexRun(s[1..], 2, 0).Some? ==> e[3..] == Encode(s[3..]))
  {
    var e, rest := Encode(s), s[1..];
    EncodePlain(s);
    HexRunOfEncoded(rest, 2, 0);
    assert |e| > 1 ==> e[1] == EncodeByte(rest[0])[0] != 'u';
    if HexRun(rest, 2, 0).Some? {
      Further(s, 1, 2);
      Further(e, 1, 2);
    }
  }

  /** A '%' is written as it is; whether it starts an escape does not change. */
  lemma PercentOfEncoded(s: seq<byte>)
    requires s != [] && s[0] == '%'
    ensures Encode(s) == ['%'] + Encode(s[1..])
    ensures EscapeAt(Encode(s)) <==> EscapeAt(s)
    ensures EscapeAt(s) ==>
              Unescape(Encode(s)) == Unescape(s) && Encode(s)[Unescape(s).1..] == Encode(s[Unescape(s).1..])
  {
    if |s| > 1 && s[1] == 'u' {
      UnicodeOfEncoded(s);
    } else {
      HexOfEncoded(s);
    }
  }

  lemma DecodeStep(s: seq<byte>)
    requires s != [] && s[0] != NUL
    ensures Decode(Encode(s))
         == if EscapeAt(s) then Unescape(s).0 + Decode(Encode(s[Unescape(s).1..]))
            else [s[0]] + Decode(Encode(s[1..]))
  {
    var rest := Encode(s[1..]);
    if s[0] == '%' {
      PercentOfEncoded(s);
      assert (['%'] + rest)[1..] == rest;
    } else if MustEscape(s[0]) {
      EscapeReads(s[0], rest);
      assert (Escape(s[0]) + rest)[3..] == rest;
    } else {
      assert ([s[0]] + rest)[1..] == rest;
    }
  }

  lemma HasEscapeStep(s: seq<byte>)
    requires s != []
    ensures HasEscape(s) <==> EscapeAt(s) || HasEscape(s[1..])
  {
    assert s[0..] == s;
    if HasEscape(s[1..]) {
      var i :| 0 <= i < |s[1..]| && EscapeAt(s[1..][i..]);
      assert s[1..][i..] == s[i + 1..];
    }
    if HasEscape(s) && !EscapeAt(s) {
      var i :| 0 <= i < |s| && EscapeAt(s[i..]);
      assert i > 0 && s[i..] == s[1..][i - 1..];
    }
  }

  lemma {:induction false} RoundTripLength(s: seq<byte>)
    ensures |Decode(Encode(s))| <= |s|
    ensures NUL in s || HasEscape(s) ==> |Decode(Encode(s))| < |s|
  {
    if s != [] && s[0] != NUL {
      DecodeStep(s);
      HasEscapeStep(s);
      if EscapeAt(s) {
        RoundTripLength(s[Unescape(s).1..]);
      } else {
        RoundTripLength(s[1..]);
      }
    }
  }

  /** Decoding undoes encoding exactly for strings without a NUL and without a '%' that
      already reads as an escape. */
  lemma {:induction false} UrlRoundTrip(s: seq<byte>)
    ensures Decode(Encode(s)) == s <==> NUL !in s && !HasEscape(s)
  {
    if NUL in s || HasEscape(s) {
      RoundTripLength(s);
    } else if s != [] {
      DecodeStep(s);
      HasEscapeStep(s);
      assert NUL !in s[1..];
      UrlRoundTrip(s[1..]);
    }
  }

  lemma {:induction false} HexRunPrefix(h: seq<byte>, rest: seq<byte>, cnt: nat, val: nat)
    requires cnt <= |h|
    ensures HexRun(h + rest, cnt, val) == HexRun(h, cnt, val)
    decreases cnt
  {
    if cnt > 0 && DigitValue(h[0], 16).Some? {
      assert (h + rest)[1..] == h[1..] + rest;
      HexRunPrefix(h[1..], rest, cnt - 1, val * 16 + DigitValue(h[0], 16).value);
    }
  }

  /** %uhhhh decodes to the well-formed UTF-8 of its number, a surrogate to nothing. */
  lemma UnicodeEscape(h: seq<byte>, rest: seq<byte>, code: nat)
    requires |h| == 4 && HexRun(h, 4, 0) == Some(code)
    ensures var utf8 := ToUtf8(code);
            && Decode(['%', 'u'] + h + rest) == utf8 + Decode(rest)
            && Utf8Value(utf8) == if 0xD800 <= code < 0xE000 then None else Some(code)
  {
    var s := ['%', 'u'] + h + rest;
    assert s[2..] == h + rest && s[6..] == rest;
    HexRunPrefix(h, rest, 4, 0);
    HexRunBound(h, 4, 0, 1);
    ShiftedOne();
    ToUtf8Reads(code);
    Utf8IsUnique(code, ToUtf8(code));
  }
}
