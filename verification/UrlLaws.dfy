/** What the URL codec (src/httplib.h:968-1106) does to every text, piece by piece. Each law is
    about the bytes that go in and come out; together they leave no choice. */
module UrlLaws {
  import opened Prelude
  import opened Numerals
  import opened UrlCodec

  // ---------- decode_url ----------

  /** What a byte stands for outside of an escape. */
  ghost predicate StandsFor(c: byte, d: byte) {
    if c == '+' then d == ' ' else d == c
  }

  /** A text without '%' keeps its length, and each byte stands for itself, a '+' for a space. */
  lemma {:induction false} PlainDecodes(s: seq<byte>)
    requires '%' !in s
    ensures |Decode(s)| == |s| && forall i | 0 <= i < |s| :: StandsFor(s[i], Decode(s)[i])
  {
    if s != [] {
      PlainDecodes(s[1..]);
    }
  }

  /** What stands in front of the first '%' has no influence on what follows. */
  lemma {:induction false} PlainThenRest(a: seq<byte>, b: seq<byte>)
    requires '%' !in a
    ensures Decode(a + b) == Decode(a) + Decode(b)
  {
    if a == [] {
      assert a + b == b;
    } else {
      assert (a + b)[1..] == a[1..] + b;
      PlainThenRest(a[1..], b);
      assert !EscapeAt(a) && !EscapeAt(a + b);
    }
  }

  /** A '+' is a space wherever it stands outside of an escape. */
  lemma PlusInText(a: seq<byte>, b: seq<byte>)
    requires '%' !in a
    ensures Decode(a + (['+'] + b)) == Decode(a) + ([' '] + Decode(b))
  {
    PlainThenRest(a, ['+'] + b);
    PlainDecodes(['+']);
    PlainThenRest(['+'], b);
    assert Decode(['+']) == [' '];
  }

  /** %hh is the byte of that value. */
  lemma HexEscape(h: seq<byte>, rest: seq<byte>)
    requires |h| == 2 && AllDigits(h, 16)
    ensures var hi, lo := DigitValue(h[0], 16).value, DigitValue(h[1], 16).value;
            && 16 * hi + lo < 256
            && Decode(['%'] + (h + rest)) == [(16 * hi + lo) as char] + Decode(rest)
  {
    var s := ['%'] + (h + rest);
    assert s[1..] == h + rest && s[1] == h[0] && s[3..] == rest;
    assert h[0] != 'u';
    TwoDigits(h + rest);
  }

  /** No two hex digits follow, nor a 'u' and four of them. */
  ghost predicate NoEscape(rest: seq<byte>) {
    && !(|rest| >= 2 && AllDigits(rest[..2], 16))
    && !(|rest| >= 5 && rest[0] == 'u' && AllDigits(rest[1..5], 16))
  }

  lemma {:induction false} HexRunExactly(s: seq<byte>, cnt: nat, val: nat)
    ensures HexRun(s, cnt, val).Some? <==> cnt <= |s| && AllDigits(s[..cnt], 16)
    decreases cnt
  {
    if cnt > 0 && s != [] {
      if DigitValue(s[0], 16).Some? {
        HexRunExactly(s[1..], cnt - 1, val * 16 + DigitValue(s[0], 16).value);
        if cnt <= |s| {
          assert s[..cnt] == [s[0]] + s[1..][..cnt - 1];
          assert s[..cnt][1..] == s[1..][..cnt - 1];
        }
      } else {
        assert cnt <= |s| ==> s[..cnt][0] == s[0];
      }
    }
  }

  /** Any other '%' stands for itself. */
  lemma LonePercent(rest: seq<byte>)
    requires NoEscape(rest)
    ensures Decode(['%'] + rest) == ['%'] + Decode(rest)
  {
    var s := ['%'] + rest;
    assert s[1..] == rest;
    if |rest| > 0 && rest[0] == 'u' {
      assert s[2..] == rest[1..];
      HexRunExactly(rest[1..], 4, 0);
      assert |rest| >= 5 ==> rest[1..][..4] == rest[1..5];
    } else {
      HexRunExactly(rest, 2, 0);
    }
  }

  // ---------- encode_url ----------

  ghost predicate Untouched(c: byte) {
    c != NUL && c as int < 0x80 && c !in " +\r\n',:;"
  }

  lemma {:induction false} EncodeAppend(a: seq<byte>, b: seq<byte>)
    requires NUL !in a
    ensures Encode(a + b) == Encode(a) + Encode(b)
  {
    if a == [] {
      assert a + b == b;
    } else {
      assert (a + b)[1..] == a[1..] + b;
      EncodeAppend(a[1..], b);
      Assoc(EncodeByte(a[0]), Encode(a[1..]), Encode(b));
    }
  }

  /** A text of other characters is written as it is. */
  lemma {:induction false} UntouchedEncodes(s: seq<byte>)
    requires forall c | c in s :: Untouched(c)
    ensures Encode(s) == s
  {
    if s != [] {
      assert s[0] in s;
      UntouchedEncodes(s[1..]);
    }
  }

  /** A special character, or a byte from 0x80 on, is a '%' and two upper-case hex digits. */
  lemma EscapeEncodes(c: byte)
    requires c != NUL && !Untouched(c)
    ensures var e := Encode([c]);
            && |e| == 3 && e[0] == '%' && 'a' !in e && 'b' !in e && 'c' !in e && 'd' !in e && 'e' !in e && 'f' !in e
            && DigitValue(e[1], 16) == Some(c as int / 16) && DigitValue(e[2], 16) == Some(c as int % 16)
  {
    UpperHexReads(c as int / 16);
    UpperHexReads(c as int % 16);
    assert [c][1..] == [];
    assert Encode([c]) == Escape(c) + Encode([]);
  }

  /** Nothing is written of a NUL or behind it. */
  lemma NulEnds(b: seq<byte>)
    ensures Encode([NUL] + b) == []
  {
  }
}
