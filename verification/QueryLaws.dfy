/** What `parse_query_text` (src/httplib.h:1108-1121) makes of any text, not only of one that was
    printed by the client. */
module QueryLaws {
  import opened Prelude
  import opened UrlCodec
  import opened UrlLaws
  import opened Multimap
  import opened Query

  // ---------- one parameter ----------

  /** Once there is a key, the last piece that follows is the value. */
  lemma {:induction false} LastPieceCounts(pieces: seq<seq<byte>>, key: seq<byte>, val: seq<byte>)
    requires key != []
    ensures KeyValue(pieces, key, val) == (key, if pieces == [] then val else pieces[|pieces| - 1])
  {
    if pieces != [] {
      LastPieceCounts(pieces[1..], key, pieces[0]);
    }
  }

  /** The first piece that is not empty is the key, and the last piece behind it the value;
      without a key there is no value. */
  lemma {:induction false} KeyAndValue(pieces: seq<seq<byte>>, i: nat)
    requires i <= |pieces| && forall j | 0 <= j < i :: pieces[j] == []
    requires i < |pieces| ==> pieces[i] != []
    ensures KeyValue(pieces, [], [])
         == if i == |pieces| then ([], []) else (pieces[i], if i == |pieces| - 1 then [] else pieces[|pieces| - 1])
  {
    if i > 0 {
      KeyAndValue(pieces[1..], i - 1);
    } else if pieces != [] {
      LastPieceCounts(pieces[1..], pieces[0], []);
    }
  }

  /** key=value, with neither part holding a separator: the value is decoded, the key is not. */
  lemma ValueReads(key: seq<byte>, val: seq<byte>)
    requires key != [] && '=' !in key && '=' !in val
    ensures ParsePair(key + (['='] + val)) == (key, Decode(val))
  {
    PiecesFirst(key, val, '=');
    PiecesWhole(val, '=');
    var pieces := [key] + [val];
    assert Split(key + (['='] + val), '=') == pieces;
    KeyAndValue(pieces, 0);
  }

  /** A text of one parameter. */
  lemma OneParameter(key: seq<byte>, val: seq<byte>)
    requires key != [] && '=' !in key && '=' !in val && '&' !in key && '&' !in val
    ensures Parse(key + (['='] + val)) == [(key, Decode(val))]
  {
    var s := key + (['='] + val);
    assert '&' !in s;
    PiecesWhole(s, '&');
    ValueReads(key, val);
    var pieces := [s];
    assert pieces[1..] == [];
    assert Collected(pieces, []) == Collected([], Emplace([], (key, Decode(val))));
  }

  /** A value without '%' comes byte by byte, a '+' as a space. */
  lemma PlainValue(key: seq<byte>, val: seq<byte>)
    requires key != [] && '=' !in key && '=' !in val && '&' !in key && '&' !in val && '%' !in val
    ensures var params := Parse(key + (['='] + val));
            && |params| == 1 && params[0].0 == key && |params[0].1| == |val|
            && forall i | 0 <= i < |val| :: StandsFor(val[i], params[0].1[i])
  {
    OneParameter(key, val);
    PlainDecodes(val);
  }

  /** A '+' in a value is a space, whatever follows it. */
  lemma PlusInValue(key: seq<byte>, a: seq<byte>, b: seq<byte>)
    requires key != [] && '=' !in key && '=' !in a + b && '&' !in key && '&' !in a + b && '%' !in a
    ensures Parse(key + (['='] + (a + (['+'] + b)))) == [(key, Decode(a) + ([' '] + Decode(b)))]
  {
    forall c | c in a + (['+'] + b)
      ensures c != '=' && c != '&'
    {
      assert c in a + b || c == '+';
    }
    OneParameter(key, a + (['+'] + b));
    PlusInText(a, b);
  }

  // ---------- all parameters ----------

  /** The values under a key, in the order of the text. */
  function Values(pieces: seq<seq<byte>>, key: seq<byte>): seq<seq<byte>> {
    if pieces == [] then []
    else
      var p := ParsePair(pieces[0]);
      (if p.0 == key then [p.1] else []) + Values(pieces[1..], key)
  }

  lemma {:induction false} CollectedIsStable(pieces: seq<seq<byte>>, ps: seq<Param>, key: seq<byte>)
    requires IsMultimap(ps)
    ensures IsMultimap(Collected(pieces, ps))
    ensures Under(Collected(pieces, ps), key) == Under(ps, key) + Values(pieces, key)
  {
    if pieces == [] {
      assert Under(ps, key) + [] == Under(ps, key);
    } else {
      var p := ParsePair(pieces[0]);
      EmplaceKeepsOrder(ps, p);
      EmplaceAppends(ps, p, key);
      CollectedIsStable(pieces[1..], Emplace(ps, p), key);
      Assoc(Under(ps, key), if p.0 == key then [p.1] else [], Values(pieces[1..], key));
    }
  }

  /** For any text: parameters come ordered by key, and under each key are the values of its
      parameters in the order of the text. */
  lemma ParseIsStable(s: seq<byte>, key: seq<byte>)
    ensures IsMultimap(Parse(s)) && Under(Parse(s), key) == Values(Split(s, '&'), key)
  {
    CollectedIsStable(Split(s, '&'), [], key);
    assert Under<seq<byte>>([], key) + Values(Split(s, '&'), key) == Values(Split(s, '&'), key);
  }
}
