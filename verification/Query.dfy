/** Query strings (src/httplib.h): the form body `Client::Post` prints and
    `parse_query_text` reads, both on a multimap of parameters. */
module Query {
  import opened Prelude
  import opened UrlCodec
  import opened Multimap

  // ---------- split ----------

  /** The pieces between the separators; there is always at least one. */
  function Pieces(s: seq<byte>, d: byte): (p: seq<seq<byte>>)
    ensures p != []
  {
    if s == [] then [[]]
    else
      var p := Pieces(s[1..], d);
      if s[0] == d then [[]] + p else [[s[0]] + p[0]] + p[1..]
  }

  /** `split` calls fn for every piece, but not at all for an empty text. */
  function Split(s: seq<byte>, d: byte): seq<seq<byte>> {
    if s == [] then [] else Pieces(s, d)
  }

  function Join(pieces: seq<seq<byte>>, d: byte): seq<byte> {
    if pieces == [] then [] else if |pieces| == 1 then pieces[0] else pieces[0] + ([d] + Join(pieces[1..], d))
  }

  ghost predicate Free(pieces: seq<seq<byte>>, d: byte) {
    forall i | 0 <= i < |pieces| :: d !in pieces[i]
  }

  lemma {:induction false} PiecesWhole(a: seq<byte>, d: byte)
    requires d !in a
    ensures Pieces(a, d) == [a]
  {
    if a != [] {
      PiecesWhole(a[1..], d);
      assert [a[0]] + a[1..] == a;
    }
  }

  lemma {:induction false} PiecesFirst(a: seq<byte>, rest: seq<byte>, d: byte)
    requires d !in a
    ensures Pieces(a + ([d] + rest), d) == [a] + Pieces(rest, d)
  {
    if a == [] {
      assert a + ([d] + rest) == [d] + rest;
      assert ([d] + rest)[1..] == rest;
    } else {
      assert (a + ([d] + rest))[1..] == a[1..] + ([d] + rest);
      PiecesFirst(a[1..], rest, d);
      assert [a[0]] + a[1..] == a;
    }
  }

  /** Splitting undoes joining ... */
  lemma {:induction false} SplitJoin(pieces: seq<seq<byte>>, d: byte)
    requires pieces != [] && Free(pieces, d)
    ensures Pieces(Join(pieces, d), d) == pieces
  {
    if |pieces| == 1 {
      PiecesWhole(pieces[0], d);
    } else {
      assert Free(pieces[1..], d);
      SplitJoin(pieces[1..], d);
      PiecesFirst(pieces[0], Join(pieces[1..], d), d);
    }
  }

  /** ... and joining undoes splitting. */
  lemma {:induction false} JoinSplit(s: seq<byte>, d: byte)
    ensures Join(Pieces(s, d), d) == s && Free(Pieces(s, d), d)
  {
    if s != [] {
      JoinSplit(s[1..], d);
      var p := Pieces(s[1..], d);
      if s[0] == d {
        assert ([[]] + p)[1..] == p;
      } else {
        assert ([[s[0]] + p[0]] + p[1..])[1..] == p[1..];
      }
    }
  }

  lemma CutPiece(s: seq<byte>, beg: nat, i: nat, d: byte)
    requires beg <= i < |s| && s[i] == d && d !in s[beg..i]
    ensures Pieces(s[beg..], d) == [s[beg..i]] + Pieces(s[i + 1..], d)
  {
    assert s[beg..] == s[beg..i] + ([d] + s[i + 1..]);
    PiecesFirst(s[beg..i], s[i + 1..], d);
  }

  /** The index loop of `split`, with the pieces it hands to fn. */
  method split(s: seq<byte>, d: byte) returns (pieces: seq<seq<byte>>)
    ensures pieces == Split(s, d)
  {
    pieces := [];
    var i, beg := 0, 0;
    while i != |s|
      invariant 0 <= beg <= i <= |s| && (i == 0 ==> pieces == [])
      invariant d !in s[beg..i]
      invariant Pieces(s, d) == pieces + Pieces(s[beg..], d)
      decreases |s| - i
    {
      if s[i] == d {
        CutPiece(s, beg, i, d);
        Assoc(pieces, [s[beg..i]], Pieces(s[i + 1..], d));
        pieces := pieces + [s[beg..i]];
        beg := i + 1;
      }
      i := i + 1;
    }
    if i != 0 {
      assert s[beg..] == s[beg..i];
      PiecesWhole(s[beg..], d);
      pieces := pieces + [s[beg..i]];
    }
  }

  // ---------- parse_query_text ----------

  type Param = (seq<byte>, seq<byte>)

  /** The inner callback: the first non-empty piece becomes the key, the last later one the value. */
  function KeyValue(pieces: seq<seq<byte>>, key: seq<byte>, val: seq<byte>): Param {
    if pieces == [] then (key, val)
    else if key == [] then KeyValue(pieces[1..], pieces[0], val)
    else KeyValue(pieces[1..], key, pieces[0])
  }

  function ParsePair(s: seq<byte>): Param {
    var (key, val) := KeyValue(Split(s, '='), [], []);
    (key, Decode(val))
  }

  /** The parameters found in the first pieces, added in order. */
  function Collected(pieces: seq<seq<byte>>, ps: seq<Param>): seq<Param> {
    if pieces == [] then ps else Collected(pieces[1..], Emplace(ps, ParsePair(pieces[0])))
  }

  function Parse(s: seq<byte>): seq<Param> {
    Collected(Split(s, '&'), [])
  }

  method parse_query_text(s: seq<byte>) returns (params: seq<Param>)
    ensures params == Parse(s)
  {
    params := [];
    var pairs := split(s, '&');
    for i := 0 to |pairs|
      invariant Parse(s) == Collected(pairs[i..], params)
    {
      var key, val: seq<byte> := [], [];
      var parts := split(pairs[i], '=');
      for j := 0 to |parts|
        invariant KeyValue(parts, [], []) == KeyValue(parts[j..], key, val)
      {
        assert parts[j..][1..] == parts[j + 1..];
        if key == [] {
          key := parts[j];
        } else {
          val := parts[j];
        }
      }
      val := decode_url(val);
      assert pairs[i..][1..] == pairs[i + 1..];
      params := emplace(params, (key, val));
    }
  }

  // ---------- Client::Post ----------

  function PrintPair(p: Param): seq<byte> {
    p.0 + (['='] + Encode(p.1))
  }

  function PrintAll(ps: seq<Param>): seq<seq<byte>> {
    if ps == [] then [] else [PrintPair(ps[0])] + PrintAll(ps[1..])
  }

  function Print(ps: seq<Param>): seq<byte> {
    Join(PrintAll(ps), '&')
  }

  lemma {:induction false} JoinSnoc(pieces: seq<seq<byte>>, last: seq<byte>, d: byte)
    ensures Join(pieces + [last], d) == if pieces == [] then last else Join(pieces, d) + ([d] + last)
  {
    if pieces == [] {
      assert pieces + [last] == [last];
    } else {
      assert (pieces + [last])[1..] == pieces[1..] + [last];
      JoinSnoc(pieces[1..], last, d);
      if |pieces| > 1 {
        Assoc(pieces[0], [d] + Join(pieces[1..], d), [d] + last);
        Assoc([d], Join(pieces[1..], d), [d] + last);
      }
    }
  }

  lemma {:induction false} PrintAllSnoc(ps: seq<Param>, p: Param)
    ensures PrintAll(ps + [p]) == PrintAll(ps) + [PrintPair(p)]
  {
    if ps == [] {
      assert ps + [p] == [p];
    } else {
      assert (ps + [p])[1..] == ps[1..] + [p];
      PrintAllSnoc(ps[1..], p);
    }
  }

  lemma PrintStep(before: seq<Param>, p: Param)
    ensures Print(before + [p]) == (if before == [] then [] else Print(before) + ['&']) + p.0 + ['='] + Encode(p.1)
  {
    PrintAllSnoc(before, p);
    JoinSnoc(PrintAll(before), PrintPair(p), '&');
    var start := if before == [] then [] else Print(before) + ['&'];
    if before == [] {
      assert Print(before + [p]) == PrintPair(p) == [] + PrintPair(p);
    } else {
      Assoc(Print(before), ['&'], PrintPair(p));
    }
    Assoc(start, p.0, ['='] + Encode(p.1));
    Assoc(start + p.0, ['='], Encode(p.1));
  }

  method PostQuery(params: seq<Param>) returns (query: seq<byte>)
    ensures query == Print(params)
  {
    query := [];
    for it := 0 to |params|
      invariant query == Print(params[..it])
    {
      ghost var before := params[..it];
      PrintStep(before, params[it]);
      assert params[..it + 1] == before + [params[it]];
      if it != 0 {
        query := query + ['&'];
      }
      query := query + params[it].0;
      query := query + ['='];
      var value := encode_url(params[it].1);
      query := query + value;
    }
    assert params[..|params|] == params;
  }

  // ---------- the round trip ----------

  /** A parameter that survives printing and parsing. */
  ghost predicate Printable(p: Param) {
    && p.0 != [] && '&' !in p.0 && '=' !in p.0 && '&' !in p.1 && '=' !in p.1
    && NUL !in p.1 && !HasEscape(p.1)
  }

  lemma {:induction false} EncodeFree(s: seq<byte>, d: byte)
    requires d !in s && d in {'&', '='}
    ensures d !in Encode(s)
  {
    if s != [] && s[0] != NUL {
      EncodeFree(s[1..], d);
      assert d !in EncodeByte(s[0]) by {
        assert d !in UPPER_HEX;
      }
    }
  }

  lemma PairReads(p: Param)
    requires Printable(p)
    ensures ParsePair(PrintPair(p)) == p && '&' !in PrintPair(p)
  {
    EncodeFree(p.1, '=');
    EncodeFree(p.1, '&');
    PiecesFirst(p.0, Encode(p.1), '=');
    PiecesWhole(Encode(p.1), '=');
    var pieces := [p.0] + [Encode(p.1)];
    assert Split(PrintPair(p), '=') == pieces;
    assert pieces[1..] == [Encode(p.1)];
    assert KeyValue(pieces, [], []) == KeyValue([Encode(p.1)], p.0, []) == (p.0, Encode(p.1));
    UrlRoundTrip(p.1);
  }

  /** With an empty key the value becomes the key. */
  lemma EmptyKeyIsLost(v: seq<byte>)
    requires '=' !in v
    ensures ParsePair(PrintPair(([], v))) == (Encode(v), [])
  {
    EncodeFree(v, '=');
    assert PrintPair(([], v)) == [] + (['='] + Encode(v));
    PiecesFirst([], Encode(v), '=');
    PiecesWhole(Encode(v), '=');
    var pieces: seq<seq<byte>> := [[]] + [Encode(v)];
    assert pieces[1..] == [Encode(v)] && pieces[1..][1..] == [];
    assert KeyValue(pieces, [], []) == KeyValue([Encode(v)], [], []) == (Encode(v), []);
  }
}
