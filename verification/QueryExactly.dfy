/** Which parameter multimaps survive printing and parsing: exactly those whose every
    parameter is printable, or entirely empty. */
module QueryExactly {
  import opened Prelude
  import opened UrlCodec
  import opened Multimap
  import opened Query

  /** `=` alone reads back as the empty parameter. */
  ghost predicate Survives(p: Param) {
    p == ([], []) || Printable(p)
  }

  // ---------- survivors come back ----------

  lemma SurvivorReads(p: Param)
    requires Survives(p)
    ensures ParsePair(PrintPair(p)) == p && '&' !in PrintPair(p) && PrintPair(p) != []
  {
    if Printable(p) {
      PairReads(p);
    } else {
      EmptyKeyIsLost([]);
    }
  }

  lemma PrintAllRest(ps: seq<Param>)
    requires ps != [] && Free(PrintAll(ps[1..]), '&') && '&' !in PrintPair(ps[0])
    ensures PrintAll(ps)[0] == PrintPair(ps[0]) && PrintAll(ps)[1..] == PrintAll(ps[1..]) && Free(PrintAll(ps), '&')
  {
    FreeCons(PrintPair(ps[0]), PrintAll(ps[1..]), '&');
  }

  lemma FreeCons(x: seq<byte>, xs: seq<seq<byte>>, d: byte)
    requires d !in x && Free(xs, d)
    ensures Free([x] + xs, d) && ([x] + xs)[0] == x && ([x] + xs)[1..] == xs
  {
    forall i | 0 <= i < |[x] + xs|
      ensures d !in ([x] + xs)[i]
    {
      assert i > 0 ==> ([x] + xs)[i] == xs[i - 1];
    }
  }

  lemma NextIsLast(done: seq<Param>, ps: seq<Param>)
    requires IsMultimap(done + ps) && ps != []
    ensures forall i | 0 <= i < |done| :: !Less(ps[0].0, done[i].0)
  {
    forall i | 0 <= i < |done|
      ensures !Less(ps[0].0, done[i].0)
    {
      assert (done + ps)[i] == done[i] && (done + ps)[|done|] == ps[0];
    }
  }

  lemma CollectOne(piece: seq<byte>, pieces: seq<seq<byte>>, done: seq<Param>)
    requires forall i | 0 <= i < |done| :: !Less(ParsePair(piece).0, done[i].0)
    ensures Collected([piece] + pieces, done) == Collected(pieces, done + [ParsePair(piece)])
  {
    EmplaceLast(done, ParsePair(piece));
    assert ([piece] + pieces)[1..] == pieces;
  }

  lemma NextPrinted(ps: seq<Param>)
    requires ps != []
    ensures PrintAll(ps) == [PrintPair(ps[0])] + PrintAll(ps[1..])
  {
  }

  lemma CollectStep(ps: seq<Param>, done: seq<Param>)
    requires IsMultimap(done + ps) && ps != [] && Survives(ps[0])
    ensures Collected(PrintAll(ps), done) == Collected(PrintAll(ps[1..]), done + [ps[0]])
  {
    SurvivorReads(ps[0]);
    NextIsLast(done, ps);
    NextPrinted(ps);
    CollectOne(PrintPair(ps[0]), PrintAll(ps[1..]), done);
  }

  lemma {:induction false} CollectSurvivors(ps: seq<Param>, done: seq<Param>)
    requires IsMultimap(done + ps) && forall p | p in ps :: Survives(p)
    ensures Collected(PrintAll(ps), done) == done + ps
  {
    if ps == [] {
      assert done + ps == done;
    } else {
      CollectStep(ps, done);
      Assoc(done, [ps[0]], ps[1..]);
      assert [ps[0]] + ps[1..] == ps;
      CollectSurvivors(ps[1..], done + [ps[0]]);
    }
  }

  lemma {:induction false} SurvivorsAreFree(ps: seq<Param>)
    requires forall p | p in ps :: Survives(p)
    ensures Free(PrintAll(ps), '&') && |PrintAll(ps)| == |ps|
  {
    if ps != [] {
      SurvivorReads(ps[0]);
      SurvivorsAreFree(ps[1..]);
      PrintAllRest(ps);
    }
  }

  lemma SurvivorsComeBack(ps: seq<Param>)
    requires IsMultimap(ps) && forall p | p in ps :: Survives(p)
    ensures Parse(Print(ps)) == ps
  {
    CollectSurvivors(ps, []);
    SurvivorsAreFree(ps);
    assert [] + ps == ps;
    if ps != [] {
      SplitJoin(PrintAll(ps), '&');
      SurvivorReads(ps[0]);
    }
  }

  // ---------- a stray '&' makes too many parameters ----------

  lemma {:induction false} PiecesOfBoth(a: seq<byte>, b: seq<byte>, d: byte)
    ensures |Pieces(a + ([d] + b), d)| == |Pieces(a, d)| + |Pieces(b, d)|
  {
    if a == [] {
      assert a + ([d] + b) == [d] + b && ([d] + b)[1..] == b;
    } else {
      assert (a + ([d] + b))[1..] == a[1..] + ([d] + b);
      PiecesOfBoth(a[1..], b, d);
    }
  }

  lemma {:induction false} OnePieceIsFree(a: seq<byte>, d: byte)
    requires |Pieces(a, d)| == 1
    ensures d !in a
  {
    if a != [] {
      OnePieceIsFree(a[1..], d);
    }
  }

  lemma {:induction false} PiecesOfJoin(xs: seq<seq<byte>>, d: byte)
    requires xs != []
    ensures |Pieces(Join(xs, d), d)| >= |xs|
    ensures |Pieces(Join(xs, d), d)| == |xs| ==> Free(xs, d)
  {
    if |xs| == 1 {
      if |Pieces(xs[0], d)| == 1 {
        OnePieceIsFree(xs[0], d);
      }
    } else {
      PiecesOfBoth(xs[0], Join(xs[1..], d), d);
      PiecesOfJoin(xs[1..], d);
      if |Pieces(Join(xs, d), d)| == |xs| {
        OnePieceIsFree(xs[0], d);
        assert forall i | 1 <= i < |xs| :: xs[i] == xs[1..][i - 1];
      }
    }
  }

  lemma {:induction false} EmplaceSize(ps: seq<Param>, p: Param)
    ensures |Emplace(ps, p)| == |ps| + 1
  {
    if ps != [] && !Less(p.0, ps[0].0) {
      EmplaceSize(ps[1..], p);
    }
  }

  lemma {:induction false} CollectedSize(pieces: seq<seq<byte>>, ps: seq<Param>)
    ensures |Collected(pieces, ps)| == |ps| + |pieces|
  {
    if pieces != [] {
      EmplaceSize(ps, ParsePair(pieces[0]));
      CollectedSize(pieces[1..], Emplace(ps, ParsePair(pieces[0])));
    }
  }

  lemma {:induction false} PrintAllSize(ps: seq<Param>)
    ensures |PrintAll(ps)| == |ps|
    ensures forall i | 0 <= i < |ps| :: PrintAll(ps)[i] == PrintPair(ps[i])
  {
    if ps != [] {
      PrintAllSize(ps[1..]);
    }
  }

  lemma NoStrayAmpersand(ps: seq<Param>)
    requires ps != [] && Parse(Print(ps)) == ps
    ensures Free(PrintAll(ps), '&') && Parse(Print(ps)) == Collected(PrintAll(ps), [])
  {
    PrintAllSize(ps);
    CollectedSize(Split(Print(ps), '&'), []);
    PiecesOfJoin(PrintAll(ps), '&');
    SplitJoin(PrintAll(ps), '&');
  }

  // ---------- what a parsed parameter looks like ----------

  /** A key holds no '=', and an empty key comes with an empty value. */
  predicate Parsed(p: Param) {
    '=' !in p.0 && (p.0 == [] ==> p.1 == [])
  }

  lemma {:induction false} KeyValueShape(pieces: seq<seq<byte>>, key: seq<byte>, val: seq<byte>)
    requires Free(pieces, '=') && '=' !in key && (key == [] ==> val == [])
    ensures Parsed(KeyValue(pieces, key, val))
  {
    if pieces != [] {
      assert '=' !in pieces[0];
      assert forall i | 1 <= i < |pieces| :: pieces[i] == pieces[1..][i - 1];
      assert Free(pieces[1..], '=');
      if key == [] {
        KeyValueShape(pieces[1..], pieces[0], val);
      } else {
        KeyValueShape(pieces[1..], key, pieces[0]);
      }
    }
  }

  lemma ParsePairShape(s: seq<byte>)
    ensures Parsed(ParsePair(s))
  {
    JoinSplit(s, '=');
    KeyValueShape(Split(s, '='), [], []);
  }

  lemma {:induction false} EmplaceParsed(ps: seq<Param>, p: Param)
    requires Parsed(p) && forall q | q in ps :: Parsed(q)
    ensures forall q | q in Emplace(ps, p) :: Parsed(q)
  {
    if ps != [] && !Less(p.0, ps[0].0) {
      assert forall q | q in ps[1..] :: q in ps;
      EmplaceParsed(ps[1..], p);
    }
  }

  lemma {:induction false} CollectedParsed(pieces: seq<seq<byte>>, ps: seq<Param>)
    requires forall q | q in ps :: Parsed(q)
    ensures forall q | q in Collected(pieces, ps) :: Parsed(q)
  {
    if pieces != [] {
      ParsePairShape(pieces[0]);
      EmplaceParsed(ps, ParsePair(pieces[0]));
      CollectedParsed(pieces[1..], Emplace(ps, ParsePair(pieces[0])));
    }
  }

  // ---------- a value that does not survive gets shorter ----------

  /** The last piece of an encoded value is an encoded value, shorter if something was cut off. */
  lemma {:induction false} LastPiece(v: seq<byte>) returns (w: seq<byte>)
    ensures var pieces := Pieces(Encode(v), '='); pieces[|pieces| - 1] == Encode(w)
    ensures |w| <= |v| && (|w| == |v| ==> w == v && '=' !in Encode(v))
  {
    if v == [] || v[0] == NUL {
      w := [];
    } else {
      w := LastPiece(v[1..]);
      LastPieceStep(v);
      if v[0] != '=' && |Pieces(Encode(v[1..]), '=')| == 1 {
        w := v;
      }
    }
  }

  lemma LastPieceStep(v: seq<byte>)
    requires v != [] && v[0] != NUL
    ensures var pieces, rest := Pieces(Encode(v), '='), Pieces(Encode(v[1..]), '=');
            if v[0] != '=' && |rest| == 1 then pieces == [Encode(v)] && '=' !in Encode(v)
            else pieces[|pieces| - 1] == rest[|rest| - 1]
  {
    var rest := Encode(v[1..]);
    if v[0] == '=' {
      assert EncodeByte(v[0]) == ['='] && (['='] + rest)[1..] == rest;
    } else {
      EncodeByteFree(v[0], '=');
      LastBehind(EncodeByte(v[0]), rest, '=');
    }
  }

  lemma EncodeByteFree(c: byte, d: byte)
    requires d in {'&', '='} && c != d
    ensures d !in EncodeByte(c)
  {
    assert d !in UPPER_HEX;
  }

  lemma LastBehind(a: seq<byte>, b: seq<byte>, d: byte)
    requires d !in a
    ensures var p, q := Pieces(a + b, d), Pieces(b, d);
            if |q| == 1 then p == [a + b] && d !in a + b else p[|p| - 1] == q[|q| - 1]
  {
    FirstPieceGrows(a, b, d);
    if |Pieces(b, d)| == 1 {
      OnePieceIsFree(b, d);
      PiecesWhole(a + b, d);
    }
  }

  lemma {:induction false} FirstPieceGrows(a: seq<byte>, b: seq<byte>, d: byte)
    requires d !in a
    ensures Pieces(a + b, d) == [a + Pieces(b, d)[0]] + Pieces(b, d)[1..]
  {
    if a == [] {
      assert a + b == b && a + Pieces(b, d)[0] == Pieces(b, d)[0];
    } else {
      assert (a + b)[1..] == a[1..] + b;
      FirstPieceGrows(a[1..], b, d);
      assert [a[0]] + (a[1..] + Pieces(b, d)[0]) == a + Pieces(b, d)[0];
    }
  }

  lemma {:induction false} LastIsValue(pieces: seq<seq<byte>>, key: seq<byte>, val: seq<byte>)
    requires key != []
    ensures KeyValue(pieces, key, val) == (key, if pieces == [] then val else pieces[|pieces| - 1])
  {
    if pieces != [] {
      LastIsValue(pieces[1..], key, pieces[0]);
    }
  }

  lemma {:induction false} EncodedKeeps(v: seq<byte>, d: byte)
    requires NUL !in v && d in v && !MustEscape(d)
    ensures d in Encode(v)
  {
    if v[0] != d {
      EncodedKeeps(v[1..], d);
    }
  }

  lemma PairShrinks(p: Param)
    requires p.0 != [] && '=' !in p.0 && '&' !in PrintPair(p)
    ensures var r := ParsePair(PrintPair(p));
            |r.1| <= |p.1| && (|r.1| == |p.1| ==> Printable(p))
  {
    var w := LastPiece(p.1);
    var pieces := Pieces(Encode(p.1), '=');
    PiecesFirst(p.0, Encode(p.1), '=');
    assert ([p.0] + pieces)[1..] == pieces;
    LastIsValue(pieces, p.0, []);
    assert ParsePair(PrintPair(p)) == (p.0, Decode(Encode(w)));
    RoundTripLength(w);
    if |Decode(Encode(w))| == |p.1| {
      if '=' in p.1 {
        EncodedKeeps(p.1, '=');
      }
      if '&' in p.1 {
        EncodedKeeps(p.1, '&');
      }
    }
  }

  /** All value bytes of the multimap. */
  function ValueBytes(ps: seq<Param>): nat {
    if ps == [] then 0 else |ps[0].1| + ValueBytes(ps[1..])
  }

  lemma {:induction false} EmplaceBytes(ps: seq<Param>, p: Param)
    ensures ValueBytes(Emplace(ps, p)) == ValueBytes(ps) + |p.1|
  {
    if ps == [] || Less(p.0, ps[0].0) {
      assert ([p] + ps)[1..] == ps;
    } else {
      EmplaceBytes(ps[1..], p);
      assert ([ps[0]] + Emplace(ps[1..], p))[1..] == Emplace(ps[1..], p);
    }
  }

  lemma {:induction false} CollectedBytes(ps: seq<Param>, done: seq<Param>)
    requires Free(PrintAll(ps), '&') && forall p | p in ps :: Parsed(p)
    ensures var total := ValueBytes(Collected(PrintAll(ps), done));
            && total <= ValueBytes(done) + ValueBytes(ps)
            && (total == ValueBytes(done) + ValueBytes(ps) ==> forall p | p in ps :: Survives(p))
  {
    if ps != [] {
      var p, q := ps[0], ParsePair(PrintPair(ps[0]));
      assert p in ps && '&' !in PrintAll(ps)[0];
      assert PrintAll(ps)[1..] == PrintAll(ps[1..]);
      assert forall i | 0 <= i < |PrintAll(ps[1..])| :: PrintAll(ps[1..])[i] == PrintAll(ps)[i + 1];
      assert forall x | x in ps[1..] :: x in ps;
      EmplaceBytes(done, q);
      CollectedBytes(ps[1..], Emplace(done, q));
      if p.0 == [] {
        SurvivorReads(p);
      } else {
        PairShrinks(p);
      }
      assert forall x | x in ps :: x == p || x in ps[1..];
    }
  }

  /** The server reads back the multimap the client printed exactly if every parameter
      survives. */
  lemma QueryRoundTripExactly(ps: seq<Param>)
    requires IsMultimap(ps)
    ensures Parse(Print(ps)) == ps <==> forall p | p in ps :: Survives(p)
  {
    if forall p | p in ps :: Survives(p) {
      SurvivorsComeBack(ps);
    } else if Parse(Print(ps)) == ps {
      NoStrayAmpersand(ps);
      CollectedParsed(PrintAll(ps), []);
      CollectedBytes(ps, []);
      assert false;
    }
  }
}
