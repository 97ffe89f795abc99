/** `std::multimap` with string keys, as a list of its entries in order. */
module Multimap {
  import opened Prelude

  /** operator< of std::string. */
  predicate Less(a: seq<byte>, b: seq<byte>) {
    b != [] && (a == [] || a[0] < b[0] || (a[0] == b[0] && Less(a[1..], b[1..])))
  }

  /** The strings agree up to k, and there a ends or has the smaller byte. */
  ghost predicate DiffersAt(a: seq<byte>, b: seq<byte>, k: nat) {
    && k <= |a| && k < |b| && (forall i | 0 <= i < k :: a[i] == b[i])
    && (k == |a| || a[k] < b[k])
  }

  /** Less is the order of a dictionary. */
  lemma {:induction false} LessExactly(a: seq<byte>, b: seq<byte>)
    ensures Less(a, b) <==> exists k: nat :: DiffersAt(a, b, k)
  {
    if a == [] || b == [] || a[0] != b[0] {
      assert Less(a, b) ==> DiffersAt(a, b, 0);
    } else {
      LessExactly(a[1..], b[1..]);
      if k: nat :| DiffersAt(a[1..], b[1..], k) {
        assert DiffersAt(a, b, k + 1);
      }
      if k: nat :| DiffersAt(a, b, k) {
        assert DiffersAt(a[1..], b[1..], k - 1);
      }
    }
  }

  /** Ordered by key, equal keys in insertion order. */
  ghost predicate IsMultimap<V>(ps: seq<(seq<byte>, V)>) {
    forall i, j | 0 <= i < j < |ps| :: !Less(ps[j].0, ps[i].0)
  }

  function Emplace<V>(ps: seq<(seq<byte>, V)>, p: (seq<byte>, V)): seq<(seq<byte>, V)> {
    if ps == [] || Less(p.0, ps[0].0) then [p] + ps else [ps[0]] + Emplace(ps[1..], p)
  }

  lemma {:induction false} EmplaceLast<V>(ps: seq<(seq<byte>, V)>, p: (seq<byte>, V))
    requires forall i | 0 <= i < |ps| :: !Less(p.0, ps[i].0)
    ensures Emplace(ps, p) == ps + [p]
  {
    if ps != [] {
      EmplaceLast(ps[1..], p);
    }
  }

  method emplace<V>(ps: seq<(seq<byte>, V)>, p: (seq<byte>, V)) returns (r: seq<(seq<byte>, V)>)
    ensures r == Emplace(ps, p)
  {
    var i := 0;
    while i < |ps| && !Less(p.0, ps[i].0)
      invariant 0 <= i <= |ps|
      invariant Emplace(ps, p) == ps[..i] + Emplace(ps[i..], p)
      decreases |ps| - i
    {
      assert ps[i..][1..] == ps[i + 1..] && ps[..i] + [ps[i]] == ps[..i + 1];
      Assoc(ps[..i], [ps[i]], Emplace(ps[i + 1..], p));
      i := i + 1;
    }
    Assoc(ps[..i], [p], ps[i..]);
    r := ps[..i] + [p] + ps[i..];
  }

  // ---------- what emplace promises ----------

  /** The entries of one key, in order. */
  function Under<V>(ps: seq<(seq<byte>, V)>, key: seq<byte>): seq<V> {
    if ps == [] then [] else (if ps[0].0 == key then [ps[0].1] else []) + Under(ps[1..], key)
  }

  lemma UnderCons<V>(p: (seq<byte>, V), ps: seq<(seq<byte>, V)>, key: seq<byte>)
    ensures Under([p] + ps, key) == (if p.0 == key then [p.1] else []) + Under(ps, key)
  {
    assert ([p] + ps)[1..] == ps;
  }

  lemma {:induction false} UnderGreater<V>(ps: seq<(seq<byte>, V)>, key: seq<byte>)
    requires forall i | 0 <= i < |ps| :: Less(key, ps[i].0)
    ensures Under(ps, key) == []
  {
    if ps != [] {
      LessIsStrict(key);
      UnderGreater(ps[1..], key);
    }
  }

  lemma {:induction false} LessIsStrict(a: seq<byte>)
    ensures !Less(a, a)
  {
    if a != [] {
      LessIsStrict(a[1..]);
    }
  }

  lemma {:induction false} LessThanBoth(p: seq<byte>, a: seq<byte>, b: seq<byte>)
    requires Less(p, a) && !Less(b, a)
    ensures Less(p, b) && !Less(b, p)
  {
    if p != [] && b != [] && p[0] == a[0] == b[0] {
      LessThanBoth(p[1..], a[1..], b[1..]);
    }
  }

  lemma TailIsMultimap<V>(ps: seq<(seq<byte>, V)>)
    requires IsMultimap(ps) && ps != []
    ensures IsMultimap(ps[1..]) && forall i | 0 <= i < |ps| :: !Less(ps[i].0, ps[0].0)
  {
    LessIsStrict(ps[0].0);
  }

  lemma InFront<V>(ps: seq<(seq<byte>, V)>, key: seq<byte>)
    requires IsMultimap(ps) && ps != [] && Less(key, ps[0].0)
    ensures forall i | 0 <= i < |ps| :: Less(key, ps[i].0) && !Less(ps[i].0, key)
  {
    TailIsMultimap(ps);
    forall i | 0 <= i < |ps|
      ensures Less(key, ps[i].0) && !Less(ps[i].0, key)
    {
      LessThanBoth(key, ps[0].0, ps[i].0);
    }
  }

  /** A new entry goes behind the others of its key, and leaves the other keys alone. */
  lemma {:induction false} EmplaceAppends<V>(ps: seq<(seq<byte>, V)>, p: (seq<byte>, V), key: seq<byte>)
    requires IsMultimap(ps)
    ensures Under(Emplace(ps, p), key) == Under(ps, key) + if p.0 == key then [p.1] else []
  {
    if ps == [] {
      UnderCons(p, ps, key);
    } else if Less(p.0, ps[0].0) {
      UnderCons(p, ps, key);
      InFront(ps, p.0);
      if p.0 == key {
        UnderGreater(ps, key);
      }
    } else {
      TailIsMultimap(ps);
      EmplaceAppends(ps[1..], p, key);
      UnderCons(ps[0], Emplace(ps[1..], p), key);
    }
  }

  lemma {:induction false} EmplaceKeys<V>(ps: seq<(seq<byte>, V)>, p: (seq<byte>, V))
    ensures forall q | q in Emplace(ps, p) :: q == p || q in ps
  {
    if ps != [] && !Less(p.0, ps[0].0) {
      EmplaceKeys(ps[1..], p);
    }
  }

  lemma ConsIsMultimap<V>(p: (seq<byte>, V), ps: seq<(seq<byte>, V)>)
    requires IsMultimap(ps) && forall q | q in ps :: !Less(q.0, p.0)
    ensures IsMultimap([p] + ps)
  {
    var all := [p] + ps;
    forall i, j | 0 <= i < j < |all|
      ensures !Less(all[j].0, all[i].0)
    {
      assert all[j] == ps[j - 1] && ps[j - 1] in ps;
      assert i > 0 ==> all[i] == ps[i - 1];
    }
  }

  lemma {:induction false} EmplaceKeepsOrder<V>(ps: seq<(seq<byte>, V)>, p: (seq<byte>, V))
    requires IsMultimap(ps)
    ensures IsMultimap(Emplace(ps, p))
  {
    if ps == [] {
    } else if Less(p.0, ps[0].0) {
      InFront(ps, p.0);
      ConsIsMultimap(p, ps);
    } else {
      TailIsMultimap(ps);
      EmplaceKeepsOrder(ps[1..], p);
      EmplaceKeys(ps[1..], p);
      ConsIsMultimap(ps[0], Emplace(ps[1..], p));
    }
  }
}
