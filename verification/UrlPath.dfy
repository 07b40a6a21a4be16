/** The normal form of a path: no empty segments inside, no dot segments. */
module UrlPath {
  import opened Prelude
  import opened UrlText
  import Segments

  /** The segments between the slashes. */
  function Pieces(s: Bytes): (ps: seq<Bytes>)
    ensures |ps| >= 1
  {
    Segments.Pieces(s, SLASH)
  }

  function Join(es: seq<Bytes>): Bytes { Segments.Join(es, SLASH) }

  predicate IsDot(e: Bytes) { e == [DOT] }
  predicate IsDots(e: Bytes) { e == [DOT, DOT] }

  function Pop(es: seq<Bytes>): seq<Bytes>
  {
    if es == [] then [] else es[..|es| - 1]
  }

  /** A segment with a slash behind it. */
  function Put(es: seq<Bytes>, e: Bytes): seq<Bytes>
  {
    if e == [] || IsDot(e) then es else if IsDots(e) then Pop(es) else es + [e]
  }

  /** The last segment. */
  function PutLast(es: seq<Bytes>, e: Bytes): seq<Bytes>
  {
    if IsDot(e) then es + [[]] else if IsDots(e) then Pop(es) else es + [e]
  }

  function Walk(es: seq<Bytes>, ps: seq<Bytes>): seq<Bytes>
    requires |ps| >= 1
    decreases |ps|
  {
    if |ps| == 1 then PutLast(es, ps[0]) else Walk(Put(es, ps[0]), ps[1..])
  }

  predicate IsRooted(s: Bytes) { s != [] && s[0] == SLASH }

  function Normalize(s: Bytes): Bytes
  {
    if s == [] then []
    else (if IsRooted(s) then [SLASH] else []) + Join(Walk([], Pieces(s)))
  }

  // ---------------------------------------------------------------- segments

  ghost predicate NoSlash(e: Bytes) { Segments.Lacks(e, SLASH) }

  ghost predicate Solid(e: Bytes) { NoSlash(e) && e != [] && !IsDot(e) && !IsDots(e) }

  ghost predicate AllSolid(es: seq<Bytes>)
  {
    forall i: nat :: i < |es| ==> Solid(es[i])
  }

  /** Only the last segment may be empty: it is what is behind a slash at the end. */
  ghost predicate Neat(es: seq<Bytes>)
  {
    es == [] || (AllSolid(es[..|es| - 1]) && (es[|es| - 1] == [] || Solid(es[|es| - 1])))
  }

  ghost predicate AllNoSlash(ps: seq<Bytes>) { Segments.AllLack(ps, SLASH) }

  lemma {:induction false} WalkIsNeat(es: seq<Bytes>, ps: seq<Bytes>)
    requires |ps| >= 1 && AllSolid(es) && AllNoSlash(ps)
    ensures Neat(Walk(es, ps))
    decreases |ps|
  {
    hide IsDot, IsDots;
    if |ps| > 1 {
      WalkIsNeat(Put(es, ps[0]), ps[1..]);
    } else {
      PutLastIsNeat(es, ps[0]);
    }
  }

  lemma PutLastIsNeat(es: seq<Bytes>, e: Bytes)
    requires AllSolid(es) && NoSlash(e)
    ensures Neat(PutLast(es, e))
  {
    var r := PutLast(es, e);
    if IsDots(e) && es != [] {
      assert Solid(es[|es| - 1 - 0]);
    } else if !IsDots(e) {
      assert r[..|r| - 1] == es;
    }
  }

  // ---------------------------------------------------------------- a normal form

  lemma {:induction false} WalkOfNeat(es: seq<Bytes>, ps: seq<Bytes>)
    requires ps != [] && Neat(ps)
    ensures Walk(es, ps) == es + ps
    decreases |ps|
  {
    hide IsDot, IsDots;
    if |ps| == 1 {
      EmptyIsNoDot();
    } else {
      assert Solid(ps[..|ps| - 1][0]);
      assert ps[1..][..|ps| - 2] == ps[..|ps| - 1][1..];
      WalkOfNeat(es + [ps[0]], ps[1..]);
      Assoc(es, [ps[0]], ps[1..]);
      assert ps == [ps[0]] + ps[1..];
    }
  }

  lemma EmptyIsNoDot()
    ensures !IsDot([]) && !IsDots([])
  {
  }

  lemma NeatHasNoSlash(es: seq<Bytes>)
    requires Neat(es)
    ensures AllNoSlash(es)
  {
    forall i: nat | i < |es| ensures NoSlash(es[i]) {
      if i < |es| - 1 {
        assert Solid(es[..|es| - 1][i]);
      }
    }
  }

  lemma SegmentsAreNeat(s: Bytes)
    ensures Neat(Walk([], Pieces(s)))
  {
    Segments.PiecesLack(s, SLASH);
    WalkIsNeat([], Pieces(s));
  }

  lemma JoinStarts(es: seq<Bytes>)
    requires es != [] && Neat(es)
    ensures !IsRooted(Join(es))
    ensures es[0] == [] <==> Join(es) == []
    ensures es[0] == [] ==> |es| == 1
  {
    NeatHasNoSlash(es);
    if |es| > 1 {
      assert Solid(es[..|es| - 1][0]);
    }
  }

  lemma RootedPieces(x: Bytes)
    ensures Pieces([SLASH] + x) == [[]] + Pieces(x)
  {
    Segments.FirstPiece([], x, SLASH);
    assert [] + [SLASH] + x == [SLASH] + x;
  }

  lemma RootedWalk(x: Bytes)
    ensures Walk([], Pieces([SLASH] + x)) == Walk([], Pieces(x))
  {
    hide Segments.Pieces;
    RootedPieces(x);
    EmptyIsNoDot();
    assert ([[]] + Pieces(x))[1..] == Pieces(x);
  }

  lemma NormalizeShape(s: Bytes)
    ensures IsRooted(Normalize(s)) <==> IsRooted(s)
    ensures !(|Normalize(s)| >= 2 && Normalize(s)[0] == SLASH && Normalize(s)[1] == SLASH)
  {
    if s != [] {
      var es := Walk([], Pieces(s));
      SegmentsAreNeat(s);
      if es != [] {
        JoinStarts(es);
      }
    }
  }

  /** Normalizing a second time changes nothing. */
  lemma NormalizeIsIdempotent(s: Bytes)
    ensures Normalize(Normalize(s)) == Normalize(s)
  {
    hide Walk, Segments.Pieces, Neat;
    if s != [] {
      var es := Walk([], Pieces(s));
      SegmentsAreNeat(s);
      if es == [] {
        NormalizeRoot();
      } else {
        NeatHasNoSlash(es);
        Segments.PiecesJoin(es, SLASH);
        WalkOfNeat([], es);
        assert [] + es == es;
        JoinStarts(es);
        RootedWalk(Join(es));
        assert [] + Join(es) == Join(es);
      }
    }
  }

  lemma NormalizeRoot()
    ensures Normalize([SLASH]) == [SLASH]
  {
    assert [SLASH] + [] == [SLASH];
    RootedWalk([]);
    EmptyIsNoDot();
    var nothing: Bytes := [];
    assert Pieces(nothing) == [nothing];
  }

  /** The text behind the root. */
  function Relative(s: Bytes): Bytes
  {
    if IsRooted(s) then s[1..] else s
  }

  /** No dot segment is left, and an empty one only behind a slash at the end. */
  lemma NormalizeLeavesNoDots(s: Bytes)
    ensures Neat(Pieces(Relative(Normalize(s))))
  {
    hide Walk, Segments.Pieces;
    NormalizeShape(s);
    PiecesOfNothing();
    if s != [] {
      var es := Walk([], Pieces(s));
      SegmentsAreNeat(s);
      assert Relative(Normalize(s)) == Join(es);
      if es != [] {
        NeatHasNoSlash(es);
        Segments.PiecesJoin(es, SLASH);
      }
    }
  }

  lemma PiecesOfNothing()
    ensures Pieces([]) == [[]] && Neat(Pieces([]))
  {
  }

  /** A path without dot segments and inner empty segments is left alone. */
  lemma NormalizeKeepsNeat(s: Bytes)
    requires s != [] && Neat(Pieces(Relative(s)))
    ensures Normalize(s) == s
  {
    hide Walk, Segments.Pieces, Neat;
    var x := Relative(s);
    WalkOfNeat([], Pieces(x));
    assert [] + Pieces(x) == Pieces(x);
    Segments.JoinPieces(x, SLASH);
    if IsRooted(s) {
      assert s == [SLASH] + x;
      RootedWalk(x);
    } else {
      assert [] + x == x;
    }
  }

  function WalkThrough(es: seq<Bytes>, ps: seq<Bytes>): seq<Bytes>
    decreases |ps|
  {
    if ps == [] then es else WalkThrough(Put(es, ps[0]), ps[1..])
  }

  lemma {:induction false} WalkAppend(es: seq<Bytes>, ps: seq<Bytes>, qs: seq<Bytes>)
    requires qs != []
    ensures Walk(es, ps + qs) == Walk(WalkThrough(es, ps), qs)
    decreases |ps|
  {
    hide Put, PutLast;
    if ps == [] {
      assert ps + qs == qs;
    } else {
      assert (ps + qs)[1..] == ps[1..] + qs;
      WalkAppend(Put(es, ps[0]), ps[1..], qs);
    }
  }

  function Between(a: Bytes, b: Bytes): Bytes { a + [SLASH] + b }

  lemma BetweenWalk(a: Bytes, e: Bytes, b: Bytes)
    requires NoSlash(e)
    ensures Walk([], Pieces(Between(a, Between(e, b)))) == Walk(Put(WalkThrough([], Pieces(a)), e), Pieces(b))
    ensures Walk([], Pieces(Between(a, b))) == Walk(WalkThrough([], Pieces(a)), Pieces(b))
  {
    hide Segments.Pieces, Put, PutLast, WalkThrough;
    Segments.PiecesConcat(a, Between(e, b), SLASH);
    Segments.FirstPiece(e, b, SLASH);
    WalkAppend([], Pieces(a), [e] + Pieces(b));
    assert ([e] + Pieces(b))[1..] == Pieces(b);
    Segments.PiecesConcat(a, b, SLASH);
    WalkAppend([], Pieces(a), Pieces(b));
  }

  /** Dot segments and empty segments may be left out before normalizing. */
  lemma DotMeansNothing(a: Bytes, b: Bytes)
    ensures Normalize(Between(a, Between([DOT], b))) == Normalize(Between(a, b))
    ensures Normalize(Between(a, Between([], b))) == Normalize(Between(a, b))
  {
    hide Pieces, Walk, WalkThrough, Segments.Join;
    BetweenWalk(a, [DOT], b);
    BetweenWalk(a, [], b);
  }

  /** So may a name with two dots behind it. */
  lemma DotsTakeBack(a: Bytes, e: Bytes, b: Bytes)
    requires Solid(e)
    ensures Normalize(Between(a, Between(e, Between([DOT, DOT], b)))) == Normalize(Between(a, b))
  {
    hide Pieces, Walk, WalkThrough, Segments.Join;
    var es := WalkThrough([], Pieces(a));
    BetweenWalk(a, e, Between([DOT, DOT], b));
    DotsWalk(es + [e], b);
    assert (es + [e])[..|es|] == es;
    BetweenWalk(a, e, b);
  }

  lemma DotsWalk(es: seq<Bytes>, b: Bytes)
    ensures Walk(es, Pieces(Between([DOT, DOT], b))) == Walk(Pop(es), Pieces(b))
  {
    hide Segments.Pieces;
    Segments.FirstPiece([DOT, DOT], b, SLASH);
    assert ([[DOT, DOT]] + Pieces(b))[1..] == Pieces(b);
  }

  // ---------------------------------------------------------------- it does not get longer

  /** The length of a path as it is written, percent signs included. */
  function Weight(s: Bytes): nat
  {
    |Encode(Part(PATH), s)|
  }

  lemma {:induction false} WeightAdds(a: Bytes, b: Bytes)
    ensures Weight(a + b) == Weight(a) + Weight(b)
  {
    hide EncodeByte;
    if a == [] {
      assert a + b == b;
    } else {
      assert (a + b)[1..] == a[1..] + b;
      WeightAdds(a[1..], b);
    }
  }

  lemma WeightOfSlash()
    ensures Weight([SLASH]) == 1 && Weight([]) == 0
  {
    hide IsChar;
    MaskMeans(SLASH);
    var slash := [SLASH];
    assert slash[1..] == [];
    assert Encode(Part(PATH), slash) == EncodeByte(Part(PATH), SLASH) + Encode(Part(PATH), slash[1..]);
    assert Encode(Part(PATH), slash[1..]) == [];
    assert Weight(slash) == 1;
  }

  /** Each segment with one slash. */
  function Cost(es: seq<Bytes>): nat
  {
    if es == [] then 0 else Weight(es[0]) + 1 + Cost(es[1..])
  }

  lemma {:induction false} CostAdds(a: seq<Bytes>, b: seq<Bytes>)
    ensures Cost(a + b) == Cost(a) + Cost(b)
  {
    hide Weight;
    if a == [] {
      assert a + b == b;
    } else {
      assert (a + b)[1..] == a[1..] + b;
      CostAdds(a[1..], b);
    }
  }

  lemma {:induction false} WeightOfJoin(es: seq<Bytes>)
    requires es != []
    ensures Weight(Join(es)) + 1 == Cost(es)
  {
    hide Weight;
    if |es| > 1 {
      WeightAdds(es[0] + [SLASH], Join(es[1..]));
      WeightAdds(es[0], [SLASH]);
      WeightOfSlash();
      WeightOfJoin(es[1..]);
    } else {
      assert es[1..] == [];
    }
  }

  lemma CostOfPop(es: seq<Bytes>)
    ensures Cost(Pop(es)) <= Cost(es)
  {
    hide Weight;
    if es != [] {
      CostAdds(Pop(es), [es[|es| - 1]]);
      assert es == Pop(es) + [es[|es| - 1]];
    }
  }

  lemma CostOfOne(e: Bytes)
    ensures Cost([e]) == Weight(e) + 1
  {
    hide Weight;
    assert [e][1..] == [];
  }

  lemma {:induction false} WalkCost(es: seq<Bytes>, ps: seq<Bytes>)
    requires |ps| >= 1
    ensures Cost(Walk(es, ps)) <= Cost(es) + Cost(ps)
    decreases |ps|
  {
    hide Weight, IsDot, IsDots;
    var e := ps[0];
    CostOfPop(es);
    WeightOfSlash();
    CostAdds(es, [e]);
    CostAdds(es, [[]]);
    CostOfOne(e);
    CostOfOne([]);
    if |ps| > 1 {
      WalkCost(Put(es, e), ps[1..]);
    } else {
      assert ps[1..] == [];
    }
  }

  lemma NormalizeIsNoLonger(s: Bytes)
    ensures Weight(Normalize(s)) <= Weight(s)
  {
    hide Weight, Walk;
    if s != [] {
      Segments.JoinPieces(s, SLASH);
      WeightOfJoin(Pieces(s));
      WeightOfSlash();
      var es := Walk([], Pieces(s));
      WeightAdds([SLASH], Join(es));
      assert [] + Join(es) == Join(es);
      if IsRooted(s) {
        var x := s[1..];
        assert s == [SLASH] + x;
        RootedWalk(x);
        WalkCost([], Pieces(x));
        WeightAdds([SLASH], x);
        Segments.JoinPieces(x, SLASH);
        WeightOfJoin(Pieces(x));
      } else {
        WalkCost([], Pieces(s));
      }
      if es != [] {
        WeightOfJoin(es);
      }
    }
  }

  // ---------------------------------------------------------------- the loop

  method NormalizePath(s: Bytes) returns (o: Bytes)
    ensures o == Normalize(s)
  {
    hide Segments.Pieces, Put, PutLast, Segments.Join;
    if s == [] {
      return s;
    }
    var elems: seq<Bytes> := [];
    var b := 0;
    assert s[0..] == s;
    var k := FindChar(s[b..], SLASH);
    while b + k < |s|
      invariant b <= |s| && k == FirstOf(s[b..], [SLASH])
      invariant Walk([], Pieces(s)) == Walk(elems, Pieces(s[b..]))
      decreases |s| - b
    {
      Segments.PiecesFrom(s, b, k, SLASH);
      var elem := s[b..b + k];
      assert Pieces(s[b..])[1..] == Pieces(s[b + k + 1..]);
      elems := PutSegment(elems, elem);
      b := b + k + 1;
      k := FindChar(s[b..], SLASH);
    }
    Segments.PiecesFrom(s, b, k, SLASH);
    elems := PutLastSegment(elems, s[b..]);
    var joined := JoinSegments(elems);
    o := (if s[0] == SLASH then [SLASH] else []) + joined;
  }

  method PutSegment(elems: seq<Bytes>, elem: Bytes) returns (r: seq<Bytes>)
    ensures r == Put(elems, elem)
  {
    r := elems;
    if elem == [] || elem == [DOT] {
      return;
    }
    if elem == [DOT, DOT] {
      if r != [] {
        r := r[..|r| - 1];
      }
      return;
    }
    r := r + [elem];
  }

  method PutLastSegment(elems: seq<Bytes>, elem: Bytes) returns (r: seq<Bytes>)
    ensures r == PutLast(elems, elem)
  {
    r := elems;
    if elem == [DOT] {
      r := r + [[]];
    } else if elem == [DOT, DOT] {
      if r != [] {
        r := r[..|r| - 1];
      }
    } else {
      r := r + [elem];
    }
  }

  method JoinSegments(elems: seq<Bytes>) returns (o: Bytes)
    ensures o == Join(elems)
  {
    o := [];
    if elems != [] {
      o := elems[0];
      var k := 1;
      while k < |elems|
        invariant 1 <= k <= |elems| && o == Join(elems[..k])
      {
        Segments.JoinOneMore(elems[..k], elems[k], SLASH);
        assert elems[..k + 1] == elems[..k] + [elems[k]];
        o := o + [SLASH] + elems[k];
        k := k + 1;
      }
      assert elems[..k] == elems;
    }
  }
}
