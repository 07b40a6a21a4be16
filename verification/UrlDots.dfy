/** Normalizing a path beside the dot segment removal of section 5.2.4 of RFC 3986. */
module UrlDots {
  import opened Prelude
  import opened UrlText
  import opened UrlPath
  import Segments

  // ---------------------------------------------------------------- section 5.2.4

  predicate Begins(s: Bytes, p: Bytes) { p <= s }

  /** Without the last segment and the slash before it. */
  function CutLast(output: Bytes): Bytes
    decreases |output|
  {
    if output == [] then []
    else if output[|output| - 1] == SLASH then output[..|output| - 1]
    else CutLast(output[..|output| - 1])
  }

  /** The first segment, with the slash before it if there is one. */
  function FirstSegment(input: Bytes): (k: nat)
    requires input != []
    ensures 1 <= k <= |input|
  {
    1 + FirstOf(input[1..], [SLASH])
  }

  /** Steps A to E, in their order. */
  function RemoveDots(input: Bytes, output: Bytes): Bytes
    decreases |input|
  {
    if input == [] then output
    else if Begins(input, [DOT, DOT, SLASH]) then RemoveDots(input[3..], output)
    else if Begins(input, [DOT, SLASH]) then RemoveDots(input[2..], output)
    else if Begins(input, [SLASH, DOT, SLASH]) then RemoveDots(input[2..], output)
    else if input == [SLASH, DOT] then RemoveDots([SLASH], output)
    else if Begins(input, [SLASH, DOT, DOT, SLASH]) then RemoveDots(input[3..], CutLast(output))
    else if input == [SLASH, DOT, DOT] then RemoveDots([SLASH], CutLast(output))
    else if input == [DOT] || input == [DOT, DOT] then output
    else
      var k := FirstSegment(input);
      RemoveDots(input[k..], output + input[..k])
  }

  // ---------------------------------------------------------------- the same on segments

  /** A segment with a slash behind it: an empty one counts. */
  function Keep(es: seq<Bytes>, e: Bytes): seq<Bytes>
  {
    if IsDot(e) then es else if IsDots(e) then Pop(es) else es + [e]
  }

  /** The last segment: behind dots there is always a slash. */
  function KeepLast(es: seq<Bytes>, e: Bytes): seq<Bytes>
  {
    if IsDot(e) then es + [[]] else if IsDots(e) then Pop(es) + [[]] else es + [e]
  }

  function Remove(es: seq<Bytes>, ps: seq<Bytes>): (r: seq<Bytes>)
    requires |ps| >= 1
    ensures r != []
    decreases |ps|
  {
    if |ps| == 1 then KeepLast(es, ps[0]) else Remove(Keep(es, ps[0]), ps[1..])
  }

  /** A slash before each segment. */
  function Slashed(es: seq<Bytes>): Bytes
  {
    if es == [] then [] else Slashed(es[..|es| - 1]) + [SLASH] + es[|es| - 1]
  }

  lemma SlashedOneMore(es: seq<Bytes>, e: Bytes)
    ensures Slashed(es + [e]) == Slashed(es) + [SLASH] + e
  {
    assert (es + [e])[..|es|] == es;
  }

  lemma {:induction false} CutLastAppend(out: Bytes, e: Bytes)
    requires NoSlash(e)
    ensures CutLast(out + [SLASH] + e) == out
    decreases |e|
  {
    var s := out + [SLASH] + e;
    if e == [] {
      assert s[..|s| - 1] == out;
    } else {
      assert s[..|s| - 1] == out + [SLASH] + e[..|e| - 1];
      CutLastAppend(out, e[..|e| - 1]);
    }
  }

  lemma CutLastPops(es: seq<Bytes>)
    requires AllNoSlash(es)
    ensures CutLast(Slashed(es)) == Slashed(Pop(es))
  {
    hide Slashed, CutLast;
    SlashedNothing();
    if es != [] {
      var e := es[|es| - 1];
      assert es == Pop(es) + [e];
      SlashedOneMore(Pop(es), e);
      CutLastAppend(Slashed(Pop(es)), e);
    }
  }

  lemma SlashedNothing()
    ensures Slashed([]) == [] && CutLast([]) == []
  {
  }

  /** Only a slash is left. */
  lemma RemoveSlash(out: Bytes)
    ensures RemoveDots([SLASH], out) == out + [SLASH]
  {
    var slash: Bytes := [SLASH];
    assert slash[1..] == [] && slash[..1] == slash;
    assert FirstSegment(slash) == 1;
    assert RemoveDots([], out + slash) == out + slash;
  }

  /** Two dots in front, with a slash before them. */
  lemma RemoveTwoDots(rest: Bytes, out: Bytes)
    ensures RemoveDots([SLASH, DOT, DOT, SLASH] + rest, out) == RemoveDots([SLASH] + rest, CutLast(out))
    ensures RemoveDots([SLASH, DOT, DOT], out) == RemoveDots([SLASH], CutLast(out))
  {
    hide CutLast;
    var input := [SLASH, DOT, DOT, SLASH] + rest;
    assert input[2] == DOT && input[1] == DOT && input[0] == SLASH;
    assert input[3..] == [SLASH] + rest;
    var last: Bytes := [SLASH, DOT, DOT];
    assert last[2] == DOT && last != [SLASH, DOT];
  }

  lemma RemoveLastSegment(es: seq<Bytes>, x: Bytes)
    requires AllNoSlash(es) && NoSlash(x)
    ensures RemoveDots([SLASH] + x, Slashed(es)) == Slashed(KeepLast(es, x))
  {
    hide Slashed, CutLast, RemoveDots;
    var input := [SLASH] + x;
    var out := Slashed(es);
    if IsDot(x) {
      assert input == [SLASH, DOT];
      RemoveOneDot([], out);
      RemoveSlash(out);
      SlashedOneMore(es, []);
      assert out + [SLASH] + [] == out + [SLASH];
    } else if IsDots(x) {
      assert input == [SLASH, DOT, DOT];
      RemoveTwoDots([], out);
      RemoveSlash(CutLast(out));
      CutLastPops(es);
      SlashedOneMore(Pop(es), []);
      assert CutLast(out) + [SLASH] + [] == CutLast(out) + [SLASH];
    } else {
      RemoveLastName(x, out);
      SlashedOneMore(es, x);
      Assoc(out, [SLASH], x);
    }
  }

  lemma RemoveLastName(x: Bytes, out: Bytes)
    requires NoSlash(x) && !IsDot(x) && !IsDots(x)
    ensures RemoveDots([SLASH] + x, out) == out + ([SLASH] + x)
  {
    hide FirstOf, IsDot, IsDots, CutLast, Begins;
    var input := [SLASH] + x;
    assert input[1..] == x;
    Segments.EndOfPiece(x, [], SLASH);
    NotDottedAlone(x);
    StepE(input, out, |input|);
    hide RemoveDots;
    assert input[|input|..] == [] && input[..|input|] == input;
    RemoveNothing(out + input);
  }

  lemma RemoveNothing(out: Bytes)
    ensures RemoveDots([], out) == out
  {
  }

  lemma NotDottedAlone(x: Bytes)
    requires NoSlash(x) && !IsDot(x) && !IsDots(x)
    ensures var input := [SLASH] + x;
            && !Begins(input, [SLASH, DOT, SLASH]) && !Begins(input, [SLASH, DOT, DOT, SLASH])
            && input != [SLASH, DOT] && input != [SLASH, DOT, DOT]
  {
    var input := [SLASH] + x;
    assert input[1..] == x;
    assert |x| >= 2 ==> input[2] == x[1];
    assert |x| >= 3 ==> input[3] == x[2];
  }

  lemma NotDotted(e: Bytes, rest: Bytes)
    requires NoSlash(e) && !IsDot(e) && !IsDots(e)
    ensures var input := [SLASH] + (e + [SLASH] + rest);
            && !Begins(input, [SLASH, DOT, SLASH]) && !Begins(input, [SLASH, DOT, DOT, SLASH])
            && input != [SLASH, DOT] && input != [SLASH, DOT, DOT]
  {
    var input := [SLASH] + (e + [SLASH] + rest);
    assert |e| >= 1 ==> input[1] == e[0];
    assert |e| >= 2 ==> input[2] == e[1];
    assert |e| >= 3 ==> input[3] == e[2];
    assert input[1 + |e|] == SLASH;
  }

  /** A segment that is no dot segment moves to the output. */
  lemma RemoveName(e: Bytes, rest: Bytes, out: Bytes)
    requires NoSlash(e) && !IsDot(e) && !IsDots(e)
    ensures RemoveDots([SLASH] + (e + [SLASH] + rest), out) == RemoveDots([SLASH] + rest, out + ([SLASH] + e))
  {
    hide FirstOf, IsDot, IsDots, RemoveDots, Begins;
    var x := e + [SLASH] + rest;
    var input := [SLASH] + x;
    NotDotted(e, rest);
    assert input[1..] == x;
    Segments.EndOfPiece(e, rest, SLASH);
    assert input[..1 + |e|] == [SLASH] + e && input[1 + |e|..] == [SLASH] + rest;
    StepE(input, out, 1 + |e|);
  }

  /** Step E, when none of the others is due. */
  lemma StepE(input: Bytes, out: Bytes, k: nat)
    requires input != [] && input[0] == SLASH && k == FirstSegment(input)
    requires !Begins(input, [SLASH, DOT, SLASH]) && !Begins(input, [SLASH, DOT, DOT, SLASH])
    requires input != [SLASH, DOT] && input != [SLASH, DOT, DOT]
    ensures RemoveDots(input, out) == RemoveDots(input[k..], out + input[..k])
  {
    hide FirstSegment, CutLast;
  }

  lemma RemoveOneDot(rest: Bytes, out: Bytes)
    ensures RemoveDots([SLASH, DOT, SLASH] + rest, out) == RemoveDots([SLASH] + rest, out)
    ensures RemoveDots([SLASH, DOT], out) == RemoveDots([SLASH], out)
  {
    hide CutLast;
    var input := [SLASH, DOT, SLASH] + rest;
    assert input[1] == DOT && input[0] == SLASH && input[2..] == [SLASH] + rest;
    var last: Bytes := [SLASH, DOT];
    assert last[0] == SLASH && last[1] == DOT;
  }

  lemma RemoveFirstSegment(es: seq<Bytes>, e: Bytes, rest: Bytes)
    requires AllNoSlash(es) && NoSlash(e)
    ensures RemoveDots([SLASH] + (e + [SLASH] + rest), Slashed(es)) == RemoveDots([SLASH] + rest, Slashed(Keep(es, e)))
  {
    hide Slashed, CutLast, RemoveDots;
    var input := [SLASH] + (e + [SLASH] + rest);
    var out := Slashed(es);
    if IsDot(e) {
      assert input == [SLASH, DOT, SLASH] + rest;
      RemoveOneDot(rest, out);
    } else if IsDots(e) {
      assert input == [SLASH, DOT, DOT, SLASH] + rest;
      RemoveTwoDots(rest, out);
      CutLastPops(es);
    } else {
      RemoveName(e, rest, out);
      SlashedOneMore(es, e);
      Assoc(out, [SLASH], e);
    }
  }

  /** The steps on the text and on its segments are the same. */
  lemma {:induction false} RemoveOnSegments(es: seq<Bytes>, x: Bytes)
    requires AllNoSlash(es)
    ensures RemoveDots([SLASH] + x, Slashed(es)) == Slashed(Remove(es, Pieces(x)))
    decreases |x|
  {
    hide RemoveDots, Slashed, KeepLast;
    var f := FirstOf(x, [SLASH]);
    Segments.PiecesLack(x, SLASH);
    assert NoSlash(Pieces(x)[0]);
    if f == |x| {
      RemoveLastSegment(es, x);
    } else {
      var e, rest := x[..f], x[f + 1..];
      assert x == e + [SLASH] + rest;
      RemoveFirstSegment(es, e, rest);
      KeepHasNoSlash(es, e);
      RemoveOnSegments(Keep(es, e), rest);
      assert Pieces(x)[1..] == Pieces(rest);
    }
  }

  lemma KeepHasNoSlash(es: seq<Bytes>, e: Bytes)
    requires AllNoSlash(es) && NoSlash(e)
    ensures AllNoSlash(Keep(es, e))
  {
  }

  // ---------------------------------------------------------------- how deep a path goes

  /** Segments left at this point when empty ones count, as in the RFC. */
  function Depth(n: nat, ps: seq<Bytes>): nat
    decreases |ps|
  {
    if ps == [] then n
    else Depth(if IsDot(ps[0]) then n else if IsDots(ps[0]) then (if n == 0 then 0 else n - 1) else n + 1, ps[1..])
  }

  /** And when they do not. */
  function NamesDepth(n: nat, ps: seq<Bytes>): nat
    decreases |ps|
  {
    if ps == [] then n
    else NamesDepth(if ps[0] == [] || IsDot(ps[0]) then n
                    else if IsDots(ps[0]) then (if n == 0 then 0 else n - 1) else n + 1, ps[1..])
  }

  function KeepThrough(es: seq<Bytes>, ps: seq<Bytes>): seq<Bytes>
    decreases |ps|
  {
    if ps == [] then es else KeepThrough(Keep(es, ps[0]), ps[1..])
  }

  lemma {:induction false} KeepDepth(es: seq<Bytes>, ps: seq<Bytes>)
    ensures |KeepThrough(es, ps)| == Depth(|es|, ps)
    decreases |ps|
  {
    if ps != [] {
      KeepDepth(Keep(es, ps[0]), ps[1..]);
    }
  }

  lemma {:induction false} WalkDepth(es: seq<Bytes>, ps: seq<Bytes>)
    ensures |WalkThrough(es, ps)| == NamesDepth(|es|, ps)
    decreases |ps|
  {
    if ps != [] {
      WalkDepth(Put(es, ps[0]), ps[1..]);
    }
  }

  /** The segments of `a` are among those of `b`, in their order. */
  ghost predicate Within(a: seq<Bytes>, b: seq<Bytes>)
    decreases |b|
  {
    if a == [] then true
    else if b == [] then false
    else Within(a, b[..|b| - 1]) || (a[|a| - 1] == b[|b| - 1] && Within(a[..|a| - 1], b[..|b| - 1]))
  }

  lemma {:induction false} WithinIsShorter(a: seq<Bytes>, b: seq<Bytes>)
    requires Within(a, b)
    ensures |a| <= |b| && (|a| == |b| ==> a == b)
    decreases |b|
  {
    if a != [] {
      var b' := b[..|b| - 1];
      if Within(a, b') {
        WithinIsShorter(a, b');
      } else {
        WithinIsShorter(a[..|a| - 1], b');
        assert a == a[..|a| - 1] + [a[|a| - 1]] && b == b' + [b[|b| - 1]];
      }
    }
  }

  lemma {:induction false} WithinPop(a: seq<Bytes>, b: seq<Bytes>)
    requires Within(a, b)
    ensures Within(Pop(a), b) && Within(Pop(a), Pop(b))
    decreases |b|
  {
    if a != [] {
      var b' := b[..|b| - 1];
      if Within(a, b') {
        WithinPop(a, b');
      }
    }
  }

  lemma WithinPush(a: seq<Bytes>, b: seq<Bytes>, e: Bytes)
    requires Within(a, b)
    ensures Within(a, b + [e]) && Within(a + [e], b + [e])
  {
    assert (b + [e])[..|b|] == b && (a + [e])[..|a|] == a;
  }

  /** What normalizing keeps is among what the RFC keeps. */
  lemma {:induction false} NamesAreWithin(a: seq<Bytes>, b: seq<Bytes>, ps: seq<Bytes>)
    requires Within(a, b)
    ensures Within(WalkThrough(a, ps), KeepThrough(b, ps))
    decreases |ps|
  {
    hide Within, IsDot, IsDots;
    if ps != [] {
      EmptyIsNoDot();
      WithinPop(a, b);
      WithinPush(a, b, ps[0]);
      NamesAreWithin(Put(a, ps[0]), Keep(b, ps[0]), ps[1..]);
    }
  }

  lemma {:induction false} WalkEnds(es: seq<Bytes>, ps: seq<Bytes>)
    requires ps != []
    ensures Walk(es, ps) == PutLast(WalkThrough(es, ps[..|ps| - 1]), ps[|ps| - 1])
    decreases |ps|
  {
    hide Put, PutLast;
    if |ps| > 1 {
      assert ps[..|ps| - 1][1..] == ps[1..][..|ps| - 2];
      WalkEnds(Put(es, ps[0]), ps[1..]);
    }
  }

  lemma {:induction false} RemoveEnds(es: seq<Bytes>, ps: seq<Bytes>)
    requires ps != []
    ensures Remove(es, ps) == KeepLast(KeepThrough(es, ps[..|ps| - 1]), ps[|ps| - 1])
    decreases |ps|
  {
    hide Keep, KeepLast;
    if |ps| > 1 {
      assert ps[..|ps| - 1][1..] == ps[1..][..|ps| - 2];
      RemoveEnds(Keep(es, ps[0]), ps[1..]);
    }
  }

  // ---------------------------------------------------------------- when the two agree

  /** Two dots at the end leave nothing before them, or the empty segments change no depth. */
  predicate Agrees(ps: seq<Bytes>)
    requires ps != []
  {
    var init := ps[..|ps| - 1];
    if IsDots(ps[|ps| - 1]) then Depth(0, init) <= 1 else Depth(0, init) == NamesDepth(0, init)
  }

  /** Segments with at least one are told apart by their text. */
  lemma SlashedIsJoined(es: seq<Bytes>)
    requires es != []
    ensures Slashed(es) == [SLASH] + Join(es)
    decreases |es|
  {
    var init, e := es[..|es| - 1], es[|es| - 1];
    assert es == init + [e];
    if init == [] {
      assert Slashed(init) == [];
    } else {
      SlashedIsJoined(init);
      Segments.JoinOneMore(init, e, SLASH);
      Assoc([SLASH], Join(init) + [SLASH], e);
      Assoc([SLASH], Join(init), [SLASH]);
    }
  }

  /** No segments and one empty segment are the same text. */
  function SomeSegments(es: seq<Bytes>): (r: seq<Bytes>)
    ensures r != [] && (es != [] ==> r == es)
  {
    if es == [] then [[]] else es
  }

  lemma SameText(a: seq<Bytes>, b: seq<Bytes>)
    requires AllNoSlash(a) && AllNoSlash(b) && b != []
    ensures [SLASH] + Join(a) == Slashed(b) <==> SomeSegments(a) == b
  {
    hide Slashed, Segments.Join;
    SlashedIsJoined(b);
    var a' := SomeSegments(a);
    JoinOfNone();
    Segments.PiecesJoin(a', SLASH);
    Segments.PiecesJoin(b, SLASH);
    if [SLASH] + Join(a) == Slashed(b) {
      assert ([SLASH] + Join(a))[1..] == Join(a);
      assert ([SLASH] + Join(b))[1..] == Join(b);
    }
  }

  lemma JoinOfNone()
    ensures Join([]) == Join([[]])
  {
  }

  lemma EndsAgree(w: seq<Bytes>, v: seq<Bytes>, e: Bytes)
    requires Within(w, v) && AllSolid(w)
    ensures SomeSegments(PutLast(w, e)) == KeepLast(v, e) <==> if IsDots(e) then |v| <= 1 else |v| == |w|
  {
    hide Within;
    WithinIsShorter(w, v);
    if IsDots(e) {
      var p := Pop(w);
      if p != [] {
        assert Solid(w[|w| - 2]);
        assert p[|p| - 1] != [];
      }
      assert |v| <= 1 ==> p == [] && Pop(v) == [];
    } else {
      var t := if IsDot(e) then [] else e;
      assert w + [t] == v + [t] <==> w == v by {
        assert (w + [t])[..|w + [t]| - 1] == w && (v + [t])[..|v + [t]| - 1] == v;
      }
    }
  }

  lemma {:induction false} WalkThroughIsSolid(es: seq<Bytes>, ps: seq<Bytes>)
    requires AllSolid(es) && AllNoSlash(ps)
    ensures AllSolid(WalkThrough(es, ps))
    decreases |ps|
  {
    hide IsDot, IsDots;
    if ps != [] {
      assert NoSlash(ps[0]);
      WalkThroughIsSolid(Put(es, ps[0]), ps[1..]);
    }
  }

  lemma {:induction false} RemoveHasNoSlash(es: seq<Bytes>, ps: seq<Bytes>)
    requires ps != [] && AllNoSlash(es) && AllNoSlash(ps)
    ensures AllNoSlash(Remove(es, ps))
    decreases |ps|
  {
    assert NoSlash(ps[0]);
    if |ps| > 1 {
      KeepHasNoSlash(es, ps[0]);
      RemoveHasNoSlash(Keep(es, ps[0]), ps[1..]);
    }
  }

  /** On rooted paths, normalizing removes dot segments as the RFC does exactly when the depths say so. */
  lemma AgreesWithRfc(s: Bytes)
    requires IsRooted(s)
    ensures Normalize(s) == RemoveDots(s, []) <==> Agrees(Pieces(s[1..]))
  {
    hide Segments.Pieces, RemoveDots, Slashed, Segments.Join, KeepLast, PutLast, Within;
    var x := s[1..];
    assert s == [SLASH] + x;
    var ps := Pieces(x);
    var init := ps[..|ps| - 1];
    Segments.PiecesLack(x, SLASH);
    SlashedNothing();
    RemoveOnSegments([], x);
    RootedWalk(x);
    SegmentsAreNeat(x);
    NeatHasNoSlash(Walk([], ps));
    RemoveHasNoSlash([], ps);
    SameText(Walk([], ps), Remove([], ps));
    WalkEnds([], ps);
    RemoveEnds([], ps);
    NothingIsWithin();
    NamesAreWithin([], [], init);
    WalkThroughIsSolid([], init);
    EndsAgree(WalkThrough([], init), KeepThrough([], init), ps[|ps| - 1]);
    KeepDepth([], init);
    WalkDepth([], init);
  }

  lemma NothingIsWithin()
    ensures Within([], [])
  {
  }

  // ---------------------------------------------------------------- two families, and paths of them

  predicate NoEmpty(ps: seq<Bytes>)
  {
    forall i: nat :: i < |ps| ==> ps[i] != []
  }

  predicate NoDots(ps: seq<Bytes>)
  {
    forall i: nat :: i < |ps| ==> !IsDots(ps[i])
  }

  lemma {:induction false} SameDepth(n: nat, ps: seq<Bytes>)
    requires NoEmpty(ps)
    ensures Depth(n, ps) == NamesDepth(n, ps)
    decreases |ps|
  {
    if ps != [] {
      assert ps[0] != [];
      SameDepth(if IsDot(ps[0]) then n else if IsDots(ps[0]) then (if n == 0 then 0 else n - 1) else n + 1, ps[1..]);
    }
  }

  /** Without empty segments inside, the two differ exactly in two dots at the end with segments left over. */
  lemma AgreesWithoutEmpty(s: Bytes)
    requires IsRooted(s)
    requires var ps := Pieces(s[1..]); NoEmpty(ps[..|ps| - 1])
    ensures var ps := Pieces(s[1..]);
            Normalize(s) == RemoveDots(s, []) <==> !(IsDots(ps[|ps| - 1]) && Depth(0, ps[..|ps| - 1]) > 1)
  {
    hide Normalize, RemoveDots, Pieces;
    var ps := Pieces(s[1..]);
    AgreesWithRfc(s);
    SameDepth(0, ps[..|ps| - 1]);
  }

  lemma {:induction false} EmptyIsDeeper(n: nat, m: nat, ps: seq<Bytes>)
    requires NoDots(ps) && m <= n
    ensures NamesDepth(m, ps) <= Depth(n, ps) && (NamesDepth(m, ps) == Depth(n, ps) <==> m == n && NoEmpty(ps))
    decreases |ps|
  {
    if ps != [] {
      var e := ps[0];
      EmptyIsNoDot();
      assert !IsDots(e);
      EmptyIsDeeper(if IsDot(e) then n else n + 1, if e == [] || IsDot(e) then m else m + 1, ps[1..]);
      assert NoEmpty(ps) <==> e != [] && NoEmpty(ps[1..]) by {
        assert forall i: nat :: 0 < i < |ps| ==> ps[i] == ps[1..][i - 1];
      }
    }
  }

  /** Without two dots, they differ exactly where there are empty segments inside. */
  lemma AgreesWithoutDots(s: Bytes)
    requires IsRooted(s) && NoDots(Pieces(s[1..]))
    ensures var ps := Pieces(s[1..]); Normalize(s) == RemoveDots(s, []) <==> NoEmpty(ps[..|ps| - 1])
  {
    hide Normalize, RemoveDots, Pieces, IsDots;
    var ps := Pieces(s[1..]);
    AgreesWithRfc(s);
    EmptyIsDeeper(0, 0, ps[..|ps| - 1]);
  }

  const NAME_A: Bytes := ['a' as int]
  const NAME_B: Bytes := ['b' as int]
  const TWO_DOTS: Bytes := [DOT, DOT]

  function PathOf(ps: seq<Bytes>): Bytes { [SLASH] + Join(ps) }

  lemma PathAgrees(ps: seq<Bytes>)
    requires ps != [] && AllNoSlash(ps)
    ensures IsRooted(PathOf(ps)) && (Normalize(PathOf(ps)) == RemoveDots(PathOf(ps), []) <==> Agrees(ps))
  {
    hide Normalize, RemoveDots, Segments.Pieces, Segments.Join, Agrees;
    var s := PathOf(ps);
    assert s[1..] == Join(ps);
    Segments.PiecesJoin(ps, SLASH);
    AgreesWithRfc(s);
  }

  /** /a/.. ends in two dots and agrees, /a/b/.. and /a//b do not, and /a//../../b has an empty segment and agrees. */
  lemma PathsThatAgree()
    ensures Normalize(PathOf([NAME_A, TWO_DOTS])) == RemoveDots(PathOf([NAME_A, TWO_DOTS]), [])
    ensures Normalize(PathOf([NAME_A, NAME_B, TWO_DOTS])) != RemoveDots(PathOf([NAME_A, NAME_B, TWO_DOTS]), [])
    ensures Normalize(PathOf([NAME_A, [], NAME_B])) != RemoveDots(PathOf([NAME_A, [], NAME_B]), [])
    ensures Normalize(PathOf([NAME_A, [], TWO_DOTS, TWO_DOTS, NAME_B])) ==
            RemoveDots(PathOf([NAME_A, [], TWO_DOTS, TWO_DOTS, NAME_B]), [])
  {
    hide Normalize, RemoveDots, PathOf;
    EmptyIsNoDot();
    PathAgrees([NAME_A, TWO_DOTS]);
    PathAgrees([NAME_A, NAME_B, TWO_DOTS]);
    PathAgrees([NAME_A, [], NAME_B]);
    PathAgrees([NAME_A, [], TWO_DOTS, TWO_DOTS, NAME_B]);
    ShallowPaths();
  }

  lemma ShallowPaths()
    ensures Agrees([NAME_A, TWO_DOTS]) && !Agrees([NAME_A, NAME_B, TWO_DOTS]) && !Agrees([NAME_A, [], NAME_B])
    ensures Agrees([NAME_A, [], TWO_DOTS, TWO_DOTS, NAME_B])
  {
    EmptyIsNoDot();
    assert !IsDots(NAME_A) && !IsDot(NAME_A) && !IsDots(NAME_B) && !IsDot(NAME_B) && IsDots(TWO_DOTS) && !IsDot(TWO_DOTS);
    DepthOfTwo(NAME_A, NAME_B);
    DepthOfTwo(NAME_A, []);
    var ps := [NAME_A, [], TWO_DOTS, TWO_DOTS];
    assert [NAME_A, [], TWO_DOTS, TWO_DOTS, NAME_B][..4] == ps;
    var rest := [TWO_DOTS, TWO_DOTS];
    assert ps[1..][1..] == rest && rest[1..] == [TWO_DOTS] && [TWO_DOTS][1..] == [];
    assert Depth(2, rest) == Depth(1, [TWO_DOTS]) == Depth(0, []);
    assert NamesDepth(1, rest) == NamesDepth(0, [TWO_DOTS]) == NamesDepth(0, []);
    assert [NAME_A, TWO_DOTS][..1] == [NAME_A] && [NAME_A][1..] == [];
    assert [NAME_A, NAME_B, TWO_DOTS][..2] == [NAME_A, NAME_B];
    assert [NAME_A, [], NAME_B][..2] == [NAME_A, []];
  }

  lemma DepthOfTwo(a: Bytes, b: Bytes)
    requires a != [] && !IsDot(a) && !IsDots(a) && !IsDot(b) && !IsDots(b)
    ensures Depth(0, [a, b]) == 2 && NamesDepth(0, [a, b]) == if b == [] then 1 else 2
  {
    assert [a, b][1..] == [b] && [b][1..] == [];
    assert Depth(1, [b]) == 2;
    assert NamesDepth(1, [b]) == if b == [] then 1 else 2;
  }
}
