/** The scan that decides whether a text is an IPv6 address. */
module Ipv6Valid {
  import opened Prelude
  import opened UrlText
  import opened Segments
  import opened Ipv6Text
  import opened Ipv6Meaning
  import opened Decimals
  import Url
  import UrlObject

  /**
   What the scan makes of the groups still to come, having seen an empty group or not, so many others,
   and an empty one right before or not.
   */
  predicate Accept(ps: seq<Bytes>, gap: bool, n: nat, prev: bool)
    requires |ps| >= 1
    decreases |ps|
  {
    var t := ps[0];
    if |ps| == 1 then
      if t == [] then prev && n < 8
      else if HasDot(t) then ((!gap && n == 6) || (gap && n < 7)) && IsTail(t)
      else IsGroup(t) && ((!gap && n + 1 == 8) || (gap && n + 1 < 8))
    else if t == [] then !gap && Accept(ps[1..], true, n, true)
    else IsGroup(t) && Accept(ps[1..], gap, n + 1, false)
  }

  predicate IsValid(s: Bytes)
  {
    2 <= |s| <= 39 &&
    if s[0] == COLON then s[1] == COLON && (|s| == 2 || Accept(Pieces(s[2..], COLON), true, 0, false))
    else Accept(Pieces(s, COLON), false, 0, false)
  }

  // ---------------------------------------------------------------- the scan

  /** The state of the scan at a position: a group of hexadecimal digits is being read since b. */
  ghost predicate Reading(s: Bytes, b: nat, p: nat)
  {
    b <= p <= |s| && p - b <= 4 && forall i: nat :: b <= i < p ==> IsHexDigit(s[i])
  }

  predicate Prev(s: Bytes, start: nat, b: nat)
  {
    start < b <= |s| && b >= 2 && s[b - 2] == COLON
  }

  lemma ColonNext(s: Bytes, b: nat, p: nat)
    requires Reading(s, b, p) && p < |s| && s[p] == COLON
    ensures Pieces(s[b..], COLON) == [s[b..p]] + Pieces(s[p + 1..], COLON)
  {
    hide Pieces;
    var k := p - b;
    FirstOfIs(s[b..], [COLON], k);
    PiecesFrom(s, b, k, COLON);
  }

  lemma GroupRead(s: Bytes, b: nat, p: nat)
    requires Reading(s, b, p) && b < p
    ensures IsGroup(s[b..p])
  {
  }

  lemma LastPiece(s: Bytes, b: nat)
    requires b <= |s| && forall i: nat :: b <= i < |s| ==> s[i] != COLON
    ensures Pieces(s[b..], COLON) == [s[b..]]
  {
    OnlyPiece(s[b..], COLON);
  }

  lemma FirstPieceGoesTo(s: Bytes, b: nat, p: nat)
    requires b <= p < |s| && forall i: nat :: b <= i <= p ==> s[i] != COLON
    ensures var ps := Pieces(s[b..], COLON);
            |ps[0]| > p - b && ps[0][..p - b + 1] == s[b..p + 1] && (|ps| == 1 ==> ps[0] == s[b..])
  {
    hide Pieces;
    var k := FirstOf(s[b..], [COLON]);
    PiecesFrom(s, b, k, COLON);
    if b + k < |s| {
      assert s[b..][k] == s[b + k];
    }
  }

  /** At a dot the rest has to be an IPv4 address. */
  lemma AtDot(s: Bytes, b: nat, p: nat, gap: bool, n: nat, prev: bool)
    requires Reading(s, b, p) && p < |s| && s[p] == DOT
    ensures Accept(Pieces(s[b..], COLON), gap, n, prev) <==>
            ((!gap && n == 6) || (gap && n < 7)) && Numbers(s[b..], 4)
  {
    hide Pieces, Numbers, IsHexDigit;
    var ps, t := Pieces(s[b..], COLON), s[b..];
    DotIsNoHex();
    forall i: nat | b <= i <= p ensures s[i] != COLON { }
    FirstPieceGoesTo(s, b, p);
    assert ps[0][p - b] == DOT by { assert s[b..p + 1][p - b] == DOT; }
    FirstOfIs(t, [DOT], p - b);
    if |ps| > 1 {
      assert !IsGroup(ps[0]);
      if Numbers(t, 4) {
        NumbersAreDigitsAndDots(t, 4);
        LastPiece(s, b);
      }
    }
  }

  lemma DotIsNoHex()
    ensures !IsHexDigit(DOT) && !IsHexDigit(COLON)
  {
  }

  /** A fifth digit, or something that is none, is no address. */
  lemma AtOther(s: Bytes, b: nat, p: nat, gap: bool, n: nat, prev: bool)
    requires Reading(s, b, p) && p < |s| && s[p] != DOT && s[p] != COLON && (p - b == 4 || !IsHexDigit(s[p]))
    ensures !Accept(Pieces(s[b..], COLON), gap, n, prev)
  {
    hide Pieces, Numbers, IsHexDigit, FirstOf;
    var ps, t := Pieces(s[b..], COLON), s[b..];
    DotIsNoHex();
    forall i: nat | b <= i <= p ensures s[i] != COLON { }
    FirstPieceGoesTo(s, b, p);
    assert ps[0][p - b] == s[p] by { assert s[b..p + 1][p - b] == s[p]; }
    assert !IsGroup(ps[0]);
    NoTail(s, b, p);
  }

  lemma NoTail(s: Bytes, b: nat, p: nat)
    requires Reading(s, b, p) && p < |s| && s[p] != DOT && (p - b == 4 || !IsHexDigit(s[p]))
    ensures !IsTail(s[b..])
  {
    hide Numbers;
    var t := s[b..];
    var k := FirstOf(t, [DOT]);
    assert t[p - b] == s[p];
    assert k < |t| ==> t[k] == s[b + k];
    if IsTail(t) {
      TailShape(t);
    }
  }

  function AfterNumber(t: Bytes): Option<Bytes>
  {
    match Url.Uint(t, 255)
    case None => None
    case Some(n) => if n < |t| && t[n] == DOT then Some(t[n + 1..]) else None
  }

  method NumberThenDot(t: Bytes) returns (r: Option<Bytes>)
    ensures r == AfterNumber(t)
  {
    hide Url.Uint;
    var end := UrlObject.IsUint(t, 255);
    if end.None? || end.value >= |t| || t[end.value] != DOT {
      return None;
    }
    return Some(t[end.value + 1..]);
  }

  lemma NumbersStep(t: Bytes, k: nat)
    requires k >= 2
    ensures Numbers(t, k) <==> AfterNumber(t).Some? && Numbers(AfterNumber(t).value, k - 1)
  {
    hide Url.Uint;
  }

  lemma NumbersLast(t: Bytes)
    ensures Numbers(t, 1) <==> Url.Uint(t, 255) == Some(|t|)
  {
    hide Url.Uint;
  }

  method IsValidIpv4(t: Bytes) returns (ok: bool)
    ensures ok <==> Numbers(t, 4)
    ensures ok <==> |Pieces(t, DOT)| == 4 && AllTaken(Pieces(t, DOT))
  {
    hide Numbers, AfterNumber, Url.Uint, Pieces, AllTaken;
    NumbersMean(t, 4);
    NumbersStep(t, 4);
    var r := NumberThenDot(t);
    if r.None? {
      return false;
    }
    NumbersStep(r.value, 3);
    r := NumberThenDot(r.value);
    if r.None? {
      return false;
    }
    NumbersStep(r.value, 2);
    r := NumberThenDot(r.value);
    if r.None? {
      return false;
    }
    NumbersLast(r.value);
    var end := UrlObject.IsUint(r.value, 255);
    return end == Some(|r.value|);
  }

  lemma AcceptStep(ps: seq<Bytes>, t: Bytes, rest: seq<Bytes>, gap: bool, n: nat, prev: bool)
    requires ps == [t] + rest && rest != []
    ensures Accept(ps, gap, n, prev) <==>
            if t == [] then !gap && Accept(rest, true, n, true) else IsGroup(t) && Accept(rest, gap, n + 1, false)
  {
    hide IsGroup, IsTail, HasDot;
    assert ps[1..] == rest;
  }

  lemma AcceptEnd(t: Bytes, gap: bool, n: nat, prev: bool)
    requires !HasDot(t) && (t == [] || IsGroup(t))
    ensures Accept([t], gap, n, prev) <==>
            if t == [] then prev && n < 8 else (!gap && n + 1 == 8) || (gap && n + 1 < 8)
  {
    hide IsGroup, IsTail, HasDot;
  }

  method IsValidIpv6(s: Bytes) returns (ok: bool)
    ensures ok <==> IsValid(s)
  {
    hide Accept, Pieces, IsHexDigit, Numbers, IsGroup;
    if |s| > 39 || |s| < 2 {
      return false;
    }
    var gap, b, p := false, 0, 0;
    var nfields, ndigits := 0, 0;
    ghost var start := 0;
    assert s[0..] == s;
    if s[0] == COLON {
      if s[1] != COLON {
        return false;
      }
      gap, p, b, start := true, 2, 2, 2;
      if p == |s| {
        return true;
      }
    }
    DotIsNoHex();
    while p < |s|
      invariant Reading(s, b, p) && ndigits == p - b
      invariant start <= b && (b == start || s[b - 1] == COLON) && start < |s|
      invariant (start == 0 && s[0] != COLON) || (start == 2 && gap)
      invariant IsValid(s) <==> Accept(Pieces(s[b..], COLON), gap, nfields, Prev(s, start, b))
    {
      if s[p] == DOT {
        AtDot(s, b, p, gap, nfields, Prev(s, start, b));
        var tail := IsValidIpv4(s[b..]);
        return ((!gap && nfields == 6) || (gap && nfields < 7)) && tail;
      } else if s[p] == COLON {
        ColonNext(s, b, p);
        AcceptStep(Pieces(s[b..], COLON), s[b..p], Pieces(s[p + 1..], COLON), gap, nfields, Prev(s, start, b));
        if ndigits == 0 {
          if gap {
            return false;
          }
          gap := true;
        } else {
          GroupRead(s, b, p);
          nfields, ndigits := nfields + 1, 0;
        }
        p := p + 1;
        b := p;
      } else {
        ndigits := ndigits + 1;
        if ndigits > 4 || !IsHexDigit(s[p]) {
          AtOther(s, b, p, gap, nfields, Prev(s, start, b));
          return false;
        }
        p := p + 1;
      }
    }
    LastPiece(s, b);
    assert s[b..p] == s[b..];
    EmptyHasNoDot();
    if b < p {
      GroupRead(s, b, p);
      GroupChars(s[b..p]);
    }
    AcceptEnd(s[b..], gap, nfields, Prev(s, start, b));
    if ndigits > 0 {
      nfields := nfields + 1;
    } else if s[|s| - 1] == COLON {
      return s[|s| - 2] == COLON && nfields < 8;
    }
    return (!gap && nfields == 8) || (gap && nfields < 8);
  }

  // ---------------------------------------------------------------- what is accepted is an address

  /** Without the empty group behind a colon at the end. */
  function Trim(ps: seq<Bytes>): seq<Bytes>
  {
    if ps != [] && ps[|ps| - 1] == [] then ps[..|ps| - 1] else ps
  }

  /** So many groups, given that there is a gap or not. */
  predicate CountOk(gap: bool, n: nat, tail: Bytes)
  {
    if gap then n < (if tail == [] then 8 else 7) else n == Room(tail)
  }

  ghost predicate Fits(ts: seq<Bytes>, gap: bool, n: nat)
  {
    if ts == [] then gap && n < 8
    else
      var body, tail := Body(ts), TailOf(ts);
      && AllGroups(body) && (tail == [] || IsTail(tail))
      && Nulls(body) + (if gap then 1 else 0) <= 1
      && Nulls(body) <= |body| && CountOk(gap || Nulls(body) > 0, n + |body| - Nulls(body), tail)
  }

  lemma BodyCons(t: Bytes, ts: seq<Bytes>)
    requires ts != []
    ensures Body([t] + ts) == [t] + Body(ts) && TailOf([t] + ts) == TailOf(ts)
    ensures Nulls([t] + Body(ts)) == (if t == [] then 1 else 0) + Nulls(Body(ts))
  {
    hide HasDot;
    var all := [t] + ts;
    assert all[..|all| - 1] == [t] + ts[..|ts| - 1];
    assert ([t] + Body(ts))[1..] == Body(ts);
  }

  lemma NullsOfOne(t: Bytes)
    ensures Nulls([t]) == if t == [] then 1 else 0
  {
    assert [t][1..] == [];
  }

  lemma FitsCons(t: Bytes, ts: seq<Bytes>, gap: bool, n: nat)
    requires t == [] || IsGroup(t)
    requires if t == [] then !gap && Fits(ts, true, n) else Fits(ts, gap, n + 1)
    ensures Fits([t] + ts, gap, n)
  {
    hide HasDot, IsTail, IsGroup;
    EmptyHasNoDot();
    if t != [] {
      GroupChars(t);
    }
    if ts == [] {
      NullsOfOne(t);
      assert [t] + ts == [t];
    } else {
      BodyCons(t, ts);
    }
  }

  lemma FitsOne(t: Bytes, gap: bool, n: nat, prev: bool)
    requires Accept([t], gap, n, prev) && (prev ==> gap)
    ensures Fits(Trim([t]), gap, n)
  {
    hide IsTail, IsGroup, Numbers;
    var ts := [t];
    if t == [] {
      assert ts[..0] == [];
    } else if HasDot(t) {
      TailShape(t);
      assert ts[..0] == [];
    } else {
      NullsOfOne(t);
    }
  }

  lemma {:induction false} AcceptFits(ps: seq<Bytes>, gap: bool, n: nat, prev: bool)
    requires |ps| >= 1 && Accept(ps, gap, n, prev) && (prev ==> gap)
    ensures Fits(Trim(ps), gap, n)
    ensures ps[|ps| - 1] == [] && |ps| > 1 ==> ps[|ps| - 2] == []
    decreases |ps|
  {
    hide HasDot, IsTail, IsGroup, Fits;
    if |ps| == 1 {
      assert ps == [ps[0]];
      FitsOne(ps[0], gap, n, prev);
    } else {
      var t, rest := ps[0], ps[1..];
      assert Trim(ps) == [t] + Trim(rest);
      if t == [] {
        AcceptFits(rest, true, n, true);
      } else {
        AcceptFits(rest, gap, n + 1, false);
      }
      FitsCons(t, Trim(rest), gap, n);
      if |rest| == 1 && rest[0] == [] {
        assert t == [];
      }
    }
  }

  lemma FitsIsLegal(ts: seq<Bytes>)
    requires ts != [] && Fits(ts, false, 0)
    ensures Legal(ts)
  {
    hide HasDot, IsTail, IsGroup;
  }

  lemma ColonAtEnd(x: Bytes)
    ensures Pieces(x + [COLON], COLON) == Pieces(x, COLON) + [[]]
  {
    hide Pieces, Join;
    var ps := Pieces(x, COLON);
    JoinPieces(x, COLON);
    PiecesLack(x, COLON);
    JoinOneMore(ps, [], COLON);
    assert x + [COLON] + [] == x + [COLON];
    PiecesJoin(ps + [[]], COLON);
  }

  lemma {:induction false} LastPieceIsEmpty(x: Bytes)
    requires x != []
    ensures var ps := Pieces(x, COLON); ps[|ps| - 1] == [] <==> x[|x| - 1] == COLON
    decreases |x|
  {
    var k := FirstOf(x, [COLON]);
    if k < |x| {
      var rest := x[k + 1..];
      if rest != [] {
        LastPieceIsEmpty(rest);
      } else {
        OnlyPiece([], COLON);
      }
    }
  }

  /** Pieces without the empty one at the end are pieces of the text without the colon at the end. */
  lemma TrimPieces(x: Bytes)
    requires x != []
    ensures Trim(Pieces(x, COLON)) == Pieces(if x[|x| - 1] == COLON then x[..|x| - 1] else x, COLON)
  {
    hide Pieces;
    LastPieceIsEmpty(x);
    if x[|x| - 1] == COLON {
      var y := x[..|x| - 1];
      assert x == y + [COLON];
      ColonAtEnd(y);
      assert (Pieces(y, COLON) + [[]])[..|Pieces(y, COLON)|] == Pieces(y, COLON);
    }
  }

  /** Every text that is accepted has the groups of an address. */
  lemma ValidIsLegal(s: Bytes)
    requires IsValid(s) && s != DOUBLE_COLON
    ensures Legal(Tokens(s))
  {
    hide Pieces, Accept, Fits, Legal;
    if s[0] == COLON {
      var x := s[2..];
      assert x != [] by { assert s[..2] == DOUBLE_COLON; }
      AcceptFits(Pieces(x, COLON), true, 0, false);
      TrimPieces(x);
      var y := if x[|x| - 1] == COLON then x[..|x| - 1] else x;
      assert Inner(s) == [] + [COLON] + y;
      FirstPiece([], y, COLON);
      FitsCons([], Pieces(y, COLON), false, 0);
      FitsIsLegal([[]] + Pieces(y, COLON));
    } else {
      AcceptFits(Pieces(s, COLON), false, 0, false);
      TrimPieces(s);
      assert Inner(s) == if s[|s| - 1] == COLON then s[..|s| - 1] else s;
      FitsIsLegal(Tokens(s));
    }
  }
}
