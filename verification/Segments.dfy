/** A text cut at every occurrence of one character, and put together again. */
module Segments {
  import opened Prelude
  import opened UrlText

  function Pieces(s: Bytes, sep: byte): (ps: seq<Bytes>)
    ensures |ps| >= 1
    decreases |s|
  {
    var k := FirstOf(s, [sep]);
    if k == |s| then [s] else [s[..k]] + Pieces(s[k + 1..], sep)
  }

  function Join(es: seq<Bytes>, sep: byte): Bytes
  {
    if es == [] then [] else if |es| == 1 then es[0] else es[0] + [sep] + Join(es[1..], sep)
  }

  ghost predicate Lacks(e: Bytes, sep: byte) { sep !in e }

  ghost predicate AllLack(ps: seq<Bytes>, sep: byte)
  {
    forall i: nat :: i < |ps| ==> Lacks(ps[i], sep)
  }

  lemma {:induction false} PiecesLack(s: Bytes, sep: byte)
    ensures AllLack(Pieces(s, sep), sep)
    decreases |s|
  {
    var k := FirstOf(s, [sep]);
    if k < |s| {
      PiecesLack(s[k + 1..], sep);
    }
  }

  lemma EndOfPiece(e: Bytes, rest: Bytes, sep: byte)
    requires Lacks(e, sep)
    ensures FirstOf(e + [sep] + rest, [sep]) == |e| && FirstOf(e, [sep]) == |e|
  {
    FirstOfIs(e + [sep] + rest, [sep], |e|);
    FirstOfIs(e, [sep], |e|);
  }

  lemma FirstPiece(e: Bytes, rest: Bytes, sep: byte)
    requires Lacks(e, sep)
    ensures Pieces(e + [sep] + rest, sep) == [e] + Pieces(rest, sep)
  {
    var s := e + [sep] + rest;
    EndOfPiece(e, rest, sep);
    assert s[..|e|] == e && s[|e| + 1..] == rest;
  }

  lemma OnlyPiece(e: Bytes, sep: byte)
    requires Lacks(e, sep)
    ensures Pieces(e, sep) == [e]
  {
    EndOfPiece(e, [], sep);
  }

  lemma {:induction false} PiecesJoin(es: seq<Bytes>, sep: byte)
    requires es != [] && AllLack(es, sep)
    ensures Pieces(Join(es, sep), sep) == es
  {
    if |es| == 1 {
      OnlyPiece(es[0], sep);
    } else {
      FirstPiece(es[0], Join(es[1..], sep), sep);
      PiecesJoin(es[1..], sep);
      assert es == [es[0]] + es[1..];
    }
  }

  lemma {:induction false} JoinPieces(s: Bytes, sep: byte)
    ensures Join(Pieces(s, sep), sep) == s
    decreases |s|
  {
    var k := FirstOf(s, [sep]);
    if k < |s| {
      JoinPieces(s[k + 1..], sep);
      assert s == s[..k] + [sep] + s[k + 1..];
      assert Pieces(s, sep)[1..] == Pieces(s[k + 1..], sep);
    }
  }

  lemma {:induction false} JoinOneMore(es: seq<Bytes>, e: Bytes, sep: byte)
    requires es != []
    ensures Join(es + [e], sep) == Join(es, sep) + [sep] + e
  {
    if |es| > 1 {
      JoinOneMore(es[1..], e, sep);
      assert (es + [e])[1..] == es[1..] + [e];
      var a, b := es[0] + [sep], Join(es[1..], sep);
      Assoc(a, b + [sep], e);
      Assoc(a, b, [sep]);
    } else {
      assert (es + [e])[1..] == [e];
    }
  }

  lemma PiecesFrom(s: Bytes, b: nat, k: nat, sep: byte)
    requires b <= |s| && k == FirstOf(s[b..], [sep])
    ensures b + k == |s| ==> Pieces(s[b..], sep) == [s[b..]]
    ensures b + k < |s| ==> Pieces(s[b..], sep) == [s[b..b + k]] + Pieces(s[b + k + 1..], sep)
  {
    hide FirstOf;
    var t := s[b..];
    if b + k < |s| {
      assert t[..k] == s[b..b + k];
      assert t[k + 1..] == s[b + k + 1..];
    }
  }

  /** A text with the character in the middle has the pieces of both sides. */
  lemma {:induction false} PiecesConcat(a: Bytes, b: Bytes, sep: byte)
    ensures Pieces(a + [sep] + b, sep) == Pieces(a, sep) + Pieces(b, sep)
    decreases |a|
  {
    var k := FirstOf(a, [sep]);
    if k == |a| {
      FirstPiece(a, b, sep);
    } else {
      hide FirstOf;
      var e, rest := a[..k], a[k + 1..];
      assert a + [sep] + b == e + [sep] + (rest + [sep] + b);
      FirstPiece(e, rest + [sep] + b, sep);
      PiecesConcat(rest, b, sep);
      Assoc([e], Pieces(rest, sep), Pieces(b, sep));
    }
  }
}
