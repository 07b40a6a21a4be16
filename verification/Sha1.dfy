/** The SHA-1 implementation: rounds in place on a buffer of 80 words, padding on the fly. */
module Sha1 {
  import opened Prelude
  import opened Sha1Spec

  /** The choice and majority functions as the code writes them. */
  function CodeCh(b: bv32, c: bv32, d: bv32): bv32 { (b & c) | (!b & d) }
  function CodeMaj(b: bv32, c: bv32, d: bv32): bv32 { (b & c) | (b & d) | (c & d) }

  lemma OrOfDisjoint(p: bv32, q: bv32)
    requires p & q == 0
    ensures p | q == p ^ q
  {
  }

  lemma NeverBoth(b: bv32, c: bv32, d: bv32)
    ensures (b & c) & (!b & d) == 0
  {
  }

  lemma SameCh(b: bv32, c: bv32, d: bv32)
    ensures CodeCh(b, c, d) == Ch(b, c, d)
  {
    NeverBoth(b, c, d);
    OrOfDisjoint(b & c, !b & d);
  }

  lemma AnyTwo(b: bv32, c: bv32, d: bv32)
    ensures (b & c) | (b & d) | (c & d) == (b & c) ^ (b & d) ^ (c & d)
  {
  }

  lemma SameMaj(b: bv32, c: bv32, d: bv32)
    ensures CodeMaj(b, c, d) == Maj(b, c, d)
  {
    AnyTwo(b, c, d);
  }

  ghost predicate Scheduled(block: seq<bv32>, t: nat, w: seq<bv32>)
  {
    |block| == 16 && |w| == 80 && forall i: nat :: i < 80 && (i < 16 || i < t) ==> w[i] == W(block, i)
  }

  /** After t rounds. */
  ghost predicate After(v0: Vars, block: seq<bv32>, t: nat, v: Vars, w: seq<bv32>)
  {
    Scheduled(block, t, w) && v == Rounds(v0, block, t)
  }

  function Mixed(w: seq<bv32>, t: nat): bv32
    requires 16 <= t < |w|
  {
    Rotl1(w[t - 3] ^ w[t - 8] ^ w[t - 14] ^ w[t - 16])
  }

  lemma Schedule(block: seq<bv32>, t: nat, w: seq<bv32>)
    requires Scheduled(block, t, w) && 16 <= t < 80
    ensures Scheduled(block, t + 1, w[t := Mixed(w, t)])
  {
    hide Rotl1;
    assert w[t - 3] == W(block, t - 3) && w[t - 8] == W(block, t - 8);
    assert w[t - 14] == W(block, t - 14) && w[t - 16] == W(block, t - 16);
    assert Mixed(w, t) == W(block, t);
  }

  lemma OneRound(v0: Vars, block: seq<bv32>, t: nat, v: Vars, w: seq<bv32>)
    requires Scheduled(block, t + 1, w) && t < 80 && v == Rounds(v0, block, t)
    ensures After(v0, block, t + 1, Turn(v, F(t, v.b, v.c, v.d), K(t), w[t]), w)
  {
    hide Turn, F, K, W;
  }

  function Hash(s: seq<bv32>): Vars
    requires |s| == 5
  {
    Vars(s[0], s[1], s[2], s[3], s[4])
  }

  /** The five stretches of rounds, by the function and the constant they use. */
  method FirstRounds(w: array<bv32>, v: Vars, ghost v0: Vars, ghost block: seq<bv32>) returns (u: Vars)
    requires w.Length == 80 && After(v0, block, 0, v, w[..])
    modifies w
    ensures After(v0, block, 16, u, w[..])
  {
    hide Rotl5, Rotl30, CodeCh, CodeMaj, Ch, Maj, Parity, Mixed, After, Total;
    var a, b, c, d, e := v.a, v.b, v.c, v.d, v.e;
    var round := 0;
    while round < 16
      invariant 0 <= round <= 16 && After(v0, block, round, Vars(a, b, c, d, e), w[..])
    {
      SameCh(b, c, d);
      PlainRound(v0, block, round, Vars(a, b, c, d, e), w[..]);
      var t := Total(Rotl5(a), CodeCh(b, c, d), e, 0x5a827999, w[round]);
      a, b, c, d, e := t, a, Rotl30(b), c, d;
      round := round + 1;
    }
    u := Vars(a, b, c, d, e);
  }

  method ChoiceRounds(w: array<bv32>, v: Vars, ghost v0: Vars, ghost block: seq<bv32>) returns (u: Vars)
    requires w.Length == 80 && After(v0, block, 16, v, w[..])
    modifies w
    ensures After(v0, block, 20, u, w[..])
  {
    hide Rotl5, Rotl30, CodeCh, CodeMaj, Ch, Maj, Parity, Mixed, After, Total;
    var a, b, c, d, e := v.a, v.b, v.c, v.d, v.e;
    var round := 16;
    while round < 20
      invariant 16 <= round <= 20 && After(v0, block, round, Vars(a, b, c, d, e), w[..])
    {
      SameCh(b, c, d);
      MixedRound(v0, block, round, Vars(a, b, c, d, e), w[..]);
      Mix(w, round);
      var t := Total(Rotl5(a), CodeCh(b, c, d), e, 0x5a827999, w[round]);
      a, b, c, d, e := t, a, Rotl30(b), c, d;
      round := round + 1;
    }
    u := Vars(a, b, c, d, e);
  }

  method ParityRounds(w: array<bv32>, v: Vars, start: nat, k: bv32, ghost v0: Vars, ghost block: seq<bv32>) returns (u: Vars)
    requires w.Length == 80 && After(v0, block, start, v, w[..]) && (start == 20 || start == 60) && k == K(start)
    modifies w
    ensures After(v0, block, start + 20, u, w[..])
  {
    hide Rotl5, Rotl30, CodeCh, CodeMaj, Ch, Maj, Parity, Mixed, After, Total;
    var a, b, c, d, e := v.a, v.b, v.c, v.d, v.e;
    var round := start;
    while round < start + 20
      invariant start <= round <= start + 20 && After(v0, block, round, Vars(a, b, c, d, e), w[..])
    {
      MixedRound(v0, block, round, Vars(a, b, c, d, e), w[..]);
      Mix(w, round);
      var t := Total(Rotl5(a), Parity(b, c, d), e, k, w[round]);
      a, b, c, d, e := t, a, Rotl30(b), c, d;
      round := round + 1;
    }
    u := Vars(a, b, c, d, e);
  }

  method MajorityRounds(w: array<bv32>, v: Vars, ghost v0: Vars, ghost block: seq<bv32>) returns (u: Vars)
    requires w.Length == 80 && After(v0, block, 40, v, w[..])
    modifies w
    ensures After(v0, block, 60, u, w[..])
  {
    hide Rotl5, Rotl30, CodeCh, CodeMaj, Ch, Maj, Parity, Mixed, After, Total;
    var a, b, c, d, e := v.a, v.b, v.c, v.d, v.e;
    var round := 40;
    while round < 60
      invariant 40 <= round <= 60 && After(v0, block, round, Vars(a, b, c, d, e), w[..])
    {
      SameMaj(b, c, d);
      MixedRound(v0, block, round, Vars(a, b, c, d, e), w[..]);
      Mix(w, round);
      var t := Total(Rotl5(a), CodeMaj(b, c, d), e, 0x8f1bbcdc, w[round]);
      a, b, c, d, e := t, a, Rotl30(b), c, d;
      round := round + 1;
    }
    u := Vars(a, b, c, d, e);
  }

  method InnerHash(result: array<bv32>, w: array<bv32>)
    requires result.Length == 5 && w.Length == 80 && result != w
    modifies result, w
    ensures Hash(result[..]) == Compress(old(Hash(result[..])), old(w[..16]))
  {
    ghost var v0, block := Hash(result[..]), w[..16];
    var v := Vars(result[0], result[1], result[2], result[3], result[4]);
    assert After(v0, block, 0, v, w[..]);
    hide After, Sum;
    v := FirstRounds(w, v, v0, block);
    v := ChoiceRounds(w, v, v0, block);
    v := ParityRounds(w, v, 20, 0x6ed9eba1, v0, block);
    v := MajorityRounds(w, v, v0, block);
    v := ParityRounds(w, v, 60, 0xca62c1d6, v0, block);
    AllRounds(v0, block, v, w[..]);
    AddUp(result, v);
  }

  /** The next word of the schedule, in place. */
  method Mix(w: array<bv32>, t: nat)
    requires 16 <= t < w.Length
    modifies w
    ensures w[..] == old(w[..])[t := Mixed(old(w[..]), t)]
  {
    w[t] := Rotl1(w[t - 3] ^ w[t - 8] ^ w[t - 14] ^ w[t - 16]);
  }

  method AddUp(result: array<bv32>, v: Vars)
    requires result.Length == 5
    modifies result
    ensures Hash(result[..]) == Sum(old(Hash(result[..])), v)
  {
    hide Plus;
    result[0] := Plus(result[0], v.a);
    result[1] := Plus(result[1], v.b);
    result[2] := Plus(result[2], v.c);
    result[3] := Plus(result[3], v.d);
    result[4] := Plus(result[4], v.e);
  }

  lemma AllRounds(v0: Vars, block: seq<bv32>, v: Vars, w: seq<bv32>)
    requires After(v0, block, 80, v, w)
    ensures |block| == 16 && v == Rounds(v0, block, 80)
  {
  }

  lemma PlainRound(v0: Vars, block: seq<bv32>, t: nat, v: Vars, w: seq<bv32>)
    requires After(v0, block, t, v, w) && t < 16
    ensures |w| == 80 && After(v0, block, t + 1, Turn(v, F(t, v.b, v.c, v.d), K(t), w[t]), w)
  {
    OneRound(v0, block, t, v, w);
  }

  lemma MixedRound(v0: Vars, block: seq<bv32>, t: nat, v: Vars, w: seq<bv32>)
    requires After(v0, block, t, v, w) && 16 <= t < 80
    ensures |w| == 80
    ensures var w' := w[t := Mixed(w, t)];
            After(v0, block, t + 1, Turn(v, F(t, v.b, v.c, v.d), K(t), w'[t]), w')
  {
    hide Mixed, Turn, F, K, Rounds, W;
    Schedule(block, t, w);
    OneRound(v0, block, t, v, w[t := Mixed(w, t)]);
  }

  // ---------------------------------------------------------------- filling the buffer

  lemma {:induction false} ZeroWords(n: nat)
    ensures Words(Zeros(4 * n)) == seq(n, _ => 0)
  {
    if n > 0 {
      assert Zeros(4 * n)[4..] == Zeros(4 * (n - 1));
      ZeroWords(n - 1);
      assert Word(0, 0, 0, 0) == 0;
      assert seq(n, _ => 0 as bv32) == [0] + seq(n - 1, _ => 0);
    }
  }

  method Clear(w: array<bv32>)
    requires w.Length == 80
    modifies w
    ensures w[..16] == Words(Zeros(64))
  {
    var pos := 16;
    while pos > 0
      invariant 0 <= pos <= 16 && forall i :: pos <= i < 16 ==> w[i] == 0
    {
      pos := pos - 1;
      w[pos] := 0;
    }
    ZeroWords(16);
  }

  method Load(src: seq<octet>, start: nat, w: array<bv32>)
    requires w.Length == 80 && start + 64 <= |src|
    modifies w
    ensures w[..16] == Words(src[start..start + 64])
  {
    hide Word;
    var pos, cur := 0, start;
    ghost var block := src[start..start + 64];
    while cur < start + 64
      invariant 0 <= pos <= 16 && cur == start + 4 * pos
      invariant forall i: nat :: i < pos ==> w[i] == Words(block)[i]
    {
      WordsAt(block, pos);
      w[pos] := Word(src[cur], src[cur + 1], src[cur + 2], src[cur + 3]);
      pos, cur := pos + 1, cur + 4;
    }
  }

  /** b << ((3 - j) << 3) */
  function Shifted(b: bv32, j: nat): bv32
  {
    if j == 0 then b << 24 else if j == 1 then b << 16 else if j == 2 then b << 8 else b
  }

  function Or(x: bv32, y: bv32): bv32 { x | y }

  lemma OrFirst(b1: bv32, b2: bv32, b3: bv32, b: bv32)
    ensures Or(Word(0, b1, b2, b3), Shifted(b, 0)) == Word(b, b1, b2, b3)
  {
  }

  lemma OrSecond(b0: bv32, b2: bv32, b3: bv32, b: bv32)
    ensures Or(Word(b0, 0, b2, b3), Shifted(b, 1)) == Word(b0, b, b2, b3)
  {
  }

  lemma OrThird(b0: bv32, b1: bv32, b3: bv32, b: bv32)
    ensures Or(Word(b0, b1, 0, b3), Shifted(b, 2)) == Word(b0, b1, b, b3)
  {
  }

  lemma OrFourth(b0: bv32, b1: bv32, b2: bv32, b: bv32)
    ensures Or(Word(b0, b1, b2, 0), Shifted(b, 3)) == Word(b0, b1, b2, b)
  {
  }

  lemma OrIntoWord(x: seq<octet>, j: nat, b: octet)
    requires |x| == 4 && j < 4 && x[j] == 0
    ensures var y := x[j := b]; Or(Word(x[0], x[1], x[2], x[3]), Shifted(b, j)) == Word(y[0], y[1], y[2], y[3])
  {
    hide Word, Shifted, Or;
    OrFirst(x[1], x[2], x[3], b);
    OrSecond(x[0], x[2], x[3], b);
    OrThird(x[0], x[1], x[3], b);
    OrFourth(x[0], x[1], x[2], b);
  }

  lemma OrIntoWords(s: seq<octet>, k: nat, b: octet)
    requires |s| == 64 && k < 64 && s[k] == 0
    ensures Words(s[k := b]) == Words(s)[k / 4 := Or(Words(s)[k / 4], Shifted(b, k % 4))]
  {
    hide Words, Or, Shifted;
    assert k == 4 * (k / 4) + k % 4;
    OrIntoWordAt(s, k / 4, k % 4, b);
  }

  lemma OrIntoWordAt(s: seq<octet>, n: nat, j: nat, b: octet)
    requires |s| == 64 && n < 16 && j < 4 && s[4 * n + j] == 0
    ensures Words(s[4 * n + j := b]) == Words(s)[n := Or(Words(s)[n], Shifted(b, j))]
  {
    hide Word, Shifted, Words, Or;
    var t := s[4 * n + j := b];
    var x := s[4 * n..4 * n + 4];
    assert x[j] == 0;
    OrIntoWord(x, j, b);
    assert t[4 * n..4 * n + 4] == x[j := b];
    forall i: nat | i < 16 ensures Words(t)[i] == Words(s)[n := Or(Words(s)[n], Shifted(b, j))][i] {
      WordsAt(s, i);
      WordsAt(t, i);
      if i != n {
        assert t[4 * i] == s[4 * i] && t[4 * i + 1] == s[4 * i + 1] && t[4 * i + 2] == s[4 * i + 2] && t[4 * i + 3] == s[4 * i + 3];
      } else {
        var y := x[j := b];
        assert t[4 * i] == y[0] && t[4 * i + 1] == y[1] && t[4 * i + 2] == y[2] && t[4 * i + 3] == y[3];
      }
    }
  }

  method OrByte(w: array<bv32>, k: nat, b: octet, ghost s: seq<octet>)
    requires w.Length == 80 && |s| == 64 && k < 64 && s[k] == 0 && w[..16] == Words(s)
    modifies w
    ensures w[..16] == Words(s[k := b])
  {
    hide Shifted, Words, Or;
    OrIntoWords(s, k, b);
    ghost var before := w[..16];
    w[k / 4] := Or(w[k / 4], Shifted(b, k % 4));
    assert w[..16] == before[k / 4 := w[k / 4]];
  }

  // ---------------------------------------------------------------- the whole message

  /** What the last words are: the code writes the low word of the length only. */
  function CodePadded(m: seq<octet>): (ws: seq<bv32>)
    ensures |ws| % 16 == 0
  {
    PaddedWith(m, 0, LengthLow(|m|))
  }

  /** The last, incomplete block with the bit that ends the message. */
  function Tail(m: seq<octet>, cur: nat): (s: seq<octet>)
    requires cur <= |m| < cur + 64
    ensures |s| == 64
  {
    m[cur..] + [0x80] + Zeros(63 - (|m| - cur))
  }

  lemma GapIs(m: nat, cur: nat)
    requires cur <= m < cur + 64 && cur % 64 == 0
    ensures Gap(m) == if m - cur < 56 then 55 - (m - cur) else 119 - (m - cur)
  {
    Halves(m, 64, cur / 64, m - cur);
  }

  lemma ShortTail(m: seq<octet>, cur: nat, low: bv32)
    requires cur <= |m| < cur + 56 && cur % 64 == 0
    ensures PaddedWith(m, 0, low) == Words(m[..cur]) + Words(Tail(m, cur))[15 := low]
  {
    hide Words, Gap, Zeros, Ended, Tail;
    var s := m[cur..] + [0x80] + Zeros(55 - (|m| - cur));
    ShortEnd(m, cur, s);
    WholeBlocks(cur);
    WordsAppend(m[..cur], s);
    WordsAppend(s, Zeros(8));
    ZeroWords(2);
    var ws := Words(s);
    assert (ws + [0, 0])[15 := low] == ws + [0, low];
    Assoc(Words(m[..cur]), ws, [0, low]);
  }

  lemma ShortEnd(m: seq<octet>, cur: nat, s: seq<octet>)
    requires cur <= |m| < cur + 56 && cur % 64 == 0 && s == m[cur..] + [0x80] + Zeros(55 - (|m| - cur))
    ensures |s| == 56 && Ended(m) == m[..cur] + s && Tail(m, cur) == s + Zeros(8)
  {
    hide Gap;
    GapIs(|m|, cur);
    var x := m[cur..] + [0x80];
    ZerosSplit(55 - (|m| - cur), 8);
    assert m + [0x80] == m[..cur] + x;
    Assoc(m[..cur], x, Zeros(55 - (|m| - cur)));
    Assoc(x, Zeros(55 - (|m| - cur)), Zeros(8));
  }

  lemma ZerosSplit(j: nat, k: nat)
    ensures Zeros(j + k) == Zeros(j) + Zeros(k)
  {
  }

  lemma PutAt(x: seq<octet>, k: nat, b: octet)
    requires k > 0
    ensures (x + Zeros(k))[|x| := b] == x + [b] + Zeros(k - 1)
  {
  }

  lemma LongEnd(m: seq<octet>, cur: nat)
    requires cur + 56 <= |m| < cur + 64 && cur % 64 == 0
    ensures Ended(m) == m[..cur] + (Tail(m, cur) + Zeros(56))
  {
    hide Gap, Zeros;
    var n := |m| - cur;
    GapIs(|m|, cur);
    ZerosSplit(63 - n, 56);
    var x, y := m[cur..] + [0x80], Zeros(63 - n);
    assert m + [0x80] == m[..cur] + x;
    Assoc(m[..cur], x, y + Zeros(56));
    Assoc(x, y, Zeros(56));
  }

  lemma LongTail(m: seq<octet>, cur: nat, low: bv32)
    requires cur + 56 <= |m| < cur + 64 && cur % 64 == 0
    ensures PaddedWith(m, 0, low) == Words(m[..cur]) + (Words(Tail(m, cur)) + Words(Zeros(64))[15 := low])
  {
    hide Words, Tail, Ended;
    LongEnd(m, cur);
    WordsAppend(m[..cur], Tail(m, cur) + Zeros(56));
    WordsAppend(Tail(m, cur), Zeros(56));
    ZeroWords(14);
    ZeroWords(16);
  }

  lemma OneBlockMore(v: Vars, src: seq<octet>, cur: nat)
    requires cur % 64 == 0 && cur + 64 <= |src|
    ensures FoldBytes(v, src[..cur + 64]) == Compress(FoldBytes(v, src[..cur]), Words(src[cur..cur + 64]))
  {
    hide Words, Compress, Fold;
    var a, b := src[..cur], src[cur..cur + 64];
    assert src[..cur + 64] == a + b;
    WordsAppend(a, b);
    FoldAppend(v, Words(a), Words(b));
    FoldOne(Fold(v, Words(a)), Words(b));
  }

  lemma NoBlocks(v: Vars, src: seq<octet>)
    ensures FoldBytes(v, src[..0]) == v
  {
    hide Compress;
    assert src[..0] == [];
  }

  /** All the complete blocks. */
  method HashBlocks(src: seq<octet>, result: array<bv32>, w: array<bv32>) returns (cur: nat)
    requires result.Length == 5 && w.Length == 80 && result != w && Hash(result[..]) == INITIAL
    modifies result, w
    ensures cur % 64 == 0 && cur <= |src| < cur + 64
    ensures Hash(result[..]) == FoldBytes(INITIAL, src[..cur])
  {
    hide *;
    cur := 0;
    NoBlocks(INITIAL, src);
    if |src| >= 64 {
      var end := |src| - 64;
      while cur <= end
        invariant cur % 64 == 0 && cur <= |src|
        invariant Hash(result[..]) == FoldBytes(INITIAL, src[..cur])
      {
        Load(src, cur, w);
        OneBlockMore(INITIAL, src, cur);
        InnerHash(result, w);
        cur := cur + 64;
      }
    }
  }

  /** The rest of the message and the bit that ends it. */
  method FillTail(src: seq<octet>, cur: nat, w: array<bv32>)
    requires w.Length == 80 && cur <= |src| < cur + 64
    modifies w
    ensures w[..16] == Words(Tail(src, cur))
  {
    hide Words;
    Clear(w);
    var n := |src| - cur;
    var last := 0;
    assert src[cur..cur] + Zeros(64) == Zeros(64);
    while last < n
      invariant last <= n && w[..16] == Words(src[cur..cur + last] + Zeros(64 - last))
    {
      ghost var s := src[cur..cur + last] + Zeros(64 - last);
      OrByte(w, last, src[last + cur], s);
      PutAt(src[cur..cur + last], 64 - last, src[last + cur]);
      assert src[cur..cur + last + 1] == src[cur..cur + last] + [src[last + cur]];
      last := last + 1;
    }
    ghost var s := src[cur..cur + n] + Zeros(64 - n);
    OrByte(w, last, 0x80, s);
    PutAt(src[cur..cur + n], 64 - n, 0x80);
    assert src[cur..cur + n] == src[cur..];
  }

  lemma FoldRest(v: Vars, src: seq<octet>, cur: nat, low: bv32)
    requires cur <= |src| < cur + 64 && cur % 64 == 0
    ensures var u := FoldBytes(v, src[..cur]);
            Fold(v, PaddedWith(src, 0, low)) ==
            if |src| - cur < 56 then Compress(u, Words(Tail(src, cur))[15 := low])
            else Compress(Compress(u, Words(Tail(src, cur))), Words(Zeros(64))[15 := low])
  {
    hide Words, Compress, Fold, Tail, PaddedWith;
    var a, t, z := Words(src[..cur]), Words(Tail(src, cur)), Words(Zeros(64))[15 := low];
    var u := Fold(v, a);
    if |src| - cur < 56 {
      ShortTail(src, cur, low);
      FoldAppend(v, a, t[15 := low]);
      FoldOne(u, t[15 := low]);
    } else {
      LongTail(src, cur, low);
      FoldAppend(v, a, t + z);
      FoldAppend(u, t, z);
      FoldOne(u, t);
      FoldOne(Compress(u, t), z);
    }
  }

  /** (x >> (j << 3)) & 0xff */
  function ByteUp(x: bv32, j: nat): octet
  {
    if j == 0 then x & 0xFF else if j == 1 then (x >> 8) & 0xFF else if j == 2 then (x >> 16) & 0xFF else (x >> 24) & 0xFF
  }

  lemma ByteUpIsByte(x: bv32, k: nat)
    requires k < 4
    ensures ByteUp(x, 3 - k) == BytesOf(x)[k]
  {
  }

  lemma DigestAt(result: seq<bv32>, k: nat)
    requires |result| == 5 && k < 20
    ensures |Digest(Hash(result))| == 20 && Digest(Hash(result))[k] == ByteUp(result[k / 4], (3 - k) % 4)
  {
    hide ByteUp, BytesOf;
    ByteUpIsByte(result[k / 4], k % 4);
    assert Digest(Hash(result))[k] == BytesOf(result[k / 4])[k % 4];
  }

  /** The five words, highest byte first. */
  method Store(result: array<bv32>, hash: array<octet>)
    requires result.Length == 5 && hash.Length >= 20
    modifies hash
    ensures hash[..20] == Digest(Hash(result[..])) && hash[20..] == old(hash[20..])
  {
    hide ByteUp, Digest, Hash;
    DigestAt(result[..], 0);
    var k := 20;
    while k > 0
      invariant 0 <= k <= 20 && hash[20..] == old(hash[20..])
      invariant forall i: nat :: k <= i < 20 ==> hash[i] == Digest(Hash(result[..]))[i]
    {
      k := k - 1;
      DigestAt(result[..], k);
      hash[k] := ByteUp(result[k / 4], (3 - k) % 4);
    }
  }

  /** The last word of the block becomes the length in bits, computed in 64 bits and stored in 32. */
  method PutLength(w: array<bv32>, n: nat)
    requires w.Length == 80
    modifies w
    ensures w[..16] == old(w[..16])[15 := LengthLow(n)]
  {
    hide LengthLow;
    LowWord(n);
    ghost var block := w[..16];
    w[15] := (8 * n % TWO_64 % TWO_32) as bv32;
    assert w[..16] == block[15 := LengthLow(n)];
  }

  /** What does not fill a block, with the padding. */
  method HashRest(src: seq<octet>, cur: nat, result: array<bv32>, w: array<bv32>)
    requires result.Length == 5 && w.Length == 80 && result != w
    requires cur % 64 == 0 && cur <= |src| < cur + 64 && Hash(result[..]) == FoldBytes(INITIAL, src[..cur])
    modifies result, w
    ensures Hash(result[..]) == Fold(INITIAL, PaddedWith(src, 0, LengthLow(|src|)))
  {
    hide *;
    FoldRest(INITIAL, src, cur, LengthLow(|src|));
    FillTail(src, cur, w);
    if |src| - cur >= 56 {
      InnerHash(result, w);
      Clear(w);
    }
    PutLength(w, |src|);
    InnerHash(result, w);
  }

  method Calc(src: seq<octet>, hash: array<octet>)
    requires hash.Length >= 20
    modifies hash
    ensures hash[..20] == Digest(Fold(INITIAL, CodePadded(src))) && hash[20..] == old(hash[20..])
  {
    hide Fold, PaddedWith, Digest, LengthLow;
    var result := new bv32[5][0x67452301, 0xefcdab89, 0x98badcfe, 0x10325476, 0xc3d2e1f0];
    var w := new bv32[80];
    assert Hash(result[..]) == INITIAL;
    var cur := HashBlocks(src, result, w);
    HashRest(src, cur, result, w);
    Store(result, hash);
  }

  /** The length in bits is computed in 64 bits and stored in 32. */
  lemma LowWord(n: nat)
    ensures (8 * n % TWO_64 % TWO_32) as bv32 == LengthLow(n)
  {
    var x := 8 * n;
    var y := x % TWO_64;
    Halves(x, TWO_32, x / TWO_64 * TWO_32 + y / TWO_32, y % TWO_32);
  }

  // ---------------------------------------------------------------- against the standard

  lemma HighWordIsZero(n: nat)
    ensures LengthHigh(n) == 0 <==> 8 * n / TWO_32 % TWO_32 == 0
  {
  }

  lemma FitsOneWord(n: nat)
    requires 8 * n < TWO_64
    ensures 8 * n / TWO_32 % TWO_32 == 0 <==> n < 0x2000_0000
  {
    assert 8 * n / TWO_32 < TWO_32;
  }

  /** The code pads as the standard does exactly when the length in bits fits one word. */
  lemma PadsAsTheStandard(m: seq<octet>)
    requires 8 * |m| < TWO_64
    ensures CodePadded(m) == Padded(m) <==> |m| < 0x2000_0000
  {
    hide Words, Ended, LengthLow, LengthHigh;
    var s := Words(Ended(m));
    var k := |s|;
    assert CodePadded(m)[k] == 0 && Padded(m)[k] == LengthHigh(|m|);
    HighWordIsZero(|m|);
    FitsOneWord(|m|);
  }

  /** Up to that length the code computes SHA-1. */
  lemma CodeIsSha1(m: seq<octet>)
    requires |m| < 0x2000_0000
    ensures Digest(Fold(INITIAL, CodePadded(m))) == Sha1(m)
  {
    hide Digest, Fold, CodePadded, Padded;
    PadsAsTheStandard(m);
  }
}
