/** What base64 text says, as a number and letter by letter. */
module Base64Value {
  import opened Prelude
  import opened Base64

  /** Digits to the base 64, and to the base 256, behind what was read before. */
  function Read64(n: nat, xs: seq<sextet>): nat
    decreases xs
  {
    if xs == [] then n else Read64(n * 64 + xs[0], xs[1..])
  }

  function Read256(n: nat, s: Bytes): nat
    decreases s
  {
    if s == [] then n else Read256(n * 256 + s[0], s[1..])
  }

  /** The zero bits that fill the last group, as a factor. */
  function Filled(n: nat): nat { if n % 3 == 0 then 1 else if n % 3 == 1 then 16 else 4 }

  function Behind(n: nat, w: sextet, x: sextet, y: sextet, z: sextet): nat
  {
    (((n * 64 + w) * 64 + x) * 64 + y) * 64 + z
  }

  lemma ReadFour(n: nat, xs: seq<sextet>)
    requires |xs| >= 4
    ensures Read64(n, xs) == Read64(Behind(n, xs[0], xs[1], xs[2], xs[3]), xs[4..])
  {
    assert xs[1..][1..] == xs[2..] && xs[2..][1..] == xs[3..] && xs[3..][1..] == xs[4..];
    var m := (n * 64 + xs[0]) * 64 + xs[1];
    assert Read64(n, xs) == Read64(n * 64 + xs[0], xs[1..]) == Read64(m, xs[2..]);
    assert Read64(m, xs[2..]) == Read64(m * 64 + xs[2], xs[3..]);
  }

  lemma ReadThree(n: nat, s: Bytes)
    requires |s| >= 3
    ensures Read256(n, s) == Read256(n * 16777216 + Triple(s[0], s[1], s[2]), s[3..])
  {
    assert s[1..][1..] == s[2..] && s[2..][1..] == s[3..];
    assert Read256(n, s) == Read256(n * 256 + s[0], s[1..]);
    assert Read256(n * 256 + s[0], s[1..]) == Read256((n * 256 + s[0]) * 256 + s[1], s[2..]);
  }

  /** A 24-bit group and its four digits. */
  lemma QuadIsNumber(m: nat, n: int)
    requires 0 <= n < 0x100_0000
    ensures var xs := Quad(n); Behind(m, xs[0], xs[1], xs[2], xs[3]) == m * 16777216 + n
  {
    assert n / 64 / 64 == n / 4096 && n / 4096 / 64 == n / 262144;
  }

  lemma FilledAlike(n: nat)
    requires n >= 3
    ensures Filled(n) == Filled(n - 3)
  {
  }

  lemma SextetsOfMore(s: Bytes)
    requires |s| >= 3
    ensures var xs, q := Sextets(s), Quad(Triple(s[0], s[1], s[2]));
            |xs| >= 4 && xs[0] == q[0] && xs[1] == q[1] && xs[2] == q[2] && xs[3] == q[3] && xs[4..] == Sextets(s[3..])
  {
    hide Quad, Triple;
  }

  /** Regrouping bytes as 6-bit digits leaves the number they write as it is, but for zero bits at the end. */
  lemma {:induction false} SameNumber(n: nat, s: Bytes)
    ensures Read64(n, Sextets(s)) == Read256(n, s) * Filled(|s|)
    decreases s
  {
    hide *;
    if |s| >= 3 {
      var t := Triple(s[0], s[1], s[2]);
      SextetsOfMore(s);
      ReadFour(n, Sextets(s));
      ReadThree(n, s);
      QuadIsNumber(n, t);
      SameNumber(n * 16777216 + t, s[3..]);
      FilledAlike(|s|);
    } else if |s| == 2 {
      TwoBytes(n, s);
    } else if |s| == 1 {
      OneByte(n, s);
    } else {
      NoBytes(n);
    }
  }

  lemma NoBytes(n: nat)
    ensures Read64(n, Sextets([])) == Read256(n, []) * Filled(0)
  {
  }

  lemma OneByte(n: nat, s: Bytes)
    requires |s| == 1
    ensures Read64(n, Sextets(s)) == Read256(n, s) * Filled(1)
  {
    hide Quad, Triple;
    var xs := Sextets(s);
    QuadOf(s[0], 0, 0);
    assert xs == [s[0] / 4, s[0] % 4 * 16];
    assert xs[1..] == [xs[1]];
    assert Read64(n, xs) == Read64(n * 64 + xs[0], [xs[1]]) == (n * 64 + xs[0]) * 64 + xs[1];
  }

  lemma TwoBytes(n: nat, s: Bytes)
    requires |s| == 2
    ensures Read64(n, Sextets(s)) == Read256(n, s) * Filled(2)
  {
    hide Quad, Triple;
    var xs := Sextets(s);
    QuadOf(s[0], s[1], 0);
    assert xs == [s[0] / 4, s[0] % 4 * 16 + s[1] / 16, s[1] % 16 * 4];
    assert xs[1..][1..] == [xs[2]] && s[1..] == [s[1]];
    var m := (n * 64 + xs[0]) * 64 + xs[1];
    assert Read64(n, xs) == Read64(n * 64 + xs[0], xs[1..]) == Read64(m, [xs[2]]) == m * 64 + xs[2];
    assert Read256(n, s) == Read256(n * 256 + s[0], [s[1]]) == (n * 256 + s[0]) * 256 + s[1];
  }

  const UPPER: string := "ABCDEFGHIJKLMNOPQRSTUVWXYZ"
  const LOWER: string := "abcdefghijklmnopqrstuvwxyz"
  const OTHERS: string := "0123456789+/"
  const ALPHABET: string := UPPER + LOWER + OTHERS

  lemma LetterIs(x: sextet)
    ensures Letter(x) == ALPHABET[x] as int
  {
    if x < 26 {
      UpperIs(x);
    } else if x < 52 {
      LowerIs(x - 26);
    } else {
      assert ALPHABET[x] == OTHERS[x - 52];
    }
  }

  lemma UpperIs(x: nat)
    requires x < 26
    ensures UPPER[x] as int == 'A' as int + x
  {
  }

  lemma LowerIs(x: nat)
    requires x < 26
    ensures LOWER[x] as int == 'a' as int + x
  {
  }

  /** Four characters for three bytes or what is left of them: letters of the alphabet, then equals signs. */
  lemma TextOf(s: Bytes, i: nat)
    requires i < |Encode(s)|
    ensures |Encode(s)| == (|s| + 2) / 3 * 4
    ensures Encode(s)[i] == if i < |Sextets(s)| then ALPHABET[Sextets(s)[i]] as int else '=' as int
  {
    hide Sextets, Letter;
    CountOf(s);
    if i < |Sextets(s)| {
      LetterIs(Sextets(s)[i]);
    }
  }

  lemma ThreeMore(n: nat)
    requires n >= 3
    ensures (n + 2) / 3 == (n - 1) / 3 + 1 && Padding(n) == Padding(n - 3)
  {
  }

  lemma {:induction false} CountOf(s: Bytes)
    ensures |Sextets(s)| + |Padding(|s|)| == (|s| + 2) / 3 * 4
  {
    if |s| >= 3 {
      hide *;
      CountOf(s[3..]);
      SextetsOfMore(s);
      ThreeMore(|s|);
    }
  }
}
