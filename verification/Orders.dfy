/** What the orders of routes and of keys mean, without the loops that decide them. */
module Orders {
  import opened Prelude
  import opened TypedCodec
  import opened Routes

  // ---------------------------------------------------------------- routes

  /** Up to place k the routes agree, and there the first has the hop that comes later. */
  ghost predicate GreaterAt(a: Route, b: Route, k: nat)
  {
    k < |a| && k < |b| && a[..k] == b[..k] &&
    (Tag(a[k]) > Tag(b[k]) || (Tag(a[k]) == Tag(b[k]) && Field(a[k]) > Field(b[k])))
  }

  lemma {:induction false} LessFromMeans(a: Route, b: Route, i: nat)
    requires |a| == |b| && i <= |a| && a[..i] == b[..i]
    ensures LessFrom(a, b, i) <==> exists k: nat :: i <= k && GreaterAt(a, b, k)
    decreases |a| - i
  {
    if i < |a| {
      assert a[..i + 1] == a[..i] + [a[i]] && b[..i + 1] == b[..i] + [b[i]];
      HopByTagAndField(a[i], b[i]);
      if a[i] == b[i] {
        LessFromMeans(a, b, i + 1);
        assert !GreaterAt(a, b, i);
      } else {
        assert GreaterAt(a, b, i) <==> LessFrom(a, b, i);
        forall k: nat | i < k ensures !GreaterAt(a, b, k) {
          assert k < |a| ==> a[..k][i] == a[i] && b[..k][i] == b[i];
        }
      }
    }
  }

  /** One route comes before another if it is longer, or as long and greater at the first difference. */
  lemma PrecedesMeans(a: Route, b: Route)
    ensures Precedes(a, b) <==> |a| > |b| || (|a| == |b| && exists k: nat :: GreaterAt(a, b, k))
  {
    hide GreaterAt;
    if |a| == |b| {
      assert a[..0] == b[..0];
      LessFromMeans(a, b, 0);
    }
  }

  // ---------------------------------------------------------------- keys

  /** A proper prefix, or less at the first difference. */
  ghost predicate Before<T>(a: seq<T>, b: seq<T>, less: (T, T) -> bool)
  {
    (|a| < |b| && a == b[..|a|]) || exists k: nat :: FirstDifference(a, b, k) && less(a[k], b[k])
  }

  ghost predicate FirstDifference<T>(a: seq<T>, b: seq<T>, k: nat)
  {
    k < |a| && k < |b| && a[..k] == b[..k] && a[k] != b[k]
  }

  lemma DifferenceBehind<T>(a: seq<T>, b: seq<T>, k: nat)
    requires a != [] && b != [] && a[0] == b[0]
    ensures FirstDifference(a[1..], b[1..], k) <==> FirstDifference(a, b, k + 1)
  {
    if k < |a| - 1 && k < |b| - 1 {
      assert a[..k + 1] == [a[0]] + a[1..][..k] && b[..k + 1] == [b[0]] + b[1..][..k];
      assert a[..k + 1][1..] == a[1..][..k] && b[..k + 1][1..] == b[1..][..k];
    }
  }

  lemma BeforeBehind<T>(a: seq<T>, b: seq<T>, less: (T, T) -> bool)
    requires a != [] && b != [] && a[0] == b[0]
    ensures Before(a[1..], b[1..], less) <==> Before(a, b, less)
  {
    var s, t := a[1..], b[1..];
    forall k: nat ensures FirstDifference(s, t, k) <==> FirstDifference(a, b, k + 1) {
      DifferenceBehind(a, b, k);
    }
    assert !FirstDifference(a, b, 0);
    if k: nat :| FirstDifference(s, t, k) && less(s[k], t[k]) {
      assert FirstDifference(a, b, k + 1) && less(a[k + 1], b[k + 1]);
    }
    if k: nat :| FirstDifference(a, b, k) && less(a[k], b[k]) {
      assert FirstDifference(s, t, k - 1) && less(s[k - 1], t[k - 1]);
    }
    assert a == [a[0]] + s;
    if |a| < |b| {
      assert b[..|a|] == [b[0]] + t[..|s|] && b[..|a|][1..] == t[..|s|];
    }
  }

  /** A difference in front decides. */
  lemma BeforeAtOnce<T>(a: seq<T>, b: seq<T>, less: (T, T) -> bool)
    requires a != [] && b != [] && a[0] != b[0]
    ensures Before(a, b, less) <==> less(a[0], b[0])
  {
    assert FirstDifference(a, b, 0) by { assert a[..0] == b[..0]; }
    forall k: nat | k > 0 ensures !FirstDifference(a, b, k) {
      assert k < |a| && k < |b| ==> a[..k][0] == a[0] && b[..k][0] == b[0];
    }
    assert |a| < |b| ==> b[..|a|][0] == b[0];
  }

  lemma {:induction false} TextIsLess(a: Bytes, b: Bytes)
    ensures CmpBytes(a, b) < 0 <==> Before(a, b, (x, y) => x < y)
  {
    if a != [] && b != [] {
      if a[0] == b[0] {
        TextIsLess(a[1..], b[1..]);
        BeforeBehind(a, b, (x, y) => x < y);
      } else {
        BeforeAtOnce(a, b, (x, y) => x < y);
      }
    }
  }

  lemma {:induction false} ItemsAreLess(a: seq<Value>, b: seq<Value>)
    ensures CmpItems(a, b) < 0 <==> Before(a, b, Less)
    decreases |a|
  {
    hide Cmp;
    if a != [] && b != [] {
      CmpTrichotomy(a[0], b[0]);
      if a[0] == b[0] {
        ItemsAreLess(a[1..], b[1..]);
        BeforeBehind(a, b, Less);
      } else {
        BeforeAtOnce(a, b, Less);
      }
    }
  }

  /** Numbers by size, false before true, texts and lists by their first difference, pairs by the first that differs. */
  lemma LessMeans(u: Value, v: Value)
    ensures u.VInt? && v.VInt? ==> (Less(u, v) <==> u.i < v.i)
    ensures u.VBool? && v.VBool? ==> (Less(u, v) <==> !u.b && v.b)
    ensures u.VStr? && v.VStr? ==> (Less(u, v) <==> Before(u.s, v.s, (x, y) => x < y))
    ensures u.VPair? && v.VPair? ==>
              (Less(u, v) <==> Less(u.fst, v.fst) || (u.fst == v.fst && Less(u.snd, v.snd)))
    ensures (u.VSeq? && v.VSeq?) || (u.VSet? && v.VSet?) || (u.VMap? && v.VMap?) ==>
              (Less(u, v) <==> Before(u.items, v.items, Less))
  {
    hide CmpBytes, CmpItems, Before;
    if u.VStr? && v.VStr? {
      TextIsLess(u.s, v.s);
    } else if u.VPair? && v.VPair? {
      CmpTrichotomy(u.fst, v.fst);
    } else if (u.VSeq? && v.VSeq?) || (u.VSet? && v.VSet?) || (u.VMap? && v.VMap?) {
      ItemsAreLess(u.items, v.items);
    }
  }
}
