/** Where a text is cut into components: as section 5.3 of RFC 3986 puts them together. */
module UrlShape {
  import opened Prelude
  import opened UrlText
  import opened Url
  import opened UrlRoundTrip

  function Prefixed(mark: Bytes, r: Option<Bytes>): Bytes
  {
    if r.Some? then mark + r.value else []
  }

  function JoinTail(c: Cut): Bytes
  {
    c.path + (Prefixed(['?' as int], c.query) + Prefixed(['#' as int], c.fragment))
  }

  /** Component recomposition. */
  function Join(scheme: Option<Bytes>, c: Cut): Bytes
  {
    (if scheme.Some? then scheme.value + [':' as int] else []) + (Prefixed(['/' as int, '/' as int], c.auth) + JoinTail(c))
  }

  ghost predicate Without(r: Option<Bytes>, cs: Bytes) { r.None? || Avoids(r.value, cs) }

  /** A colon stands in the first segment. */
  ghost predicate ColonInFirst(path: Bytes)
  {
    exists k: nat :: k < |path| && path[k] == ':' as int && forall i: nat :: i < k ==> path[i] != '/' as int
  }

  /** No component holds a character that would end it. */
  ghost predicate Separated(scheme: Option<Bytes>, c: Cut)
  {
    && Without(scheme, [':' as int, '/' as int, '?' as int, '#' as int])
    && Without(c.auth, ['/' as int, '?' as int, '#' as int])
    && Avoids(c.path, ['?' as int, '#' as int])
    && Without(c.query, ['#' as int])
    && (c.auth.Some? ==> c.path == [] || c.path[0] == '/' as int)
    && (c.auth.None? ==> !(|c.path| >= 2 && c.path[0] == c.path[1] == '/' as int))
    && (c.auth.None? && scheme.None? ==> !ColonInFirst(c.path))
  }

  /** What Parse takes for the scheme and what for the rest. */
  function Split(s: Bytes): (Option<Bytes>, Cut)
  {
    match SchemeLength(s)
    case None => (None, CutRest(s))
    case Some(k) => (Some(s[..k]), CutRest(s[k + 1..]))
  }

  // ---------------------------------------------------------------- taken apart and put together

  lemma TailJoins(auth: Option<Bytes>, s: Bytes)
    ensures var c := CutTail(auth, s);
            && JoinTail(c) == s && c.auth == auth
            && Avoids(c.path, ['?' as int, '#' as int]) && Without(c.query, ['#' as int])
            && c.path <= s && (|c.path| < |s| ==> s[|c.path|] in PATH_ENDS)
  {
    hide FirstOf, JoinTail;
    var p := FirstOf(s, PATH_ENDS);
    if p == |s| {
      JoinPath(auth, s);
    } else if s[p] == HASH {
      JoinFragment(auth, s, p);
    } else {
      JoinQuery(auth, s, p, FirstOf(s[p + 1..], [HASH]));
    }
  }

  lemma JoinPath(auth: Option<Bytes>, s: Bytes)
    ensures JoinTail(Cut(auth, s, None, None)) == s
  {
  }

  lemma JoinFragment(auth: Option<Bytes>, s: Bytes, p: nat)
    requires p < |s| && s[p] == HASH
    ensures JoinTail(Cut(auth, s[..p], None, Some(s[p + 1..]))) == s
  {
    assert s == s[..p] + ([HASH] + s[p + 1..]);
  }

  lemma JoinQuery(auth: Option<Bytes>, s: Bytes, p: nat, h: nat)
    requires p < |s| && s[p] == QUESTION && p + 1 + h <= |s| && (p + 1 + h < |s| ==> s[p + 1 + h] == HASH)
    ensures var q := s[p + 1..];
            JoinTail(Cut(auth, s[..p], Some(q[..h]), if h == |q| then None else Some(q[h + 1..]))) == s
  {
    var q := s[p + 1..];
    assert s == s[..p] + ([QUESTION] + q);
    if h == |q| {
      assert q[..h] == q && ([QUESTION] + q) + [] == [QUESTION] + q;
    } else {
      var f := [HASH] + q[h + 1..];
      assert q == q[..h] + f;
      Assoc([QUESTION], q[..h], f);
    }
  }

  lemma RestJoins(s: Bytes)
    ensures var c := CutRest(s);
            && Prefixed(['/' as int, '/' as int], c.auth) + JoinTail(c) == s
            && Without(c.auth, ['/' as int, '?' as int, '#' as int])
            && Avoids(c.path, ['?' as int, '#' as int]) && Without(c.query, ['#' as int])
            && (c.auth.Some? ==> c.path == [] || c.path[0] == '/' as int)
            && (c.auth.None? ==> JoinTail(c) == s && !(|c.path| >= 2 && c.path[0] == c.path[1] == '/' as int))
  {
    hide FirstOf, CutTail, JoinTail;
    if HasAuth(s) {
      var a := FirstOf(s[2..], AUTH_ENDS);
      TailJoins(Some(s[2..2 + a]), s[2 + a..]);
      assert s == [SLASH, SLASH] + s[2..2 + a] + s[2 + a..];
      assert 2 + a < |s| ==> s[2 + a..][0] == s[2..][a];
    } else {
      TailJoins(None, s);
      assert [] + s == s;
    }
  }

  /** A colon in the first segment would have ended a scheme. */
  lemma NoColonInFirst(s: Bytes)
    requires SchemeLength(s) == None && CutRest(s).auth.None?
    ensures !ColonInFirst(CutRest(s).path)
  {
    hide FirstOf;
    var path := CutRest(s).path;
    var j := FirstOf(s, SCHEME_ENDS);
    if k: nat :| k < |path| && path[k] == ':' as int && forall i: nat :: i < k ==> path[i] != '/' as int {
      assert false;
    }
  }

  /** Every text is what its components give, and they hold nothing that would end them. */
  lemma SplitJoins(s: Bytes)
    ensures var (scheme, c) := Split(s);
            Join(scheme, c) == s && Separated(scheme, c)
  {
    hide FirstOf, CutRest, JoinTail, ColonInFirst;
    match SchemeLength(s)
    case None =>
      RestJoins(s);
      assert [] + s == s;
      if CutRest(s).auth.None? {
        NoColonInFirst(s);
      }
    case Some(k) =>
      RestJoins(s[k + 1..]);
      assert s == s[..k] + [COLON] + s[k + 1..];
  }

  // ---------------------------------------------------------------- put together and taken apart

  lemma TailSplits(auth: Option<Bytes>, c: Cut)
    requires Avoids(c.path, ['?' as int, '#' as int]) && Without(c.query, ['#' as int]) && c.auth == auth
    ensures CutTail(auth, JoinTail(c)) == c
  {
    hide CutTail, FirstOf;
    var f := Prefixed(['#' as int], c.fragment);
    if c.query.Some? {
      var q := c.query.value;
      FirstOfBehind(q, f, [HASH]);
      Assoc([QUESTION], q, f);
      CutAtQuestion(auth, c.path, q + f, |q|);
      assert (q + f)[..|q|] == q;
      assert f != [] ==> (q + f)[|q| + 1..] == f[1..];
    } else if c.fragment.Some? {
      assert [] + f == f;
      CutAtHash(auth, c.path, c.fragment.value);
    } else {
      CutNowhere(auth, c.path);
    }
  }

  lemma TailBegins(c: Cut)
    requires c.auth.Some? ==> c.path == [] || c.path[0] == '/' as int
    ensures c.path == [] ==> EndsWith(JoinTail(c), PATH_ENDS)
    ensures c.path != [] ==> JoinTail(c) != [] && JoinTail(c)[0] == c.path[0]
    ensures |c.path| > 1 ==> |JoinTail(c)| > 1 && JoinTail(c)[1] == c.path[1]
    ensures |c.path| == 1 && |JoinTail(c)| > 1 ==> JoinTail(c)[1] in PATH_ENDS
    ensures c.auth.Some? ==> EndsWith(JoinTail(c), AUTH_ENDS)
  {
  }

  lemma RestSplits(scheme: Option<Bytes>, c: Cut)
    requires Separated(scheme, c)
    ensures CutRest(Prefixed(['/' as int, '/' as int], c.auth) + JoinTail(c)) == c
  {
    hide CutTail, FirstOf, JoinTail, ColonInFirst;
    var t := JoinTail(c);
    TailSplits(c.auth, c);
    TailBegins(c);
    if c.auth.Some? {
      var a := c.auth.value;
      var s := [SLASH, SLASH] + a + t;
      assert s[2..] == a + t;
      FirstOfBehind(a, t, AUTH_ENDS);
      assert s[2..2 + |a|] == a && s[2 + |a|..] == t;
    } else {
      assert [] + t == t;
      assert !HasAuth(t);
    }
  }

  lemma NoSchemeInPath(path: Bytes, tail: Bytes)
    requires !ColonInFirst(path) && EndsWith(tail, PATH_ENDS)
    ensures SchemeLength(path + tail) == None
  {
    hide FirstOf;
    var s := path + tail;
    var k := FirstOf(s, SCHEME_ENDS);
    assert forall i: nat :: i < |path| ==> path[i] == s[i];
    assert tail != [] ==> s[|path|] == tail[0];
  }

  lemma NoSchemeIn(c: Cut)
    requires Separated(None, c)
    ensures SchemeLength(Prefixed(['/' as int, '/' as int], c.auth) + JoinTail(c)) == None
  {
    hide FirstOf, ColonInFirst, Avoids;
    var s := Prefixed(['/' as int, '/' as int], c.auth) + JoinTail(c);
    if c.auth.Some? {
      assert s[0] == SLASH;
    } else {
      assert s == JoinTail(c);
      NoSchemeInPath(c.path, Prefixed(['?' as int], c.query) + Prefixed(['#' as int], c.fragment));
    }
  }

  /** Components that hold nothing that would end them are found again: no text can be cut another way. */
  lemma JoinSplits(scheme: Option<Bytes>, c: Cut)
    requires Separated(scheme, c)
    ensures Split(Join(scheme, c)) == (scheme, c)
  {
    hide FirstOf, CutRest, JoinTail;
    var rest := Prefixed(['/' as int, '/' as int], c.auth) + JoinTail(c);
    RestSplits(scheme, c);
    match scheme
    case None =>
      assert Join(None, c) == [] + rest == rest;
      NoSchemeIn(c);
    case Some(s) =>
      assert Join(scheme, c) == s + [COLON] + rest == s + ([COLON] + rest);
      FirstOfBehind(s, [COLON] + rest, SCHEME_ENDS);
      var u := Join(scheme, c);
      assert u[..|s|] == s && u[|s| + 1..] == rest && u[|s|] == COLON;
  }
}
