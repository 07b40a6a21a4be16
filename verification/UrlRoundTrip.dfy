/** What is built is read back, and building it again changes nothing. */
module UrlRoundTrip {
  import opened Prelude
  import opened UrlText
  import opened UrlPath
  import opened Url
  import UrlQuery

  // ---------------------------------------------------------------- what components look like

  ghost predicate WfHost(host: Bytes, ipv: int)
  {
    || host == []
    || (IsIpv4(host) && ipv == 4)
    || (!IsIpv4(host) && AllChars(host, NAME) && Lower(host) == host && ipv == 0)
  }

  /** Components as reading leaves them. */
  ghost predicate Wf(x: Parts)
  {
    && (x.scheme == [] || (IsScheme(x.scheme) && Lower(x.scheme) == x.scheme))
    && WfHost(x.host, x.ipv)
    && (x.port == [] || IsPort(x.port))
    && Normalize(x.path) == x.path
  }

  ghost predicate Avoids(s: Bytes, cs: Bytes)
  {
    forall i: nat :: i < |s| ==> s[i] !in cs
  }

  ghost predicate EndsWith(s: Bytes, cs: Bytes) { s == [] || s[0] in cs }

  lemma FirstOfBehind(a: Bytes, b: Bytes, cs: Bytes)
    requires Avoids(a, cs) && EndsWith(b, cs)
    ensures FirstOf(a + b, cs) == |a|
  {
    hide FirstOf;
    FirstOfIs(a + b, cs, |a|);
  }

  lemma EncodedAvoids(mask: bv8, s: Bytes, cs: Bytes)
    requires Written(mask) && forall c: byte :: c in cs ==> !MayStand(Part(mask), c)
    ensures Avoids(Encode(Part(mask), s), cs)
  {
    hide Encode, MayStand;
    var x := Encode(Part(mask), s);
    EncodedIsText(Part(mask), s);
    forall i: nat | i < |x| ensures x[i] !in cs {
      assert MayStand(Part(mask), x[i]);
    }
  }

  lemma MasksAvoid()
    ensures forall c: byte :: c in PATH_ENDS ==> !MayStand(Part(PATH), c)
    ensures forall c: byte :: c in AUTH_ENDS + [AT] ==> !MayStand(Part(USER), c)
    ensures forall c: byte :: c in [HASH] ==> !MayStand(Part(REST), c)
  {
    hide IsChar;
    ReadMeans(QUESTION, PATH);
    ReadMeans(HASH, PATH);
    MaskMeans(QUESTION);
    MaskMeans(SLASH);
    MaskMeans(AT);
    MaskMeans(HASH);
    ReadMeans(SLASH, USER);
    ReadMeans(QUESTION, USER);
    ReadMeans(HASH, USER);
    ReadMeans(AT, USER);
    ReadMeans(HASH, REST);
  }

  lemma ReadPartEncoded(mask: bv8, s: Bytes)
    requires Written(mask)
    ensures ReadPart(mask, Encode(Part(mask), s)) == Some(s)
  {
    hide Encode, Decode, IsChar;
    var x := Encode(Part(mask), s);
    EncodedIsText(Part(mask), s);
    forall i: nat | i < |x| ensures IsChar(x[i], Read(mask)) {
      assert MayStand(Part(mask), x[i]);
    }
    DecodeEncode(Part(mask), s);
  }

  // ---------------------------------------------------------------- path, query and fragment

  function CutOf(auth: Option<Bytes>, x: Parts): Cut
  {
    Cut(auth, PathText(x),
        if x.query == [] then None else Some(UrlQuery.Text(x.query)),
        if x.fragment == [] then None else Some(Encode(Part(REST), x.fragment)))
  }

  lemma CutAtQuestion(auth: Option<Bytes>, p: Bytes, t: Bytes, h: nat)
    requires Avoids(p, PATH_ENDS) && h == FirstOf(t, [HASH])
    ensures CutTail(auth, p + ([QUESTION] + t)) ==
            Cut(auth, p, Some(t[..h]), if h == |t| then None else Some(t[h + 1..]))
  {
    hide FirstOf, Avoids, EndsWith, CutTail;
    var s := p + ([QUESTION] + t);
    QuestionEnds(t);
    FirstOfBehind(p, [QUESTION] + t, PATH_ENDS);
    assert s[..|p|] == p;
    assert s[|p|] == QUESTION;
    assert s[|p| + 1..] == t;
    CutThere(auth, s, |p|, t, h);
  }

  lemma CutThere(auth: Option<Bytes>, s: Bytes, k: nat, t: Bytes, h: nat)
    requires k == FirstOf(s, PATH_ENDS) && k < |s| && s[k] == QUESTION && t == s[k + 1..] && h == FirstOf(t, [HASH])
    ensures CutTail(auth, s) == Cut(auth, s[..k], Some(t[..h]), if h == |t| then None else Some(t[h + 1..]))
  {
    hide FirstOf;
  }

  lemma QuestionEnds(t: Bytes)
    ensures EndsWith([QUESTION] + t, PATH_ENDS)
  {
  }

  lemma CutAtHash(auth: Option<Bytes>, p: Bytes, f: Bytes)
    requires Avoids(p, PATH_ENDS)
    ensures CutTail(auth, p + ([HASH] + f)) == Cut(auth, p, None, Some(f))
  {
    hide FirstOf;
    var s := p + ([HASH] + f);
    FirstOfBehind(p, [HASH] + f, PATH_ENDS);
    assert s[..|p|] == p && s[|p| + 1..] == f;
  }

  lemma CutTailText(auth: Option<Bytes>, x: Parts)
    ensures CutTail(auth, TailText(x)) == CutOf(auth, x)
  {
    hide Encode, FirstOf, UrlQuery.Text, CutTail;
    var p, f := PathText(x), FragmentText(x);
    MasksAvoid();
    EncodedAvoids(PATH, x.path, PATH_ENDS);
    if x.query != [] {
      var q := UrlQuery.Text(x.query);
      UrlQuery.TextHasNoHash(x.query);
      FirstOfBehind(q, f, [HASH]);
      Assoc([QUESTION], q, f);
      CutAtQuestion(auth, p, q + f, |q|);
      assert (q + f)[..|q|] == q;
      assert f != [] ==> (q + f)[|q| + 1..] == f[1..];
    } else if x.fragment != [] {
      assert [] + f == f;
      CutAtHash(auth, p, Encode(Part(REST), x.fragment));
    } else {
      CutNowhere(auth, p);
    }
  }

  lemma CutNowhere(auth: Option<Bytes>, p: Bytes)
    requires Avoids(p, PATH_ENDS)
    ensures CutTail(auth, p + ([] + [])) == Cut(auth, p, None, None)
  {
    hide FirstOf;
    assert p + ([] + []) == p;
    FirstOfBehind(p, [], PATH_ENDS);
  }

  lemma AssembleText(x: Parts, scheme: Bytes, a: Authority, auth: Option<Bytes>)
    requires Normalize(x.path) == x.path && UrlQuery.HasKeys(x.query)
    ensures Assemble(scheme, a, CutOf(auth, x)) ==
            Good(Parts(scheme, a.user, a.host, a.ipv, a.port, x.path, x.query, x.fragment))
  {
    hide Encode, Normalize, UrlQuery.Text, UrlQuery.Parse, ReadPart;
    ReadPartEncoded(PATH, x.path);
    ReadPartEncoded(REST, x.fragment);
    UrlQuery.ParseBuild(x.query);
  }

  // ---------------------------------------------------------------- the authority

  lemma NamesAvoid(s: Bytes)
    requires AllChars(s, NAME)
    ensures Avoids(s, AUTH_ENDS) && Avoids(s, [AT]) && Avoids(s, [COLON]) && (s != [] ==> s[0] != BRACKET)
  {
    hide IsChar;
    forall i: nat | i < |s| ensures s[i] !in AUTH_ENDS && s[i] != AT && s[i] != COLON && s[i] != BRACKET {
      MaskMeans(s[i]);
    }
  }

  lemma HostIsName(host: Bytes, ipv: int)
    requires WfHost(host, ipv)
    ensures AllChars(host, NAME)
  {
    hide IsChar;
    forall i: nat | i < |host| ensures IsChar(host[i], NAME) {
      MaskMeans(host[i]);
    }
  }

  lemma PortIsDigits(s: Bytes)
    requires IsPort(s)
    ensures s != [] && forall i: nat :: i < |s| ==> IsNum(s[i])
  {
    DigitsAreNum(s);
  }

  lemma PortIsName(s: Bytes)
    requires IsPort(s)
    ensures AllChars(s, NAME) && s != []
  {
    hide IsChar, IsPort;
    PortIsDigits(s);
    forall i: nat | i < |s| ensures IsChar(s[i], NAME) {
      MaskMeans(s[i]);
    }
  }

  function WrittenPort(x: Parts): Bytes
  {
    if IsDefaultPort(x.scheme, x.port) then [] else x.port
  }

  lemma ReadHostText(x: Parts)
    requires Wf(x) && x.host != []
    ensures ReadHost(x.user, x.host + PortText(x)) == Good(Authority(x.user, x.host, x.ipv, WrittenPort(x)))
  {
    hide AllChars, IsPort, FirstOf, IsIpv4, Lower, IsDefaultPort, Normalize;
    var s := x.host + PortText(x);
    HostIsName(x.host, x.ipv);
    NamesAvoid(x.host);
    FirstOfBehind(x.host, PortText(x), [COLON]);
    assert s[..|x.host|] == x.host;
    if PortText(x) != [] {
      assert s[|x.host| + 1..] == x.port;
    }
  }

  lemma ReadAuthText(x: Parts)
    requires Wf(x) && x.host != []
    ensures ReadAuth(AuthText(x)) == Good(Authority(x.user, x.host, x.ipv, WrittenPort(x)))
  {
    hide Wf, ReadHost, FirstOf, PortText, Encode, ReadPart;
    var rest := x.host + PortText(x);
    ReadHostText(x);
    HostTextAvoids(x);
    if x.user == [] {
      assert AuthText(x) == rest;
      FirstOfBehind(rest, [], [AT]);
      assert rest + [] == rest;
    } else {
      var u := Encode(Part(USER), x.user);
      MasksAvoid();
      EncodedAvoids(USER, x.user, [AT]);
      assert AuthText(x) == u + ([AT] + rest);
      FirstOfBehind(u, [AT] + rest, [AT]);
      ReadPartEncoded(USER, x.user);
      assert AuthText(x)[..|u|] == u && AuthText(x)[|u| + 1..] == rest;
    }
  }

  lemma HostTextAvoids(x: Parts)
    requires Wf(x)
    ensures Avoids(x.host + PortText(x), [AT]) && Avoids(x.host + PortText(x), AUTH_ENDS)
  {
    hide AllChars, IsPort, Normalize;
    HostIsName(x.host, x.ipv);
    NamesAvoid(x.host);
    if x.port != [] {
      PortIsName(x.port);
      NamesAvoid(x.port);
    }
  }

  lemma AuthTextAvoids(x: Parts)
    requires Wf(x)
    ensures Avoids(AuthText(x), AUTH_ENDS)
  {
    hide Wf, PortText, Encode;
    HostTextAvoids(x);
    MasksAvoid();
    EncodedAvoids(USER, x.user, AUTH_ENDS);
    Assoc(UserText(x), x.host, PortText(x));
  }

  // ---------------------------------------------------------------- the whole

  /** The first character of a written path tells the first of the path. */
  lemma EncodedStarts(s: Bytes)
    requires s != []
    ensures var x := Encode(Part(PATH), s);
            x != [] && (x[0] == SLASH <==> s[0] == SLASH) && (x[0] == COLON <==> s[0] == COLON) &&
            x[0] != QUESTION && x[0] != HASH &&
            (s[0] == SLASH ==> x[1..] == Encode(Part(PATH), s[1..]))
  {
    hide IsChar;
    MaskMeans(s[0]);
    MaskMeans(HASH);
    MaskMeans(QUESTION);
    MaskMeans(SLASH);
    MaskMeans(COLON);
    assert s[0] == SLASH ==> EncodeByte(Part(PATH), s[0]) == [SLASH];
  }

  lemma TailStarts(x: Parts)
    ensures TailText(x) != [] && x.path == [] ==> TailText(x)[0] in PATH_ENDS
    ensures x.path != [] ==> TailText(x) != [] && TailText(x)[0] == PathText(x)[0]
  {
    hide Encode, UrlQuery.Text;
    if x.path == [] {
      assert PathText(x) == [] by { EncodeNothing(); }
    } else {
      EncodedStarts(x.path);
    }
  }

  lemma EncodeNothing()
    ensures Encode(Part(PATH), []) == []
  {
  }

  /** No path makes it look as if there were a host. */
  lemma TailHasNoAuth(x: Parts)
    requires Normalize(x.path) == x.path
    ensures !HasAuth(TailText(x))
  {
    hide Encode, UrlQuery.Text, Normalize;
    NormalizeShape(x.path);
    TailStarts(x);
    if IsRooted(x.path) {
      EncodedStarts(x.path);
      var t, rest := PathText(x), QueryText(x) + FragmentText(x);
      if |x.path| > 1 {
        EncodedStarts(x.path[1..]);
        assert TailText(x)[1] == t[1..][0];
      } else {
        assert t[1..] == [] by { EncodeNothing(); assert x.path[1..] == []; }
        assert |TailText(x)| > 1 ==> TailText(x)[1] == rest[0];
      }
    } else if x.path != [] {
      EncodedStarts(x.path);
    }
  }

  function AuthOf(x: Parts): Option<Bytes>
  {
    if x.host == [] then None else Some(AuthText(x))
  }

  lemma CutRestText(x: Parts)
    requires Wf(x) && CanBuild(x)
    ensures CutRest(FrontText(x) + TailText(x)) == CutOf(AuthOf(x), x)
  {
    hide Wf, Encode, FirstOf, AuthText, TailText, CutOf, CutTail;
    CutTailText(AuthOf(x), x);
    if x.host == [] {
      assert FrontText(x) + TailText(x) == TailText(x);
      assert Normalize(x.path) == x.path by { PathIsNormal(x); }
      TailHasNoAuth(x);
    } else {
      var a, t := AuthText(x), TailText(x);
      var s := FrontText(x) + t;
      assert s[2..] == a + t;
      AuthTextAvoids(x);
      TailStarts(x);
      if x.path != [] {
        EncodedStarts(x.path);
      }
      FirstOfBehind(a, t, AUTH_ENDS);
      assert s[2..2 + |a|] == a && s[2 + |a|..] == t;
    }
  }

  lemma PathIsNormal(x: Parts)
    requires Wf(x)
    ensures Normalize(x.path) == x.path
  {
  }

  /** What reading makes of what was written: the default port is gone, and without a host there is no IP version. */
  function Canon(x: Parts): Parts
  {
    Parts(x.scheme, x.user, x.host, if x.host == [] then -1 else x.ipv, WrittenPort(x), x.path, x.query, x.fragment)
  }

  lemma ParseRestText(x: Parts)
    requires Wf(x) && CanBuild(x)
    ensures ParseRest(x.scheme, FrontText(x) + TailText(x)) == Good(Canon(x))
  {
    hide Wf, FrontText, TailText, CutRest, ReadAuth, Assemble, AuthText, Normalize;
    CutRestText(x);
    PathIsNormal(x);
    if x.host == [] {
      NoDefaultPort(x);
      AssembleText(x, x.scheme, NOBODY, AuthOf(x));
    } else {
      ReadAuthText(x);
      AssembleText(x, x.scheme, Authority(x.user, x.host, x.ipv, WrittenPort(x)), AuthOf(x));
    }
  }

  lemma NoDefaultPort(x: Parts)
    requires x.port == []
    ensures WrittenPort(x) == []
  {
  }

  lemma SchemeAvoids(s: Bytes)
    requires IsScheme(s)
    ensures Avoids(s, SCHEME_ENDS)
  {
  }

  /** In the text of a path a colon comes first exactly when it does in the path. */
  lemma {:induction false} ColonFirstText(path: Bytes, rest: Bytes)
    requires !ColonFirst(path) && EndsWith(rest, PATH_ENDS)
    ensures SchemeLength(Encode(Part(PATH), path) + rest) == None
  {
    hide EncodeByte;
    var t := Encode(Part(PATH), path);
    if path == [] {
      assert t + rest == rest;
    } else {
      EncodedStarts(path);
      var e := EncodeByte(Part(PATH), path[0]);
      if path[0] != SLASH {
        ColonLater(path);
        ColonFirstText(path[1..], rest);
        EncodedByteAvoids(path[0]);
        Assoc(e, Encode(Part(PATH), path[1..]), rest);
        SchemeLengthBehind(e, Encode(Part(PATH), path[1..]) + rest);
      }
    }
  }

  lemma ColonLater(path: Bytes)
    requires path != [] && path[0] != SLASH && !ColonFirst(path)
    ensures path[0] != COLON && !ColonFirst(path[1..])
  {
  }

  lemma EncodedByteAvoids(c: byte)
    requires c != SLASH && c != COLON
    ensures Avoids(EncodeByte(Part(PATH), c), SCHEME_ENDS)
  {
    hide IsChar;
    MaskMeans(c);
    MaskMeans(HASH);
    MaskMeans(QUESTION);
  }

  lemma {:induction false} SchemeLengthBehind(a: Bytes, s: Bytes)
    requires Avoids(a, SCHEME_ENDS) && SchemeLength(s) == None
    ensures SchemeLength(a + s) == None
  {
    hide FirstOf;
    var k := FirstOf(s, SCHEME_ENDS);
    FirstOfIs(a + s, SCHEME_ENDS, |a| + k);
  }

  /** Reading undoes building, on components as reading leaves them; only Canon makes a difference. */
  lemma ParseBuild(x: Parts, u: Bytes)
    requires Wf(x) && Build(x) == Good(u) && |u| <= 8000
    ensures Parse(u) == Good(Canon(x))
  {
    hide Wf, FrontText, TailText, ParseRest, IsScheme, Lower, FirstOf;
    var rest := FrontText(x) + TailText(x);
    ParseRestText(x);
    if x.scheme != [] {
      var k := |x.scheme|;
      assert IsScheme(x.scheme) && Lower(x.scheme) == x.scheme by { SchemeIsLower(x); }
      SchemeAvoids(x.scheme);
      assert u == x.scheme + ([COLON] + rest);
      FirstOfBehind(x.scheme, [COLON] + rest, SCHEME_ENDS);
      assert u[..k] == x.scheme && u[k + 1..] == rest;
    } else {
      assert u == rest;
      if u == [] {
        NothingBuilt(x);
      } else {
        NoScheme(x);
      }
    }
  }

  lemma SchemeIsLower(x: Parts)
    requires Wf(x) && x.scheme != []
    ensures IsScheme(x.scheme) && Lower(x.scheme) == x.scheme
  {
  }

  lemma NothingBuilt(x: Parts)
    requires CanBuild(x) && x.scheme == [] && FrontText(x) + TailText(x) == []
    ensures Canon(x) == EMPTY
  {
    if x.path != [] {
      EncodedStarts(x.path);
    }
  }

  lemma NoScheme(x: Parts)
    requires CanBuild(x)
    ensures SchemeLength(FrontText(x) + TailText(x)) == None
  {
    hide Encode, UrlQuery.Text, AuthText;
    var s := FrontText(x) + TailText(x);
    if x.host == [] {
      assert s == TailText(x);
      ColonFirstText(x.path, QueryText(x) + FragmentText(x));
    } else {
      assert s[0] == SLASH;
    }
  }
}
