/** Every URL has a form that building leaves alone: the one it builds to. */
module UrlCanonical {
  import opened Prelude
  import opened UrlText
  import opened UrlPath
  import opened Url
  import opened UrlRoundTrip
  import UrlQuery

  // ---------------------------------------------------------------- what reading leaves

  lemma LowerTwice(s: Bytes)
    ensures Lower(Lower(s)) == Lower(s)
  {
  }

  lemma LowerScheme(s: Bytes)
    requires IsScheme(s)
    ensures IsScheme(Lower(s))
  {
  }

  lemma LowerName(s: Bytes)
    requires AllChars(s, NAME)
    ensures AllChars(Lower(s), NAME)
    ensures IsIpv4(Lower(s)) ==> IsIpv4(s)
  {
    hide IsChar;
    forall i: nat | i < |s| ensures IsChar(Lower(s)[i], NAME) {
      MaskMeans(s[i]);
      MaskMeans(LowerByte(s[i]));
    }
    if IsIpv4(Lower(s)) {
      forall i: nat | i < |s| ensures s[i] == DOT || IsNum(s[i]) {
        assert Lower(s)[i] == DOT || IsNum(Lower(s)[i]);
      }
    }
  }

  lemma ReadHostIsWf(user: Bytes, s: Bytes)
    requires ReadHost(user, s).Good?
    ensures var a := ReadHost(user, s).value;
            a.user == user && WfHost(a.host, a.ipv) && (a.port == [] || IsPort(a.port))
  {
    hide AllChars, IsPort, FirstOf, IsIpv4, Lower;
    var host := s[..FirstOf(s, [COLON])];
    LowerTwice(host);
    if AllChars(host, NAME) {
      LowerName(host);
    }
  }

  lemma ReadAuthIsWf(s: Bytes)
    requires ReadAuth(s).Good?
    ensures var a := ReadAuth(s).value; WfHost(a.host, a.ipv) && (a.port == [] || IsPort(a.port))
  {
    hide ReadHost, FirstOf, ReadPart, WfHost, IsPort;
    var at := FirstOf(s, [AT]);
    if at == |s| {
      ReadHostIsWf([], s);
    } else {
      ReadHostIsWf(ReadPart(USER, s[..at]).value, s[at + 1..]);
    }
  }

  lemma EmptyIsWf()
    ensures Wf(EMPTY)
  {
  }

  lemma AssembleIsWf(scheme: Bytes, a: Authority, c: Cut)
    requires Assemble(scheme, a, c).Good?
    requires scheme == [] || (IsScheme(scheme) && Lower(scheme) == scheme)
    requires WfHost(a.host, a.ipv) && (a.port == [] || IsPort(a.port))
    ensures Wf(Assemble(scheme, a, c).value)
  {
    hide ReadPart, Normalize, IsScheme, Lower, WfHost, IsPort, UrlQuery.Parse;
    NormalizeIsIdempotent(ReadPart(PATH, c.path).value);
  }

  lemma ParseRestIsWf(scheme: Bytes, rest: Bytes)
    requires ParseRest(scheme, rest).Good?
    requires scheme == [] || (IsScheme(scheme) && Lower(scheme) == scheme)
    ensures Wf(ParseRest(scheme, rest).value)
  {
    hide Assemble, CutRest, ReadAuth, Wf, IsScheme, Lower, IsPort;
    var c := CutRest(rest);
    if c.auth.None? {
      AssembleIsWf(scheme, NOBODY, c);
    } else {
      ReadAuthIsWf(c.auth.value);
      AssembleIsWf(scheme, ReadAuth(c.auth.value).value, c);
    }
  }

  lemma ParseIsWf(t: Bytes)
    requires Parse(t).Good?
    ensures Wf(Parse(t).value)
  {
    hide ParseRest, SchemeLength, Wf, IsScheme, Lower;
    EmptyIsWf();
    if t != [] {
      match SchemeLength(t)
      case None => ParseRestIsWf([], t);
      case Some(k) =>
        LowerTwice(t[..k]);
        LowerScheme(t[..k]);
        ParseRestIsWf(Lower(t[..k]), t[k + 1..]);
    }
  }

  // ---------------------------------------------------------------- lengths

  lemma ReadPartIsNoLonger(mask: bv8, s: Bytes)
    requires Written(mask) && ReadPart(mask, s).Some?
    ensures |Encode(Part(mask), ReadPart(mask, s).value)| <= |s|
  {
    hide IsChar, Encode, Decode;
    forall i: nat | i < |s| ensures MayStand(Part(mask), s[i]) {
      assert IsChar(s[i], Read(mask));
    }
    EncodeIsNoLonger(Part(mask), s);
  }

  function Length(r: Option<Bytes>): nat
  {
    if r.None? then 0 else 1 + |r.value|
  }

  lemma CutTailLength(auth: Option<Bytes>, s: Bytes)
    ensures var c := CutTail(auth, s); c.auth == auth && |c.path| + Length(c.query) + Length(c.fragment) == |s|
  {
    hide FirstOf;
  }

  lemma CutRestLength(s: Bytes)
    ensures var c := CutRest(s);
            (if c.auth.None? then 0 else 2 + |c.auth.value|) + |c.path| + Length(c.query) + Length(c.fragment) == |s|
  {
    hide FirstOf, CutTail;
    if HasAuth(s) {
      var a := FirstOf(s[2..], AUTH_ENDS);
      CutTailLength(Some(s[2..2 + a]), s[2 + a..]);
    } else {
      CutTailLength(None, s);
    }
  }

  lemma TailIsNoLonger(scheme: Bytes, a: Authority, c: Cut)
    requires Assemble(scheme, a, c).Good?
    ensures |TailText(Assemble(scheme, a, c).value)| <= |c.path| + Length(c.query) + Length(c.fragment)
  {
    hide ReadPart, Normalize, Encode, UrlQuery.Text, UrlQuery.ParseEntries;
    var x := Assemble(scheme, a, c).value;
    var path := ReadPart(PATH, c.path).value;
    ReadPartIsNoLonger(PATH, c.path);
    NormalizeIsNoLonger(path);
    if c.query.Some? && c.query.value != [] {
      UrlQuery.TextIsNoLonger(c.query.value);
    }
    if c.fragment.Some? {
      ReadPartIsNoLonger(REST, c.fragment.value);
    }
  }

  lemma HostIsNoLonger(user: Bytes, s: Bytes)
    requires ReadHost(user, s).Good?
    ensures var a := ReadHost(user, s).value;
            a.user == user && |a.host| + (if a.port == [] then 0 else 1 + |a.port|) <= |s|
  {
    hide AllChars, IsPort, FirstOf, IsIpv4, Lower;
  }

  lemma AuthIsNoLonger(x: Parts, s: Bytes)
    requires ReadAuth(s) == Good(Authority(x.user, x.host, x.ipv, x.port))
    ensures |AuthText(x)| <= |s|
  {
    hide ReadHost, FirstOf, ReadPart, Encode, IsDefaultPort;
    var at := FirstOf(s, [AT]);
    if at == |s| {
      HostIsNoLonger([], s);
    } else {
      ReadPartIsNoLonger(USER, s[..at]);
      HostIsNoLonger(ReadPart(USER, s[..at]).value, s[at + 1..]);
    }
  }

  lemma RestIsNoLonger(scheme: Bytes, rest: Bytes)
    requires ParseRest(scheme, rest).Good?
    ensures var x := ParseRest(scheme, rest).value;
            x.scheme == scheme && |FrontText(x) + TailText(x)| <= |rest|
  {
    hide Assemble, CutRest, ReadAuth, TailText, AuthText;
    var x := ParseRest(scheme, rest).value;
    var c := CutRest(rest);
    CutRestLength(rest);
    if c.auth.None? {
      AssembleKeeps(scheme, NOBODY, c);
      TailIsNoLonger(scheme, NOBODY, c);
    } else {
      var a := ReadAuth(c.auth.value).value;
      AssembleKeeps(scheme, a, c);
      TailIsNoLonger(scheme, a, c);
      AuthIsNoLonger(x, c.auth.value);
    }
  }

  lemma AssembleKeeps(scheme: Bytes, a: Authority, c: Cut)
    requires Assemble(scheme, a, c).Good?
    ensures var x := Assemble(scheme, a, c).value;
            x.scheme == scheme && a == Authority(x.user, x.host, x.ipv, x.port)
  {
    hide ReadPart, Normalize;
  }

  /** What is built from a text is never longer than the text. */
  lemma BuildIsNoLonger(t: Bytes)
    requires Parse(t).Good? && Build(Parse(t).value).Good?
    ensures |Build(Parse(t).value).value| <= |t|
  {
    hide ParseRest, FrontText, TailText, SchemeLength, IsScheme;
    var x := Parse(t).value;
    if t == [] {
      NothingFromNothing();
    } else {
      match SchemeLength(t)
      case None => RestIsNoLonger([], t);
      case Some(k) => RestIsNoLonger(Lower(t[..k]), t[k + 1..]);
    }
  }

  lemma NothingFromNothing()
    ensures Build(EMPTY) == Good([])
  {
    EncodeNothing();
    var nothing: Bytes := [];
    assert nothing + (nothing + (nothing + (nothing + nothing))) == [];
  }

  // ---------------------------------------------------------------- the canonical form

  lemma BuildCanon(x: Parts)
    requires Build(x).Good?
    ensures Build(Canon(x)) == Build(x)
  {
    hide Encode, UrlQuery.Text, ColonFirst, UrlQuery.HasKeys;
  }

  /**
   Whatever text is read and can be built again: what is built is no longer, is read to the same
   components but for a default port and, without a host, the kind of host, and is built from them
   to itself.
   */
  lemma BuiltTextIsCanonical(t: Bytes, x: Parts, u: Bytes)
    requires Parse(t) == Good(x) && Build(x) == Good(u)
    ensures |u| <= |t| && Parse(u) == Good(Canon(x)) && Build(Canon(x)) == Good(u)
  {
    hide Parse, Build, Wf, Canon;
    ParseIsWf(t);
    BuildIsNoLonger(t);
    BuildCanon(x);
    assert |t| <= 8000 by { ParseBounds(t); }
    ParseBuild(x, u);
  }

  lemma ParseBounds(t: Bytes)
    requires Parse(t).Good?
    ensures |t| <= 8000
  {
    hide ParseRest, IsScheme, SchemeLength;
  }
}
