/** The URL object: a text and its components, each made from the other when it is asked for. */
module UrlObject {
  import opened Prelude
  import opened UrlText
  import opened UrlPath
  import opened Url
  import UrlQuery

  // ---------------------------------------------------------------- the loops over characters

  method ToLower(s: Bytes) returns (o: Bytes)
    ensures o == Lower(s)
  {
    o := s;
    for k := 0 to |s|
      invariant |o| == |s|
      invariant forall i: nat :: i < k ==> o[i] == LowerByte(s[i])
      invariant forall i: nat :: k <= i < |s| ==> o[i] == s[i]
    {
      if IsUpper(o[k]) {
        o := o[k := o[k] + 32];
      }
    }
  }

  method IsSchemeText(s: Bytes) returns (ok: bool)
    ensures ok <==> IsScheme(s)
  {
    if s == [] || !IsAlpha(s[0]) {
      return false;
    }
    for k := 1 to |s|
      invariant forall i: nat :: i < k ==> IsAlpha(s[i]) || IsNum(s[i]) || s[i] == PLUS || s[i] == MINUS || s[i] == DOT
    {
      var c := s[k];
      if !IsAlpha(c) && !IsNum(c) && c != PLUS && c != MINUS && c != DOT {
        return false;
      }
    }
    return true;
  }

  method IsIpv4Text(s: Bytes) returns (ok: bool)
    ensures ok <==> IsIpv4(s)
  {
    if |s| < 7 || |s| > 254 {
      return false;
    }
    for k := 0 to |s|
      invariant forall i: nat :: i < k ==> s[i] == DOT || IsNum(s[i])
    {
      if s[k] != DOT && !IsNum(s[k]) {
        return false;
      }
    }
    return true;
  }

  lemma {:induction false} DigitsEnd(s: Bytes, t: nat)
    requires t <= |s| && (forall i: nat :: i < t ==> IsNum(s[i])) && (t < |s| ==> !IsNum(s[t]))
    ensures Digits(s) == t
  {
    if t > 0 {
      DigitsEnd(s[1..], t - 1);
    }
  }

  lemma {:induction false} DigitsValueOneMore(val: nat, s: Bytes, c: byte)
    requires (forall i: nat :: i < |s| ==> IsNum(s[i])) && IsNum(c)
    ensures DigitsValue(val, s + [c]) == (DigitsValue(val, s) * 10 + (c - ZERO)) % TWO_32
    decreases |s|
  {
    if s == [] {
      assert s + [c] == [c] && [c][1..] == [];
    } else {
      assert (s + [c])[1..] == s[1..] + [c];
      DigitsValueOneMore((val * 10 + (s[0] - ZERO)) % TWO_32, s[1..], c);
    }
  }

  /** A number in 32 bits at the start of the text: where it ends, if it is there and not too large. */
  method IsUint(s: Bytes, max: nat) returns (r: Option<nat>)
    ensures r == Uint(s, max)
  {
    if s == [] || !IsNum(s[0]) {
      return None;
    }
    hide DigitsValue;
    var t: nat, val: nat := 1, s[0] - ZERO;
    if val == 0 {
      return Some(1);
    }
    DigitsOfNone(val);
    while t < |s| && IsNum(s[t])
      invariant 1 <= t <= |s| && forall i: nat :: i < t ==> IsNum(s[i])
      invariant val == DigitsValue(s[0] - ZERO, s[1..t])
    {
      DigitsValueOneMore(s[0] - ZERO, s[1..t], s[t]);
      assert s[1..t + 1] == s[1..t] + [s[t]];
      val := (val * 10 + (s[t] - ZERO)) % TWO_32;
      t := t + 1;
    }
    DigitsEnd(s, t);
    return if val > max then None else Some(t);
  }

  lemma DigitsOfNone(val: nat)
    ensures DigitsValue(val, []) == val
  {
  }

  // ---------------------------------------------------------------- components

  method ReadPartText(mask: bv8, s: Bytes) returns (r: Option<Bytes>)
    ensures r == Url.ReadPart(mask, s)
  {
    hide AllChars, Decode;
    var ok := AreChars(s, Read(mask));
    if !ok {
      return None;
    }
    r := DecodeText(false, s);
  }

  lemma {:induction false} DecodePlain(s: Bytes)
    requires PERCENT !in s
    ensures Decode(false, s) == Some(s)
  {
    if s != [] {
      DecodePlain(s[1..]);
      assert s == [s[0]] + s[1..];
    }
  }

  lemma HostHasNoPercent(host: Bytes)
    requires IsIpv4(host) || AllChars(host, NAME)
    ensures Decode(false, host) == Some(host)
  {
    hide IsChar, Decode;
    forall i: nat | i < |host| ensures host[i] != PERCENT {
      MaskMeans(host[i]);
    }
    DecodePlain(host);
  }

  method ReadHostText(user: Bytes, s: Bytes) returns (r: Outcome<Authority>)
    ensures r == ReadHost(user, s)
  {
    hide IsIpv4, AllChars, Uint, FirstOf, Lower, Decode;
    if s != [] && s[0] == BRACKET {
      return Bracketed;
    }
    var c := FindChar(s, COLON);
    var host, ipv := s[..c], 0;
    var four := IsIpv4Text(host);
    var name := AreChars(host, NAME);
    if four {
      ipv := 4;
    } else if !name {
      return Bad;
    }
    var port: Bytes := [];
    if c < |s| {
      port := s[c + 1..];
      var end := IsUint(port, 65535);
      if end != Some(|port|) {
        return Bad;
      }
    }
    HostHasNoPercent(host);
    var decoded := DecodeText(false, host);
    host := decoded.value;
    if ipv == 0 {
      host := ToLower(host);
    }
    return Good(Authority(user, host, ipv, port));
  }

  method ReadAuthText(s: Bytes) returns (r: Outcome<Authority>)
    ensures r == ReadAuth(s)
  {
    hide ReadHost, Url.ReadPart, FirstOf;
    var at := FindChar(s, AT);
    var user: Bytes, b := [], 0;
    if at < |s| {
      var part := ReadPartText(USER, s[..at]);
      if part.None? {
        return Bad;
      }
      user, b := part.value, at + 1;
    }
    assert s[0..] == s;
    r := ReadHostText(user, s[b..]);
  }

  method CutTailText(auth: Option<Bytes>, t: Bytes) returns (c: Cut)
    ensures c == CutTail(auth, t)
  {
    hide FirstOf;
    var p := FindFirstOf(t, PATH_ENDS);
    if p == |t| {
      return Cut(auth, t, None, None);
    }
    if t[p] == HASH {
      return Cut(auth, t[..p], None, Some(t[p + 1..]));
    }
    var q := t[p + 1..];
    var h := FindChar(q, HASH);
    c := Cut(auth, t[..p], Some(q[..h]), if h < |q| then Some(q[h + 1..]) else None);
  }

  method CutRestText(s: Bytes) returns (c: Cut)
    ensures c == CutRest(s)
  {
    hide FirstOf, CutTail;
    if |s| > 1 && s[0] == SLASH && s[1] == SLASH {
      var a := FindFirstOf(s[2..], AUTH_ENDS);
      c := CutTailText(Some(s[2..2 + a]), s[2 + a..]);
    } else {
      c := CutTailText(None, s);
    }
  }

  method AssembleText(scheme: Bytes, a: Authority, c: Cut) returns (r: Outcome<Parts>)
    ensures r == Assemble(scheme, a, c)
  {
    hide Url.ReadPart, Normalize, UrlQuery.Parse;
    var path := ReadPartText(PATH, c.path);
    if path.None? {
      return Bad;
    }
    var normal := NormalizePath(path.value);
    var query: seq<Entry> := [];
    if c.query.Some? {
      var entries := UrlQuery.ParseText(c.query.value);
      if entries.None? {
        return Bad;
      }
      query := entries.value;
    }
    var fragment: Bytes := [];
    if c.fragment.Some? {
      var part := ReadPartText(REST, c.fragment.value);
      if part.None? {
        return Bad;
      }
      fragment := part.value;
    }
    return Good(Parts(scheme, a.user, a.host, a.ipv, a.port, normal, query, fragment));
  }

  method ParseText(s: Bytes) returns (r: Outcome<Parts>)
    requires s != []
    ensures r == Parse(s)
  {
    hide FirstOf, IsScheme, Lower, CutRest, ReadAuth, Assemble;
    if |s| > 8000 {
      return Bad;
    }
    var k := FindFirstOf(s, SCHEME_ENDS);
    var scheme: Bytes, rest := [], s;
    if k < |s| && s[k] == COLON {
      var ok := IsSchemeText(s[..k]);
      if !ok {
        return Bad;
      }
      scheme := ToLower(s[..k]);
      rest := s[k + 1..];
    }
    var c := CutRestText(rest);
    var a := NOBODY;
    if c.auth.Some? {
      var read := ReadAuthText(c.auth.value);
      if read.Bad? {
        return Bad;
      }
      if read.Bracketed? {
        return Bracketed;
      }
      a := read.value;
    }
    r := AssembleText(scheme, a, c);
  }

  method BuildText(x: Parts) returns (r: Outcome<Bytes>)
    ensures r == Build(x)
  {
    hide Encode, UrlQuery.Text, FirstOf, UrlQuery.HasKeys;
    var front: Bytes := [];
    if x.host != [] {
      if x.ipv != 0 && x.ipv != 4 {
        return Bracketed;
      }
      var user: Bytes := [];
      if x.user != [] {
        user := EncodeText(Part(USER), x.user);
        user := user + [AT];
      }
      front := user + x.host;
      if x.port != [] && !((x.scheme == HTTP && x.port == PORT_80) || (x.scheme == HTTPS && x.port == PORT_443)) {
        front := front + ([COLON] + x.port);
      }
      assert front == AuthText(x);
      front := [SLASH, SLASH] + front;
    } else {
      if x.user != [] || x.port != [] {
        return Bad;
      }
      var p := FindFirstOf(x.path, [COLON, SLASH]);
      if p < |x.path| && x.path[p] == COLON {
        return Bad;
      }
    }
    if x.path != [] && x.path[0] != SLASH && x.host != [] {
      return Bad;
    }
    var path := EncodeText(Part(PATH), x.path);
    var query := UrlQuery.BuildText(x.query);
    if query.None? {
      return Bad;
    }
    var tail := if x.query == [] then [] else [QUESTION] + query.value;
    if x.fragment != [] {
      var fragment := EncodeText(Part(REST), x.fragment);
      tail := tail + ([HASH] + fragment);
    }
    assert tail == QueryText(x) + FragmentText(x);
    var scheme := if x.scheme == [] then [] else x.scheme + [COLON];
    return Good(scheme + (front + (path + tail)));
  }

  // ---------------------------------------------------------------- the object

  class UrlObject {
    var text: Bytes
    var scheme: Bytes
    var user: Bytes
    var host: Bytes
    var ipv: int
    var port: Bytes
    var path: Bytes
    var query: seq<Entry>
    var fragment: Bytes
    var parsed: bool
    var built: bool

    function View(): Parts
      reads this
    {
      Parts(scheme, user, host, ipv, port, path, query, fragment)
    }

    /** What the components are, or would be once the text is read. */
    function Meaning(): Outcome<Parts>
      reads this
    {
      if parsed then Good(View()) else Parse(text)
    }

    constructor FromText(s: Bytes)
      ensures text == s && !parsed && !built && View() == EMPTY
    {
      text := s;
      scheme, user, host, ipv, port, path, query, fragment := [], [], [], -1, [], [], [], [];
      parsed, built := false, false;
    }

    method SetParts(x: Parts)
      modifies this
      ensures View() == x && text == old(text) && parsed == old(parsed) && built == old(built)
    {
      scheme, user, host, ipv := x.scheme, x.user, x.host, x.ipv;
      port, path, query, fragment := x.port, x.path, x.query, x.fragment;
    }

    /** Either all components are set, or the object is as it was. */
    method ParseUrl() returns (ok: Outcome<Parts>)
      modifies this
      ensures ok == Parse(old(text))
      ensures ok.Good? ==> View() == ok.value && parsed && built == (text == []) && text == old(text)
      ensures !ok.Good? ==> unchanged(this)
    {
      hide Parse;
      if text == [] {
        assert Parse([]) == Good(EMPTY) by { ParseNothing(); }
        SetParts(EMPTY);
        parsed, built := true, true;
        return Good(EMPTY);
      }
      ok := ParseText(text);
      if ok.Good? {
        SetParts(ok.value);
        parsed, built := true, false;
      }
    }

    /** The text that the components stand for, also when they still have to be read from a text. */
    method BuildUrl() returns (r: Outcome<Bytes>)
      modifies this
      ensures old(Meaning()).Good? ==>
                r == Build(old(Meaning()).value) && parsed && View() == old(Meaning()).value &&
                (r.Good? ==> text == r.value)
      ensures !old(Meaning()).Good? ==> !r.Good? && unchanged(this)
    {
      hide Parse, Build;
      if !parsed {
        var ok := ParseUrl();
        if !ok.Good? {
          return if ok.Bad? then Bad else Bracketed;
        }
      }
      r := BuildText(View());
      if r.Good? {
        built := false;
        text := r.value;
      }
    }
  }

  lemma ParseNothing()
    ensures Parse([]) == Good(EMPTY)
  {
  }
}
