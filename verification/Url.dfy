/** Taking a URL apart and putting it together again. */
module Url {
  import opened Prelude
  import opened UrlText
  import opened UrlPath
  import UrlQuery

  type Entry = UrlQuery.Entry

  datatype Parts = Parts(
    scheme: Bytes, user: Bytes, host: Bytes, ipv: int, port: Bytes, path: Bytes, query: seq<Entry>, fragment: Bytes)

  const EMPTY: Parts := Parts([], [], [], -1, [], [], [], [])

  /** A result, a refusal, or a host in brackets, which is not part of this model. */
  datatype Outcome<T> = Good(value: T) | Bad | Bracketed

  // ---------------------------------------------------------------- components

  predicate IsScheme(s: Bytes)
  {
    s != [] && IsAlpha(s[0]) &&
    forall i: nat :: i < |s| ==> IsAlpha(s[i]) || IsNum(s[i]) || s[i] == PLUS || s[i] == MINUS || s[i] == DOT
  }

  function LowerByte(c: byte): byte { if IsUpper(c) then c + 32 else c }

  function Lower(s: Bytes): (r: Bytes)
    ensures |r| == |s|
  {
    seq(|s|, i requires 0 <= i < |s| => LowerByte(s[i]))
  }

  /** Digits and dots in some number: that is what a host needs to be taken for an IPv4 address. */
  predicate IsIpv4(s: Bytes)
  {
    7 <= |s| <= 254 && forall i: nat :: i < |s| ==> s[i] == DOT || IsNum(s[i])
  }

  function Digits(s: Bytes): (k: nat)
    ensures k <= |s|
  {
    if s == [] || !IsNum(s[0]) then 0 else 1 + Digits(s[1..])
  }

  /** The value of digits in 32 bits, where it may wrap. */
  function DigitsValue(val: nat, s: Bytes): nat
    requires forall i: nat :: i < |s| ==> IsNum(s[i])
    decreases |s|
  {
    if s == [] then val else DigitsValue((val * 10 + (s[0] - ZERO)) % TWO_32, s[1..])
  }

  /** How many digits make up the number in front; none, or a number too large, is no number. */
  function Uint(s: Bytes, max: nat): Option<nat>
  {
    var n := Digits(s);
    if n == 0 then None
    else if s[0] == ZERO then Some(1)
    else
      DigitsAreNum(s);
      if DigitsValue(s[0] - ZERO, s[1..n]) > max then None else Some(n)
  }

  lemma DigitsAreNum(s: Bytes)
    ensures forall i: nat :: i < Digits(s) ==> IsNum(s[i])
  {
    if s != [] && IsNum(s[0]) {
      DigitsAreNum(s[1..]);
    }
  }

  predicate IsPort(s: Bytes) { Uint(s, 65535) == Some(|s|) }

  // ---------------------------------------------------------------- where the components are

  const SCHEME_ENDS: Bytes := [COLON, SLASH, QUESTION, HASH]
  const AUTH_ENDS: Bytes := [SLASH, QUESTION, HASH]
  const PATH_ENDS: Bytes := [QUESTION, HASH]

  /** Query and fragment, if they are there. */
  datatype Cut = Cut(auth: Option<Bytes>, path: Bytes, query: Option<Bytes>, fragment: Option<Bytes>)

  function CutTail(auth: Option<Bytes>, s: Bytes): Cut
  {
    var p := FirstOf(s, PATH_ENDS);
    if p == |s| then Cut(auth, s, None, None)
    else if s[p] == HASH then Cut(auth, s[..p], None, Some(s[p + 1..]))
    else
      var q := s[p + 1..];
      var h := FirstOf(q, [HASH]);
      Cut(auth, s[..p], Some(q[..h]), if h == |q| then None else Some(q[h + 1..]))
  }

  predicate HasAuth(s: Bytes) { |s| >= 2 && s[0] == SLASH && s[1] == SLASH }

  function CutRest(s: Bytes): Cut
  {
    if HasAuth(s) then
      var a := FirstOf(s[2..], AUTH_ENDS);
      CutTail(Some(s[2..2 + a]), s[2 + a..])
    else CutTail(None, s)
  }

  function SchemeLength(s: Bytes): (r: Option<nat>)
    ensures r.Some? ==> r.value < |s| && s[r.value] == COLON
  {
    var k := FirstOf(s, SCHEME_ENDS);
    if k < |s| && s[k] == COLON then Some(k) else None
  }

  // ---------------------------------------------------------------- reading

  datatype Authority = Authority(user: Bytes, host: Bytes, ipv: int, port: Bytes)

  function ReadHost(user: Bytes, s: Bytes): Outcome<Authority>
  {
    if s != [] && s[0] == BRACKET then Bracketed
    else
      var c := FirstOf(s, [COLON]);
      var host := s[..c];
      if c < |s| && !IsPort(s[c + 1..]) then Bad
      else
        var port := if c < |s| then s[c + 1..] else [];
        if IsIpv4(host) then Good(Authority(user, host, 4, port))
        else if AllChars(host, NAME) then Good(Authority(user, Lower(host), 0, port))
        else Bad
  }

  function ReadPart(mask: bv8, s: Bytes): Option<Bytes>
  {
    if AllChars(s, Read(mask)) then Decode(false, s) else None
  }

  function ReadAuth(s: Bytes): Outcome<Authority>
  {
    var at := FirstOf(s, [AT]);
    if at == |s| then ReadHost([], s)
    else
      match ReadPart(USER, s[..at])
      case None => Bad
      case Some(user) => ReadHost(user, s[at + 1..])
  }

  function ReadMaybe(r: Option<Bytes>): Option<Bytes>
  {
    match r
    case None => Some([])
    case Some(x) => ReadPart(REST, x)
  }

  function ReadQuery(r: Option<Bytes>): Option<seq<Entry>>
  {
    match r
    case None => Some([])
    case Some(x) => UrlQuery.Parse(x)
  }

  function Assemble(scheme: Bytes, a: Authority, c: Cut): Outcome<Parts>
  {
    var path := ReadPart(PATH, c.path);
    var query := ReadQuery(c.query);
    var fragment := ReadMaybe(c.fragment);
    if path.None? || query.None? || fragment.None? then Bad
    else Good(Parts(scheme, a.user, a.host, a.ipv, a.port, Normalize(path.value), query.value, fragment.value))
  }

  const NOBODY: Authority := Authority([], [], -1, [])

  function ParseRest(scheme: Bytes, rest: Bytes): Outcome<Parts>
  {
    var c := CutRest(rest);
    match c.auth
    case None => Assemble(scheme, NOBODY, c)
    case Some(auth) =>
      match ReadAuth(auth)
      case Bad => Bad
      case Bracketed => Bracketed
      case Good(a) => Assemble(scheme, a, c)
  }

  function Parse(s: Bytes): Outcome<Parts>
  {
    if s == [] then Good(EMPTY)
    else if |s| > 8000 then Bad
    else
      match SchemeLength(s)
      case None => ParseRest([], s)
      case Some(k) => if IsScheme(s[..k]) then ParseRest(Lower(s[..k]), s[k + 1..]) else Bad
  }

  // ---------------------------------------------------------------- writing

  const HTTP: Bytes := ['h' as int, 't' as int, 't' as int, 'p' as int]
  const HTTPS: Bytes := HTTP + ['s' as int]
  const PORT_80: Bytes := ['8' as int, '0' as int]
  const PORT_443: Bytes := ['4' as int, '4' as int, '3' as int]

  predicate IsDefaultPort(scheme: Bytes, port: Bytes)
  {
    (scheme == HTTP && port == PORT_80) || (scheme == HTTPS && port == PORT_443)
  }

  function PortText(x: Parts): Bytes
  {
    if x.port == [] || IsDefaultPort(x.scheme, x.port) then [] else [COLON] + x.port
  }

  function UserText(x: Parts): Bytes
  {
    if x.user == [] then [] else Encode(Part(USER), x.user) + [AT]
  }

  function AuthText(x: Parts): Bytes { UserText(x) + x.host + PortText(x) }

  function FrontText(x: Parts): Bytes
  {
    if x.host == [] then [] else [SLASH, SLASH] + AuthText(x)
  }

  function SchemeText(x: Parts): Bytes
  {
    if x.scheme == [] then [] else x.scheme + [COLON]
  }

  function PathText(x: Parts): Bytes { Encode(Part(PATH), x.path) }

  function QueryText(x: Parts): Bytes
  {
    if x.query == [] then [] else [QUESTION] + UrlQuery.Text(x.query)
  }

  function FragmentText(x: Parts): Bytes
  {
    if x.fragment == [] then [] else [HASH] + Encode(Part(REST), x.fragment)
  }

  function TailText(x: Parts): Bytes { PathText(x) + (QueryText(x) + FragmentText(x)) }

  /** A colon in the first segment of a path could be taken for the end of a scheme. */
  predicate ColonFirst(path: Bytes)
  {
    var k := FirstOf(path, [COLON, SLASH]);
    k < |path| && path[k] == COLON
  }

  predicate CanBuild(x: Parts)
  {
    && (x.host == [] ==> x.user == [] && x.port == [] && !ColonFirst(x.path))
    && (x.host != [] ==> x.path == [] || x.path[0] == SLASH)
    && UrlQuery.HasKeys(x.query)
  }

  function Build(x: Parts): Outcome<Bytes>
  {
    if x.host != [] && x.ipv != 0 && x.ipv != 4 then Bracketed
    else if CanBuild(x) then Good(SchemeText(x) + (FrontText(x) + TailText(x)))
    else Bad
  }
}
