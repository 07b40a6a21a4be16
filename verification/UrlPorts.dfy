/** Which ports building leaves out. */
module UrlPorts {
  import opened Prelude
  import opened UrlText
  import opened Url
  import opened UrlRoundTrip
  import opened Decimals
  import UrlCanonical

  lemma {:induction false} DecimalIsPositive(s: Bytes)
    requires s != [] && AllDigits(s) && s[0] != ZERO
    ensures Decimal(s) > 0
  {
    if |s| > 1 {
      DecimalIsPositive(s[..|s| - 1]);
    }
  }

  lemma ShortOrLong(s: Bytes)
    requires IsNumeral(s)
    ensures |s| == 1 <==> Decimal(s) < 10
    ensures |s| == 1 ==> Decimal(s) == s[0] - ZERO
  {
    if |s| == 1 {
      assert s[..0] == [];
    } else {
      DecimalIsPositive(s[..|s| - 1]);
    }
  }

  /** A number has one numeral. */
  lemma {:induction false} NumeralIsUnique(s: Bytes, t: Bytes)
    requires IsNumeral(s) && IsNumeral(t) && Decimal(s) == Decimal(t)
    ensures s == t
    decreases |s|
  {
    ShortOrLong(s);
    ShortOrLong(t);
    if |s| > 1 {
      var a, b := s[..|s| - 1], t[..|t| - 1];
      assert Decimal(s) == Decimal(a) * 10 + (s[|s| - 1] - ZERO);
      assert Decimal(t) == Decimal(b) * 10 + (t[|t| - 1] - ZERO);
      NumeralIsUnique(a, b);
      assert s == a + [s[|s| - 1]] && t == b + [t[|t| - 1]];
    }
  }

  lemma DefaultsMean()
    ensures IsNumeral(PORT_80) && Decimal(PORT_80) == 80
    ensures IsNumeral(PORT_443) && Decimal(PORT_443) == 443
  {
    hide Decimal;
    var s, t := PORT_80, PORT_443;
    DecimalOfNone();
    assert s[..0] == [] && s[..2] == s && t[..0] == [] && t[..3] == t;
    DecimalGrows(s, 0);
    DecimalGrows(s, 1);
    DecimalGrows(t, 0);
    DecimalGrows(t, 1);
    DecimalGrows(t, 2);
  }

  /** The scheme is http and the port is 80, or the scheme is https and the port is 443. */
  ghost predicate IsUsual(scheme: Bytes, port: Bytes)
    requires IsNumeral(port)
  {
    || (scheme == ['h' as int, 't' as int, 't' as int, 'p' as int] && Decimal(port) == 80)
    || (scheme == ['h' as int, 't' as int, 't' as int, 'p' as int, 's' as int] && Decimal(port) == 443)
  }

  lemma UsualIsDefault(scheme: Bytes, port: Bytes)
    requires IsNumeral(port)
    ensures IsDefaultPort(scheme, port) <==> IsUsual(scheme, port)
  {
    hide Decimal;
    DefaultsMean();
    if Decimal(port) == 80 {
      NumeralIsUnique(port, PORT_80);
    } else if Decimal(port) == 443 {
      NumeralIsUnique(port, PORT_443);
    }
  }

  /**
   A URL that was read, built and read again has the parts it had.  Its port is gone if it is the
   usual one of its scheme, and only then.
   */
  lemma PortComesBack(t: Bytes, x: Parts, u: Bytes)
    requires Parse(t) == Good(x) && Build(x) == Good(u)
    ensures x.port == [] || IsNumeral(x.port)
    ensures Parse(u).Good?
    ensures var y := Parse(u).value;
            && y.port == (if x.port != [] && IsUsual(x.scheme, x.port) then [] else x.port)
            && y.scheme == x.scheme && y.user == x.user && y.host == x.host && y.path == x.path
            && y.query == x.query && y.fragment == x.fragment && (x.host != [] ==> y.ipv == x.ipv)
  {
    hide Parse, Build, Wf, IsDefaultPort, IsNumeral, Decimal;
    UrlCanonical.ParseIsWf(t);
    UrlCanonical.BuiltTextIsCanonical(t, x, u);
    PortIsNumeral(x);
    if x.port != [] {
      UsualIsDefault(x.scheme, x.port);
    }
  }

  lemma PortIsNumeral(x: Parts)
    requires Wf(x)
    ensures x.port == [] || IsNumeral(x.port)
  {
    hide IsPort, IsNumeral;
    PortMeans(x.port);
  }
}
