/** The characters of a URL as sections 2 and 3 of RFC 3986 name them, and a URL written out. */
module UrlChars {
  import opened Prelude
  import opened UrlText
  import opened Url
  import UrlQuery

  // ---------------------------------------------------------------- what may stand where

  predicate Unreserved(c: byte)
  {
    'A' <= c as char <= 'Z' || 'a' <= c as char <= 'z' || '0' <= c as char <= '9' || c as char in "-._~"
  }

  predicate SubDelim(c: byte) { c as char in "!$&'()*+,;=" }

  predicate PathChar(c: byte) { Unreserved(c) || SubDelim(c) || c as char in ":@" }

  /** The masks are the grammar of reg-name, userinfo, path, query and fragment, without the percent sign. */
  lemma MasksAreGrammar(c: byte)
    ensures IsChar(c, NAME) <==> Unreserved(c) || SubDelim(c)
    ensures IsChar(c, USER) <==> Unreserved(c) || SubDelim(c) || c as char == ':'
    ensures IsChar(c, PATH) <==> PathChar(c) || c as char == '/'
    ensures IsChar(c, REST) <==> PathChar(c) || c as char in "/?"
  {
    hide IsChar;
    MaskMeans(c);
  }

  // ---------------------------------------------------------------- how the others are written

  const HEX: seq<char> := "0123456789ABCDEF"

  lemma HexDigits(d: nat)
    requires d < 16
    ensures HexUpper(d) == HEX[d] as int
  {
  }

  /** A percent sign and two digits for any other character; in a query a plus sign for a space. */
  lemma EncodedByteMeans(c: byte)
    ensures Escaped(c) == ['%' as int, HEX[c / 16] as int, HEX[c % 16] as int]
    ensures EncodeByte(Part(PATH), c) == if PathChar(c) || c as char == '/' then [c] else Escaped(c)
    ensures EncodeByte(Key, c) ==
            if c as char == ' ' then ['+' as int]
            else if (PathChar(c) || c as char in "/?") && c as char !in "+=&;" then [c] else Escaped(c)
    ensures EncodeByte(Val, c) ==
            if c as char == ' ' then ['+' as int]
            else if (PathChar(c) || c as char in "/?") && c as char !in "+&;" then [c] else Escaped(c)
  {
    hide IsChar, PathChar, HexUpper;
    HexDigits(c / 16);
    HexDigits(c % 16);
    MasksAreGrammar(c);
    DelimitersAre(c);
  }

  lemma DelimitersAre(c: byte)
    ensures c as char in "+&;" <==> c == PLUS || c == AMPERSAND || c == SEMICOLON
    ensures c as char in "+=&;" <==> c as char in "+&;" || c == EQUALS
  {
  }

  // ---------------------------------------------------------------- a URL written out

  predicate Letter(c: byte) { 'a' <= c as char <= 'z' }

  /** A letter stands for itself everywhere. */
  lemma LetterIsWritten(c: byte, y: Style)
    requires StyleOk(y) && Letter(c)
    ensures Encode(y, [c]) == [c]
  {
    hide IsChar;
    MasksAreGrammar(c);
    MaskMeans(c);
    assert [c][1..] == [];
  }

  lemma PathIsWritten(c: byte)
    requires Letter(c)
    ensures Encode(Part(PATH), ['/' as int, c]) == ['/' as int, c]
  {
    hide IsChar;
    LetterIsWritten(c, Part(PATH));
    MaskMeans('/' as int);
    assert ['/' as int, c][1..] == [c];
  }

  lemma QueryIsWritten(k: byte, v: byte, w: byte)
    requires Letter(k) && Letter(v) && Letter(w)
    ensures UrlQuery.Text([UrlQuery.Entry([k], [v]), UrlQuery.Entry([w], [])]) == [k, '=' as int, v, '&' as int, w]
  {
    hide Encode;
    LetterIsWritten(k, Key);
    LetterIsWritten(v, Val);
    LetterIsWritten(w, Key);
    var e := UrlQuery.Entry([w], []);
    assert [UrlQuery.Entry([k], [v]), e][1..] == [e];
  }

  /** Every component of one letter. */
  function Sample(u: byte, h: byte, p: byte, k: byte, v: byte, w: byte, f: byte): Parts
  {
    Parts(['h' as int, 't' as int, 't' as int, 'p' as int], [u], [h], 0, ['8' as int, '1' as int], ['/' as int, p],
          [UrlQuery.Entry([k], [v]), UrlQuery.Entry([w], [])], [f])
  }

  lemma AuthorityIsWritten(x: Parts, u: byte, h: byte)
    requires x.user == [u] && Letter(u) && x.host == [h] && x.port == ['8' as int, '1' as int]
    ensures FrontText(x) == ['/' as int, '/' as int, u, '@' as int, h, ':' as int, '8' as int, '1' as int]
  {
    hide Encode;
    LetterIsWritten(u, Part(USER));
  }

  lemma TailIsWritten(x: Parts, p: byte, k: byte, v: byte, w: byte, f: byte)
    requires Letter(p) && Letter(k) && Letter(v) && Letter(w) && Letter(f)
    requires x.path == ['/' as int, p] && x.query == [UrlQuery.Entry([k], [v]), UrlQuery.Entry([w], [])] && x.fragment == [f]
    ensures TailText(x) ==
            ['/' as int, p, '?' as int, k, '=' as int, v, '&' as int, w, '#' as int, f]
  {
    hide Encode, UrlQuery.Text;
    PathIsWritten(p);
    QueryIsWritten(k, v, w);
    LetterIsWritten(f, Part(REST));
  }

  /** The text is http://u@h:81/p?k=v&w#f with any letters there. */
  lemma SampleIsWritten(u: byte, h: byte, p: byte, k: byte, v: byte, w: byte, f: byte)
    requires Letter(u) && Letter(h) && Letter(p) && Letter(k) && Letter(v) && Letter(w) && Letter(f)
    ensures Build(Sample(u, h, p, k, v, w, f)) ==
            Good(['h' as int, 't' as int, 't' as int, 'p' as int, ':' as int]
                 + (['/' as int, '/' as int, u, '@' as int, h, ':' as int, '8' as int, '1' as int]
                    + ['/' as int, p, '?' as int, k, '=' as int, v, '&' as int, w, '#' as int, f]))
  {
    hide FrontText, TailText;
    var x := Sample(u, h, p, k, v, w, f);
    AuthorityIsWritten(x, u, h);
    TailIsWritten(x, p, k, v, w, f);
    assert SchemeText(x) == ['h' as int, 't' as int, 't' as int, 'p' as int, ':' as int];
    assert UrlQuery.HasKeys(x.query);
  }
}
