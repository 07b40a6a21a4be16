/** The query of a URL as a list of keys and values. */
module UrlQuery {
  import opened Prelude
  import opened UrlText

  datatype Entry = Entry(key: Bytes, val: Bytes)

  const KEY_ENDS: Bytes := [EQUALS, SEMICOLON, AMPERSAND]
  const VALUE_ENDS: Bytes := [SEMICOLON, AMPERSAND]

  function ReadPart(x: Bytes): Option<Bytes>
  {
    if AllChars(x, Read(REST)) then Decode(true, x) else None
  }

  function Cons(key: Option<Bytes>, val: Option<Bytes>, rest: Option<seq<Entry>>): Option<seq<Entry>>
  {
    if key.None? || val.None? || rest.None? then None else Some([Entry(key.value, val.value)] + rest.value)
  }

  /** Entries end at an ampersand or a semicolon; one with an end behind it is followed by another. */
  function ParseEntries(q: Bytes): Option<seq<Entry>>
    decreases |q|
  {
    var k := FirstOf(q, KEY_ENDS);
    var key := ReadPart(q[..k]);
    if k == |q| then Cons(key, Some([]), Some([]))
    else if q[k] == EQUALS then
      var rest := q[k + 1..];
      var j := FirstOf(rest, VALUE_ENDS);
      var val := ReadPart(rest[..j]);
      if j == |rest| then Cons(key, val, Some([])) else Cons(key, val, ParseEntries(rest[j + 1..]))
    else Cons(key, Some([]), ParseEntries(q[k + 1..]))
  }

  function Parse(q: Bytes): Option<seq<Entry>>
  {
    if q == [] then Some([]) else ParseEntries(q)
  }

  function EntryText(e: Entry): Bytes
  {
    Encode(Key, e.key) + if e.val == [] then [] else [EQUALS] + Encode(Val, e.val)
  }

  function Text(es: seq<Entry>): Bytes
  {
    if es == [] then [] else if |es| == 1 then EntryText(es[0]) else EntryText(es[0]) + [AMPERSAND] + Text(es[1..])
  }

  predicate HasKeys(es: seq<Entry>)
  {
    forall i: nat :: i < |es| ==> es[i].key != []
  }

  /** An entry without a key cannot be written. */
  function Build(es: seq<Entry>): Option<Bytes>
  {
    if HasKeys(es) then Some(Text(es)) else None
  }

  // ---------------------------------------------------------------- reading what was written

  lemma TextMayBeRead(y: Style, x: Bytes)
    requires !y.Part? && IsText(y, x)
    ensures AllChars(x, Read(REST))
  {
    hide IsChar;
    forall i: nat | i < |x| ensures IsChar(x[i], Read(REST)) {
      assert MayStand(y, x[i]);
    }
  }

  lemma ReadEncoded(y: Style, s: Bytes)
    requires !y.Part?
    ensures ReadPart(Encode(y, s)) == Some(s)
  {
    hide Encode, Decode, AllChars;
    DecodeEncode(y, s);
    EncodedIsText(y, s);
    TextMayBeRead(y, Encode(y, s));
  }

  ghost predicate Ends(tail: Bytes) { tail == [] || tail[0] == AMPERSAND }

  lemma KeyEnd(key: Bytes, tail: Bytes)
    requires tail == [] || tail[0] in KEY_ENDS
    ensures FirstOf(Encode(Key, key) + tail, KEY_ENDS) == |Encode(Key, key)|
  {
    hide Encode, IsChar, FirstOf;
    var x := Encode(Key, key);
    EncodedIsText(Key, key);
    forall i: nat | i < |x| ensures (x + tail)[i] !in KEY_ENDS {
      assert MayStand(Key, x[i]);
    }
    FirstOfIs(x + tail, KEY_ENDS, |x|);
  }

  lemma ValueEnd(val: Bytes, tail: Bytes)
    requires Ends(tail)
    ensures FirstOf(Encode(Val, val) + tail, VALUE_ENDS) == |Encode(Val, val)|
  {
    hide Encode, IsChar, FirstOf;
    var x := Encode(Val, val);
    EncodedIsText(Val, val);
    forall i: nat | i < |x| ensures (x + tail)[i] !in VALUE_ENDS {
      assert MayStand(Val, x[i]);
    }
    FirstOfIs(x + tail, VALUE_ENDS, |x|);
  }

  function Later(tail: Bytes): Option<seq<Entry>>
  {
    if tail == [] then Some([]) else ParseEntries(tail[1..])
  }

  lemma ParseBare(q: Bytes, k: nat)
    requires k == FirstOf(q, KEY_ENDS) && (k < |q| ==> q[k] != EQUALS)
    ensures ParseEntries(q) == Cons(ReadPart(q[..k]), Some([]), Later(q[k..]))
  {
    hide ReadPart, FirstOf, Cons, Later;
    LaterAt(q, k);
  }

  lemma LaterAt(q: Bytes, k: nat)
    requires k <= |q|
    ensures Later(q[k..]) == if k == |q| then Some([]) else ParseEntries(q[k + 1..])
  {
    hide ParseEntries;
    if k < |q| {
      assert q[k..][1..] == q[k + 1..];
    }
  }

  lemma ParseFull(q: Bytes, k: nat, rest: Bytes, j: nat)
    requires k == FirstOf(q, KEY_ENDS) && k < |q| && q[k] == EQUALS
    requires rest == q[k + 1..] && j == FirstOf(rest, VALUE_ENDS)
    ensures ParseEntries(q) == Cons(ReadPart(q[..k]), ReadPart(rest[..j]), Later(rest[j..]))
  {
    hide ReadPart, FirstOf, Cons, Later;
    LaterAt(rest, j);
  }

  /** One entry is read back, and reading goes on behind the ampersand. */
  lemma ReadEntry(e: Entry, tail: Bytes)
    requires Ends(tail)
    ensures ParseEntries(EntryText(e) + tail) == Cons(Some(e.key), Some(e.val), Later(tail))
  {
    hide Encode, ReadPart, FirstOf, ParseEntries;
    var x := Encode(Key, e.key);
    var q := EntryText(e) + tail;
    ReadEncoded(Key, e.key);
    if e.val == [] {
      assert q == x + tail;
      KeyEnd(e.key, tail);
      ParseBare(q, |x|);
      assert q[..|x|] == x && q[|x|..] == tail;
    } else {
      var v := Encode(Val, e.val);
      var rest := v + tail;
      assert q == x + ([EQUALS] + rest);
      KeyEnd(e.key, [EQUALS] + rest);
      assert q[..|x|] == x && q[|x| + 1..] == rest;
      ReadEncoded(Val, e.val);
      ValueEnd(e.val, tail);
      ParseFull(q, |x|, rest, |v|);
      assert rest[..|v|] == v && rest[|v|..] == tail;
    }
  }

  lemma {:induction false} ReadText(es: seq<Entry>)
    requires es != []
    ensures ParseEntries(Text(es)) == Some(es)
  {
    hide EntryText, ParseEntries;
    if |es| == 1 {
      ReadEntry(es[0], []);
      assert es == [es[0]] + [];
      assert EntryText(es[0]) + [] == EntryText(es[0]);
    } else {
      var tail := [AMPERSAND] + Text(es[1..]);
      ReadEntry(es[0], tail);
      assert tail[1..] == Text(es[1..]);
      Assoc(EntryText(es[0]), [AMPERSAND], Text(es[1..]));
      ReadText(es[1..]);
      assert es == [es[0]] + es[1..];
    }
  }

  lemma EntryTextIsSome(e: Entry)
    requires e.key != []
    ensures EntryText(e) != []
  {
    assert |EncodeByte(Key, e.key[0])| >= 1;
  }

  /** Any list of entries with keys is read back exactly as it was written. */
  lemma ParseBuild(es: seq<Entry>)
    requires HasKeys(es)
    ensures Build(es) == Some(Text(es)) && Parse(Text(es)) == Some(es)
  {
    hide EntryText, ParseEntries;
    if es != [] {
      EntryTextIsSome(es[0]);
      ReadText(es);
    }
  }

  /** Semicolons as ampersands. */
  function Ampersands(q: Bytes): (r: Bytes)
    ensures |r| == |q|
  {
    seq(|q|, i requires 0 <= i < |q| => if q[i] == SEMICOLON then AMPERSAND else q[i])
  }

  lemma AmpersandsKeep(q: Bytes, k: nat, cs: Bytes)
    requires k == FirstOf(q, cs) && (cs == KEY_ENDS || cs == VALUE_ENDS)
    ensures FirstOf(Ampersands(q), cs) == k && Ampersands(q)[..k] == q[..k] && Ampersands(q)[k..] == Ampersands(q[k..])
  {
    hide FirstOf;
    var r := Ampersands(q);
    forall i: nat | i < k ensures r[i] == q[i] && r[i] !in cs {
      assert q[i] !in cs;
    }
    assert k < |q| ==> r[k] in cs;
    FirstOfIs(r, cs, k);
  }

  /** A semicolon separates entries just as an ampersand does. */
  lemma {:induction false} SemicolonIsAmpersand(q: Bytes)
    ensures ParseEntries(Ampersands(q)) == ParseEntries(q)
    decreases |q|
  {
    hide ReadPart, FirstOf, ParseEntries;
    var r, k := Ampersands(q), FirstOf(q, KEY_ENDS);
    AmpersandsKeep(q, k, KEY_ENDS);
    if k < |q| && q[k] == EQUALS {
      var rest := q[k + 1..];
      var j := FirstOf(rest, VALUE_ENDS);
      assert r[k + 1..] == Ampersands(rest);
      AmpersandsKeep(rest, j, VALUE_ENDS);
      ParseFull(q, k, rest, j);
      ParseFull(r, k, r[k + 1..], j);
      LaterAmpersands(rest[j..]);
    } else {
      ParseBare(q, k);
      ParseBare(r, k);
      LaterAmpersands(q[k..]);
    }
  }

  lemma {:induction false} LaterAmpersands(t: Bytes)
    ensures Later(Ampersands(t)) == Later(t)
    decreases |t|, 0
  {
    hide ParseEntries;
    if t != [] {
      assert Ampersands(t)[1..] == Ampersands(t[1..]);
      SemicolonIsAmpersand(t[1..]);
    }
  }

  // ---------------------------------------------------------------- it does not get longer

  lemma PartIsNoLonger(y: Style, x: Bytes)
    requires !y.Part? && IsText(y, x) && ReadPart(x).Some?
    ensures |Encode(y, ReadPart(x).value)| <= |x|
  {
    hide Encode, Decode, AllChars;
    EncodeIsNoLonger(y, x);
  }

  lemma ReadIsText(y: Style, x: Bytes)
    requires AllChars(x, Read(REST)) && (y.Key? || y.Val?)
    requires forall i: nat :: i < |x| ==> x[i] !in VALUE_ENDS && (y.Key? ==> x[i] != EQUALS)
    ensures IsText(y, x)
  {
    hide IsChar;
  }

  lemma KeyIsNoLonger(q: Bytes)
    requires ReadPart(q[..FirstOf(q, KEY_ENDS)]).Some?
    ensures |Encode(Key, ReadPart(q[..FirstOf(q, KEY_ENDS)]).value)| <= FirstOf(q, KEY_ENDS)
  {
    hide FirstOf, AllChars, Decode, Encode;
    var x := q[..FirstOf(q, KEY_ENDS)];
    forall i: nat | i < |x| ensures x[i] !in VALUE_ENDS && x[i] != EQUALS {
      assert q[i] !in KEY_ENDS;
    }
    ReadIsText(Key, x);
    PartIsNoLonger(Key, x);
  }

  lemma ValueIsNoLonger(q: Bytes)
    requires ReadPart(q[..FirstOf(q, VALUE_ENDS)]).Some?
    ensures |Encode(Val, ReadPart(q[..FirstOf(q, VALUE_ENDS)]).value)| <= FirstOf(q, VALUE_ENDS)
  {
    hide FirstOf, AllChars, Decode, Encode;
    var x := q[..FirstOf(q, VALUE_ENDS)];
    forall i: nat | i < |x| ensures x[i] !in VALUE_ENDS {
      assert q[i] !in VALUE_ENDS;
    }
    ReadIsText(Val, x);
    PartIsNoLonger(Val, x);
  }

  lemma TextOfCons(e: Entry, es: seq<Entry>)
    ensures |Text([e] + es)| == |EntryText(e)| + if es == [] then 0 else 1 + |Text(es)|
  {
    hide EntryText;
    assert ([e] + es)[1..] == es;
  }

  /** Writing a query again never makes it longer. */
  lemma {:induction false} TextIsNoLonger(q: Bytes)
    requires ParseEntries(q).Some?
    ensures ParseEntries(q).value != [] && |Text(ParseEntries(q).value)| <= |q|
    decreases |q|
  {
    hide ReadPart, FirstOf, Encode, Text;
    var k := FirstOf(q, KEY_ENDS);
    KeyIsNoLonger(q);
    var es := ParseEntries(q).value;
    if k < |q| && q[k] == EQUALS {
      var rest := q[k + 1..];
      var j := FirstOf(rest, VALUE_ENDS);
      ParseFull(q, k, rest, j);
      ValueIsNoLonger(rest);
      if j < |rest| {
        TextIsNoLonger(rest[j + 1..]);
        assert rest[j..][1..] == rest[j + 1..];
      }
      TextOfCons(es[0], es[1..]);
    } else {
      ParseBare(q, k);
      if k < |q| {
        TextIsNoLonger(q[k + 1..]);
        assert q[k..][1..] == q[k + 1..];
      }
      TextOfCons(es[0], es[1..]);
    }
    assert es == [es[0]] + es[1..];
  }

  /** What is written ends nowhere before the fragment. */
  lemma {:induction false} TextHasNoHash(es: seq<Entry>)
    ensures HASH !in Text(es)
  {
    hide Encode;
    if es != [] {
      EncodedHasNoHash(Key, es[0].key);
      EncodedHasNoHash(Val, es[0].val);
      TextHasNoHash(es[1..]);
    }
  }

  lemma EncodedHasNoHash(y: Style, s: Bytes)
    requires StyleOk(y)
    ensures HASH !in Encode(y, s)
  {
    hide IsChar, Encode;
    var x := Encode(y, s);
    EncodedIsText(y, s);
    var mask := if y.Part? then y.mask else REST;
    ReadMeans(HASH, mask);
    forall i: nat | i < |x| ensures x[i] != HASH {
      assert MayStand(y, x[i]);
    }
  }

  // ---------------------------------------------------------------- the loops

  function Behind(es: seq<Entry>, r: Option<seq<Entry>>): Option<seq<Entry>>
  {
    if r.None? then None else Some(es + r.value)
  }

  lemma BehindCons(es: seq<Entry>, key: Bytes, val: Bytes, r: Option<seq<Entry>>)
    ensures Behind(es, Cons(Some(key), Some(val), r)) == Behind(es + [Entry(key, val)], r)
  {
    if r.Some? {
      Assoc(es, [Entry(key, val)], r.value);
    }
  }

  lemma BehindNothing(r: Option<seq<Entry>>)
    ensures Behind([], r) == r
  {
    if r.Some? {
      assert [] + r.value == r.value;
    }
  }

  method ReadPartText(x: Bytes) returns (r: Option<Bytes>)
    ensures r == ReadPart(x)
  {
    hide AllChars, Decode;
    var ok := AreChars(x, Read(REST));
    if !ok {
      return None;
    }
    r := DecodeText(true, x);
  }

  method ParseText(q: Bytes) returns (r: Option<seq<Entry>>)
    ensures r == Parse(q)
  {
    hide ReadPart, FirstOf, ParseEntries;
    if q == [] {
      return Some([]);
    }
    var es: seq<Entry>, b, more := [], 0, true;
    assert q[0..] == q;
    BehindNothing(ParseEntries(q));
    while more
      invariant b <= |q| && ParseEntries(q) == Behind(es, if more then ParseEntries(q[b..]) else Some([]))
      decreases more, |q| - b
    {
      var text := q[b..];
      var k := FindFirstOf(text, KEY_ENDS);
      var key := ReadPartText(text[..k]);
      var val: Option<Bytes>, tail := Some([]), text[k..];
      if k < |text| && text[k] == EQUALS {
        var rest := text[k + 1..];
        var j := FindFirstOf(rest, VALUE_ENDS);
        val := ReadPartText(rest[..j]);
        tail := rest[j..];
        ParseFull(text, k, rest, j);
      } else {
        ParseBare(text, k);
      }
      if key.None? || val.None? {
        return None;
      }
      BehindCons(es, key.value, val.value, Later(tail));
      es := es + [Entry(key.value, val.value)];
      assert tail == q[|q| - |tail|..];
      more := tail != [];
      if more {
        b := |q| - |tail| + 1;
        assert tail[1..] == q[b..];
      }
    }
    assert es + [] == es;
    return Some(es);
  }

  method BuildText(es: seq<Entry>) returns (r: Option<Bytes>)
    ensures r == Build(es)
  {
    hide EntryText;
    var url: Bytes := [];
    for k := 0 to |es|
      invariant HasKeys(es[..k]) && url == Text(es[..k])
    {
      if es[k].key == [] {
        return None;
      }
      var entry := EntryToText(es[k]);
      assert es[..k + 1] == es[..k] + [es[k]];
      TextOneMore(es[..k], es[k]);
      url := url + (if k == 0 then [] else [AMPERSAND]) + entry;
    }
    assert es[..|es|] == es;
    return Some(url);
  }

  method EntryToText(e: Entry) returns (t: Bytes)
    ensures t == EntryText(e)
  {
    t := EncodeText(Key, e.key);
    if e.val != [] {
      var v := EncodeText(Val, e.val);
      t := t + ([EQUALS] + v);
    }
  }

  lemma {:induction false} TextOneMore(es: seq<Entry>, e: Entry)
    ensures Text(es + [e]) == Text(es) + (if es == [] then [] else [AMPERSAND]) + EntryText(e)
  {
    hide EntryText;
    var d := EntryText(e);
    if es == [] {
      assert es + [e] == [e] && [] + [] + d == d;
    } else if |es| > 1 {
      TextOneMore(es[1..], e);
      assert (es + [e])[1..] == es[1..] + [e];
      var a, b, c := EntryText(es[0]) + [AMPERSAND], Text(es[1..]), [AMPERSAND];
      Assoc(a, b + c, d);
      Assoc(a, b, c);
    } else {
      assert (es + [e])[1..] == [e];
    }
  }
}
