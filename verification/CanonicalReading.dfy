/** Canonical JSON is uniquely decodable: the reader undoes the writer, so two documents share their
    canonical bytes exactly when they mean the same. */
module CanonicalReading {
  import opened Prelude
  import opened CanonicalJson

  // ---- documents with sorted keys ---------------------------------------------------------

  ghost predicate CanonicalAll(vs: seq<Json>)
    decreases vs
  {
    |vs| > 0 ==> Canonical(vs[0]) && CanonicalAll(vs[1..])
  }

  ghost predicate CanonicalEntries(es: seq<Entry>)
    decreases es
  {
    |es| > 0 ==> Canonical(es[0].value) && CanonicalEntries(es[1..])
  }

  /** Every object's keys strictly ascend. */
  ghost predicate Canonical(v: Json)
    decreases v
  {
    match v
    case JNum(token) => NumberToken(token)
    case JArr(items) => CanonicalAll(items)
    case JObj(entries) => Ascending(entries) && CanonicalEntries(entries)
    case _ => true
  }

  lemma {:induction false} WellFormedIn(vs: seq<Json>, v: Json)
    requires WellFormedAll(vs) && v in vs
    ensures WellFormed(v)
  {
    if v != vs[0] {
      WellFormedIn(vs[1..], v);
    }
  }

  lemma {:induction false} WellFormedValue(es: seq<Entry>, e: Entry)
    requires WellFormedEntries(es) && e in es
    ensures WellFormed(e.value)
  {
    if e != es[0] {
      WellFormedValue(es[1..], e);
    }
  }

  /** `sort_json` makes a document canonical. */
  lemma {:induction false} SortedIsCanonical(v: Json)
    requires WellFormed(v)
    ensures Canonical(SortJson(v))
    decreases v, 1
  {
    match v
    case JArr(items) =>
      forall x | x in items
        ensures WellFormed(x)
      {
        WellFormedIn(items, x);
      }
      SortedItemsAreCanonical(v, items);
    case JObj(entries) =>
      SortedParts(v);
      SameEntries(SortEntries(entries), entries);
      forall e | e in SortEntries(entries)
        ensures WellFormed(e.value)
      {
        WellFormedValue(entries, e);
      }
      SortedValuesAreCanonical(v, SortEntries(entries));
      SortedAscending(entries);
    case _ =>
  }

  lemma {:induction false} SortedItemsAreCanonical(whole: Json, vs: seq<Json>)
    requires forall v | v in vs :: v < whole && WellFormed(v)
    ensures CanonicalAll(SortItems(whole, vs))
    decreases whole, 0, |vs|
  {
    if |vs| > 0 {
      assert vs[0] in vs && forall v | v in vs[1..] :: v in vs;
      SortedIsCanonical(vs[0]);
      SortedItemsAreCanonical(whole, vs[1..]);
    }
  }

  lemma {:induction false} SortedValuesAreCanonical(whole: Json, es: seq<Entry>)
    requires forall e | e in es :: e.value < whole && WellFormed(e.value)
    ensures CanonicalEntries(SortValues(whole, es))
    decreases whole, 0, |es|
  {
    if |es| > 0 {
      assert es[0] in es && forall e | e in es[1..] :: e in es;
      SortedIsCanonical(es[0].value);
      SortedValuesAreCanonical(whole, es[1..]);
    }
  }

  // ---- writing without sorting ------------------------------------------------------------

  /** The text of a document in the key order it already has. */
  function Plain(v: Json): string
    decreases v
  {
    match v
    case JNull => "null"
    case JBool(b) => if b then "true" else "false"
    case JNum(token) => token
    case JStr(s) => WriteText(s)
    case JArr(items) => "[" + PlainItems(items) + "]"
    case JObj(entries) => "{" + PlainMembers(entries) + "}"
  }

  function PlainItems(vs: seq<Json>): string
    decreases vs
  {
    if |vs| == 0 then "" else if |vs| == 1 then Plain(vs[0]) else Plain(vs[0]) + "," + PlainItems(vs[1..])
  }

  function PlainMembers(es: seq<Entry>): string
    decreases es
  {
    if |es| == 0 then ""
    else
      var first := WriteMember(es[0].key, Plain(es[0].value));
      if |es| == 1 then first else first + "," + PlainMembers(es[1..])
  }

  /** Sorting while writing is writing the sorted document. */
  lemma {:induction false} WriteIsSortedPlain(v: Json)
    ensures Write(v) == Plain(SortJson(v))
    decreases v, 1
  {
    match v
    case JArr(items) => ItemsAreSortedPlain(v, items);
    case JObj(entries) =>
      SortedParts(v);
      MembersAreSortedPlain(v, SortEntries(entries));
    case _ =>
  }

  lemma {:induction false} ItemsAreSortedPlain(whole: Json, vs: seq<Json>)
    requires forall v | v in vs :: v < whole
    ensures WriteItems(whole, vs) == PlainItems(SortItems(whole, vs))
    decreases whole, 0, |vs|
  {
    hide Write, Plain;
    if |vs| > 0 {
      assert vs[0] in vs && forall v | v in vs[1..] :: v in vs;
      WriteIsSortedPlain(vs[0]);
      ItemsAreSortedPlain(whole, vs[1..]);
      assert SortItems(whole, vs)[1..] == SortItems(whole, vs[1..]);
    }
  }

  lemma {:induction false} MembersAreSortedPlain(whole: Json, es: seq<Entry>)
    requires forall e | e in es :: e.value < whole
    ensures WriteMembers(whole, es) == PlainMembers(SortValues(whole, es))
    decreases whole, 0, |es|
  {
    hide Write, Plain, WriteMember;
    if |es| > 0 {
      assert es[0] in es && forall e | e in es[1..] :: e in es;
      WriteIsSortedPlain(es[0].value);
      MembersAreSortedPlain(whole, es[1..]);
      assert SortValues(whole, es)[1..] == SortValues(whole, es[1..]);
    }
  }

  // ---- strings ----------------------------------------------------------------------------

  lemma HexRoundTrip(n: nat)
    requires n < 16
    ensures HexValue(HexDigit(n)) == Some(n)
  {
  }

  lemma FourDigits(n: nat)
    requires n < 0x1_0000
    ensures n / 4096 < 16
    ensures n == 4096 * (n / 4096) + 256 * (n / 256 % 16) + 16 * (n / 16 % 16) + n % 16
  {
    assert n / 16 == 16 * (n / 256) + n / 16 % 16;
    assert n / 256 == 16 * (n / 4096) + n / 256 % 16;
  }

  lemma DigitsRead(a: nat, b: nat, c: nat, d: nat, rest: string)
    requires a < 16 && b < 16 && c < 16 && d < 16
    ensures ReadHex4([HexDigit(a), HexDigit(b), HexDigit(c), HexDigit(d)] + rest)
         == Some((4096 * a + 256 * b + 16 * c + d, rest))
  {
    hide HexDigit, HexValue;
    HexRoundTrip(a);
    HexRoundTrip(b);
    HexRoundTrip(c);
    HexRoundTrip(d);
    var s := [HexDigit(a), HexDigit(b), HexDigit(c), HexDigit(d)] + rest;
    assert s[4..] == rest;
  }

  lemma Hex4RoundTrip(n: nat, rest: string)
    requires n < 0x1_0000
    ensures Hex4(n)[0] == '\\' && Hex4(n)[1] == 'u' && ReadHex4((Hex4(n) + rest)[2..]) == Some((n, rest))
  {
    hide HexDigit, ReadHex4;
    FourDigits(n);
    var a, b, c, d := n / 4096, n / 256 % 16, n / 16 % 16, n % 16;
    DigitsRead(a, b, c, d, rest);
    assert (Hex4(n) + rest)[2..] == [HexDigit(a), HexDigit(b), HexDigit(c), HexDigit(d)] + rest;
  }

  lemma UnitRoundTrip(n: nat, rest: string)
    requires n < 0xd800 || 0xe000 <= n < 0x1_0000
    ensures ReadChar(Hex4(n) + rest) == Some((n as char, rest))
  {
    hide Hex4, ReadHex4;
    Hex4RoundTrip(n, rest);
    assert |Hex4(n)| == 6 by {
      HexLength(n);
    }
  }

  lemma HexLength(n: nat)
    requires n < 0x1_0000
    ensures |Hex4(n)| == 6
  {
  }

  /** A character above U+FFFF is written as a surrogate pair, and the pair reads back as it. */
  lemma PairRoundTrip(n: nat, rest: string)
    requires 0x1_0000 <= n <= 0x10_ffff
    ensures var scalar := n - 0x1_0000;
      && scalar / 0x400 < 0x400 && scalar % 0x400 < 0x400
      && ReadChar(Hex4(0xd800 + scalar / 0x400) + Hex4(0xdc00 + scalar % 0x400) + rest) == Some((n as char, rest))
  {
    hide Hex4, ReadHex4;
    var scalar := n - 0x1_0000;
    var high, low := 0xd800 + scalar / 0x400, 0xdc00 + scalar % 0x400;
    HexLength(high);
    HexLength(low);
    Hex4RoundTrip(high, Hex4(low) + rest);
    Hex4RoundTrip(low, rest);
    var s := Hex4(high) + Hex4(low) + rest;
    assert s == Hex4(high) + (Hex4(low) + rest);
    assert s[2..] == (Hex4(high) + (Hex4(low) + rest))[2..];
    assert ReadHex4(s[2..]) == Some((high, Hex4(low) + rest));
  }

  lemma CharRoundTrip(c: char, rest: string)
    ensures ReadChar(EscapeChar(c) + rest) == Some((c, rest))
    ensures |EscapeChar(c)| > 0 && EscapeChar(c)[0] != '"'
  {
    hide Hex4, ReadUnicode;
    if c == '"' || c == '\\' || c == '\n' || c == '\r' || c == '\t' || c as int == 0x08 || c as int == 0x0c {
      var e := EscapeChar(c);
      assert (e + rest)[2..] == rest;
    } else if Printable(c) {
      assert ([c] + rest)[1..] == rest;
    } else if c as int <= 0xffff {
      UnitRoundTrip(c as int, rest);
      Hex4RoundTrip(c as int, rest);
      HexLength(c as int);
    } else {
      PairRoundTrip(c as int, rest);
      var scalar := c as int - 0x1_0000;
      Hex4RoundTrip(0xd800 + scalar / 0x400, rest);
      HexLength(0xd800 + scalar / 0x400);
    }
  }

  lemma {:induction false} TextRoundTrip(s: string, rest: string)
    ensures ReadText(EscapeText(s) + "\"" + rest) == Some((s, rest))
    decreases |s|
  {
    hide EscapeChar, ReadChar;
    var all := EscapeText(s) + "\"" + rest;
    if s == "" {
      assert all[1..] == rest;
    } else {
      var tail := EscapeText(s[1..]) + "\"" + rest;
      assert all == EscapeChar(s[0]) + tail;
      CharRoundTrip(s[0], tail);
      TextRoundTrip(s[1..], rest);
      assert [s[0]] + s[1..] == s;
    }
  }

  // ---- values -----------------------------------------------------------------------------

  lemma {:induction false} NumberEnds(token: string, rest: string)
    requires forall i | 0 <= i < |token| :: NumberChar(token[i])
    requires |rest| > 0 ==> !NumberChar(rest[0])
    ensures NumberLength(token + rest) == |token|
    decreases |token|
  {
    if token == "" {
      assert token + rest == rest;
    } else {
      assert (token + rest)[1..] == token[1..] + rest;
      NumberEnds(token[1..], rest);
    }
  }

  /** Only a number needs to be told where it ends. */
  predicate Delimited(v: Json, rest: string) {
    v.JNum? && |rest| > 0 ==> !NumberChar(rest[0])
  }

  lemma PlainStarts(v: Json)
    requires Canonical(v)
    ensures |Plain(v)| > 0 && Plain(v)[0] != ']' && Plain(v)[0] != '}'
  {
    if v.JNum? {
      NumberTokenChars(v.token);
    }
  }

  /** Reading back a canonical document. */
  lemma {:induction false} PlainRoundTrip(v: Json, rest: string)
    requires Canonical(v) && Delimited(v, rest)
    ensures Read(Plain(v) + rest) == Some((v, rest))
    decreases v
  {
    hide ReadText, ReadItems, ReadMembers, PlainItems, PlainMembers, WriteText;
    var s := Plain(v) + rest;
    match v
    case JNull => assert s[..4] == "null" && s[4..] == rest;
    case JBool(b) =>
      assert s[0] == if b then 't' else 'f';
      if b {
        assert s[..4] == "true" && s[4..] == rest;
      } else {
        assert s[..5] == "false" && s[5..] == rest;
      }
    case JNum(token) =>
      NumberTokenChars(token);
      assert NumberChar(s[0]);
      NumberEnds(token, rest);
      assert s[..|token|] == token && s[|token|..] == rest;
    case JStr(t) => StringReads(t, rest);
    case JArr(items) => ArrayReads(items, rest);
    case JObj(entries) => ObjectReads(entries, rest);
  }

  lemma StringReads(t: string, rest: string)
    ensures Read(WriteText(t) + rest) == Some((JStr(t), rest))
  {
    hide EscapeText, ReadText;
    var s := WriteText(t) + rest;
    assert s[0] == '"';
    assert s[1..] == EscapeText(t) + "\"" + rest;
    TextRoundTrip(t, rest);
  }

  lemma {:induction false} ArrayReads(items: seq<Json>, rest: string)
    requires CanonicalAll(items)
    ensures Read("[" + PlainItems(items) + "]" + rest) == Some((JArr(items), rest))
    decreases items, 1
  {
    hide Plain, ReadItems;
    var s := "[" + PlainItems(items) + "]" + rest;
    assert s[0] == '[';
    if |items| == 0 {
      assert s[1..] == "]" + rest;
      assert s[2..] == rest;
    } else {
      ItemsRoundTrip(items, rest);
      PlainStarts(items[0]);
      assert s[1..] == PlainItems(items) + "]" + rest;
      assert PlainItems(items)[0] == Plain(items[0])[0];
    }
  }

  lemma {:induction false} ItemsRoundTrip(vs: seq<Json>, rest: string)
    requires CanonicalAll(vs) && |vs| > 0
    ensures ReadItems(PlainItems(vs) + "]" + rest) == Some((vs, rest))
    decreases vs, 0
  {
    hide Plain, Read, Canonical;
    var s := PlainItems(vs) + "]" + rest;
    if |vs| == 1 {
      assert s == Plain(vs[0]) + ("]" + rest);
      PlainRoundTrip(vs[0], "]" + rest);
      assert ("]" + rest)[1..] == rest;
      assert [vs[0]] == vs;
    } else {
      var tail := "," + (PlainItems(vs[1..]) + "]" + rest);
      assert s == Plain(vs[0]) + tail;
      PlainRoundTrip(vs[0], tail);
      assert tail[1..] == PlainItems(vs[1..]) + "]" + rest;
      ItemsRoundTrip(vs[1..], rest);
      assert [vs[0]] + vs[1..] == vs;
    }
  }

  lemma NoMembers()
    ensures PlainMembers([]) == ""
  {
  }

  lemma MembersStart(es: seq<Entry>)
    requires |es| > 0
    ensures |PlainMembers(es)| > 0 && PlainMembers(es)[0] == '"'
  {
    hide Plain, EscapeText;
    assert WriteMember(es[0].key, Plain(es[0].value))[0] == '"';
  }

  lemma {:induction false} ObjectReads(entries: seq<Entry>, rest: string)
    requires CanonicalEntries(entries)
    ensures Read("{" + PlainMembers(entries) + "}" + rest) == Some((JObj(entries), rest))
    decreases entries, 1
  {
    hide Plain, ReadMembers, PlainMembers;
    var s := "{" + PlainMembers(entries) + "}" + rest;
    assert s[0] == '{';
    if |entries| == 0 {
      assert PlainMembers(entries) == "" by {
        NoMembers();
      }
      assert s[1..] == "}" + rest;
      assert s[2..] == rest;
    } else {
      MembersRoundTrip(entries, rest);
      MembersStart(entries);
      assert s[1..] == PlainMembers(entries) + "}" + rest;
    }
  }

  lemma {:induction false} MemberRoundTrip(e: Entry, rest: string)
    requires Canonical(e.value) && Delimited(e.value, rest)
    ensures ReadMember(WriteMember(e.key, Plain(e.value)) + rest) == Some((e, rest))
    decreases e, 0
  {
    hide EscapeText, ReadText, Plain, Read;
    var s := WriteMember(e.key, Plain(e.value)) + rest;
    assert s[0] == '"';
    assert s[1..] == EscapeText(e.key) + "\"" + (":" + (Plain(e.value) + rest));
    TextRoundTrip(e.key, ":" + (Plain(e.value) + rest));
    assert (":" + (Plain(e.value) + rest))[1..] == Plain(e.value) + rest;
    PlainRoundTrip(e.value, rest);
  }

  lemma {:induction false} MembersRoundTrip(es: seq<Entry>, rest: string)
    requires CanonicalEntries(es) && |es| > 0
    ensures ReadMembers(PlainMembers(es) + "}" + rest) == Some((es, rest))
    decreases es, 0
  {
    hide Plain, ReadMember, Canonical, WriteMember;
    var s := PlainMembers(es) + "}" + rest;
    var first := WriteMember(es[0].key, Plain(es[0].value));
    if |es| == 1 {
      assert s == first + ("}" + rest);
      MemberRoundTrip(es[0], "}" + rest);
      assert ("}" + rest)[1..] == rest;
      assert [es[0]] == es;
    } else {
      var tail := "," + (PlainMembers(es[1..]) + "}" + rest);
      assert s == first + tail;
      MemberRoundTrip(es[0], tail);
      assert tail[1..] == PlainMembers(es[1..]) + "}" + rest;
      MembersRoundTrip(es[1..], rest);
      assert [es[0]] + es[1..] == es;
    }
  }

  /** The canonical bytes of a document, followed by anything a value can be followed by, read back as
      the document with its keys sorted. */
  lemma CanonicalRoundTrip(v: Json, rest: string)
    requires WellFormed(v) && Delimited(v, rest)
    ensures Read(Write(v) + rest) == Some((SortJson(v), rest))
  {
    WriteIsSortedPlain(v);
    SortedIsCanonical(v);
    PlainRoundTrip(SortJson(v), rest);
  }
}
