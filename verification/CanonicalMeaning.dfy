/** Canonical bytes against an independent meaning of JSON documents: objects as maps. */
module CanonicalMeaning {
  import opened Prelude
  import opened CanonicalJson
  import opened CanonicalReading

  datatype Tree =
    | TNull
    | TBool(flag: bool)
    | TNum(token: string)
    | TStr(text: string)
    | TArr(items: seq<Tree>)
    | TObj(fields: map<string, Tree>)

  /** What a document says, whatever the order of its keys. */
  function Meaning(v: Json): Tree
    decreases v
  {
    match v
    case JNull => TNull
    case JBool(b) => TBool(b)
    case JNum(token) => TNum(token)
    case JStr(s) => TStr(s)
    case JArr(items) => TArr(Meanings(items))
    case JObj(entries) => TObj(Fields(entries))
  }

  function Meanings(vs: seq<Json>): seq<Tree>
    decreases vs
  {
    if |vs| == 0 then [] else [Meaning(vs[0])] + Meanings(vs[1..])
  }

  function Fields(es: seq<Entry>): map<string, Tree>
    decreases es
  {
    if |es| == 0 then map[] else Fields(es[1..])[es[0].key := Meaning(es[0].value)]
  }

  lemma UniqueTail(es: seq<Entry>)
    requires UniqueKeys(es) && |es| > 0
    ensures UniqueKeys(es[1..]) && forall e | e in es[1..] :: e.key != es[0].key
  {
    forall i, j | 0 <= i < j < |es[1..]|
      ensures es[1..][i].key != es[1..][j].key
    {
      assert es[i + 1].key != es[j + 1].key;
    }
    forall e | e in es[1..]
      ensures e.key != es[0].key
    {
      var k :| 0 <= k < |es[1..]| && es[1..][k] == e;
      assert es[k + 1] == e;
    }
  }

  /** The fields of an object are its entries. */
  lemma {:induction false} FieldsAre(es: seq<Entry>)
    requires UniqueKeys(es)
    ensures forall e | e in es :: e.key in Fields(es) && Fields(es)[e.key] == Meaning(e.value)
    ensures forall k | k in Fields(es) :: exists e :: e in es && e.key == k
  {
    hide Meaning;
    if |es| > 0 {
      UniqueTail(es);
      FieldsAre(es[1..]);
      forall e | e in es
        ensures e.key in Fields(es) && Fields(es)[e.key] == Meaning(e.value)
      {
        assert e == es[0] || e in es[1..];
      }
      forall k | k in Fields(es)
        ensures exists e :: e in es && e.key == k
      {
        if k == es[0].key {
          assert es[0] in es;
        } else {
          var e :| e in es[1..] && e.key == k;
          assert e in es;
        }
      }
    }
  }

  lemma AscendingIsUnique(es: seq<Entry>)
    requires Ascending(es)
    ensures UniqueKeys(es)
  {
    forall i, j | 0 <= i < j < |es|
      ensures es[i].key != es[j].key
    {
      BelowStrict(es[i].key, es[j].key);
    }
  }

  // ---- sorting keeps the meaning ----------------------------------------------------------

  lemma {:induction false} SortKeepsMeaning(v: Json)
    requires WellFormed(v)
    ensures Meaning(SortJson(v)) == Meaning(v)
    decreases v, 1
  {
    match v
    case JArr(items) =>
      forall x | x in items
        ensures WellFormed(x)
      {
        WellFormedIn(items, x);
      }
      SortItemsKeepsMeaning(v, items);
    case JObj(entries) =>
      SortedParts(v);
      SameEntries(SortEntries(entries), entries);
      forall e | e in SortEntries(entries)
        ensures WellFormed(e.value)
      {
        WellFormedValue(entries, e);
      }
      SortValuesKeepsMeaning(v, SortEntries(entries));
      SortedAscending(entries);
      AscendingIsUnique(SortEntries(entries));
      OrderIsImmaterial(SortEntries(entries), entries);
    case _ =>
  }

  lemma {:induction false} SortItemsKeepsMeaning(whole: Json, vs: seq<Json>)
    requires forall v | v in vs :: v < whole && WellFormed(v)
    ensures Meanings(SortItems(whole, vs)) == Meanings(vs)
    decreases whole, 0, |vs|
  {
    hide Meaning, SortJson, WellFormed;
    if |vs| > 0 {
      assert vs[0] in vs && forall v | v in vs[1..] :: v in vs;
      SortKeepsMeaning(vs[0]);
      SortItemsKeepsMeaning(whole, vs[1..]);
      assert SortItems(whole, vs)[1..] == SortItems(whole, vs[1..]);
    }
  }

  lemma {:induction false} SortValuesKeepsMeaning(whole: Json, es: seq<Entry>)
    requires forall e | e in es :: e.value < whole && WellFormed(e.value)
    ensures Fields(SortValues(whole, es)) == Fields(es)
    decreases whole, 0, |es|
  {
    hide Meaning, SortJson, WellFormed;
    if |es| > 0 {
      assert es[0] in es && forall e | e in es[1..] :: e in es;
      SortKeepsMeaning(es[0].value);
      SortValuesKeepsMeaning(whole, es[1..]);
      assert SortValues(whole, es)[1..] == SortValues(whole, es[1..]);
    }
  }

  lemma OrderIsImmaterial(a: seq<Entry>, b: seq<Entry>)
    requires UniqueKeys(a) && UniqueKeys(b) && forall e :: e in a <==> e in b
    ensures Fields(a) == Fields(b)
  {
    hide Meaning, Fields;
    FieldsAre(a);
    FieldsAre(b);
    forall k
      ensures k in Fields(a) <==> k in Fields(b)
      ensures k in Fields(a) ==> Fields(a)[k] == Fields(b)[k]
    {
      if k in Fields(a) {
        var e :| e in a && e.key == k;
        assert e in b;
      }
      if k in Fields(b) {
        var e :| e in b && e.key == k;
        assert e in a;
      }
    }
  }

  // ---- a canonical document is determined by its meaning ----------------------------------

  lemma {:induction false} MeaningDetermines(u: Json, w: Json)
    requires Canonical(u) && Canonical(w) && Meaning(u) == Meaning(w)
    ensures u == w
    decreases u
  {
    match u
    case JArr(items) => MeaningsDetermine(items, w.items);
    case JObj(entries) => FieldsDetermine(entries, w.entries);
    case _ =>
  }

  lemma {:induction false} MeaningsDetermine(us: seq<Json>, ws: seq<Json>)
    requires CanonicalAll(us) && CanonicalAll(ws) && Meanings(us) == Meanings(ws)
    ensures us == ws
    decreases us
  {
    hide Meaning, Canonical;
    if |us| > 0 && |ws| > 0 {
      assert Meanings(us)[0] == Meaning(us[0]) && Meanings(ws)[0] == Meaning(ws[0]);
      assert Meanings(us)[1..] == Meanings(us[1..]) && Meanings(ws)[1..] == Meanings(ws[1..]);
      MeaningDetermines(us[0], ws[0]);
      MeaningsDetermine(us[1..], ws[1..]);
      assert us == [us[0]] + us[1..] && ws == [ws[0]] + ws[1..];
    }
  }

  /** In ascending lists with the same keys the first keys are equal: each is the least. */
  lemma FirstKeysMatch(es: seq<Entry>, fs: seq<Entry>)
    requires Ascending(es) && Ascending(fs) && |es| > 0 && |fs| > 0
    requires exists e :: e in es && e.key == fs[0].key
    requires exists f :: f in fs && f.key == es[0].key
    ensures es[0].key == fs[0].key
  {
    var e :| e in es && e.key == fs[0].key;
    var f :| f in fs && f.key == es[0].key;
    var i :| 0 <= i < |es| && es[i] == e;
    var j :| 0 <= j < |fs| && fs[j] == f;
    if i > 0 && j > 0 {
      BelowStrict(es[0].key, fs[0].key);
      assert false;
    }
  }

  /** Fields that agree start with the same entry, and agree without it. */
  lemma FirstFieldsMatch(es: seq<Entry>, fs: seq<Entry>)
    requires Ascending(es) && Ascending(fs) && Fields(es) == Fields(fs) && |es| > 0
    ensures |fs| > 0 && es[0].key == fs[0].key && Meaning(es[0].value) == Meaning(fs[0].value)
    ensures Fields(es[1..]) == Fields(fs[1..])
  {
    hide Meaning, Below;
    AscendingIsUnique(es);
    AscendingIsUnique(fs);
    FieldsAre(es);
    FieldsAre(fs);
    assert es[0] in es;
    assert |fs| > 0;
    assert fs[0] in fs;
    FirstKeysMatch(es, fs);
    WithoutFirst(es);
    WithoutFirst(fs);
  }

  lemma {:induction false} FieldsDetermine(es: seq<Entry>, fs: seq<Entry>)
    requires Ascending(es) && Ascending(fs) && CanonicalEntries(es) && CanonicalEntries(fs)
    requires Fields(es) == Fields(fs)
    ensures es == fs
    decreases es
  {
    hide Meaning, Canonical, Below, Fields;
    if |es| > 0 {
      FirstFieldsMatch(es, fs);
      MeaningDetermines(es[0].value, fs[0].value);
      FieldsDetermine(es[1..], fs[1..]);
      assert es == [es[0]] + es[1..] && fs == [fs[0]] + fs[1..];
    } else if |fs| > 0 {
      FirstFieldsMatch(fs, es);
    }
  }

  lemma FirstIsFresh(es: seq<Entry>)
    requires UniqueKeys(es) && |es| > 0
    ensures es[0].key !in Fields(es[1..])
  {
    hide Meaning, Fields, UniqueKeys;
    UniqueTail(es);
    FieldsAre(es[1..]);
  }

  lemma WithoutFirst(es: seq<Entry>)
    requires UniqueKeys(es) && |es| > 0
    ensures Fields(es[1..]) == Fields(es) - {es[0].key}
  {
    hide Meaning, UniqueKeys;
    FirstIsFresh(es);
    var rest := Fields(es[1..]);
    assert Fields(es) == rest[es[0].key := Meaning(es[0].value)];
  }

  // ---- the main result --------------------------------------------------------------------

  /** Two documents have the same canonical bytes exactly when they mean the same. */
  lemma SameBytesSameMeaning(a: Json, b: Json)
    requires WellFormed(a) && WellFormed(b)
    ensures Write(a) == Write(b) <==> Meaning(a) == Meaning(b)
  {
    hide Write, Meaning, SortJson, WellFormed, Read, Canonical, Plain;
    SortKeepsMeaning(a);
    SortKeepsMeaning(b);
    if Write(a) == Write(b) {
      CanonicalRoundTrip(a, "");
      CanonicalRoundTrip(b, "");
    }
    if Meaning(a) == Meaning(b) {
      SortedIsCanonical(a);
      SortedIsCanonical(b);
      MeaningDetermines(SortJson(a), SortJson(b));
      WriteIsSortedPlain(a);
      WriteIsSortedPlain(b);
    }
  }

  // ---- canonical text is ASCII ------------------------------------------------------------

  predicate AllPrintable(s: string) {
    forall i | 0 <= i < |s| :: Printable(s[i])
  }

  lemma CharIsAscii(c: char)
    ensures AllPrintable(EscapeChar(c))
  {
    hide HexDigit;
    assert forall n: nat | n < 16 :: Printable(HexDigit(n)) by {
      DigitsPrintable();
    }
  }

  lemma DigitsPrintable()
    ensures forall n: nat | n < 16 :: Printable(HexDigit(n))
  {
  }

  lemma {:induction false} TextIsAscii(s: string)
    ensures AllPrintable(WriteText(s))
    ensures AllPrintable(EscapeText(s))
  {
    hide EscapeChar;
    if |s| > 0 {
      CharIsAscii(s[0]);
      TextIsAscii(s[1..]);
    }
  }

  /** Every canonical text is printable ASCII, so its bytes are its characters. */
  lemma {:induction false} PlainIsAscii(v: Json)
    requires Canonical(v)
    ensures AllPrintable(Plain(v))
    decreases v
  {
    hide WriteText, NumberToken;
    match v
    case JNum(token) => NumberTokenChars(token);
    case JStr(s) => TextIsAscii(s);
    case JArr(items) => ItemsAreAscii(items);
    case JObj(entries) => MembersAreAscii(entries);
    case _ =>
  }

  lemma {:induction false} ItemsAreAscii(vs: seq<Json>)
    requires CanonicalAll(vs)
    ensures AllPrintable(PlainItems(vs))
    decreases vs
  {
    hide Plain, Canonical;
    if |vs| > 0 {
      PlainIsAscii(vs[0]);
      ItemsAreAscii(vs[1..]);
    }
  }

  lemma {:induction false} MembersAreAscii(es: seq<Entry>)
    requires CanonicalEntries(es)
    ensures AllPrintable(PlainMembers(es))
    decreases es
  {
    hide Plain, Canonical, WriteText;
    if |es| > 0 {
      TextIsAscii(es[0].key);
      PlainIsAscii(es[0].value);
      MembersAreAscii(es[1..]);
    }
  }

  lemma CanonicalIsAscii(v: Json)
    requires WellFormed(v)
    ensures AllPrintable(Write(v))
  {
    WriteIsSortedPlain(v);
    SortedIsCanonical(v);
    PlainIsAscii(SortJson(v));
  }
}
