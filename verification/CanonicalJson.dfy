/** The canonical JSON writer of src/hashing.rs, and why its bytes identify a document: a reader for
    it (RFC 8259, sections 2 to 7) recovers every value from its canonical text. A Dafny `char` is a
    Unicode scalar value, so surrogates never occur in strings and only appear as escape pairs. */
module CanonicalJson {
  import opened Prelude

  /** A JSON document; objects keep insertion order. `token` is the printed form of a number. */
  datatype Json =
    | JNull
    | JBool(flag: bool)
    | JNum(token: string)
    | JStr(text: string)
    | JArr(items: seq<Json>)
    | JObj(entries: seq<Entry>)

  datatype Entry = Entry(key: string, value: Json)

  predicate NumberChar(c: char) {
    '0' <= c <= '9' || c == '-' || c == '+' || c == '.' || c == 'e' || c == 'E'
  }

  predicate Digits(s: string) {
    |s| > 0 && forall i | 0 <= i < |s| :: '0' <= s[i] <= '9'
  }

  /** The four parts of a number (section 6). */
  predicate NumberParts(sign: string, whole: string, fraction: string, exponent: string) {
    && (sign == "" || sign == "-")
    && Digits(whole) && (whole[0] == '0' ==> |whole| == 1)
    && (fraction == "" || (fraction[0] == '.' && Digits(fraction[1..])))
    && (exponent == "" || ExponentPart(exponent))
  }

  predicate ExponentPart(s: string) {
    && |s| > 1 && (s[0] == 'e' || s[0] == 'E')
    && Digits(if s[1] == '+' || s[1] == '-' then s[2..] else s[1..])
  }

  ghost predicate NumberToken(s: string) {
    exists sign, whole, fraction, exponent ::
      NumberParts(sign, whole, fraction, exponent) && s == sign + whole + fraction + exponent
  }

  /** All a reader needs to know to find where a number ends. */
  lemma NumberTokenChars(s: string)
    requires NumberToken(s)
    ensures |s| > 0 && forall i | 0 <= i < |s| :: NumberChar(s[i])
  {
    var sign, whole, fraction, exponent :|
      NumberParts(sign, whole, fraction, exponent) && s == sign + whole + fraction + exponent;
    PartChars(sign, whole, fraction, exponent);
    JoinedChars(sign, whole);
    JoinedChars(sign + whole, fraction);
    JoinedChars(sign + whole + fraction, exponent);
  }

  predicate AllNumberChars(s: string) {
    forall i | 0 <= i < |s| :: NumberChar(s[i])
  }

  lemma PartChars(sign: string, whole: string, fraction: string, exponent: string)
    requires NumberParts(sign, whole, fraction, exponent)
    ensures AllNumberChars(sign) && AllNumberChars(whole) && AllNumberChars(fraction) && AllNumberChars(exponent)
  {
    if fraction != "" {
      assert forall i | 1 <= i < |fraction| :: fraction[i] == fraction[1..][i - 1];
    }
    if exponent != "" {
      var from := if exponent[1] == '+' || exponent[1] == '-' then 2 else 1;
      assert forall i | from <= i < |exponent| :: exponent[i] == exponent[from..][i - from];
    }
  }

  lemma JoinedChars(a: string, b: string)
    requires AllNumberChars(a) && AllNumberChars(b)
    ensures AllNumberChars(a + b)
  {
  }

  predicate UniqueKeys(es: seq<Entry>) {
    forall i, j | 0 <= i < j < |es| :: es[i].key != es[j].key
  }

  ghost predicate WellFormedAll(vs: seq<Json>)
    decreases vs
  {
    |vs| > 0 ==> WellFormed(vs[0]) && WellFormedAll(vs[1..])
  }

  ghost predicate WellFormedEntries(es: seq<Entry>)
    decreases es
  {
    |es| > 0 ==> WellFormed(es[0].value) && WellFormedEntries(es[1..])
  }

  /** What a `serde_json::Value` is: printed numbers, and objects without repeated keys. */
  ghost predicate WellFormed(v: Json)
    decreases v
  {
    match v
    case JNum(token) => NumberToken(token)
    case JArr(items) => WellFormedAll(items)
    case JObj(entries) => UniqueKeys(entries) && WellFormedEntries(entries)
    case _ => true
  }

  // ---- key order --------------------------------------------------------------------------

  /** Order by code points, which is the order of the UTF-8 bytes. */
  predicate Below(a: string, b: string) {
    |b| > 0 && (|a| == 0 || a[0] < b[0] || (a[0] == b[0] && Below(a[1..], b[1..])))
  }

  lemma {:induction false} BelowTotal(a: string, b: string)
    ensures Below(a, b) || a == b || Below(b, a)
  {
    if |a| > 0 && |b| > 0 && a[0] == b[0] {
      BelowTotal(a[1..], b[1..]);
      if a[1..] == b[1..] {
        assert a == [a[0]] + a[1..] == [b[0]] + b[1..] == b;
      }
    }
  }

  lemma {:induction false} BelowStrict(a: string, b: string)
    requires Below(a, b)
    ensures a != b && !Below(b, a)
  {
    if |a| > 0 && a[0] == b[0] {
      BelowStrict(a[1..], b[1..]);
    }
  }

  lemma {:induction false} BelowTransitive(a: string, b: string, c: string)
    requires Below(a, b) && Below(b, c)
    ensures Below(a, c)
  {
    if |a| > 0 && a[0] == b[0] && b[0] == c[0] {
      BelowTransitive(a[1..], b[1..], c[1..]);
    }
  }

  /** Strictly increasing keys. */
  predicate Ascending(es: seq<Entry>) {
    forall i, j | 0 <= i < j < |es| :: Below(es[i].key, es[j].key)
  }

  // ---- sorting ----------------------------------------------------------------------------

  function InsertEntry(e: Entry, es: seq<Entry>): (r: seq<Entry>)
    ensures multiset(r) == multiset(es) + multiset{e}
  {
    if |es| == 0 || Below(e.key, es[0].key) then [e] + es
    else
      assert es == [es[0]] + es[1..];
      [es[0]] + InsertEntry(e, es[1..])
  }

  /** `entries.sort_by` on keys. */
  function SortEntries(es: seq<Entry>): (r: seq<Entry>)
    ensures multiset(r) == multiset(es)
  {
    if |es| == 0 then []
    else
      assert es == [es[0]] + es[1..];
      InsertEntry(es[0], SortEntries(es[1..]))
  }

  lemma SameEntries(a: seq<Entry>, b: seq<Entry>)
    requires multiset(a) == multiset(b)
    ensures forall e :: e in a <==> e in b
  {
    forall e
      ensures e in a <==> e in b
    {
      assert e in a <==> e in multiset(a);
      assert e in b <==> e in multiset(b);
    }
  }

  lemma {:induction false} InsertAscending(e: Entry, es: seq<Entry>)
    requires Ascending(es) && forall x | x in es :: x.key != e.key
    ensures Ascending(InsertEntry(e, es))
  {
    if |es| > 0 {
      if Below(e.key, es[0].key) {
        forall j | 0 <= j < |es|
          ensures Below(e.key, es[j].key)
        {
          if j > 0 {
            BelowTransitive(e.key, es[0].key, es[j].key);
          }
        }
      } else {
        assert es[0] in es;
        BelowTotal(e.key, es[0].key);
        InsertAscending(e, es[1..]);
        var rest := InsertEntry(e, es[1..]);
        forall j | 0 <= j < |rest|
          ensures Below(es[0].key, rest[j].key)
        {
          assert rest[j] in multiset(rest);
          if rest[j] != e {
            assert rest[j] in multiset(es[1..]);
            var k :| 0 <= k < |es[1..]| && es[1..][k] == rest[j];
            assert es[k + 1] == rest[j];
          }
        }
      }
    }
  }

  lemma {:induction false} SortedAscending(es: seq<Entry>)
    requires UniqueKeys(es)
    ensures Ascending(SortEntries(es))
  {
    if |es| > 0 {
      var tail := es[1..];
      forall i, j | 0 <= i < j < |tail|
        ensures tail[i].key != tail[j].key
      {
        assert es[i + 1].key != es[j + 1].key;
      }
      SortedAscending(tail);
      SameEntries(SortEntries(tail), tail);
      forall x | x in SortEntries(tail)
        ensures x.key != es[0].key
      {
        var k :| 0 <= k < |tail| && tail[k] == x;
        assert es[k + 1] == x;
      }
      InsertAscending(es[0], SortEntries(tail));
    }
  }

  /** The sorted entries are entries of the object, so recursion on them is recursion on parts. */
  lemma SortedParts(v: Json)
    requires v.JObj?
    ensures forall e | e in SortEntries(v.entries) :: e.value < v
  {
    SameEntries(SortEntries(v.entries), v.entries);
  }

  /** `sort_json`. */
  function SortJson(v: Json): Json
    decreases v, 1
  {
    match v
    case JArr(items) => JArr(SortItems(v, items))
    case JObj(entries) =>
      SortedParts(v);
      JObj(SortValues(v, SortEntries(entries)))
    case _ => v
  }

  function SortItems(whole: Json, vs: seq<Json>): (r: seq<Json>)
    requires forall v | v in vs :: v < whole
    ensures |r| == |vs|
    decreases whole, 0, |vs|
  {
    if |vs| == 0 then []
    else
      assert vs[0] in vs && forall v | v in vs[1..] :: v in vs;
      [SortJson(vs[0])] + SortItems(whole, vs[1..])
  }

  function SortValues(whole: Json, es: seq<Entry>): (r: seq<Entry>)
    requires forall e | e in es :: e.value < whole
    ensures |r| == |es| && forall i | 0 <= i < |es| :: r[i].key == es[i].key
    decreases whole, 0, |es|
  {
    if |es| == 0 then []
    else
      assert es[0] in es && forall e | e in es[1..] :: e in es;
      [Entry(es[0].key, SortJson(es[0].value))] + SortValues(whole, es[1..])
  }

  // ---- strings ----------------------------------------------------------------------------

  function HexDigit(n: nat): char
    requires n < 16
  {
    "0123456789abcdef"[n]
  }

  /** `\u` and four lower-case hexadecimal digits. */
  function Hex4(n: nat): string
    requires n < 0x1_0000
  {
    ['\\', 'u', HexDigit(n / 4096), HexDigit(n / 256 % 16), HexDigit(n / 16 % 16), HexDigit(n % 16)]
  }

  predicate Printable(c: char) {
    ' ' <= c <= '~'
  }

  function EscapeChar(c: char): string {
    if c == '"' then "\\\""
    else if c == '\\' then "\\\\"
    else if c as int == 0x08 then "\\b"
    else if c as int == 0x0c then "\\f"
    else if c == '\n' then "\\n"
    else if c == '\r' then "\\r"
    else if c == '\t' then "\\t"
    else if Printable(c) then [c]
    else if c as int <= 0xffff then Hex4(c as int)
    else
      var scalar := c as int - 0x1_0000;
      Hex4(0xd800 + scalar / 0x400) + Hex4(0xdc00 + scalar % 0x400)
  }

  function EscapeText(s: string): string {
    if |s| == 0 then "" else EscapeChar(s[0]) + EscapeText(s[1..])
  }

  /** `write_ascii_json_string`. */
  function WriteText(s: string): string {
    "\"" + EscapeText(s) + "\""
  }

  // ---- the writer -------------------------------------------------------------------------

  /** `write_canonical_json`. */
  function Write(v: Json): string
    decreases v, 1
  {
    match v
    case JNull => "null"
    case JBool(b) => if b then "true" else "false"
    case JNum(token) => token
    case JStr(s) => WriteText(s)
    case JArr(items) => "[" + WriteItems(v, items) + "]"
    case JObj(entries) =>
      SortedParts(v);
      "{" + WriteMembers(v, SortEntries(entries)) + "}"
  }

  function WriteItems(whole: Json, vs: seq<Json>): string
    requires forall v | v in vs :: v < whole
    decreases whole, 0, |vs|
  {
    if |vs| == 0 then ""
    else
      assert vs[0] in vs && forall v | v in vs[1..] :: v in vs;
      if |vs| == 1 then Write(vs[0]) else Write(vs[0]) + "," + WriteItems(whole, vs[1..])
  }

  function WriteMember(key: string, text: string): string {
    WriteText(key) + ":" + text
  }

  function WriteMembers(whole: Json, es: seq<Entry>): string
    requires forall e | e in es :: e.value < whole
    decreases whole, 0, |es|
  {
    if |es| == 0 then ""
    else
      assert es[0] in es && forall e | e in es[1..] :: e in es;
      var first := WriteMember(es[0].key, Write(es[0].value));
      if |es| == 1 then first else first + "," + WriteMembers(whole, es[1..])
  }

  // ---- the writer as it runs --------------------------------------------------------------

  /** The growing output string. */
  class Output {
    var text: string

    constructor ()
      ensures text == ""
    {
      text := "";
    }

    method Push(s: string)
      modifies this
      ensures text == old(text) + s
    {
      text := text + s;
    }
  }

  lemma Assoc(a: string, b: string, c: string)
    ensures (a + b) + c == a + (b + c)
  {
  }

  method WriteAsciiJsonString(s: string, output: Output)
    modifies output
    ensures output.text == old(output.text) + WriteText(s)
  {
    hide EscapeChar;
    ghost var start := output.text;
    ghost var done := "\"";
    output.Push("\"");
    assert s[0..] == s;
    for i := 0 to |s|
      invariant output.text == start + done && done + EscapeText(s[i..]) == "\"" + EscapeText(s)
    {
      assert s[i..][0] == s[i] && s[i..][1..] == s[i + 1..];
      output.Push(EscapeChar(s[i]));
      Assoc(start, done, EscapeChar(s[i]));
      Assoc(done, EscapeChar(s[i]), EscapeText(s[i + 1..]));
      done := done + EscapeChar(s[i]);
    }
    assert s[|s|..] == "" && done + "" == done;
    output.Push("\"");
    Assoc(start, done, "\"");
  }

  method WriteCanonicalJson(v: Json, output: Output)
    modifies output
    ensures output.text == old(output.text) + Write(v)
    decreases v, 2
  {
    hide EscapeText;
    match v
    case JNull => output.Push("null");
    case JBool(b) => output.Push(if b then "true" else "false");
    case JNum(token) => output.Push(token);
    case JStr(s) => WriteAsciiJsonString(s, output);
    case JArr(_) => WriteArray(v, output);
    case JObj(_) => WriteObject(v, output);
  }

  method WriteArray(v: Json, output: Output)
    requires v.JArr?
    modifies output
    ensures output.text == old(output.text) + Write(v)
    decreases v, 0
  {
    ghost var start := output.text;
    ghost var done := "[";
    output.Push("[");
    assert v.items[0..] == v.items;
    for i := 0 to |v.items|
      invariant output.text == start + done
      invariant done + ItemsFrom(v, i) == "[" + WriteItems(v, v.items)
    {
      ghost var separator := if i > 0 then "," else "";
      if i > 0 {
        output.Push(",");
        Assoc(start, done, ",");
      }
      assert start + (done + separator) == output.text by {
        assert done + "" == done;
      }
      WriteCanonicalJson(v.items[i], output);
      Assoc(start, done + separator, Write(v.items[i]));
      ItemsFromStep(v, i);
      Assoc(done, separator, Write(v.items[i]));
      Assoc(done, separator + Write(v.items[i]), ItemsFrom(v, i + 1));
      done := done + (separator + Write(v.items[i]));
    }
    assert done + "" == done;
    output.Push("]");
    Assoc(start, done, "]");
  }

  /** What is still to be written of an array once `i` items are out, separators included. */
  ghost function ItemsFrom(v: Json, i: nat): string
    requires v.JArr? && i <= |v.items|
  {
    if i == |v.items| then ""
    else
      assert forall x | x in v.items[i..] :: x in v.items;
      (if i > 0 then "," else "") + WriteItems(v, v.items[i..])
  }

  lemma ItemsFromStep(v: Json, i: nat)
    requires v.JArr? && i < |v.items|
    ensures v.items[i] < v
    ensures ItemsFrom(v, i) == ((if i > 0 then "," else "") + Write(v.items[i])) + ItemsFrom(v, i + 1)
  {
    hide Write;
    assert v.items[i] in v.items;
    var rest := v.items[i..];
    assert forall x | x in rest :: x in v.items;
    assert rest[0] == v.items[i] && rest[1..] == v.items[i + 1..];
    var separator := if i > 0 then "," else "";
    if |rest| == 1 {
      assert (separator + Write(v.items[i])) + "" == separator + Write(v.items[i]);
    } else {
      assert WriteItems(v, rest) == Write(rest[0]) + "," + WriteItems(v, rest[1..]);
      Assoc(Write(rest[0]), ",", WriteItems(v, rest[1..]));
      Assoc(separator, Write(rest[0]), "," + WriteItems(v, rest[1..]));
    }
  }

  method WriteObject(v: Json, output: Output)
    requires v.JObj?
    modifies output
    ensures output.text == old(output.text) + Write(v)
    decreases v, 1
  {
    hide WriteMember, WriteText, Write, SortEntries, WriteMembers, MembersFrom;
    ghost var start := output.text;
    ghost var done := "{";
    output.Push("{");
    var entries := SortEntries(v.entries);
    SortedParts(v);
    MembersFromStart(v, entries);
    for i := 0 to |entries|
      invariant output.text == start + done
      invariant done + MembersFrom(v, entries, i) == "{" + WriteMembers(v, entries)
    {
      ghost var separator := if i > 0 then "," else "";
      if i > 0 {
        output.Push(",");
        Assoc(start, done, ",");
      }
      assert start + (done + separator) == output.text by {
        assert done + "" == done;
      }
      ghost var member := WriteMember(entries[i].key, Write(entries[i].value));
      WriteEntry(v, entries[i], output);
      Assoc(start, done + separator, member);
      MembersFromStep(v, entries, i);
      Assoc(done, separator, member);
      Assoc(done, separator + member, MembersFrom(v, entries, i + 1));
      done := done + (separator + member);
    }
    assert done + "" == done;
    output.Push("}");
    Assoc(start, done, "}");
    ObjectText(v);
  }

  method WriteEntry(ghost whole: Json, e: Entry, output: Output)
    requires e.value < whole
    modifies output
    ensures output.text == old(output.text) + WriteMember(e.key, Write(e.value))
    decreases whole, 0
  {
    hide WriteText, Write;
    ghost var start := output.text;
    WriteAsciiJsonString(e.key, output);
    output.Push(":");
    WriteCanonicalJson(e.value, output);
    Assoc(start, WriteText(e.key), ":");
    Assoc(start, WriteText(e.key) + ":", Write(e.value));
  }

  /** What is still to be written of an object once `i` members are out, separators included. */
  ghost function MembersFrom(v: Json, es: seq<Entry>, i: nat): string
    requires i <= |es| && forall e | e in es :: e.value < v
  {
    if i == |es| then ""
    else
      assert forall e | e in es[i..] :: e in es;
      (if i > 0 then "," else "") + WriteMembers(v, es[i..])
  }

  lemma MembersFromStart(v: Json, es: seq<Entry>)
    requires forall e | e in es :: e.value < v
    ensures MembersFrom(v, es, 0) == WriteMembers(v, es) && MembersFrom(v, es, |es|) == ""
  {
    assert es[0..] == es;
    assert "" + WriteMembers(v, es) == WriteMembers(v, es);
  }

  lemma ObjectText(v: Json)
    requires v.JObj?
    ensures forall e | e in SortEntries(v.entries) :: e.value < v
    ensures Write(v) == "{" + WriteMembers(v, SortEntries(v.entries)) + "}"
  {
    SortedParts(v);
  }

  lemma MembersFromStep(v: Json, es: seq<Entry>, i: nat)
    requires i < |es| && forall e | e in es :: e.value < v
    ensures MembersFrom(v, es, i) ==
              ((if i > 0 then "," else "") + WriteMember(es[i].key, Write(es[i].value))) + MembersFrom(v, es, i + 1)
  {
    hide Write, WriteMember;
    var rest := es[i..];
    assert forall e | e in rest :: e in es;
    assert rest[0] == es[i] && rest[1..] == es[i + 1..];
    var separator, member := if i > 0 then "," else "", WriteMember(es[i].key, Write(es[i].value));
    if |rest| == 1 {
      assert (separator + member) + "" == separator + member;
    } else {
      assert WriteMembers(v, rest) == member + "," + WriteMembers(v, rest[1..]);
      Assoc(member, ",", WriteMembers(v, rest[1..]));
      Assoc(separator, member, "," + WriteMembers(v, rest[1..]));
    }
  }

  // ---- the reader -------------------------------------------------------------------------

  function HexValue(c: char): Option<nat> {
    if '0' <= c <= '9' then Some(c as int - '0' as int)
    else if 'a' <= c <= 'f' then Some(c as int - 'a' as int + 10)
    else None
  }

  /** Four hexadecimal digits at the front. */
  function ReadHex4(s: string): (r: Option<(nat, string)>)
    ensures r.Some? ==> r.value.0 < 0x1_0000 && |r.value.1| < |s|
  {
    if |s| < 4 || HexValue(s[0]).None? || HexValue(s[1]).None? || HexValue(s[2]).None? || HexValue(s[3]).None? then None
    else
      Some((4096 * HexValue(s[0]).value + 256 * HexValue(s[1]).value + 16 * HexValue(s[2]).value + HexValue(s[3]).value,
            s[4..]))
  }

  /** After `\u`: one unit, or a high surrogate followed by an escaped low one (RFC 8259, section 7). */
  function ReadUnicode(s: string): (r: Option<(char, string)>)
    ensures r.Some? ==> |r.value.1| < |s|
  {
    var first := ReadHex4(s);
    if first.None? then None
    else
      var (unit, rest) := first.value;
      if unit < 0xd800 || 0xe000 <= unit then Some((unit as char, rest))
      else if 0xdc00 <= unit || |rest| < 2 || rest[0] != '\\' || rest[1] != 'u' then None
      else
        var second := ReadHex4(rest[2..]);
        if second.None? || second.value.0 < 0xdc00 || 0xe000 <= second.value.0 then None
        else Some(((0x1_0000 + 0x400 * (unit - 0xd800) + (second.value.0 - 0xdc00)) as char, second.value.1))
  }

  /** One character of a string, escaped or not. */
  function ReadChar(s: string): (r: Option<(char, string)>)
    ensures r.Some? ==> |r.value.1| < |s|
  {
    if |s| == 0 || s[0] == '"' || s[0] as int < 0x20 then None
    else if s[0] != '\\' then Some((s[0], s[1..]))
    else if |s| < 2 then None
    else if s[1] == '"' then Some(('"', s[2..]))
    else if s[1] == '\\' then Some(('\\', s[2..]))
    else if s[1] == '/' then Some(('/', s[2..]))
    else if s[1] == 'b' then Some((0x08 as char, s[2..]))
    else if s[1] == 'f' then Some((0x0c as char, s[2..]))
    else if s[1] == 'n' then Some(('\n', s[2..]))
    else if s[1] == 'r' then Some(('\r', s[2..]))
    else if s[1] == 't' then Some(('\t', s[2..]))
    else if s[1] == 'u' then ReadUnicode(s[2..])
    else None
  }

  /** The rest of a string after its opening quote. */
  function ReadText(s: string): (r: Option<(string, string)>)
    ensures r.Some? ==> |r.value.1| < |s|
    decreases |s|
  {
    if |s| == 0 then None
    else if s[0] == '"' then Some(("", s[1..]))
    else
      var first := ReadChar(s);
      if first.None? then None
      else
        var rest := ReadText(first.value.1);
        if rest.None? then None else Some(([first.value.0] + rest.value.0, rest.value.1))
  }

  function NumberLength(s: string): (n: nat)
    ensures n <= |s|
  {
    if |s| == 0 || !NumberChar(s[0]) then 0 else 1 + NumberLength(s[1..])
  }

  predicate StartsWith(s: string, c: char) {
    |s| > 0 && s[0] == c
  }

  /** One value from the front of a text, and what follows it. */
  function Read(s: string): (r: Option<(Json, string)>)
    ensures r.Some? ==> |r.value.1| < |s|
    decreases |s|, 1
  {
    if "null" <= s then Some((JNull, s[4..]))
    else if "true" <= s then Some((JBool(true), s[4..]))
    else if "false" <= s then Some((JBool(false), s[5..]))
    else if StartsWith(s, '"') then
      var text := ReadText(s[1..]);
      if text.None? then None else Some((JStr(text.value.0), text.value.1))
    else if StartsWith(s, '[') then
      if StartsWith(s[1..], ']') then Some((JArr([]), s[2..]))
      else
        var items := ReadItems(s[1..]);
        if items.None? then None else Some((JArr(items.value.0), items.value.1))
    else if StartsWith(s, '{') then
      if StartsWith(s[1..], '}') then Some((JObj([]), s[2..]))
      else
        var members := ReadMembers(s[1..]);
        if members.None? then None else Some((JObj(members.value.0), members.value.1))
    else
      var n := NumberLength(s);
      if n == 0 then None else Some((JNum(s[..n]), s[n..]))
  }

  /** At least one array item, up to the closing bracket. */
  function ReadItems(s: string): (r: Option<(seq<Json>, string)>)
    ensures r.Some? ==> |r.value.1| < |s|
    decreases |s|, 2
  {
    var first := Read(s);
    if first.None? then None
    else
      var rest := first.value.1;
      if StartsWith(rest, ']') then Some(([first.value.0], rest[1..]))
      else if !StartsWith(rest, ',') then None
      else
        var more := ReadItems(rest[1..]);
        if more.None? then None else Some(([first.value.0] + more.value.0, more.value.1))
  }

  function ReadMember(s: string): (r: Option<(Entry, string)>)
    ensures r.Some? ==> |r.value.1| < |s|
    decreases |s|, 2
  {
    if !StartsWith(s, '"') then None
    else
      var key := ReadText(s[1..]);
      if key.None? || !StartsWith(key.value.1, ':') then None
      else
        var value := Read(key.value.1[1..]);
        if value.None? then None else Some((Entry(key.value.0, value.value.0), value.value.1))
  }

  /** At least one member, up to the closing brace. */
  function ReadMembers(s: string): (r: Option<(seq<Entry>, string)>)
    ensures r.Some? ==> |r.value.1| < |s|
    decreases |s|, 3
  {
    var first := ReadMember(s);
    if first.None? then None
    else
      var rest := first.value.1;
      if StartsWith(rest, '}') then Some(([first.value.0], rest[1..]))
      else if !StartsWith(rest, ',') then None
      else
        var more := ReadMembers(rest[1..]);
        if more.None? then None else Some(([first.value.0] + more.value.0, more.value.1))
  }
}
