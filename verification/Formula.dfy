/** Chemical formulas: the trees they denote, their reader as a function, and its round trip with
    printing. The registry of elements is a parameter. */
module Formula {
  import opened Prelude

  /** An element symbol or a parenthesised group. */
  datatype Part = Element(symbol: string) | Group(items: seq<Item>)

  datatype Item = Item(part: Part, count: nat)

  const MAX_DEPTH: nat := 8
  const MAX_COUNT: nat := 1_000_000
  const MAX_LENGTH: nat := 1_024
  const MAX_U32: nat := 4_294_967_295

  type Registry = string -> Option<real>

  // ---- meaning ----------------------------------------------------------------------------

  function PartMass(weight: Registry, p: Part): real
    decreases p
  {
    match p
    case Element(symbol) => if weight(symbol).Some? then weight(symbol).value else 0.0
    case Group(items) => Mass(weight, items)
  }

  /** The molar mass a formula denotes. */
  function Mass(weight: Registry, items: seq<Item>): real
    decreases items
  {
    if |items| == 0 then 0.0
    else
      assert items[0].part < items[0];
      PartMass(weight, items[0].part) * items[0].count as real + Mass(weight, items[1..])
  }

  // ---- characters -------------------------------------------------------------------------

  predicate Upper(c: char) {
    'A' <= c <= 'Z'
  }

  predicate Lower(c: char) {
    'a' <= c <= 'z'
  }

  predicate Digit(c: char) {
    '0' <= c <= '9'
  }

  predicate StartsWith(s: string, p: char -> bool) {
    |s| > 0 && p(s[0])
  }

  /** How many digits a text starts with. */
  function DigitRun(s: string): (n: nat)
    ensures n <= |s| && forall i | 0 <= i < n :: Digit(s[i])
    ensures n < |s| ==> !Digit(s[n])
  {
    if StartsWith(s, Digit) then 1 + DigitRun(s[1..]) else 0
  }

  function DigitValue(c: char): nat
    requires Digit(c)
  {
    c as int - '0' as int
  }

  /** The number a run of digits spells. */
  function Value(digits: string): nat
    requires forall i | 0 <= i < |digits| :: Digit(digits[i])
  {
    if |digits| == 0 then 0
    else Value(digits[..|digits| - 1]) * 10 + DigitValue(digits[|digits| - 1])
  }

  // ---- reading ----------------------------------------------------------------------------

  /** A count: absent means one; otherwise it must parse as a `u32` and lie from 1 to 1,000,000. */
  function ReadCount(s: string): Option<(nat, string)> {
    var n := DigitRun(s);
    if n == 0 then Some((1, s))
    else
      var count := Value(s[..n]);
      if count > MAX_U32 || count == 0 || count > MAX_COUNT then None else Some((count, s[n..]))
  }

  function SymbolLength(s: string): nat
    requires StartsWith(s, Upper)
  {
    if StartsWith(s[1..], Lower) then 2 else 1
  }

  /** A nonempty sequence of items, up to the end or to the closing parenthesis of its group. */
  function ReadSequence(weight: Registry, s: string, closing: bool, depth: nat): (r: Option<(seq<Item>, string)>)
    ensures r.Some? ==> |r.value.1| <= |s|
    decreases |s|, 3
  {
    if depth > MAX_DEPTH then None
    else
      var items := ReadItems(weight, s, closing, depth);
      if items.None? || |items.value.0| == 0 then None else items
  }

  function ReadItems(weight: Registry, s: string, closing: bool, depth: nat): (r: Option<(seq<Item>, string)>)
    requires depth <= MAX_DEPTH
    ensures r.Some? ==> |r.value.1| <= |s|
    ensures r.Some? && |r.value.0| == 0 ==> r.value.1 == s
    ensures r.Some? && |r.value.1| > 0 ==> closing && r.value.1[0] == ')'
    decreases |s|, 2
  {
    if |s| == 0 || (closing && s[0] == ')') then Some(([], s))
    else
      var first := ReadItem(weight, s, depth);
      if first.None? then None
      else
        var rest := ReadItems(weight, first.value.1, closing, depth);
        if rest.None? then None else Some(([first.value.0] + rest.value.0, rest.value.1))
  }

  function ReadItem(weight: Registry, s: string, depth: nat): (r: Option<(Item, string)>)
    requires |s| > 0 && depth <= MAX_DEPTH
    ensures r.Some? ==> |r.value.1| < |s|
    decreases |s|, 1
  {
    var part := ReadPart(weight, s, depth);
    if part.None? then None
    else
      var count := ReadCount(part.value.1);
      if count.None? then None else Some((Item(part.value.0, count.value.0), count.value.1))
  }

  function ReadPart(weight: Registry, s: string, depth: nat): (r: Option<(Part, string)>)
    requires |s| > 0 && depth <= MAX_DEPTH
    ensures r.Some? ==> |r.value.1| < |s|
    decreases |s|, 0
  {
    if s[0] == '(' then
      var group := ReadSequence(weight, s[1..], true, depth + 1);
      if group.None? || |group.value.1| == 0 then None else Some((Group(group.value.0), group.value.1[1..]))
    else if Upper(s[0]) then
      var k := SymbolLength(s);
      if weight(s[..k]).None? then None else Some((Element(s[..k]), s[k..]))
    else None
  }

  /** The whole formula as a tree. */
  function Read(weight: Registry, s: string): Option<seq<Item>> {
    if |s| == 0 || |s| > MAX_LENGTH then None
    else
      var items := ReadSequence(weight, s, false, 0);
      if items.None? then None else Some(items.value.0)
  }

  /** The molar mass of a formula text. */
  function FormulaMass(weight: Registry, s: string): Option<real> {
    var items := Read(weight, s);
    if items.None? || Mass(weight, items.value) <= 0.0 then None else Some(Mass(weight, items.value))
  }

  // ---- printing ---------------------------------------------------------------------------

  function Decimal(n: nat): (s: string)
    ensures |s| > 0 && forall i | 0 <= i < |s| :: Digit(s[i])
  {
    if n < 10 then [(n + '0' as int) as char] else Decimal(n / 10) + [(n % 10 + '0' as int) as char]
  }

  function PrintCount(n: nat): string {
    if n == 1 then "" else Decimal(n)
  }

  function PrintPart(p: Part): string
    decreases p
  {
    match p
    case Element(symbol) => symbol
    case Group(items) => "(" + Print(items) + ")"
  }

  function Print(items: seq<Item>): string
    decreases items
  {
    if |items| == 0 then ""
    else
      assert items[0].part < items[0];
      PrintPart(items[0].part) + PrintCount(items[0].count) + Print(items[1..])
  }

  predicate IsSymbol(s: string) {
    (|s| == 1 && Upper(s[0])) || (|s| == 2 && Upper(s[0]) && Lower(s[1]))
  }

  predicate LegalPart(weight: Registry, p: Part, depth: nat)
    decreases p
  {
    match p
    case Element(symbol) => IsSymbol(symbol) && weight(symbol).Some?
    case Group(items) => depth < MAX_DEPTH && |items| > 0 && Legal(weight, items, depth + 1)
  }

  /** Known symbols, counts from 1 to 1,000,000, nonempty groups nested at most eight deep. */
  predicate Legal(weight: Registry, items: seq<Item>, depth: nat)
    decreases items
  {
    |items| > 0 ==>
      assert items[0].part < items[0];
      LegalPart(weight, items[0].part, depth) && 1 <= items[0].count <= MAX_COUNT && Legal(weight, items[1..], depth)
  }

  // ---- what reading gives is legal --------------------------------------------------------

  lemma {:induction false} ItemsAreLegal(weight: Registry, s: string, closing: bool, depth: nat)
    requires depth <= MAX_DEPTH && ReadItems(weight, s, closing, depth).Some?
    ensures Legal(weight, ReadItems(weight, s, closing, depth).value.0, depth)
    decreases |s|, 1
  {
    if !(|s| == 0 || (closing && s[0] == ')')) {
      var first := ReadItem(weight, s, depth);
      PartIsLegal(weight, s, depth);
      ItemsAreLegal(weight, first.value.1, closing, depth);
    }
  }

  lemma {:induction false} PartIsLegal(weight: Registry, s: string, depth: nat)
    requires |s| > 0 && depth <= MAX_DEPTH && ReadPart(weight, s, depth).Some?
    ensures LegalPart(weight, ReadPart(weight, s, depth).value.0, depth)
    decreases |s|, 0
  {
    if s[0] == '(' {
      ItemsAreLegal(weight, s[1..], true, depth + 1);
    }
  }

  // ---- what is printed reads back ---------------------------------------------------------

  lemma {:induction false} ValueOfDecimal(n: nat)
    ensures Value(Decimal(n)) == n
  {
    if n >= 10 {
      ValueOfDecimal(n / 10);
      assert Decimal(n)[..|Decimal(n)| - 1] == Decimal(n / 10);
    }
  }

  lemma {:induction false} DigitRunIs(digits: string, rest: string)
    requires forall i | 0 <= i < |digits| :: Digit(digits[i])
    requires !StartsWith(rest, Digit)
    ensures DigitRun(digits + rest) == |digits|
  {
    if |digits| == 0 {
      assert digits + rest == rest;
    } else {
      assert (digits + rest)[1..] == digits[1..] + rest;
      DigitRunIs(digits[1..], rest);
    }
  }

  lemma CountReads(n: nat, rest: string)
    requires 1 <= n <= MAX_COUNT && !StartsWith(rest, Digit)
    ensures ReadCount(PrintCount(n) + rest) == Some((n, rest))
  {
    var s := PrintCount(n) + rest;
    if n == 1 {
      assert s == rest;
    } else {
      DigitRunIs(Decimal(n), rest);
      ValueOfDecimal(n);
      assert s[..|Decimal(n)|] == Decimal(n) && s[|Decimal(n)|..] == rest;
    }
  }

  /** Printed items begin with a letter or a parenthesis, never with a digit or a lower-case letter. */
  lemma PrintStarts(weight: Registry, items: seq<Item>, depth: nat)
    requires Legal(weight, items, depth) && |items| > 0
    ensures |Print(items)| > 0 && (Print(items)[0] == '(' || Upper(Print(items)[0]))
  {
    var p := items[0].part;
    assert |PrintPart(p)| > 0 && (PrintPart(p)[0] == '(' || Upper(PrintPart(p)[0])) by {
      assert LegalPart(weight, p, depth);
    }
  }

  /** What may follow printed items: the end, or a closing parenthesis. */
  predicate Ends(rest: string, closing: bool) {
    rest == "" || (closing && rest[0] == ')')
  }

  lemma {:induction false} ItemsRead(weight: Registry, items: seq<Item>, rest: string, closing: bool, depth: nat)
    requires depth <= MAX_DEPTH && Legal(weight, items, depth) && Ends(rest, closing)
    ensures ReadItems(weight, Print(items) + rest, closing, depth) == Some((items, rest))
    decreases items
  {
    hide ReadItem, PrintPart, PrintCount, LegalPart;
    var s := Print(items) + rest;
    if |items| == 0 {
      assert s == rest;
    } else {
      var tail := Print(items[1..]) + rest;
      PrintStarts(weight, items, depth);
      TailStarts(weight, items[1..], rest, closing, depth);
      assert s == PrintPart(items[0].part) + PrintCount(items[0].count) + tail;
      assert s[0] == Print(items)[0];
      assert items[0].part < items[0];
      ItemReads(weight, items[0], tail, depth);
      ItemsRead(weight, items[1..], rest, closing, depth);
      assert [items[0]] + items[1..] == items;
    }
  }

  lemma TailStarts(weight: Registry, items: seq<Item>, rest: string, closing: bool, depth: nat)
    requires Legal(weight, items, depth) && Ends(rest, closing)
    ensures !StartsWith(Print(items) + rest, Digit) && !StartsWith(Print(items) + rest, Lower)
  {
    hide Print, Legal;
    if |items| > 0 {
      PrintStarts(weight, items, depth);
    } else {
      NothingPrinted(items);
      assert Print(items) + rest == rest;
    }
  }

  lemma NothingPrinted(items: seq<Item>)
    requires |items| == 0
    ensures Print(items) == ""
  {
  }

  lemma {:induction false} ItemReads(weight: Registry, item: Item, tail: string, depth: nat)
    requires depth <= MAX_DEPTH && LegalPart(weight, item.part, depth) && 1 <= item.count <= MAX_COUNT
    requires !StartsWith(tail, Digit) && !StartsWith(tail, Lower)
    ensures |PrintPart(item.part) + PrintCount(item.count) + tail| > 0
    ensures ReadItem(weight, PrintPart(item.part) + PrintCount(item.count) + tail, depth) == Some((item, tail))
    decreases item
  {
    hide ReadPart, ReadCount, PrintPart, PrintCount, LegalPart;
    var counted := PrintCount(item.count) + tail;
    assert PrintPart(item.part) + PrintCount(item.count) + tail == PrintPart(item.part) + counted;
    CountIsDigits(item.count);
    assert !StartsWith(counted, Lower);
    PartReads(weight, item.part, counted, depth);
    CountReads(item.count, tail);
  }

  lemma CountIsDigits(n: nat)
    ensures forall i | 0 <= i < |PrintCount(n)| :: Digit(PrintCount(n)[i])
  {
  }

  lemma {:induction false} PartReads(weight: Registry, p: Part, rest: string, depth: nat)
    requires depth <= MAX_DEPTH && LegalPart(weight, p, depth) && !StartsWith(rest, Lower)
    ensures |PrintPart(p) + rest| > 0
    ensures ReadPart(weight, PrintPart(p) + rest, depth) == Some((p, rest))
    decreases p
  {
    var s := PrintPart(p) + rest;
    match p
    case Element(symbol) =>
      assert s[..|symbol|] == symbol && s[|symbol|..] == rest;
      assert SymbolLength(s) == |symbol|;
    case Group(items) =>
      assert s[1..] == Print(items) + (")" + rest);
      ItemsRead(weight, items, ")" + rest, true, depth + 1);
      assert (")" + rest)[1..] == rest;
  }

  lemma {:induction false} PositiveMass(weight: Registry, items: seq<Item>, depth: nat)
    requires Legal(weight, items, depth) && PositiveWeights(weight)
    ensures Mass(weight, items) >= 0.0
    ensures |items| > 0 ==> Mass(weight, items) > 0.0
    decreases items
  {
    if |items| > 0 {
      assert items[0].part < items[0];
      PositivePart(weight, items[0].part, depth);
      PositiveMass(weight, items[1..], depth);
      var m, c := PartMass(weight, items[0].part), items[0].count as real;
      assert m * c > 0.0;
    }
  }

  lemma {:induction false} PositivePart(weight: Registry, p: Part, depth: nat)
    requires LegalPart(weight, p, depth) && PositiveWeights(weight)
    ensures PartMass(weight, p) > 0.0
    decreases p
  {
    if p.Group? {
      PositiveMass(weight, p.items, depth + 1);
    }
  }

  ghost predicate PositiveWeights(weight: Registry) {
    forall symbol :: weight(symbol).Some? ==> weight(symbol).value > 0.0
  }

  /** Every legal tree whose printed text fits the length limit reads back, with the mass it denotes. */
  lemma PrintedReads(weight: Registry, items: seq<Item>)
    requires Legal(weight, items, 0) && |items| > 0 && |Print(items)| <= MAX_LENGTH && PositiveWeights(weight)
    ensures Read(weight, Print(items)) == Some(items)
    ensures FormulaMass(weight, Print(items)) == Some(Mass(weight, items))
  {
    PrintStarts(weight, items, 0);
    ItemsRead(weight, items, "", false, 0);
    assert Print(items) + "" == Print(items);
    PositiveMass(weight, items, 0);
  }

  /** A text has a mass exactly when it reads as a tree, and the mass is the one that tree denotes; the
      tree is legal, so printing it canonically and reading it again changes nothing when it fits. */
  lemma MassIsDenoted(weight: Registry, s: string)
    requires PositiveWeights(weight)
    ensures FormulaMass(weight, s).Some? <==> Read(weight, s).Some?
    ensures Read(weight, s).Some? ==>
      var items := Read(weight, s).value;
      && FormulaMass(weight, s) == Some(Mass(weight, items))
      && Legal(weight, items, 0) && |items| > 0
      && (|Print(items)| <= MAX_LENGTH ==> Read(weight, Print(items)) == Some(items))
  {
    if Read(weight, s).Some? {
      var items := Read(weight, s).value;
      ItemsAreLegal(weight, s, false, 0);
      PositiveMass(weight, items, 0);
      if |Print(items)| <= MAX_LENGTH {
        PrintedReads(weight, items);
      }
    }
  }

  // ---- one formula ------------------------------------------------------------------------

  /** Ca(OH)2: one calcium and, twice, an oxygen and a hydrogen. */
  function CalciumHydroxide(): seq<Item> {
    [Item(Element("Ca"), 1), Item(Group([Item(Element("O"), 1), Item(Element("H"), 1)]), 2)]
  }

  lemma CalciumHydroxideMass(weight: Registry, ca: real, o: real, h: real)
    requires PositiveWeights(weight) && weight("Ca") == Some(ca) && weight("O") == Some(o) && weight("H") == Some(h)
    ensures FormulaMass(weight, "Ca(OH)2") == Some(ca + 2.0 * (o + h))
  {
    hide Legal, Print, FormulaMass, Read, PositiveWeights;
    var items, inner := CalciumHydroxide(), CalciumHydroxide()[1].part.items;
    assert inner[1..] == [Item(Element("H"), 1)] && inner[1..][1..] == [] && items[1..][1..] == [];
    CalciumHydroxideIsLegal(weight);
    assert Mass(weight, []) == 0.0;
    assert Mass(weight, inner[1..]) == h;
    assert Mass(weight, inner) == o + h;
    assert Mass(weight, items[1..]) == (o + h) * 2.0;
    assert Mass(weight, items) == ca + (o + h) * 2.0;
    CalciumHydroxideText();
    PrintedReads(weight, items);
  }

  lemma CalciumHydroxideIsLegal(weight: Registry)
    requires weight("Ca").Some? && weight("O").Some? && weight("H").Some?
    ensures Legal(weight, CalciumHydroxide(), 0)
  {
    var items, inner := CalciumHydroxide(), CalciumHydroxide()[1].part.items;
    assert inner[1..] == [Item(Element("H"), 1)] && inner[1..][1..] == [] && items[1..][1..] == [];
    assert Legal(weight, [], 0) && Legal(weight, [], 1);
    assert Legal(weight, inner[1..], 1) && Legal(weight, inner, 1);
    assert LegalPart(weight, items[1].part, 0);
    assert Legal(weight, items[1..], 0);
  }

  lemma CalciumHydroxideText()
    ensures Print(CalciumHydroxide()) == "Ca(OH)2"
  {
    var items, inner := CalciumHydroxide(), CalciumHydroxide()[1].part.items;
    assert inner[1..] == [Item(Element("H"), 1)] && inner[1..][1..] == [] && items[1..][1..] == [];
    assert Print([]) == "";
    assert Print(inner[1..]) == "H";
    assert Print(inner) == "OH";
    assert Decimal(2) == "2";
    assert Print(items[1..]) == "(OH)2";
  }
}
