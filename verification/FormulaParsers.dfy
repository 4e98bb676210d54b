/** The two formula parsers as they run: src/chemistry.rs keeps the nesting depth in a field,
    src/compiled_chemistry_runtime.rs passes it down. Both are proved against one reader. */
module FormulaParsers {
  import opened Prelude
  import opened Formula

  /** What a parser's answer must be, given how the reader fares. */
  ghost predicate Answers(weight: Registry, spec: Option<(seq<Item>, string)>, r: Res<real>, rest: string) {
    match spec
    case None => r.Err?
    case Some((items, tail)) => r == Ok(Mass(weight, items)) && rest == tail
  }

  lemma {:induction false} MassAppends(weight: Registry, a: seq<Item>, b: seq<Item>)
    ensures Mass(weight, a + b) == Mass(weight, a) + Mass(weight, b)
  {
    if |a| == 0 {
      assert a + b == b;
    } else {
      assert (a + b)[0] == a[0] && (a + b)[1..] == a[1..] + b;
      MassAppends(weight, a[1..], b);
    }
  }

  lemma MassOfOne(weight: Registry, item: Item)
    ensures Mass(weight, [item]) == PartMass(weight, item.part) * item.count as real
  {
    assert [item][1..] == [];
    assert Mass(weight, [item][1..]) == 0.0;
  }

  /** One more item read: the items so far, followed by what the reader makes of the rest. */
  lemma ItemRead(weight: Registry, s: string, closing: bool, depth: nat)
    requires |s| > 0 && !(closing && s[0] == ')') && depth <= MAX_DEPTH
    ensures var whole, first := ReadItems(weight, s, closing, depth), ReadItem(weight, s, depth);
      if first.None? then whole.None?
      else
        var rest := ReadItems(weight, first.value.1, closing, depth);
        if rest.None? then whole.None?
        else whole == Some(([first.value.0] + rest.value.0, rest.value.1))
  {
  }

  /** What a loop has done so far: `total` is the mass of the items before `s`. */
  ghost predicate Progress(weight: Registry, whole: Option<(seq<Item>, string)>, done: seq<Item>, total: real, s: string,
                           closing: bool, depth: nat) {
    && depth <= MAX_DEPTH
    && total == Mass(weight, done)
    && var rest := ReadItems(weight, s, closing, depth);
       if rest.None? then whole.None? else whole == Some((done + rest.value.0, rest.value.1))
  }

  lemma ProgressStarts(weight: Registry, s: string, closing: bool, depth: nat)
    requires depth <= MAX_DEPTH
    ensures Progress(weight, ReadItems(weight, s, closing, depth), [], 0.0, s, closing, depth)
  {
    var rest := ReadItems(weight, s, closing, depth);
    assert rest.Some? ==> [] + rest.value.0 == rest.value.0;
  }

  lemma ProgressGoesOn(weight: Registry, whole: Option<(seq<Item>, string)>, done: seq<Item>, total: real, s: string,
                       closing: bool, depth: nat, item: Item, next: string, added: real)
    requires Progress(weight, whole, done, total, s, closing, depth)
    requires |s| > 0 && !(closing && s[0] == ')') && ReadItem(weight, s, depth) == Some((item, next))
    requires added == PartMass(weight, item.part) * item.count as real
    ensures Progress(weight, whole, done + [item], total + added, next, closing, depth)
  {
    hide ReadItem, ReadItems;
    ItemRead(weight, s, closing, depth);
    MassAppends(weight, done, [item]);
    MassOfOne(weight, item);
    var rest := ReadItems(weight, next, closing, depth);
    assert Mass(weight, done + [item]) == total + added;
    if rest.Some? {
      assert done + ([item] + rest.value.0) == (done + [item]) + rest.value.0;
      assert whole == Some(((done + [item]) + rest.value.0, rest.value.1));
    }
  }

  /** An item is a part and a count. */
  lemma ItemIs(weight: Registry, s: string, depth: nat)
    requires |s| > 0 && depth <= MAX_DEPTH
    ensures var part := ReadPart(weight, s, depth);
      if part.None? then ReadItem(weight, s, depth).None?
      else
        var count := ReadCount(part.value.1);
        ReadItem(weight, s, depth) ==
          if count.None? then None else Some((Item(part.value.0, count.value.0), count.value.1))
  {
    hide ReadPart, ReadCount;
  }

  lemma ProgressFails(weight: Registry, whole: Option<(seq<Item>, string)>, done: seq<Item>, total: real, s: string,
                      closing: bool, depth: nat)
    requires Progress(weight, whole, done, total, s, closing, depth)
    requires |s| > 0 && !(closing && s[0] == ')') && ReadItem(weight, s, depth).None?
    ensures whole.None?
  {
    hide ReadItem, ReadItems;
    ItemRead(weight, s, closing, depth);
  }

  lemma ProgressEnds(weight: Registry, whole: Option<(seq<Item>, string)>, done: seq<Item>, total: real, s: string,
                     closing: bool, depth: nat)
    requires Progress(weight, whole, done, total, s, closing, depth)
    requires |s| == 0 || (closing && s[0] == ')')
    ensures whole == Some((done, s)) && total == Mass(weight, done)
  {
    assert done + [] == done;
  }

  lemma RunExtends(s: string, n: nat)
    requires n <= |s| && (forall i | 0 <= i < n :: Digit(s[i])) && (n < |s| ==> !Digit(s[n]))
    ensures DigitRun(s) == n
  {
    if n > 0 {
      RunExtends(s[1..], n - 1);
    }
  }

  // ---- the interpreter's parser -----------------------------------------------------------

  class FormulaParser {
    const chars: string
    const weight: Registry
    var cursor: nat
    var depth: nat

    constructor (weight: Registry, chars: string)
      ensures this.chars == chars && this.weight == weight && cursor == 0 && depth == 0
    {
      this.chars, this.weight := chars, weight;
      cursor, depth := 0, 0;
    }

    /** The text from the cursor on. */
    ghost function Rest(): string
      reads this
      requires cursor <= |chars|
    {
      chars[cursor..]
    }

    method Count() returns (r: Res<nat>)
      requires cursor <= |chars|
      modifies this`cursor
      ensures old(cursor) <= cursor <= |chars|
      ensures match ReadCount(old(Rest()))
              case None => r.Err?
              case Some((count, rest)) => r == Ok(count) && Rest() == rest
    {
      var start := cursor;
      while cursor < |chars| && Digit(chars[cursor])
        invariant start <= cursor <= |chars|
        invariant forall i | start <= i < cursor :: Digit(chars[i])
      {
        cursor := cursor + 1;
      }
      ghost var s := chars[start..];
      RunExtends(s, cursor - start);
      if start == cursor {
        return Ok(1);
      }
      var text := chars[start..cursor];
      assert s[..cursor - start] == text && s[cursor - start..] == chars[cursor..];
      var count := Value(text);
      if count > MAX_U32 || count == 0 || count > MAX_COUNT {
        return Err;
      }
      r := Ok(count);
    }

    /** `sequence(None)` or `sequence(Some(')'))`. */
    method Sequence(closing: bool) returns (r: Res<real>)
      requires cursor <= |chars|
      modifies this
      ensures old(cursor) <= cursor <= |chars| && (r.Ok? ==> depth == old(depth))
      ensures Answers(weight, ReadSequence(weight, old(Rest()), closing, old(depth)), r, Rest())
      decreases |chars| - cursor, 2
    {
      hide ReadItems, Progress, Mass, ReadItem, ReadPart, ReadCount, PartMass;
      if depth > MAX_DEPTH {
        return Err;
      }
      var start := cursor;
      var total := 0.0;
      ghost var done: seq<Item> := [];
      ghost var whole := ReadItems(weight, Rest(), closing, depth);
      ProgressStarts(weight, Rest(), closing, depth);
      while cursor < |chars|
        invariant start <= cursor <= |chars| && depth == old(depth)
        invariant Progress(weight, whole, done, total, Rest(), closing, depth)
        invariant |done| == 0 <==> cursor == start
        decreases |chars| - cursor
      {
        var current := chars[cursor];
        if closing && current == ')' {
          break;
        }
        ghost var s := Rest();
        var mass, item := NextItem();
        if mass.Err? {
          ProgressFails(weight, whole, done, total, s, closing, old(depth));
          return Err;
        }
        ProgressGoesOn(weight, whole, done, total, s, closing, depth, item, Rest(), mass.value);
        total := total + mass.value;
        done := done + [item];
      }
      ProgressEnds(weight, whole, done, total, Rest(), closing, depth);
      if cursor == start {
        return Err;
      }
      r := Ok(total);
    }

    /** One part with its count, and the mass they add. */
    method NextItem() returns (r: Res<real>, ghost item: Item)
      requires cursor < |chars| && depth <= MAX_DEPTH
      modifies this
      ensures old(cursor) <= cursor <= |chars|
      ensures r.Ok? ==> old(cursor) < cursor && depth == old(depth)
      ensures var spec := ReadItem(weight, old(Rest()), old(depth));
        if r.Err? then spec.None?
        else spec == Some((item, Rest())) && r.value == PartMass(weight, item.part) * item.count as real
      decreases |chars| - cursor, 1
    {
      hide ReadPart, ReadCount, PartMass, ReadItem;
      item := Item(Group([]), 0);
      ItemIs(weight, Rest(), depth);
      var mass, part := PartOf(chars[cursor]);
      if mass.Err? {
        return Err, item;
      }
      var count := Count();
      if count.Err? {
        return Err, item;
      }
      item := Item(part, count.value);
      r := Ok(mass.value * count.value as real);
    }

    /** A group or an element at the cursor, and its mass. */
    method PartOf(current: char) returns (r: Res<real>, ghost part: Part)
      requires cursor < |chars| && current == chars[cursor] && depth <= MAX_DEPTH
      modifies this
      ensures old(cursor) <= cursor <= |chars|
      ensures r.Ok? ==> old(cursor) < cursor && depth == old(depth)
      ensures var spec := ReadPart(weight, old(Rest()), old(depth));
        if spec.None? then r.Err? else spec == Some((part, Rest())) && r == Ok(PartMass(weight, part))
      decreases |chars| - cursor, 0
    {
      part := Group([]);
      ghost var s := Rest();
      if current == '(' {
        cursor := cursor + 1;
        depth := depth + 1;
        assert Rest() == s[1..];
        ghost var inner := ReadSequence(weight, Rest(), true, depth);
        var group := Sequence(true);
        if group.Err? {
          return Err, part;
        }
        depth := depth - 1;
        if cursor >= |chars| || chars[cursor] != ')' {
          SequenceStops(weight, s[1..], depth + 1);
          return Err, part;
        }
        cursor := cursor + 1;
        part := Group(inner.value.0);
        r := group;
      } else if Upper(current) {
        var symbol := [current];
        cursor := cursor + 1;
        if cursor < |chars| && Lower(chars[cursor]) {
          symbol := symbol + [chars[cursor]];
          cursor := cursor + 1;
        }
        assert symbol == s[..SymbolLength(s)];
        var w := weight(symbol);
        if w.None? {
          return Err, part;
        }
        part := Element(symbol);
        r := Ok(w.value);
      } else {
        r := Err;
      }
    }
  }

  lemma SequenceStops(weight: Registry, s: string, depth: nat)
    ensures var group := ReadSequence(weight, s, true, depth);
      group.Some? && |group.value.1| > 0 ==> group.value.1[0] == ')'
  {
  }

  /** `molar_mass_g_per_mol`. */
  method MolarMass(weight: Registry, formula: string) returns (r: Res<real>)
    ensures r == ToRes(FormulaMass(weight, formula))
  {
    if |formula| == 0 || |formula| > MAX_LENGTH {
      return Err;
    }
    var parser := new FormulaParser(weight, formula);
    assert formula[0..] == formula;
    var value := parser.Sequence(false);
    OpenSequenceEnds(weight, formula);
    if value.Err? || parser.cursor != |formula| {
      return Err;
    }
    if value.value <= 0.0 {
      return Err;
    }
    r := value;
  }

  /** Outside a group only the end of the text stops a sequence. */
  lemma OpenSequenceEnds(weight: Registry, s: string)
    ensures var items := ReadSequence(weight, s, false, 0); items.Some? ==> items.value.1 == ""
  {
  }

  // ---- the compiled parser ----------------------------------------------------------------

  /** `chemistry_formula_sequence`: the cursor is handed back, the depth is a parameter. */
  method FormulaSequence(weight: Registry, chars: string, start: nat, closing: bool, depth: nat)
    returns (r: Res<real>, cursor: nat)
    requires start <= |chars|
    ensures start <= cursor <= |chars|
    ensures Answers(weight, ReadSequence(weight, chars[start..], closing, depth), r, chars[cursor..])
    decreases |chars| - start, 2
  {
    cursor := start;
    if depth > MAX_DEPTH {
      return Err, cursor;
    }
    var total := 0.0;
    ghost var done: seq<Item> := [];
    ghost var whole := ReadItems(weight, chars[start..], closing, depth);
    ProgressStarts(weight, chars[start..], closing, depth);
    while cursor < |chars|
      invariant start <= cursor <= |chars|
      invariant Progress(weight, whole, done, total, chars[cursor..], closing, depth)
      invariant |done| == 0 <==> cursor == start
    {
      hide ReadItems, Progress, Mass, ReadItem, ReadPart, ReadCount, PartMass;
      var current := chars[cursor];
      if closing && current == ')' {
        break;
      }
      ghost var s := chars[cursor..];
      var mass, next, item := CompiledItem(weight, chars, cursor, depth);
      if mass.Err? {
        ProgressFails(weight, whole, done, total, s, closing, depth);
        return Err, cursor;
      }
      ProgressGoesOn(weight, whole, done, total, s, closing, depth, item, chars[next..], mass.value);
      cursor := next;
      total := total + mass.value;
      done := done + [item];
    }
    ProgressEnds(weight, whole, done, total, chars[cursor..], closing, depth);
    r := if cursor == start then Err else Ok(total);
  }

  method CompiledItem(weight: Registry, chars: string, start: nat, depth: nat)
    returns (r: Res<real>, cursor: nat, ghost item: Item)
    requires start < |chars| && depth <= MAX_DEPTH
    ensures start <= cursor <= |chars| && (r.Ok? ==> start < cursor)
    ensures var spec := ReadItem(weight, chars[start..], depth);
      if r.Err? then spec.None?
      else spec == Some((item, chars[cursor..])) && r.value == PartMass(weight, item.part) * item.count as real
    decreases |chars| - start, 1
  {
    hide ReadPart, ReadCount, PartMass, ReadItem;
    item := Item(Group([]), 0);
    ItemIs(weight, chars[start..], depth);
    var mass, next, part := CompiledPart(weight, chars, start, depth);
    if mass.Err? {
      return Err, start, item;
    }
    var after, count := CompiledCount(chars, next);
    if count == 0 || count > MAX_COUNT {
      return Err, start, item;
    }
    item := Item(part, count);
    cursor := after;
    r := Ok(mass.value * count as real);
  }

  /** The inlined count; zero stands for a refusal by the `u32` parse. */
  method CompiledCount(chars: string, start: nat) returns (cursor: nat, count: nat)
    requires start <= |chars|
    ensures start <= cursor <= |chars|
    ensures ReadCount(chars[start..]) ==
              if count == 0 || count > MAX_COUNT then None else Some((count, chars[cursor..]))
  {
    cursor := start;
    while cursor < |chars| && Digit(chars[cursor])
      invariant start <= cursor <= |chars|
      invariant forall i | start <= i < cursor :: Digit(chars[i])
    {
      cursor := cursor + 1;
    }
    ghost var s := chars[start..];
    RunExtends(s, cursor - start);
    if start == cursor {
      return cursor, 1;
    }
    var text := chars[start..cursor];
    assert s[..cursor - start] == text && s[cursor - start..] == chars[cursor..];
    count := if Value(text) > MAX_U32 then 0 else Value(text);
  }

  method CompiledPart(weight: Registry, chars: string, start: nat, depth: nat)
    returns (r: Res<real>, cursor: nat, ghost part: Part)
    requires start < |chars| && depth <= MAX_DEPTH
    ensures start <= cursor <= |chars| && (r.Ok? ==> start < cursor)
    ensures var spec := ReadPart(weight, chars[start..], depth);
      if spec.None? then r.Err? else spec == Some((part, chars[cursor..])) && r == Ok(PartMass(weight, part))
    decreases |chars| - start, 0
  {
    part := Group([]);
    cursor := start;
    ghost var s := chars[start..];
    var current := chars[cursor];
    if current == '(' {
      assert chars[cursor + 1..] == s[1..];
      ghost var inner := ReadSequence(weight, s[1..], true, depth + 1);
      var group, next := FormulaSequence(weight, chars, cursor + 1, true, depth + 1);
      if group.Err? {
        return Err, cursor, part;
      }
      if next >= |chars| || chars[next] != ')' {
        SequenceStops(weight, s[1..], depth + 1);
        return Err, cursor, part;
      }
      cursor := next + 1;
      part := Group(inner.value.0);
      r := group;
    } else if Upper(current) {
      var symbol := [current];
      cursor := cursor + 1;
      if cursor < |chars| && Lower(chars[cursor]) {
        symbol := symbol + [chars[cursor]];
        cursor := cursor + 1;
      }
      assert symbol == s[..SymbolLength(s)];
      var w := weight(symbol);
      if w.None? {
        return Err, start, part;
      }
      part := Element(symbol);
      r := Ok(w.value);
    } else {
      r := Err;
    }
  }

  /** `chemistry_formula_mass`: the same texts, the same masses. */
  method FormulaMassCompiled(weight: Registry, formula: string) returns (r: Res<real>)
    ensures r == ToRes(FormulaMass(weight, formula))
  {
    if |formula| == 0 || |formula| > MAX_LENGTH {
      return Err;
    }
    assert formula[0..] == formula;
    var value, cursor := FormulaSequence(weight, formula, 0, false, 0);
    OpenSequenceEnds(weight, formula);
    if value.Err? || cursor != |formula| || value.value <= 0.0 {
      return Err;
    }
    r := value;
  }
}
