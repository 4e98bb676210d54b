/** Row filters of src/fits_selection.rs: the checks a filter passes before use, its binding to columns, and
    its evaluation on one row, where every leaf is looked at whatever the others say. */
module FitsFilter {
  import opened Prelude
  import opened FitsCells
  import opened FitsRows

  const MAX_NODES: nat := 256
  const MAX_DEPTH: nat := 16
  const MAX_NAME: nat := 1024
  const MIN_I64: int := -9_223_372_036_854_775_808
  const MAX_I64: int := 9_223_372_036_854_775_807

  datatype Op = Eq | Ne | Lt | Le | Gt | Ge

  datatype Operand = NumberOperand(x: real) | TextOperand(s: Bytes) | BooleanOperand(b: bool)

  /** A filter as the program states it. */
  datatype Filter =
    | Compare(column: Bytes, op: Op, operand: Operand)
    | IsNull(column: Bytes)
    | IsValid(column: Bytes)
    | All(filters: seq<Filter>)
    | Any(filters: seq<Filter>)

  // ---- what a filter may be ---------------------------------------------------------------

  function Nodes(f: Filter): (r: nat)
    ensures r >= 1
  {
    match f
    case All(fs) => 1 + NodesOf(fs)
    case Any(fs) => 1 + NodesOf(fs)
    case _ => 1
  }

  function NodesOf(fs: seq<Filter>): nat {
    if |fs| == 0 then 0 else NodesOf(fs[..|fs| - 1]) + Nodes(fs[|fs| - 1])
  }

  function Depth(f: Filter): (r: nat)
    ensures r >= 1
  {
    match f
    case All(fs) => 1 + DepthOf(fs)
    case Any(fs) => 1 + DepthOf(fs)
    case _ => 1
  }

  function DepthOf(fs: seq<Filter>): nat {
    if |fs| == 0 then 0
    else
      var before, last := DepthOf(fs[..|fs| - 1]), Depth(fs[|fs| - 1]);
      if before < last then last else before
  }

  predicate ValidName(name: Bytes) {
    0 < |name| <= MAX_NAME && NoControl(name)
  }

  /** No group is empty and every column name is fit for use. */
  predicate Sound(f: Filter) {
    match f
    case All(fs) => |fs| > 0 && SoundOf(fs)
    case Any(fs) => |fs| > 0 && SoundOf(fs)
    case Compare(column, _, _) => ValidName(column)
    case IsNull(column) => ValidName(column)
    case IsValid(column) => ValidName(column)
  }

  predicate SoundOf(fs: seq<Filter>) {
    |fs| == 0 || (SoundOf(fs[..|fs| - 1]) && Sound(fs[|fs| - 1]))
  }

  /** `visit`: one walk with a running node count decides depth, size and soundness together. */
  method Visit(f: Filter, depth: nat, nodes: nat) returns (ok: bool, total: nat)
    requires depth >= 1
    ensures ok <==> depth - 1 + Depth(f) <= MAX_DEPTH && nodes + Nodes(f) <= MAX_NODES && Sound(f)
    ensures ok ==> total == nodes + Nodes(f)
    decreases f
  {
    total := nodes + 1;
    if depth > MAX_DEPTH || total > MAX_NODES {
      return false, total;
    }
    match f {
      case All(fs) => ok, total := VisitGroup(fs, depth, total);
      case Any(fs) => ok, total := VisitGroup(fs, depth, total);
      case Compare(column, _, _) => ok := ValidName(column);
      case IsNull(column) => ok := ValidName(column);
      case IsValid(column) => ok := ValidName(column);
    }
  }

  method VisitGroup(fs: seq<Filter>, depth: nat, nodes: nat) returns (ok: bool, total: nat)
    requires 1 <= depth <= MAX_DEPTH && nodes <= MAX_NODES
    ensures ok <==> |fs| > 0 && depth + DepthOf(fs) <= MAX_DEPTH && nodes + NodesOf(fs) <= MAX_NODES && SoundOf(fs)
    ensures ok ==> total == nodes + NodesOf(fs)
    decreases fs
  {
    total := nodes;
    if |fs| == 0 {
      return false, total;
    }
    for i := 0 to |fs|
      invariant depth + DepthOf(fs[..i]) <= MAX_DEPTH && total == nodes + NodesOf(fs[..i]) <= MAX_NODES
      invariant SoundOf(fs[..i])
    {
      GroupGrows(fs, i);
      ok, total := Visit(fs[i], depth + 1, total);
      if !ok {
        GroupOnlyGrows(fs, i + 1);
        return;
      }
    }
    assert fs[..|fs|] == fs;
    ok := true;
  }

  lemma GroupGrows(fs: seq<Filter>, i: nat)
    requires i < |fs|
    ensures NodesOf(fs[..i + 1]) == NodesOf(fs[..i]) + Nodes(fs[i])
    ensures DepthOf(fs[..i + 1]) == if DepthOf(fs[..i]) < Depth(fs[i]) then Depth(fs[i]) else DepthOf(fs[..i])
    ensures SoundOf(fs[..i + 1]) <==> SoundOf(fs[..i]) && Sound(fs[i])
  {
    assert fs[..i + 1][..i] == fs[..i];
  }

  lemma {:induction false} GroupOnlyGrows(fs: seq<Filter>, i: nat)
    requires i <= |fs|
    ensures NodesOf(fs[..i]) <= NodesOf(fs) && DepthOf(fs[..i]) <= DepthOf(fs) && (SoundOf(fs) ==> SoundOf(fs[..i]))
    decreases |fs| - i
  {
    if i < |fs| {
      GroupGrows(fs, i);
      GroupOnlyGrows(fs, i + 1);
    } else {
      assert fs[..i] == fs;
    }
  }

  /** `validate_filter`. */
  method ValidateFilter(f: Filter) returns (ok: bool)
    ensures ok <==> Depth(f) <= MAX_DEPTH && Nodes(f) <= MAX_NODES && Sound(f)
  {
    var total;
    ok, total := Visit(f, 1, 0);
  }

  // ---- binding to columns -----------------------------------------------------------------

  /** A filter whose leaves know their column and a bound of its kind. */
  datatype Bound =
    | Comparison(field: Field, op: Op, operand: Item)
    | Absent(field: Field)
    | Present(field: Field)
    | Every(parts: seq<Bound>)
    | OneOf(parts: seq<Bound>)

  function LowerByte(b: Byte): Byte {
    if 65 <= b <= 90 then b + 32 else b
  }

  predicate SameName(a: Bytes, b: Bytes) {
    |a| == |b| && forall k | 0 <= k < |a| :: LowerByte(a[k]) == LowerByte(b[k])
  }

  function Matching(fields: seq<Field>, name: Bytes): (r: seq<Field>)
    ensures forall k | 0 <= k < |r| :: r[k] in fields && SameName(r[k].name, name)
  {
    if |fields| == 0 then []
    else
      var last := fields[|fields| - 1];
      Matching(fields[..|fields| - 1], name) + if SameName(last.name, name) then [last] else []
  }

  /** `scalar_column`. */
  function ScalarColumn(fields: seq<Field>, name: Bytes): (r: Option<Field>)
    ensures r.Some? ==> r.value in fields && Usable(r.value)
  {
    var found := Matching(fields, name);
    if |found| == 1 && Usable(found[0]) then Some(found[0]) else None
  }

  /** Signed 64-bit decimal text. */
  function ParseInteger(s: Bytes): Option<int> {
    var signed := |s| > 0 && (s[0] == 45 || s[0] == 43);
    var digits := if signed then s[1..] else s;
    if |digits| == 0 || exists k :: 0 <= k < |digits| && !(48 <= digits[k] <= 57) then None
    else
      var n := if signed && s[0] == 45 then -DigitsValue(digits) else DigitsValue(digits);
      if MIN_I64 <= n <= MAX_I64 then Some(n) else None
  }

  /** The bound a column of this kind can be compared with. */
  function BindOperand(f: Field, op: Op, operand: Operand): Option<Item> {
    if f.column.code == 'A' then
      match operand
      case TextOperand(s) => Some(Text(s))
      case _ => None
    else if f.column.code == 'L' then
      match operand
      case BooleanOperand(b) => if op == Eq || op == Ne then Some(Boolean(b)) else None
      case _ => None
    else if Integral(f.column.code) && f.unscaled then
      match operand
      case TextOperand(s) => if ParseInteger(s).Some? then Some(Integer(ParseInteger(s).value)) else None
      case NumberOperand(x) =>
        if x.Floor as real == x && -(SAFE_INTEGER as real) <= x <= SAFE_INTEGER as real then Some(Integer(x.Floor)) else None
      case BooleanOperand(_) => None
    else
      match operand
      case NumberOperand(x) => Some(Number(x))
      case _ => None
  }

  /** `bind_filter`. */
  function Bind(f: Filter, fields: seq<Field>): Option<Bound> {
    match f
    case All(fs) =>
      var parts := BindAll(fs, fields);
      if parts.Some? then Some(Every(parts.value)) else None
    case Any(fs) =>
      var parts := BindAll(fs, fields);
      if parts.Some? then Some(OneOf(parts.value)) else None
    case Compare(column, op, operand) =>
      var field := ScalarColumn(fields, column);
      if field.None? then None
      else
        var item := BindOperand(field.value, op, operand);
        if item.Some? then Some(Comparison(field.value, op, item.value)) else None
    case IsNull(column) =>
      var field := ScalarColumn(fields, column);
      if field.Some? then Some(Absent(field.value)) else None
    case IsValid(column) =>
      var field := ScalarColumn(fields, column);
      if field.Some? then Some(Present(field.value)) else None
  }

  function BindAll(fs: seq<Filter>, fields: seq<Field>): (r: Option<seq<Bound>>)
    ensures r.Some? ==> |r.value| == |fs|
  {
    if |fs| == 0 then Some([])
    else
      var before, last := BindAll(fs[..|fs| - 1], fields), Bind(fs[|fs| - 1], fields);
      if before.Some? && last.Some? then Some(before.value + [last.value]) else None
  }

  // ---- comparing --------------------------------------------------------------------------

  datatype Order = Less | Equal | Greater

  function CompareBytes(a: Bytes, b: Bytes): (r: Order)
    ensures r == Equal <==> a == b
  {
    if |a| == 0 then if |b| == 0 then Equal else Less
    else if |b| == 0 then Greater
    else if a[0] != b[0] then if a[0] < b[0] then Less else Greater
    else
      assert a == [a[0]] + a[1..] && b == [b[0]] + b[1..];
      CompareBytes(a[1..], b[1..])
  }

  /** How a cell stands to a bound of the same kind. */
  function OrderOf(cell: Item, bound: Item): Option<Order> {
    match (cell, bound)
    case (Integer(a), Integer(b)) => Some(if a < b then Less else if a == b then Equal else Greater)
    case (Number(a), Number(b)) => Some(if a < b then Less else if a == b then Equal else Greater)
    case (Text(a), Text(b)) => Some(CompareBytes(a, b))
    case (Boolean(a), Boolean(b)) => Some(if a == b then Equal else if b then Less else Greater)
    case _ => None
  }

  predicate Holds(op: Op, order: Order) {
    match op
    case Eq => order == Equal
    case Ne => order != Equal
    case Lt => order == Less
    case Le => order != Greater
    case Gt => order == Greater
    case Ge => order != Less
  }

  // ---- what a filter means ----------------------------------------------------------------

  predicate IsGroup(f: Bound) {
    match f
    case Every(_) => true
    case OneOf(_) => true
    case _ => false
  }

  /** The leaves of a filter, in order. */
  function Leaves(f: Bound): (r: seq<Bound>)
    ensures forall k | 0 <= k < |r| :: !IsGroup(r[k])
  {
    match f
    case Every(parts) => LeavesOf(parts)
    case OneOf(parts) => LeavesOf(parts)
    case _ => [f]
  }

  function LeavesOf(parts: seq<Bound>): (r: seq<Bound>)
    ensures forall k | 0 <= k < |r| :: !IsGroup(r[k])
  {
    if |parts| == 0 then [] else LeavesOf(parts[..|parts| - 1]) + Leaves(parts[|parts| - 1])
  }

  predicate LeavesPlaced(leaves: seq<Bound>, rowBytes: nat) {
    forall k | 0 <= k < |leaves| :: !IsGroup(leaves[k]) && Placed(leaves[k].field, rowBytes)
  }

  function CellOf(leaf: Bound, row: Bytes): Res<Item>
    requires !IsGroup(leaf)
  {
    if Placed(leaf.field, |row|) then RowCell(row, leaf.field) else Err
  }

  /** A malformed cell, or one of another kind than the bound. */
  predicate LeafFails(leaf: Bound, row: Bytes)
    requires !IsGroup(leaf)
  {
    var cell := CellOf(leaf, row);
    cell.Err? || (leaf.Comparison? && cell.value != Null && OrderOf(cell.value, leaf.operand).None?)
  }

  predicate LeafIsNull(leaf: Bound, row: Bytes)
    requires !IsGroup(leaf)
  {
    CellOf(leaf, row) == Ok(Null)
  }

  /** A comparison with a null cell, even `!=`, is false. */
  predicate LeafSelects(leaf: Bound, row: Bytes)
    requires !IsGroup(leaf)
  {
    var cell := CellOf(leaf, row);
    match leaf
    case Comparison(_, op, operand) =>
      cell.Ok? && OrderOf(cell.value, operand).Some? && Holds(op, OrderOf(cell.value, operand).value)
    case Absent(_) => cell == Ok(Null)
    case Present(_) => cell.Ok? && cell != Ok(Null)
  }

  predicate AnyFails(leaves: seq<Bound>, row: Bytes)
    requires forall k | 0 <= k < |leaves| :: !IsGroup(leaves[k])
  {
    exists k :: 0 <= k < |leaves| && LeafFails(leaves[k], row)
  }

  predicate AnyNull(leaves: seq<Bound>, row: Bytes)
    requires forall k | 0 <= k < |leaves| :: !IsGroup(leaves[k])
  {
    exists k :: 0 <= k < |leaves| && LeafIsNull(leaves[k], row)
  }

  /** Conjunction and disjunction of what the leaves say. */
  predicate Selects(f: Bound, row: Bytes) {
    match f
    case Every(parts) => forall i | 0 <= i < |parts| :: Selects(parts[i], row)
    case OneOf(parts) => exists i :: 0 <= i < |parts| && Selects(parts[i], row)
    case _ => LeafSelects(f, row)
  }

  // ---- evaluation -------------------------------------------------------------------------

  /** `evaluate`: refused exactly when some leaf anywhere fails on the row; otherwise what the filter says
      of the row, and whether any leaf anywhere met a null. */
  method Evaluate(f: Bound, row: Bytes) returns (r: Res<(bool, bool)>)
    requires LeavesPlaced(Leaves(f), |row|)
    ensures r.Err? <==> AnyFails(Leaves(f), row)
    ensures r.Ok? ==> r.value == (Selects(f, row), AnyNull(Leaves(f), row))
    decreases f
  {
    hide Placed, RowCell;
    match f {
      case Every(parts) => r := EvaluateGroup(parts, true, row);
      case OneOf(parts) => r := EvaluateGroup(parts, false, row);
      case Absent(field) =>
        LeafAlone(f, row);
        var cell := RowCell(row, field);
        if cell.Err? {
          return Err;
        }
        r := Ok((cell.value == Null, cell.value == Null));
      case Present(field) =>
        LeafAlone(f, row);
        var cell := RowCell(row, field);
        if cell.Err? {
          return Err;
        }
        r := Ok((cell.value != Null, cell.value == Null));
      case Comparison(field, op, operand) =>
        LeafAlone(f, row);
        var cell := RowCell(row, field);
        if cell.Err? {
          return Err;
        }
        if cell.value == Null {
          return Ok((false, true));
        }
        var order := OrderOf(cell.value, operand);
        if order.None? {
          return Err;
        }
        r := Ok((Holds(op, order.value), false));
    }
  }

  lemma LeafAlone(leaf: Bound, row: Bytes)
    requires !IsGroup(leaf)
    ensures LeavesPlaced(Leaves(leaf), |row|) <==> Placed(leaf.field, |row|)
    ensures AnyFails(Leaves(leaf), row) <==> LeafFails(leaf, row)
    ensures AnyNull(Leaves(leaf), row) <==> LeafIsNull(leaf, row)
    ensures Selects(leaf, row) <==> LeafSelects(leaf, row)
  {
    hide LeafFails, LeafIsNull, LeafSelects, Placed;
    assert Leaves(leaf)[0] == leaf;
  }

  /** The fold over a group: `all` tells a conjunction from a disjunction. */
  method EvaluateGroup(parts: seq<Bound>, all: bool, row: Bytes) returns (r: Res<(bool, bool)>)
    requires LeavesPlaced(LeavesOf(parts), |row|)
    ensures r.Err? <==> AnyFails(LeavesOf(parts), row)
    ensures r.Ok? ==> r.value.1 == AnyNull(LeavesOf(parts), row)
    ensures r.Ok? ==> r.value.0 == if all then (forall i | 0 <= i < |parts| :: Selects(parts[i], row))
                                   else (exists i :: 0 <= i < |parts| && Selects(parts[i], row))
    decreases parts
  {
    hide Placed, RowCell, LeafFails, LeafIsNull, Selects, Leaves, AnyFails, AnyNull;
    var selected, missing := all, false;
    NothingIn(row);
    for k := 0 to |parts|
      invariant !AnyFails(LeavesOf(parts[..k]), row) && missing == AnyNull(LeavesOf(parts[..k]), row)
      invariant all ==> (selected <==> forall i | 0 <= i < k :: Selects(parts[i], row))
      invariant !all ==> (selected <==> exists i :: 0 <= i < k && Selects(parts[i], row))
    {
      PartPlaced(parts, k, row);
      var part := Evaluate(parts[k], row);
      if part.Err? {
        return Err;
      }
      selected := if all then selected && part.value.0 else selected || part.value.0;
      missing := missing || part.value.1;
    }
    assert parts[..|parts|] == parts;
    r := Ok((selected, missing));
  }

  lemma NothingIn(row: Bytes)
    ensures !AnyFails(LeavesOf([]), row) && !AnyNull(LeavesOf([]), row)
  {
  }

  /** Placement, failure and null cells of a list of leaves, by its two halves. */
  lemma Divides(a: seq<Bound>, b: seq<Bound>, row: Bytes)
    requires forall k | 0 <= k < |a| :: !IsGroup(a[k])
    requires forall k | 0 <= k < |b| :: !IsGroup(b[k])
    ensures LeavesPlaced(a + b, |row|) <==> LeavesPlaced(a, |row|) && LeavesPlaced(b, |row|)
    ensures AnyFails(a + b, row) <==> AnyFails(a, row) || AnyFails(b, row)
    ensures AnyNull(a + b, row) <==> AnyNull(a, row) || AnyNull(b, row)
  {
    hide LeafFails, LeafIsNull, Placed;
    var s := a + b;
    assert forall k | 0 <= k < |a| :: s[k] == a[k];
    assert forall k | 0 <= k < |b| :: s[|a| + k] == b[k];
  }

  /** One part of a group against the parts before it. */
  lemma {:induction false} PartPlaced(parts: seq<Bound>, k: nat, row: Bytes)
    requires k < |parts| && LeavesPlaced(LeavesOf(parts), |row|)
    ensures LeavesPlaced(Leaves(parts[k]), |row|)
    ensures AnyFails(LeavesOf(parts[..k + 1]), row) <==> AnyFails(LeavesOf(parts[..k]), row) || AnyFails(Leaves(parts[k]), row)
    ensures AnyNull(LeavesOf(parts[..k + 1]), row) <==> AnyNull(LeavesOf(parts[..k]), row) || AnyNull(Leaves(parts[k]), row)
    ensures AnyFails(Leaves(parts[k]), row) ==> AnyFails(LeavesOf(parts), row)
    decreases |parts|
  {
    hide LeafFails, LeafIsNull, Placed, Leaves, LeavesPlaced, AnyFails, AnyNull;
    var n := |parts| - 1;
    Divides(LeavesOf(parts[..n]), Leaves(parts[n]), row);
    if k < n {
      PartPlaced(parts[..n], k, row);
      assert parts[..n][k] == parts[k] && parts[..n][..k + 1] == parts[..k + 1] && parts[..n][..k] == parts[..k];
    } else {
      assert parts[..k + 1] == parts;
    }
  }

  // ---- what evaluation promises -----------------------------------------------------------

  /** The order and repetition of the filters in a group never matter: not to the rows selected, not to the
      nulls counted, not to the refusals. */
  lemma OrderNeverMatters(a: seq<Bound>, b: seq<Bound>, row: Bytes)
    requires forall x :: x in a <==> x in b
    ensures AnyFails(LeavesOf(a), row) <==> AnyFails(LeavesOf(b), row)
    ensures AnyNull(LeavesOf(a), row) <==> AnyNull(LeavesOf(b), row)
    ensures Selects(Every(a), row) <==> Selects(Every(b), row)
    ensures Selects(OneOf(a), row) <==> Selects(OneOf(b), row)
  {
    hide LeafFails, LeafIsNull, LeafSelects, AnyFails, AnyNull;
    GroupCollects(a, row);
    GroupCollects(b, row);
    assert forall i | 0 <= i < |a| :: a[i] in b;
    assert forall i | 0 <= i < |b| :: b[i] in a;
  }

  lemma {:induction false} GroupCollects(parts: seq<Bound>, row: Bytes)
    ensures AnyFails(LeavesOf(parts), row) <==> exists i :: 0 <= i < |parts| && AnyFails(Leaves(parts[i]), row)
    ensures AnyNull(LeavesOf(parts), row) <==> exists i :: 0 <= i < |parts| && AnyNull(Leaves(parts[i]), row)
  {
    hide LeafFails, LeafIsNull, Leaves, AnyFails, AnyNull;
    if |parts| == 0 {
      NothingIn(row);
    } else {
      var n := |parts| - 1;
      GroupCollects(parts[..n], row);
      Divides(LeavesOf(parts[..n]), Leaves(parts[n]), row);
      assert forall i | 0 <= i < n :: parts[..n][i] == parts[i];
    }
  }

  /** Where a comparison can be made at all, exactly one of `==`, `!=` and `is_null` selects the row, and
      exactly one of `<`, `>=` and `is_null`; `<=` is `<` or `==`. */
  lemma OneAnswerPerRow(field: Field, operand: Item, row: Bytes)
    requires !LeafFails(Comparison(field, Eq, operand), row) && operand != Null
    ensures var eq, ne, absent := Selects(Comparison(field, Eq, operand), row), Selects(Comparison(field, Ne, operand), row),
                                  Selects(Absent(field), row);
      (eq || ne || absent) && !(eq && ne) && !(eq && absent) && !(ne && absent)
    ensures var lt, ge, absent := Selects(Comparison(field, Lt, operand), row), Selects(Comparison(field, Ge, operand), row),
                                  Selects(Absent(field), row);
      (lt || ge || absent) && !(lt && ge) && !(lt && absent) && !(ge && absent)
    ensures Selects(Comparison(field, Le, operand), row)
            <==> Selects(Comparison(field, Lt, operand), row) || Selects(Comparison(field, Eq, operand), row)
    ensures Selects(Present(field), row) <==> !Selects(Absent(field), row)
  {
    hide RowCell, Placed;
  }

  /** The kind of a column's cells is the kind its bounds are bound to. */
  lemma BoundKinds(f: Field, op: Op, operand: Operand, row: Bytes)
    requires BindOperand(f, op, operand).Some? && Placed(f, |row|) && RowCell(row, f).Ok? && RowCell(row, f).value != Null
    ensures OrderOf(RowCell(row, f).value, BindOperand(f, op, operand).value).Some?
  {
    hide ParseInteger, TrimEnd, Ascii;
  }

  ghost predicate Kindred(leaf: Bound) {
    leaf.Comparison? ==> exists op, operand :: BindOperand(leaf.field, op, operand) == Some(leaf.operand)
  }

  ghost predicate AllKindred(leaves: seq<Bound>) {
    forall k | 0 <= k < |leaves| :: Kindred(leaves[k])
  }

  lemma {:induction false} BoundLeaves(f: Filter, fields: seq<Field>)
    requires Bind(f, fields).Some?
    ensures AllKindred(Leaves(Bind(f, fields).value))
    decreases f
  {
    hide BindOperand, ScalarColumn;
    match f
    case All(fs) =>
      BoundLeavesOf(fs, fields);
      assert Leaves(Bind(f, fields).value) == LeavesOf(BindAll(fs, fields).value);
    case Any(fs) =>
      BoundLeavesOf(fs, fields);
      assert Leaves(Bind(f, fields).value) == LeavesOf(BindAll(fs, fields).value);
    case Compare(_, _, _) =>
    case IsNull(_) =>
    case IsValid(_) =>
  }

  lemma {:induction false} BoundLeavesOf(fs: seq<Filter>, fields: seq<Field>)
    requires BindAll(fs, fields).Some?
    ensures AllKindred(LeavesOf(BindAll(fs, fields).value))
    decreases fs
  {
    hide Bind, Leaves, Kindred;
    if |fs| > 0 {
      var n := |fs| - 1;
      BoundLeavesOf(fs[..n], fields);
      BoundLeaves(fs[n], fields);
      var before := BindAll(fs[..n], fields).value;
      var last := Bind(fs[n], fields).value;
      assert (before + [last])[..n] == before;
      assert LeavesOf(before + [last]) == LeavesOf(before) + Leaves(last);
    }
  }

  /** The refusal of a cell and a bound of different kinds is never reached: a bound filter is refused on a
      row only for a cell that cannot be decoded. */
  lemma OnlyBadCellsAreRefused(f: Filter, fields: seq<Field>, row: Bytes)
    requires Bind(f, fields).Some? && LeavesPlaced(Leaves(Bind(f, fields).value), |row|)
    ensures var leaves := Leaves(Bind(f, fields).value);
      AnyFails(leaves, row) <==> exists k :: 0 <= k < |leaves| && CellOf(leaves[k], row).Err?
  {
    hide BindOperand, Bind, RowCell, OrderOf, Placed;
    BoundLeaves(f, fields);
    var leaves := Leaves(Bind(f, fields).value);
    forall k | 0 <= k < |leaves|
      ensures LeafFails(leaves[k], row) <==> CellOf(leaves[k], row).Err?
    {
      var leaf := leaves[k];
      if leaf.Comparison? && CellOf(leaf, row).Ok? && CellOf(leaf, row).value != Null {
        var op, operand :| BindOperand(leaf.field, op, operand) == Some(leaf.operand);
        BoundKinds(leaf.field, op, operand, row);
      }
    }
  }

  /** The text of an exact identifier, used as a bound, selects precisely the cells with those bytes. */
  lemma QuotedIdentifierSelectsItself(f: Field, format: real -> Bytes, row: Bytes, other: Bytes)
    requires Placed(f, |row|) && |row| == |other| && Integral(f.column.code) && f.unscaled && f.column.byteWidth <= 8
    requires f.column.code == 'B' ==> f.column.byteWidth == 1
    requires RowCell(row, f) != Ok(Null) && RowCell(other, f) != Ok(Null)
    ensures CellText(row, f, format).Ok?
    ensures var bound := BindOperand(f, Eq, TextOperand(CellText(row, f, format).value));
      var from, to := f.column.byteOffset, f.column.byteOffset + f.column.byteWidth;
      && bound.Some?
      && (Selects(Comparison(f, Eq, bound.value), other) <==> other[from..to] == row[from..to])
  {
    hide TextInteger, IntegerText, Signed, ParseInteger;
    var from, to := f.column.byteOffset, f.column.byteOffset + f.column.byteWidth;
    var i, j := IntegerOf(f.column.code, row[from..to]).value, IntegerOf(f.column.code, other[from..to]).value;
    assert RowCell(row, f) == Ok(Integer(i)) && RowCell(other, f) == Ok(Integer(j));
    IdentifiersStayDistinct(row, other, f, format);
    FitsSigned64(f.column.code, row[from..to]);
    TextParses(i);
    IntegerTextReads(i);
    IntegerTextReads(j);
  }

  lemma FitsSigned64(code: char, bytes: Bytes)
    requires Integral(code) && 0 < |bytes| <= 8
    ensures MIN_I64 <= IntegerOf(code, bytes).value <= MAX_I64
  {
    SignedInRange(bytes);
    var n := |bytes| - 1;
    PowerGrows(n, 7);
    assert Power256(7) == 72_057_594_037_927_936;
  }

  lemma {:induction false} PowerGrows(m: nat, n: nat)
    requires m <= n
    ensures Power256(m) <= Power256(n)
    decreases n - m
  {
    if m < n {
      PowerGrows(m + 1, n);
    }
  }

  lemma TextParses(i: int)
    requires MIN_I64 <= i <= MAX_I64
    ensures ParseInteger(IntegerText(i)) == Some(i)
  {
    hide DigitsValue;
    if i < 0 {
      DigitsRead(-i);
      assert IntegerText(i)[1..] == Digits(-i);
    } else {
      DigitsRead(i);
    }
  }
}
