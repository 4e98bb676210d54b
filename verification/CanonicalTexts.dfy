/** The canonical bytes of every construct, and of one program, spelled out. */
module CanonicalTexts {
  import opened Prelude
  import opened Ast
  import opened Values
  import opened CanonicalProgram
  import CJ = CanonicalJson

  function List(texts: seq<string>): string {
    "[" + JoinWith(texts, ",") + "]"
  }

  function Quote(s: string): string {
    "\"" + s + "\""
  }

  /** Nothing in the text needs to be escaped. */
  predicate Unescaped(s: string) {
    forall i | 0 <= i < |s| :: CJ.Printable(s[i]) && s[i] != '"' && s[i] != '\\'
  }

  lemma {:induction false} Unchanged(s: string)
    requires Unescaped(s)
    ensures CJ.EscapeText(s) == s
  {
    if |s| > 0 {
      Unchanged(s[1..]);
      assert CJ.EscapeChar(s[0]) == [s[0]];
      assert [s[0]] + s[1..] == s;
    }
  }

  lemma Quoted(s: string)
    requires Unescaped(s)
    ensures CJ.Write(Str(s)) == Quote(s)
  {
    Unchanged(s);
  }

  function Texts(items: seq<CJ.Json>): (r: seq<string>)
    ensures |r| == |items|
  {
    seq(|items|, i requires 0 <= i < |items| => CJ.Write(items[i]))
  }

  lemma {:induction false} ItemsJoined(whole: CJ.Json, items: seq<CJ.Json>)
    requires forall v | v in items :: v < whole
    ensures CJ.WriteItems(whole, items) == JoinWith(Texts(items), ",")
    decreases |items|
  {
    hide CJ.Write;
    if |items| > 0 {
      assert items[0] in items && forall v | v in items[1..] :: v in items;
      ItemsJoined(whole, items[1..]);
      assert Texts(items)[1..] == Texts(items[1..]);
    }
  }

  /** An array is its items with commas between them. */
  lemma Listed(items: seq<CJ.Json>)
    ensures CJ.Write(Arr(items)) == List(Texts(items))
  {
    hide CJ.WriteItems;
    ItemsJoined(Arr(items), items);
  }

  function ExprText(n: Numerals, e: Expr): string {
    CJ.Write(OfExpr(n, e))
  }

  function StmtText(n: Numerals, s: Stmt): string {
    CJ.Write(OfStmt(n, s))
  }

  function ExprTexts(n: Numerals, es: seq<Expr>): string {
    List(seq(|es|, i requires 0 <= i < |es| => ExprText(n, es[i])))
  }

  function StmtTexts(n: Numerals, ss: seq<Stmt>): string {
    List(seq(|ss|, i requires 0 <= i < |ss| => StmtText(n, ss[i])))
  }

  function ArmText(n: Numerals, arm: Arm): string {
    List([ExprText(n, arm.test), StmtTexts(n, arm.body)])
  }

  function ArmTexts(n: Numerals, arms: seq<Arm>): string {
    List(seq(|arms|, i requires 0 <= i < |arms| => ArmText(n, arms[i])))
  }

  function OptionText(n: Numerals, e: Option<Expr>): string {
    if e.Some? then ExprText(n, e.value) else "null"
  }

  function TailText(n: Numerals, tail: Tail): string {
    if tail.Tail? then StmtTexts(n, tail.body) else "null"
  }

  function Word(s: string): string {
    CJ.WriteText(s)
  }

  lemma {:induction false} ExprsAt(n: Numerals, es: seq<Expr>)
    ensures forall i | 0 <= i < |es| :: Exprs(n, es)[i] == OfExpr(n, es[i])
  {
    hide OfExpr;
    if |es| > 0 {
      ExprsAt(n, es[1..]);
    }
  }

  lemma {:induction false} StmtsAt(n: Numerals, ss: seq<Stmt>)
    ensures forall i | 0 <= i < |ss| :: Stmts(n, ss)[i] == OfStmt(n, ss[i])
  {
    hide OfStmt;
    if |ss| > 0 {
      StmtsAt(n, ss[1..]);
    }
  }

  lemma ExprsListed(n: Numerals, es: seq<Expr>)
    ensures CJ.Write(Arr(Exprs(n, es))) == ExprTexts(n, es)
  {
    hide OfExpr, CJ.Write;
    ExprsAt(n, es);
    Listed(Exprs(n, es));
    assert Texts(Exprs(n, es)) == seq(|es|, i requires 0 <= i < |es| => ExprText(n, es[i]));
  }

  lemma StmtsListed(n: Numerals, ss: seq<Stmt>)
    ensures CJ.Write(Arr(Stmts(n, ss))) == StmtTexts(n, ss)
  {
    hide OfStmt, CJ.Write;
    StmtsAt(n, ss);
    Listed(Stmts(n, ss));
    assert Texts(Stmts(n, ss)) == seq(|ss|, i requires 0 <= i < |ss| => StmtText(n, ss[i]));
  }

  lemma {:induction false} ArmsAt(n: Numerals, arms: seq<Arm>)
    ensures forall i | 0 <= i < |arms| :: Arms(n, arms)[i] == Arr([OfExpr(n, arms[i].test), Arr(Stmts(n, arms[i].body))])
  {
    hide OfExpr, Stmts;
    if |arms| > 0 {
      ArmsAt(n, arms[1..]);
    }
  }

  lemma ArmsListed(n: Numerals, arms: seq<Arm>)
    ensures CJ.Write(Arr(Arms(n, arms))) == ArmTexts(n, arms)
  {
    hide OfExpr, Stmts, CJ.Write;
    ArmsAt(n, arms);
    Listed(Arms(n, arms));
    forall i | 0 <= i < |arms|
      ensures CJ.Write(Arms(n, arms)[i]) == ArmText(n, arms[i])
    {
      var parts := [OfExpr(n, arms[i].test), Arr(Stmts(n, arms[i].body))];
      Listed(parts);
      StmtsListed(n, arms[i].body);
      assert Texts(parts) == [ExprText(n, arms[i].test), StmtTexts(n, arms[i].body)];
    }
    assert Texts(Arms(n, arms)) == seq(|arms|, i requires 0 <= i < |arms| => ArmText(n, arms[i]));
  }

  function WordTexts(words: seq<string>): string {
    List(seq(|words|, i requires 0 <= i < |words| => Word(words[i])))
  }

  lemma {:induction false} StrsAt(words: seq<string>)
    ensures forall i | 0 <= i < |words| :: Strs(words)[i] == Str(words[i])
  {
    if |words| > 0 {
      StrsAt(words[1..]);
    }
  }

  lemma WordsListed(words: seq<string>)
    ensures CJ.Write(Arr(Strs(words))) == WordTexts(words)
  {
    StrsAt(words);
    Listed(Strs(words));
    assert Texts(Strs(words)) == seq(|words|, i requires 0 <= i < |words| => Word(words[i]));
  }

  /** The parts an expression is written as, each as text. */
  function ExprParts(n: Numerals, e: Expr): seq<string> {
    match e
    case Number(x) => [Word("number"), n.float(x)]
    case BoolLit(b) => [Word("bool"), if b then "true" else "false"]
    case TextLit(t) => [Word("string"), Word(t)]
    case Name(source, id) => if id.Some? then [Word("constant"), Word(id.value)] else [Word("name"), Word(source)]
    case QuantityLit(x, unit) => [Word("quantity"), n.float(x), Word(unit)]
    case ArrayLit(items) => [Word("array"), ExprTexts(n, items)]
    case Index(a, i) => [Word("index"), ExprText(n, a), ExprText(n, i)]
    case Slice(a, start, stop) => [Word("slice"), ExprText(n, a), OptionText(n, start), OptionText(n, stop)]
    case Unary(op, a) => [Word("unary"), Word([op]), ExprText(n, a)]
    case Binary(op, l, r) => [Word("binary"), Word([op]), ExprText(n, l), ExprText(n, r)]
    case Compare(op, l, r) => [Word("compare"), Word(op), ExprText(n, l), ExprText(n, r)]
    case Logical(op, l, r) => [Word("logical"), Word(op), ExprText(n, l), ExprText(n, r)]
    case Not(a) => [Word("not"), ExprText(n, a)]
    case Call(name, args) => [Word("call"), Word(if name == "printf" then "print" else name), ExprTexts(n, args)]
  }

  function StmtParts(n: Numerals, s: Stmt): seq<string> {
    match s
    case Import(path) => [Word("import"), Word(path)]
    case Directive(word) => [Word("directive"), Word(word)]
    case NumericAudit(path) => [Word("numeric_audit"), Word(path)]
    case LoopBudget(budget) => [Word("loop_budget"), n.whole(budget)]
    case Function(name, params, body) => [Word("g_func"), Word(name), WordTexts(params), StmtTexts(n, body)]
    case Return(e) => [Word("return"), ExprText(n, e)]
    case Assign(name, e) => [Word("assign"), Word(name), ExprText(n, e)]
    case IndexAssign(name, i, e) => [Word("index_assign"), Word(name), ExprText(n, i), ExprText(n, e)]
    case Expression(e) => [Word("expr"), ExprText(n, e)]
    case Seal(name) => [Word("seal"), Word(name)]
    case For(variable, start, stop, step, body) => [Word("for"), Word(variable), ExprText(n, start), ExprText(n, stop), ExprText(n, step), StmtTexts(n, body)]
    case ForEach(variable, e, body) => [Word("for_each"), Word(variable), ExprText(n, e), StmtTexts(n, body)]
    case Break => [Word("break")]
    case Continue => [Word("continue")]
    case While(e, body) => [Word("while"), ExprText(n, e), StmtTexts(n, body)]
    case If(arms, tail) => [Word("if"), ArmTexts(n, arms), TailText(n, tail)]
    case Switch(e, arms, tail) => [Word("switch"), ExprText(n, e), ArmTexts(n, arms), TailText(n, tail)]
    case InlineRust(_, sha256) => [Word("inline_rust"), Word(sha256)]
  }

  lemma ExprBytes(n: Numerals, e: Expr)
    ensures ExprText(n, e) == List(ExprParts(n, e))
  {
    hide CJ.Write, CJ.WriteText;
    Leaves();
    Listed(OfExpr(n, e).items);
    if e.ArrayLit? {
      ExprsListed(n, e.items);
    } else if e.Call? {
      ExprsListed(n, e.args);
    }
    assert Texts(OfExpr(n, e).items) == ExprParts(n, e);
  }

  lemma Leaves()
    ensures CJ.Write(CJ.JNull) == "null" && CJ.Write(CJ.JBool(true)) == "true" && CJ.Write(CJ.JBool(false)) == "false"
    ensures forall s :: CJ.Write(Str(s)) == Word(s)
    ensures forall token :: CJ.Write(CJ.JNum(token)) == token
  {
  }

  predicate HoldsBody(s: Stmt) {
    match s
    case Function(_, _, _) => true
    case For(_, _, _, _, _) => true
    case ForEach(_, _, _) => true
    case While(_, _) => true
    case If(_, _) => true
    case Switch(_, _, _) => true
    case _ => false
  }

  lemma StmtBytes(n: Numerals, s: Stmt)
    ensures StmtText(n, s) == List(StmtParts(n, s))
  {
    hide CJ.Write, CJ.WriteText, List, OfExpr, Stmts, Arms, Strs;
    Listed(OfStmt(n, s).items);
    if HoldsBody(s) {
      BodyBytes(n, s);
    } else {
      Leaves();
      assert Texts(OfStmt(n, s).items) == StmtParts(n, s);
    }
  }

  lemma BodyBytes(n: Numerals, s: Stmt)
    requires HoldsBody(s)
    ensures Texts(OfStmt(n, s).items) == StmtParts(n, s)
  {
    hide CJ.Write, CJ.WriteText, List, OfExpr, OfTail, Stmts, Arms, Strs, StmtTexts, ArmTexts, TailText, WordTexts;
    Leaves();
    match s {
      case Function(_, params, body) =>
        WordsListed(params);
        StmtsListed(n, body);
      case For(_, _, _, _, body) => StmtsListed(n, body);
      case ForEach(_, _, body) => StmtsListed(n, body);
      case While(_, body) => StmtsListed(n, body);
      case If(arms, tail) =>
        ArmsListed(n, arms);
        TailListed(n, tail);
      case Switch(_, arms, tail) =>
        ArmsListed(n, arms);
        TailListed(n, tail);
    }
  }

  lemma TailListed(n: Numerals, tail: Tail)
    ensures CJ.Write(OfTail(n, tail)) == TailText(n, tail)
  {
    if tail.Tail? {
      StmtsListed(n, tail.body);
    }
  }

  /** A program's bytes are its statements' texts in order, and each text is a list of its own parts. */
  lemma ProgramBytes(n: Numerals, p: Program)
    ensures CanonicalBytes(n, p) == List([Word("program"), StmtTexts(n, p)])
  {
    hide CJ.Write, CJ.WriteText;
    Leaves();
    StmtsListed(n, p);
    Listed([Str("program"), Arr(Stmts(n, p))]);
    assert Texts([Str("program"), Arr(Stmts(n, p))]) == [Word("program"), StmtTexts(n, p)];
  }

  /** The short escapes. */
  lemma ShortEscapes()
    ensures CJ.EscapeChar('"') == ['\\', '"'] && CJ.EscapeChar('\\') == ['\\', '\\']
    ensures CJ.EscapeChar('\n') == ['\\', 'n'] && CJ.EscapeChar('\r') == ['\\', 'r'] && CJ.EscapeChar('\t') == ['\\', 't']
    ensures CJ.EscapeChar(0x08 as char) == ['\\', 'b'] && CJ.EscapeChar(0x0c as char) == ['\\', 'f']
  {
  }

  /** Any other character below U+10000 that does not print is a code of four hexadecimal digits: e with an
      acute accent is U+00E9. */
  lemma CodeEscape()
    ensures CJ.EscapeChar(0x00e9 as char) == ['\\', 'u', '0', '0', 'e', '9']
  {
    assert 233 / 4096 == 0 && 233 / 256 % 16 == 0 && 233 / 16 % 16 == 14 && 233 % 16 == 9;
  }

  // ---- one program ------------------------------------------------------------------------

  function Variable(x: string): Expr {
    Name(x, None)
  }

  /** The text of a variable. */
  function Named(x: string): string {
    List([Quote("name"), Quote(x)])
  }

  lemma WordIs(s: string)
    requires Unescaped(s)
    ensures Word(s) == Quote(s)
  {
    Unchanged(s);
  }

  lemma VariableText(n: Numerals, x: string)
    requires Unescaped(x)
    ensures ExprText(n, Variable(x)) == Named(x)
  {
    hide CJ.Write, CJ.WriteText, List, Quote;
    ExprBytes(n, Variable(x));
    WordIs("name");
    WordIs(x);
  }

  /** `for i in range(s, t, u)` with `x = a - b` in it. */
  function Sample(): Program {
    [For("i", Variable("s"), Variable("t"), Variable("u"),
         [Assign("x", Binary('-', Variable("a"), Variable("b")))])]
  }

  lemma SampleBody(n: Numerals)
    ensures StmtText(n, Sample()[0].body[0]) ==
      List([Quote("assign"), Quote("x"), List([Quote("binary"), Quote("-"), Named("a"), Named("b")])])
  {
    hide CJ.Write, CJ.WriteText, List, Quote, ExprText, StmtText, Named;
    var difference := Binary('-', Variable("a"), Variable("b"));
    VariableText(n, "a");
    VariableText(n, "b");
    WordIs("binary");
    WordIs("-");
    WordIs("assign");
    WordIs("x");
    ExprBytes(n, difference);
    StmtBytes(n, Sample()[0].body[0]);
  }

  /** Its canonical bytes: variable, start, stop, step and body, and the operator with its left operand first. */
  lemma SampleBytes(n: Numerals)
    ensures CanonicalBytes(n, Sample()) ==
      List([Quote("program"),
            List([List([Quote("for"), Quote("i"), Named("s"), Named("t"), Named("u"),
                        List([List([Quote("assign"), Quote("x"),
                                    List([Quote("binary"), Quote("-"), Named("a"), Named("b")])])])])])])
  {
    hide CJ.Write, CJ.WriteText, List, Quote, ExprText, StmtText, CanonicalBytes, Named, StmtTexts;
    var loop := Sample()[0];
    SampleBody(n);
    VariableText(n, "s");
    VariableText(n, "t");
    VariableText(n, "u");
    WordIs("program");
    WordIs("for");
    WordIs("i");
    OneListed(n, loop.body[0]);
    OneListed(n, loop);
    StmtBytes(n, loop);
    ProgramBytes(n, Sample());
  }

  lemma OneListed(n: Numerals, s: Stmt)
    ensures StmtTexts(n, [s]) == List([StmtText(n, s)])
  {
    hide CJ.Write, JoinWith;
    assert seq(|[s]|, i requires 0 <= i < |[s]| => StmtText(n, [s][i])) == [StmtText(n, s)];
  }
}
