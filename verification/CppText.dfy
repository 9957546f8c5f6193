/** The rewrite of a source text: splicing the collected insertions puts around
    each token exactly the parentheses that turn its token sequence into the
    printed form of the wrapped tree. */
module CppText {
  import opened Prelude
  import opened CppSyntax
  import opened CppParser
  import opened CppRewrite
  import opened CppSplice
  import opened CppWeave

  /** A source token with the parentheses added before and after it. */
  datatype Cell = Cell(opens: nat, tok: Tok, closes: nat)

  function Plain(t: Tok): Cell {
    Cell(0, t, 0)
  }

  /** The token sequence a row of cells spells out. */
  function Expand(cs: seq<Cell>): seq<Tok> {
    if cs == [] then []
    else
      var c := cs[|cs| - 1];
      Expand(cs[..|cs| - 1]) + (Copies(LParen, c.opens) + [c.tok] + Copies(RParen, c.closes))
  }

  /** One more pair around the whole row. */
  function Enclose(cs: seq<Cell>): (r: seq<Cell>)
    requires |cs| > 0
    ensures |r| == |cs|
  {
    AddClose(AddOpen(cs))
  }

  function AddOpen(cs: seq<Cell>): (r: seq<Cell>)
    requires |cs| > 0
    ensures |r| == |cs|
  {
    [cs[0].(opens := cs[0].opens + 1)] + cs[1..]
  }

  function AddClose(cs: seq<Cell>): (r: seq<Cell>)
    requires |cs| > 0
    ensures |r| == |cs|
  {
    cs[..|cs| - 1] + [cs[|cs| - 1].(closes := cs[|cs| - 1].closes + 1)]
  }

  function EncloseIf(b: bool, cs: seq<Cell>): (r: seq<Cell>)
    requires |cs| > 0
    ensures |r| == |cs|
  {
    if b then Enclose(cs) else cs
  }

  /** The tokens of `e` with the parentheses that wrapping adds around each. */
  function Outline(e: Expr): (cs: seq<Cell>)
    ensures |cs| > 0
    decreases e, 0
  {
    match e
    case Prim(t) => [Plain(t)]
    case Paren(x) => [Plain(LParen)] + Outline(x) + [Plain(RParen)]
    case KeywordGroup(kw, x) => [Plain(kw), Plain(LParen)] + Outline(x) + [Plain(RParen)]
    case KeywordUnary(kw, x) => [Plain(kw)] + Outline(x)
    case Unary(t, x) => [Plain(t)] + Outline(x)
    case Postfix(b, t) => Outline(b) + [Plain(t)]
    case Member(b, t, n) => Outline(b) + [Plain(t), Plain(n)]
    case Index(b, x) => Outline(b) + [Plain(LBracket)] + Outline(x) + [Plain(RBracket)]
    case Call(b, a) => Outline(b) + [Plain(LParen)] + OutlineArgs(a) + [Plain(RParen)]
    case Binary(l, op, r) =>
      Row(Compound(l) && !SameChain(l, op), l) + [Plain(Bin(op))] + Row(Compound(r), r)
    case Ternary(c, t, f) =>
      Row(Compound(c), c) + [Plain(Question)] + Row(Compound(t), t) + [Plain(Colon)] + Row(Compound(f), f)
    case Assign(l, op, r) => Outline(l) + [Plain(Assigner(op))] + Outline(r)
  }

  function OutlineArgs(a: Args): (cs: seq<Cell>)
    ensures a.MoreArgs? ==> |cs| > 0
    decreases a, 0
  {
    match a
    case NoArgs => []
    case MoreArgs(x, NoArgs) => Outline(x)
    case MoreArgs(x, rest) => Outline(x) + [Plain(Comma)] + OutlineArgs(rest)
  }

  /** The row of an operand, in a pair exactly when `b`. */
  function Row(b: bool, e: Expr): (cs: seq<Cell>)
    ensures |cs| > 0
    decreases e, 1
  {
    EncloseIf(b, Outline(e))
  }

  lemma {:induction false} OutlineSize(e: Expr)
    ensures |Outline(e)| == Size(e)
  {
    match e
    case Prim(_) =>
    case Paren(x) => OutlineSize(x);
    case KeywordGroup(_, x) => OutlineSize(x);
    case KeywordUnary(_, x) => OutlineSize(x);
    case Unary(_, x) => OutlineSize(x);
    case Postfix(b, _) => OutlineSize(b);
    case Member(b, _, _) => OutlineSize(b);
    case Index(b, x) => OutlineSize(b); OutlineSize(x);
    case Call(b, a) => OutlineSize(b); OutlineSizeArgs(a);
    case Binary(l, _, r) => OutlineSize(l); OutlineSize(r);
    case Ternary(c, t, f) => OutlineSize(c); OutlineSize(t); OutlineSize(f);
    case Assign(l, _, r) => OutlineSize(l); OutlineSize(r);
  }

  lemma {:induction false} OutlineSizeArgs(a: Args)
    ensures |OutlineArgs(a)| == SizeArgs(a)
  {
    match a
    case NoArgs =>
    case MoreArgs(x, rest) => OutlineSize(x); OutlineSizeArgs(rest);
  }

  // ----- the outline spells the wrapped tree -----

  lemma {:induction false} ExpandPlus(a: seq<Cell>, b: seq<Cell>)
    ensures Expand(a + b) == Expand(a) + Expand(b)
    decreases |b|
  {
    if b == [] {
      assert a + b == a;
    } else {
      assert (a + b)[..|a + b| - 1] == a + b[..|b| - 1];
      ExpandPlus(a, b[..|b| - 1]);
    }
  }

  lemma ExpandOne(c: Cell)
    ensures Expand([c]) == Copies(LParen, c.opens) + [c.tok] + Copies(RParen, c.closes)
  {
    assert [c][..0] == [];
    assert Expand([]) == [];
  }

  lemma ExpandPlain(t: Tok)
    ensures Expand([Plain(t)]) == [t]
  {
    ExpandOne(Plain(t));
  }

  lemma ExpandInfix(a: seq<Cell>, t: Tok, b: seq<Cell>)
    ensures Expand(a + [Plain(t)] + b) == Expand(a) + [t] + Expand(b)
  {
    ExpandPlus(a + [Plain(t)], b);
    ExpandPlus(a, [Plain(t)]);
    ExpandPlain(t);
  }

  lemma Assoc<T>(a: seq<T>, b: seq<T>, c: seq<T>)
    ensures (a + b) + c == a + (b + c)
  {
  }

  lemma ExpandAddOpen(cs: seq<Cell>)
    requires |cs| > 0
    ensures Expand(AddOpen(cs)) == [LParen] + Expand(cs)
  {
    hide Expand;
    ExpandOpenCons(cs[0], cs[1..]);
    SplitFirst(cs);
  }

  lemma ExpandOpenCons(c: Cell, rest: seq<Cell>)
    ensures Expand([c.(opens := c.opens + 1)] + rest) == [LParen] + Expand([c] + rest)
  {
    hide Expand;
    ExpandOpenCell(c);
    ExpandPlus([c.(opens := c.opens + 1)], rest);
    ExpandPlus([c], rest);
    Assoc([LParen], Expand([c]), Expand(rest));
  }

  lemma SplitFirst(cs: seq<Cell>)
    requires |cs| > 0
    ensures [cs[0]] + cs[1..] == cs
  {
  }

  lemma ExpandOpenCell(c: Cell)
    ensures Expand([c.(opens := c.opens + 1)]) == [LParen] + Expand([c])
  {
    ExpandOne(c);
    ExpandOne(c.(opens := c.opens + 1));
    assert Copies(LParen, c.opens + 1) == [LParen] + Copies(LParen, c.opens);
  }

  lemma ExpandAddClose(cs: seq<Cell>)
    requires |cs| > 0
    ensures Expand(AddClose(cs)) == Expand(cs) + [RParen]
  {
    hide Expand;
    ExpandCloseSnoc(cs[..|cs| - 1], cs[|cs| - 1]);
    SplitLast(cs);
  }

  lemma ExpandCloseSnoc(front: seq<Cell>, c: Cell)
    ensures Expand(front + [c.(closes := c.closes + 1)]) == Expand(front + [c]) + [RParen]
  {
    hide Expand;
    ExpandCloseCell(c);
    ExpandPlus(front, [c.(closes := c.closes + 1)]);
    ExpandPlus(front, [c]);
    Assoc(Expand(front), Expand([c]), [RParen]);
  }

  lemma SplitLast(cs: seq<Cell>)
    requires |cs| > 0
    ensures cs[..|cs| - 1] + [cs[|cs| - 1]] == cs
  {
  }

  lemma ExpandCloseCell(c: Cell)
    ensures Expand([c.(closes := c.closes + 1)]) == Expand([c]) + [RParen]
  {
    ExpandOne(c);
    ExpandOne(c.(closes := c.closes + 1));
    assert Copies(RParen, c.closes + 1) == Copies(RParen, c.closes) + [RParen];
  }

  lemma ExpandEncloseIf(b: bool, cs: seq<Cell>, w: Expr)
    requires |cs| > 0 && Expand(cs) == Print(w)
    ensures Expand(EncloseIf(b, cs)) == Print(if b then Paren(w) else w)
  {
    if b {
      ExpandAddOpen(cs);
      ExpandAddClose(AddOpen(cs));
    }
  }

  lemma {:induction false} ExpandOutline(e: Expr)
    ensures Expand(Outline(e)) == Print(Wrap(e))
    decreases e, 1
  {
    hide Expand;
    match e
    case Prim(t) => ExpandPlain(t);
    case Paren(x) => ExpandGroup(e);
    case KeywordGroup(kw, x) => ExpandGroup(e);
    case KeywordUnary(kw, x) =>
      ExpandOutline(x);
      ExpandPlus([Plain(kw)], Outline(x));
      ExpandPlain(kw);
    case Unary(t, x) =>
      ExpandOutline(x);
      ExpandPlus([Plain(t)], Outline(x));
      ExpandPlain(t);
    case Postfix(b, t) =>
      ExpandOutline(b);
      ExpandPlus(Outline(b), [Plain(t)]);
      ExpandPlain(t);
    case Member(b, t, n) => ExpandMember(e);
    case Index(b, x) =>
      ExpandOutline(b);
      ExpandOutline(x);
      ExpandInfix(Outline(b), LBracket, Outline(x));
      ExpandPlus(Outline(b) + [Plain(LBracket)] + Outline(x), [Plain(RBracket)]);
      ExpandPlain(RBracket);
    case Call(b, a) =>
      ExpandOutline(b);
      ExpandOutlineArgs(a);
      ExpandInfix(Outline(b), LParen, OutlineArgs(a));
      ExpandPlus(Outline(b) + [Plain(LParen)] + OutlineArgs(a), [Plain(RParen)]);
      ExpandPlain(RParen);
    case Binary(l, op, r) => ExpandBinary(e);
    case Ternary(c, t, f) => ExpandTernary(e);
    case Assign(l, op, r) =>
      ExpandOutline(l);
      ExpandOutline(r);
      ExpandInfix(Outline(l), Assigner(op), Outline(r));
  }

  lemma {:induction false} ExpandGroup(e: Expr)
    requires e.Paren? || e.KeywordGroup?
    ensures Expand(Outline(e)) == Print(Wrap(e))
    decreases e, 0
  {
    var x := e.inner;
    ExpandOutline(x);
    ExpandPlain(LParen);
    ExpandPlain(RParen);
    if e.Paren? {
      ExpandPlus([Plain(LParen)] + Outline(x), [Plain(RParen)]);
      ExpandPlus([Plain(LParen)], Outline(x));
    } else {
      var front := [Plain(e.kw), Plain(LParen)];
      ExpandPlus(front + Outline(x), [Plain(RParen)]);
      ExpandPlus(front, Outline(x));
      assert front == [Plain(e.kw)] + [Plain(LParen)];
      ExpandPlus([Plain(e.kw)], [Plain(LParen)]);
      ExpandPlain(e.kw);
    }
  }

  lemma {:induction false} ExpandMember(e: Expr)
    requires e.Member?
    ensures Expand(Outline(e)) == Print(Wrap(e))
    decreases e, 0
  {
    var (b, t, n) := (e.base, e.access, e.name);
    ExpandOutline(b);
    assert Outline(b) + [Plain(t), Plain(n)] == Outline(b) + [Plain(t)] + [Plain(n)];
    ExpandInfix(Outline(b), t, [Plain(n)]);
    ExpandPlain(n);
  }

  lemma {:induction false} ExpandBinary(e: Expr)
    requires e.Binary?
    ensures Expand(Outline(e)) == Print(Wrap(e))
    decreases e, 0
  {
    var (l, op, r) := (e.left, e.op, e.right);
    ExpandOutline(l);
    ExpandOutline(r);
    var (p, q) := (Compound(l) && !SameChain(l, op), Compound(r));
    ExpandEncloseIf(p, Outline(l), Wrap(l));
    ExpandEncloseIf(q, Outline(r), Wrap(r));
    ExpandInfix(Row(p, l), Bin(op), Row(q, r));
  }

  lemma {:induction false} ExpandTernary(e: Expr)
    requires e.Ternary?
    ensures Expand(Outline(e)) == Print(Wrap(e))
    decreases e, 0
  {
    var (c, t, f) := (e.cond, e.yes, e.no);
    ExpandOutline(c);
    ExpandOutline(t);
    ExpandOutline(f);
    ExpandEncloseIf(Compound(c), Outline(c), Wrap(c));
    ExpandEncloseIf(Compound(t), Outline(t), Wrap(t));
    ExpandEncloseIf(Compound(f), Outline(f), Wrap(f));
    var (x, y, z) := (Row(Compound(c), c), Row(Compound(t), t), Row(Compound(f), f));
    ExpandInfix(x, Question, y);
    ExpandInfix(x + [Plain(Question)] + y, Colon, z);
  }

  lemma {:induction false} ExpandOutlineArgs(a: Args)
    ensures Expand(OutlineArgs(a)) == PrintArgs(WrapArgs(a))
    decreases a, 1
  {
    if a.MoreArgs? {
      ExpandOutline(a.head);
      if a.tail.MoreArgs? {
        ExpandOutlineArgs(a.tail);
        ExpandInfix(Outline(a.head), Comma, OutlineArgs(a.tail));
      }
    }
  }

  // ----- the outline counts the collected insertions -----

  /** The insertions a row of cells stands for, cell `k` being token `i + k`. */
  function Marks(cs: seq<Cell>, lx: seq<Lexeme>, i: int): multiset<Insert> {
    if cs == [] then multiset{}
    else
      var n := |cs| - 1;
      Marks(cs[..n], lx, i) + MarksOf(cs[n], StartOf(lx, i + n), EndBefore(lx, i + n + 1))
  }

  function MarksOf(c: Cell, start: nat, end: nat): multiset<Insert> {
    multiset{}[Insert(start, Open) := c.opens][Insert(end, Close) := c.closes]
  }

  function Bag(ins: seq<Insert>): multiset<Insert> {
    multiset(ins)
  }

  lemma {:induction false} MarksPlus(a: seq<Cell>, b: seq<Cell>, lx: seq<Lexeme>, i: int)
    ensures Marks(a + b, lx, i) == Marks(a, lx, i) + Marks(b, lx, i + |a|)
    decreases |b|
  {
    if b == [] {
      assert a + b == a;
    } else {
      assert (a + b)[..|a + b| - 1] == a + b[..|b| - 1];
      MarksPlus(a, b[..|b| - 1], lx, i);
    }
  }

  lemma MarksNil(lx: seq<Lexeme>, i: int)
    ensures Marks([], lx, i) == multiset{}
  {
  }

  lemma MarksOne(c: Cell, lx: seq<Lexeme>, i: int)
    ensures Marks([c], lx, i) == MarksOf(c, StartOf(lx, i), EndBefore(lx, i + 1))
  {
    assert [c][..0] == [];
    assert Marks([], lx, i) == multiset{};
  }

  lemma MarksPlain(t: Tok, lx: seq<Lexeme>, i: int)
    ensures Marks([Plain(t)], lx, i) == multiset{}
  {
    MarksOne(Plain(t), lx, i);
  }

  lemma MarksInfix(a: seq<Cell>, t: Tok, b: seq<Cell>, lx: seq<Lexeme>, i: int)
    ensures Marks(a + [Plain(t)] + b, lx, i) == Marks(a, lx, i) + Marks(b, lx, i + |a| + 1)
  {
    MarksPlus(a + [Plain(t)], b, lx, i);
    MarksPlus(a, [Plain(t)], lx, i);
    MarksPlain(t, lx, i + |a|);
  }

  lemma MarksJoin(a: seq<Cell>, t: Tok, b: seq<Cell>, lx: seq<Lexeme>, i: int, j: int, ks: seq<Insert>, ms: seq<Insert>)
    requires j == i + |a| + 1 && Marks(a, lx, i) == Bag(ks) && Marks(b, lx, j) == Bag(ms)
    ensures Marks(a + [Plain(t)] + b, lx, i) == Bag(ks + ms)
  {
    hide Marks;
    MarksInfix(a, t, b, lx, i);
  }

  lemma MarksSnoc(a: seq<Cell>, t: Tok, lx: seq<Lexeme>, i: int)
    ensures Marks(a + [Plain(t)], lx, i) == Marks(a, lx, i)
  {
    MarksPlus(a, [Plain(t)], lx, i);
    MarksPlain(t, lx, i + |a|);
  }

  lemma MarksCons(t: Tok, a: seq<Cell>, lx: seq<Lexeme>, i: int)
    ensures Marks([Plain(t)] + a, lx, i) == Marks(a, lx, i + 1)
  {
    MarksPlus([Plain(t)], a, lx, i);
    MarksPlain(t, lx, i);
  }

  lemma MarksAddOpen(cs: seq<Cell>, lx: seq<Lexeme>, i: int)
    requires |cs| > 0
    ensures Marks(AddOpen(cs), lx, i) == Marks(cs, lx, i) + multiset{Insert(StartOf(lx, i), Open)}
  {
    hide Marks;
    var (c, d, rest) := (cs[0], cs[0].(opens := cs[0].opens + 1), cs[1..]);
    MarksPlus([d], rest, lx, i);
    MarksPlus([c], rest, lx, i);
    MarksOne(c, lx, i);
    MarksOne(d, lx, i);
    SplitFirst(cs);
  }

  lemma MarksAddClose(cs: seq<Cell>, lx: seq<Lexeme>, i: int)
    requires |cs| > 0
    ensures Marks(AddClose(cs), lx, i) == Marks(cs, lx, i) + multiset{Insert(EndBefore(lx, i + |cs|), Close)}
  {
    hide Marks;
    var n := |cs| - 1;
    var (c, d, front) := (cs[n], cs[n].(closes := cs[n].closes + 1), cs[..n]);
    MarksPlus(front, [d], lx, i);
    MarksPlus(front, [c], lx, i);
    MarksOne(c, lx, i + n);
    MarksOne(d, lx, i + n);
    SplitLast(cs);
  }

  /** `ins` are the insertions the outline of `e` stands for, operand pair included. */
  lemma MarksEncloseIf(b: bool, cs: seq<Cell>, lx: seq<Lexeme>, i: int, ins: seq<Insert>)
    requires |cs| > 0 && Marks(cs, lx, i) == Bag(ins)
    ensures Marks(EncloseIf(b, cs), lx, i) ==
      Bag((if b then Pair(StartOf(lx, i), EndBefore(lx, i + |cs|)) else []) + ins)
  {
    if b {
      MarksAddOpen(cs, lx, i);
      MarksAddClose(AddOpen(cs), lx, i);
    } else {
      assert [] + ins == ins;
    }
  }

  lemma {:induction false} MarksOutline(e: Expr, lx: seq<Lexeme>, i: int)
    ensures Marks(Outline(e), lx, i) == Bag(Inserts(e, lx, i))
    decreases e, 1
  {
    hide Marks, Row, OperandInserts;
    if e.Prim? {
      MarksPlain(e.tok, lx, i);
    } else if e.Paren? {
      MarksOutline(e.inner, lx, i + 1);
      MarksBracketed(Outline(e.inner), lx, i);
    } else if e.KeywordGroup? {
      MarksOutline(e.inner, lx, i + 2);
      MarksBracketed(Outline(e.inner), lx, i + 1);
      MarksCons(e.kw, [Plain(LParen)] + Outline(e.inner) + [Plain(RParen)], lx, i);
      OutlineKeywordGroup(e.kw, e.inner);
    } else if e.KeywordUnary? || e.Unary? {
      MarksOutline(e.operand, lx, i + 1);
      MarksCons(First(e), Outline(e.operand), lx, i);
    } else if e.Binary? {
      MarksBinary(e.left, e.op, e.right, lx, i);
    } else if e.Ternary? {
      MarksTernary(e.cond, e.yes, e.no, lx, i);
    } else if e.Assign? {
      var (l, r) := (e.target, e.value);
      var j := i + Size(l) + 1;
      MarksOutline(l, lx, i);
      MarksOutline(r, lx, j);
      OutlineSize(l);
      MarksJoin(Outline(l), Assigner(e.asn), Outline(r), lx, i, j, Inserts(l, lx, i), Inserts(r, lx, j));
    } else {
      MarksPostfix(e, lx, i);
    }
  }

  lemma {:induction false} MarksPostfix(e: Expr, lx: seq<Lexeme>, i: int)
    requires e.Postfix? || e.Member? || e.Index? || e.Call?
    ensures Marks(Outline(e), lx, i) == Bag(Inserts(e, lx, i))
    decreases e, 0
  {
    hide Marks, Row, OperandInserts, Compound, SameChain, Bag;
    var b := e.base;
    var j := i + Size(b) + 1;
    MarksOutline(b, lx, i);
    OutlineSize(b);
    if e.Postfix? {
      MarksSnoc(Outline(b), e.suffix, lx, i);
    } else if e.Member? {
      MarksSnoc(Outline(b), e.access, lx, i);
      MarksSnoc(Outline(b) + [Plain(e.access)], e.name, lx, i);
      Assoc(Outline(b), [Plain(e.access)], [Plain(e.name)]);
      assert [Plain(e.access), Plain(e.name)] == [Plain(e.access)] + [Plain(e.name)];
    } else if e.Index? {
      MarksOutline(e.index, lx, j);
      MarksJoin(Outline(b), LBracket, Outline(e.index), lx, i, j, Inserts(b, lx, i), Inserts(e.index, lx, j));
      MarksSnoc(Outline(b) + [Plain(LBracket)] + Outline(e.index), RBracket, lx, i);
    } else {
      MarksOutlineArgs(e.args, lx, j);
      MarksJoin(Outline(b), LParen, OutlineArgs(e.args), lx, i, j, Inserts(b, lx, i), InsertsArgs(e.args, lx, j));
      MarksSnoc(Outline(b) + [Plain(LParen)] + OutlineArgs(e.args), RParen, lx, i);
    }
  }

  lemma MarksBracketed(xs: seq<Cell>, lx: seq<Lexeme>, i: int)
    ensures Marks([Plain(LParen)] + xs + [Plain(RParen)], lx, i) == Marks(xs, lx, i + 1)
  {
    MarksSnoc([Plain(LParen)] + xs, RParen, lx, i);
    MarksCons(LParen, xs, lx, i);
  }

  lemma OutlineKeywordGroup(kw: Tok, x: Expr)
    ensures Outline(KeywordGroup(kw, x)) == [Plain(kw)] + ([Plain(LParen)] + Outline(x) + [Plain(RParen)])
  {
  }

  lemma {:induction false} MarksRow(b: bool, e: Expr, lx: seq<Lexeme>, i: int)
    ensures Marks(Row(b, e), lx, i) == Bag(OperandInserts(b, e, lx, i))
    ensures |Row(b, e)| == Size(e)
    decreases e, 2
  {
    hide Marks, EncloseIf, Outline, Inserts, Size, Bag;
    MarksOutline(e, lx, i);
    OutlineSize(e);
    MarksEncloseIf(b, Outline(e), lx, i, Inserts(e, lx, i));
  }

  lemma {:induction false} MarksBinary(l: Expr, op: BinOp, r: Expr, lx: seq<Lexeme>, i: int)
    ensures Marks(Outline(Binary(l, op, r)), lx, i) == Bag(Inserts(Binary(l, op, r), lx, i))
    decreases Binary(l, op, r), 0
  {
    hide Marks, Row, OperandInserts, Bag;
    var (p, q) := (Compound(l) && !SameChain(l, op), Compound(r));
    var j := i + Size(l) + 1;
    MarksRow(p, l, lx, i);
    MarksRow(q, r, lx, j);
    MarksJoin(Row(p, l), Bin(op), Row(q, r), lx, i, j, OperandInserts(p, l, lx, i), OperandInserts(q, r, lx, j));
  }

  lemma {:induction false} MarksTernary(c: Expr, t: Expr, f: Expr, lx: seq<Lexeme>, i: int)
    ensures Marks(Outline(Ternary(c, t, f)), lx, i) == Bag(Inserts(Ternary(c, t, f), lx, i))
    decreases Ternary(c, t, f), 0
  {
    hide Marks, Row, OperandInserts, Compound, Bag;
    var j := i + Size(c) + 1;
    var k := j + Size(t) + 1;
    var (p, q, r) := (Compound(c), Compound(t), Compound(f));
    MarksRow(p, c, lx, i);
    MarksRow(q, t, lx, j);
    MarksRow(r, f, lx, k);
    MarksJoin(Row(p, c), Question, Row(q, t), lx, i, j, OperandInserts(p, c, lx, i), OperandInserts(q, t, lx, j));
    MarksJoin(Row(p, c) + [Plain(Question)] + Row(q, t), Colon, Row(r, f), lx, i, k,
              OperandInserts(p, c, lx, i) + OperandInserts(q, t, lx, j), OperandInserts(r, f, lx, k));
  }

  lemma {:induction false} MarksOutlineArgs(a: Args, lx: seq<Lexeme>, i: int)
    ensures Marks(OutlineArgs(a), lx, i) == Bag(InsertsArgs(a, lx, i))
    decreases a, 1
  {
    hide Marks;
    MarksNil(lx, i);
    if a.MoreArgs? {
      var (x, rest) := (a.head, a.tail);
      var j := i + Size(x) + 1;
      MarksOutline(x, lx, i);
      if rest.NoArgs? {
        InsertsLastArg(x, lx, i);
      } else {
        MarksOutlineArgs(rest, lx, j);
        OutlineSize(x);
        MarksJoin(Outline(x), Comma, OutlineArgs(rest), lx, i, j, Inserts(x, lx, i), InsertsArgs(rest, lx, j));
      }
    }
  }

  lemma InsertsLastArg(x: Expr, lx: seq<Lexeme>, i: int)
    ensures InsertsArgs(MoreArgs(x, NoArgs), lx, i) == Inserts(x, lx, i)
  {
    assert InsertsArgs(NoArgs, lx, i + Size(x) + 1) == [];
  }

  // ----- the text a row of cells spells out -----

  /** A text and the tokens of one expression in it. */
  datatype Source = Source(text: string, lx: seq<Lexeme>) {
    ghost predicate Valid() {
      Spaced(lx, |text|)
    }
  }

  /** The untouched characters before token `k`, then the token in its parentheses. */
  ghost function CellText(s: Source, c: Cell, k: nat): seq<Mark>
    requires s.Valid() && k < |s.lx|
  {
    KeepAll(s.text[EndBefore(s.lx, k)..s.lx[k].start])
    + (Repeat('(', c.opens) + KeepAll(s.text[s.lx[k].start..s.lx[k].end]) + Repeat(')', c.closes))
  }

  /** The first `n` tokens of the text with the parentheses of their cells. */
  ghost function RowText(s: Source, cs: seq<Cell>, n: nat): seq<Mark>
    requires s.Valid() && n <= |cs| <= |s.lx|
  {
    if n == 0 then [] else RowText(s, cs, n - 1) + CellText(s, cs[n - 1], n - 1)
  }

  /** The last cell's share of the counts at a position. */
  lemma CountLast(s: Source, cs: seq<Cell>, p: nat)
    requires s.Valid() && 0 < |cs| <= |s.lx|
    ensures var n := |cs| - 1;
      && Opens(Marks(cs, s.lx, 0), p) ==
        Opens(Marks(cs[..n], s.lx, 0), p) + (if s.lx[n].start == p then cs[n].opens else 0)
      && Closes(Marks(cs, s.lx, 0), p) ==
        Closes(Marks(cs[..n], s.lx, 0), p) + (if s.lx[n].end == p then cs[n].closes else 0)
  {
  }

  lemma {:induction false} OpensNone(s: Source, cs: seq<Cell>, p: nat)
    requires s.Valid() && |cs| <= |s.lx| && forall k :: 0 <= k < |cs| ==> s.lx[k].start != p
    ensures Opens(Marks(cs, s.lx, 0), p) == 0
    decreases |cs|
  {
    if cs == [] {
      assert Marks(cs, s.lx, 0) == multiset{};
    } else {
      hide Marks, Opens, Closes;
      OpensNone(s, cs[..|cs| - 1], p);
      CountLast(s, cs, p);
    }
  }

  lemma {:induction false} OpensAt(s: Source, cs: seq<Cell>, k: nat)
    requires s.Valid() && k < |cs| <= |s.lx|
    ensures Opens(Marks(cs, s.lx, 0), s.lx[k].start) == cs[k].opens
    decreases |cs|
  {
    hide Marks, Opens, Closes;
    var n := |cs| - 1;
    CountLast(s, cs, s.lx[k].start);
    if k == n {
      OpensNone(s, cs[..n], s.lx[n].start);
    } else {
      assert s.lx[k].start < s.lx[n].start;
      OpensAt(s, cs[..n], k);
    }
  }

  lemma {:induction false} ClosesNone(s: Source, cs: seq<Cell>, p: nat)
    requires s.Valid() && |cs| <= |s.lx| && forall k :: 0 <= k < |cs| ==> s.lx[k].end != p
    ensures Closes(Marks(cs, s.lx, 0), p) == 0
    decreases |cs|
  {
    if cs == [] {
      assert Marks(cs, s.lx, 0) == multiset{};
    } else {
      hide Marks, Opens, Closes;
      ClosesNone(s, cs[..|cs| - 1], p);
      CountLast(s, cs, p);
    }
  }

  lemma {:induction false} ClosesAt(s: Source, cs: seq<Cell>, k: nat)
    requires s.Valid() && k < |cs| <= |s.lx|
    ensures Closes(Marks(cs, s.lx, 0), s.lx[k].end) == cs[k].closes
    decreases |cs|
  {
    hide Marks, Opens, Closes;
    var n := |cs| - 1;
    CountLast(s, cs, s.lx[k].end);
    if k == n {
      ClosesNone(s, cs[..n], s.lx[n].end);
    } else {
      assert s.lx[k].end < s.lx[n].end;
      ClosesAt(s, cs[..n], k);
    }
  }

  lemma MarksCount(s: Source, cs: seq<Cell>, p: nat)
    requires s.Valid() && |cs| <= |s.lx|
    ensures forall k :: 0 <= k < |cs| && s.lx[k].start == p ==> Opens(Marks(cs, s.lx, 0), p) == cs[k].opens
    ensures forall k :: 0 <= k < |cs| && s.lx[k].end == p ==> Closes(Marks(cs, s.lx, 0), p) == cs[k].closes
    ensures (forall k :: 0 <= k < |cs| ==> s.lx[k].start != p) ==> Opens(Marks(cs, s.lx, 0), p) == 0
    ensures (forall k :: 0 <= k < |cs| ==> s.lx[k].end != p) ==> Closes(Marks(cs, s.lx, 0), p) == 0
  {
    hide Marks, Opens, Closes;
    forall k | 0 <= k < |cs|
      ensures s.lx[k].start == p ==> Opens(Marks(cs, s.lx, 0), p) == cs[k].opens
      ensures s.lx[k].end == p ==> Closes(Marks(cs, s.lx, 0), p) == cs[k].closes
    {
      OpensAt(s, cs, k);
      ClosesAt(s, cs, k);
    }
    if forall k :: 0 <= k < |cs| ==> s.lx[k].start != p { OpensNone(s, cs, p); }
    if forall k :: 0 <= k < |cs| ==> s.lx[k].end != p { ClosesNone(s, cs, p); }
  }

  /** Nothing is inserted strictly between two tokens or strictly inside one. */
  lemma MarksQuiet(s: Source, cs: seq<Cell>, n: nat, p: nat)
    requires s.Valid() && n < |cs| == |s.lx|
    ensures EndBefore(s.lx, n) <= p < s.lx[n].start || s.lx[n].start < p < s.lx[n].end ==>
      Opens(Marks(cs, s.lx, 0), p) == 0
    ensures EndBefore(s.lx, n) < p <= s.lx[n].start || s.lx[n].start < p < s.lx[n].end ==>
      Closes(Marks(cs, s.lx, 0), p) == 0
  {
    hide Marks, Opens, Closes;
    MarksCount(s, cs, p);
    assert forall k :: 0 <= k < n ==> s.lx[k].start < s.lx[k].end <= EndBefore(s.lx, n);
    assert forall k :: n < k < |cs| ==> s.lx[n].end <= s.lx[k].start < s.lx[k].end;
  }

  lemma WeaveCell(s: Source, cs: seq<Cell>, n: nat)
    requires s.Valid() && n < |cs| == |s.lx|
    ensures EndBefore(s.lx, n) <= s.lx[n].start
    ensures Weave(s.text, EndBefore(s.lx, n), s.lx[n].end, Marks(cs, s.lx, 0)) == CellText(s, cs[n], n)
  {
    hide Marks, Weave, Opens, Closes;
    var (a, b, c, m) := (EndBefore(s.lx, n), s.lx[n].start, s.lx[n].end, Marks(cs, s.lx, 0));
    forall p: nat
      ensures a <= p < b || b < p < c ==> Opens(m, p) == 0
      ensures a < p <= b || b < p < c ==> Closes(m, p) == 0
    {
      MarksQuiet(s, cs, n, p);
    }
    MarksCount(s, cs, b);
    MarksCount(s, cs, c);
    WeaveNone(s.text, a, b, m);
    WeaveQuiet(s.text, b, c, m);
    WeavePlus(s.text, a, b, c, m);
  }

  lemma {:induction false} WeaveRow(s: Source, cs: seq<Cell>, n: nat)
    requires s.Valid() && n <= |cs| == |s.lx|
    ensures Weave(s.text, 0, EndBefore(s.lx, n), Marks(cs, s.lx, 0)) == RowText(s, cs, n)
    decreases n
  {
    hide Marks, Weave;
    var m := Marks(cs, s.lx, 0);
    if n == 0 {
      WeaveNil(s.text, 0, m);
    } else {
      WeaveRow(s, cs, n - 1);
      WeaveCell(s, cs, n - 1);
      WeavePlus(s.text, 0, EndBefore(s.lx, n - 1), EndBefore(s.lx, n), m);
    }
  }

  /** Splicing a row's insertions prints the row over the text. */
  lemma SpliceRow(s: Source, cs: seq<Cell>)
    requires s.Valid() && |cs| == |s.lx| > 0
    ensures Splice(s.text, Marks(cs, s.lx, 0)) ==
      RowText(s, cs, |cs|) + KeepAll(s.text[EndBefore(s.lx, |cs|)..])
  {
    hide Marks, Weave, RowText, Opens, Closes;
    var (e, m, n) := (EndBefore(s.lx, |cs|), Marks(cs, s.lx, 0), |s.text|);
    forall p: nat
      ensures e <= p ==> Opens(m, p) == 0
      ensures e < p ==> Closes(m, p) == 0
    {
      MarksCount(s, cs, p);
      assert forall k :: 0 <= k < |cs| ==> s.lx[k].start < s.lx[k].end <= e;
    }
    MarksCount(s, cs, 0);
    WeaveRow(s, cs, |cs|);
    WeaveNone(s.text, e, n, m);
    WeavePlus(s.text, 0, e, n, m);
    assert Repeat(')', 0) == [] && Repeat('(', 0) == [];
    assert s.text[e..] == s.text[e..n];
  }

  // ----- the whole rewrite of a text -----

  /** The insertions collected for the expression of `s`; none if it is skipped. */
  function InsertionsFor(s: Source, outer: bool): seq<Insert> {
    var r := Parse(Toks(s.lx));
    if r.Ok? then CollectWhole(Decorate(r.e, s.lx, 0), outer) else []
  }

  function CellToks(cs: seq<Cell>): (ts: seq<Tok>)
    ensures |ts| == |cs| && forall i :: 0 <= i < |cs| ==> ts[i] == cs[i].tok
  {
    seq(|cs|, i requires 0 <= i < |cs| => cs[i].tok)
  }

  lemma CellToksInfix(a: seq<Cell>, t: Tok, b: seq<Cell>)
    ensures CellToks(a + [Plain(t)] + b) == CellToks(a) + [t] + CellToks(b)
  {
  }

  lemma CellToksSnoc(a: seq<Cell>, t: Tok)
    ensures CellToks(a + [Plain(t)]) == CellToks(a) + [t]
  {
  }

  lemma CellToksCons(t: Tok, a: seq<Cell>)
    ensures CellToks([Plain(t)] + a) == [t] + CellToks(a)
  {
  }

  /** Wrapping leaves the source tokens as they are. */
  lemma {:induction false} OutlineToks(e: Expr)
    ensures CellToks(Outline(e)) == Print(e)
    decreases e, 0
  {
    hide Row, EncloseIf, CellToks;
    match e
    case Prim(t) =>
      CellToksSnoc([], t);
      assert [] + [Plain(t)] == [Plain(t)];
    case Paren(x) =>
      OutlineToks(x);
      CellToksCons(LParen, Outline(x));
      CellToksSnoc([Plain(LParen)] + Outline(x), RParen);
    case KeywordGroup(kw, x) =>
      OutlineToks(x);
      CellToksCons(LParen, Outline(x));
      CellToksSnoc([Plain(LParen)] + Outline(x), RParen);
      CellToksCons(kw, [Plain(LParen)] + Outline(x) + [Plain(RParen)]);
      OutlineKeywordGroup(kw, x);
      assert [kw] + ([LParen] + Print(x) + [RParen]) == [kw, LParen] + Print(x) + [RParen];
    case KeywordUnary(kw, x) => OutlineToks(x); CellToksCons(kw, Outline(x));
    case Unary(t, x) => OutlineToks(x); CellToksCons(t, Outline(x));
    case Postfix(b, t) => OutlineToks(b); CellToksSnoc(Outline(b), t);
    case Member(b, t, n) =>
      OutlineToks(b);
      CellToksSnoc(Outline(b), t);
      CellToksSnoc(Outline(b) + [Plain(t)], n);
      assert Outline(b) + [Plain(t), Plain(n)] == Outline(b) + [Plain(t)] + [Plain(n)];
      assert Print(b) + [t, n] == Print(b) + [t] + [n];
    case Index(b, x) =>
      OutlineToks(b);
      OutlineToks(x);
      CellToksInfix(Outline(b), LBracket, Outline(x));
      CellToksSnoc(Outline(b) + [Plain(LBracket)] + Outline(x), RBracket);
    case Call(b, a) =>
      OutlineToks(b);
      OutlineToksArgs(a);
      CellToksInfix(Outline(b), LParen, OutlineArgs(a));
      CellToksSnoc(Outline(b) + [Plain(LParen)] + OutlineArgs(a), RParen);
    case Binary(l, op, r) =>
      var p := Compound(l) && !SameChain(l, op);
      RowToks(p, l);
      RowToks(Compound(r), r);
      CellToksInfix(Row(p, l), Bin(op), Row(Compound(r), r));
    case Ternary(c, t, f) =>
      RowToks(Compound(c), c);
      RowToks(Compound(t), t);
      RowToks(Compound(f), f);
      CellToksInfix(Row(Compound(c), c), Question, Row(Compound(t), t));
      CellToksInfix(Row(Compound(c), c) + [Plain(Question)] + Row(Compound(t), t), Colon, Row(Compound(f), f));
    case Assign(l, op, r) =>
      OutlineToks(l);
      OutlineToks(r);
      CellToksInfix(Outline(l), Assigner(op), Outline(r));
  }

  lemma {:induction false} OutlineToksArgs(a: Args)
    ensures CellToks(OutlineArgs(a)) == PrintArgs(a)
    decreases a, 0
  {
    match a
    case NoArgs =>
    case MoreArgs(x, rest) => OutlineToks(x); OutlineToksArgs(rest);
  }

  lemma EncloseToks(cs: seq<Cell>)
    requires |cs| > 0
    ensures CellToks(Enclose(cs)) == CellToks(cs)
  {
  }

  lemma {:induction false} RowToks(b: bool, e: Expr)
    ensures CellToks(Row(b, e)) == Print(e)
    decreases e, 1
  {
    hide Outline, Enclose, CellToks, Print;
    OutlineToks(e);
    EncloseToks(Outline(e));
  }

  /** Faithful splicing: the text that results from inserting the collected
      parentheses at their offsets is the source with its tokens unchanged and in
      order, every gap kept, and around each token the parentheses of a row whose
      spelled-out token sequence is the rewritten expression. */
  lemma SplicePrintsWrapped(s: Source, outer: bool)
    requires s.Valid() && Parse(Toks(s.lx)).Ok?
    ensures var e := Parse(Toks(s.lx)).e;
      var cs := Row(outer && Compound(e), e);
      && |cs| == |s.lx|
      && CellToks(cs) == Toks(s.lx)
      && Expand(cs) == Rewrite(Toks(s.lx), outer)
      && Splice(s.text, Bag(InsertionsFor(s, outer))) ==
        RowText(s, cs, |cs|) + KeepAll(s.text[EndBefore(s.lx, |s.lx|)..])
  {
    hide Marks, Splice, Outline, Row, Expand, Decorate, CollectWhole, OperandInserts, RowText, Print, Wrap;
    var ts := Toks(s.lx);
    var e := Parse(ts).e;
    var b := outer && Compound(e);
    ParseSound(ts);
    RowToks(b, e);
    RowExpand(b, e);
    MarksRow(b, e, s.lx, 0);
    CollectDecorateWhole(e, s.lx, 0, outer);
    SpliceRow(s, Row(b, e));
  }

  lemma RowExpand(b: bool, e: Expr)
    ensures Expand(Row(b, e)) == Print(if b then Paren(Wrap(e)) else Wrap(e))
  {
    hide Expand, EncloseIf, Outline;
    ExpandOutline(e);
    ExpandEncloseIf(b, Outline(e), Wrap(e));
  }

  /** No insertion is collected exactly when the expression already obeys the
      house rule. */
  lemma InsertsNothing(s: Source, outer: bool)
    requires Parse(Toks(s.lx)).Ok?
    ensures InsertionsFor(s, outer) == [] <==> CompliantWhole(Parse(Toks(s.lx)).e, outer)
  {
    hide Decorate, CollectWhole, Inserts;
    var e := Parse(Toks(s.lx)).e;
    CollectDecorateWhole(e, s.lx, 0, outer);
    CompliantInsertsNothing(e, s.lx, 0);
  }

  lemma {:induction false} CompliantInsertsNothing(e: Expr, lx: seq<Lexeme>, i: int)
    ensures Inserts(e, lx, i) == [] <==> Compliant(e)
  {
    match e
    case Prim(_) =>
    case Paren(x) => CompliantInsertsNothing(x, lx, i + 1);
    case KeywordGroup(_, x) => CompliantInsertsNothing(x, lx, i + 2);
    case KeywordUnary(_, x) => CompliantInsertsNothing(x, lx, i + 1);
    case Unary(_, x) => CompliantInsertsNothing(x, lx, i + 1);
    case Postfix(b, _) => CompliantInsertsNothing(b, lx, i);
    case Member(b, _, _) => CompliantInsertsNothing(b, lx, i);
    case Index(b, x) => CompliantInsertsNothing(b, lx, i); CompliantInsertsNothing(x, lx, i + Size(b) + 1);
    case Call(b, a) => CompliantInsertsNothing(b, lx, i); CompliantInsertsNothingArgs(a, lx, i + Size(b) + 1);
    case Binary(l, _, r) => CompliantInsertsNothing(l, lx, i); CompliantInsertsNothing(r, lx, i + Size(l) + 1);
    case Ternary(c, t, f) =>
      CompliantInsertsNothing(c, lx, i);
      CompliantInsertsNothing(t, lx, i + Size(c) + 1);
      CompliantInsertsNothing(f, lx, i + Size(c) + 1 + Size(t) + 1);
    case Assign(l, _, r) => CompliantInsertsNothing(l, lx, i); CompliantInsertsNothing(r, lx, i + Size(l) + 1);
  }

  lemma {:induction false} CompliantInsertsNothingArgs(a: Args, lx: seq<Lexeme>, i: int)
    ensures InsertsArgs(a, lx, i) == [] <==> CompliantArgs(a)
  {
    match a
    case NoArgs =>
    case MoreArgs(x, rest) =>
      CompliantInsertsNothing(x, lx, i);
      CompliantInsertsNothingArgs(rest, lx, i + Size(x) + 1);
  }
}
