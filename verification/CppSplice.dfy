/** The offset form of the rewrite: the flattened tree with source offsets, and
    the insertions collected from it, which are those of the nested tree. */
module CppSplice {
  import opened CppSyntax
  import opened CppRewrite

  datatype Lexeme = Lexeme(tok: Tok, start: nat, end: nat)

  /** Tokens are non-empty, in order and inside a text of `n` characters. */
  ghost predicate Spaced(lx: seq<Lexeme>, n: nat) {
    && (forall i :: 0 <= i < |lx| ==> lx[i].start < lx[i].end <= n)
    && (forall i, j :: 0 <= i < j < |lx| ==> lx[i].end <= lx[j].start)
  }

  function Toks(lx: seq<Lexeme>): (ts: seq<Tok>)
    ensures |ts| == |lx| && forall i :: 0 <= i < |lx| ==> ts[i] == lx[i].tok
  {
    if lx == [] then [] else Toks(lx[..|lx| - 1]) + [lx[|lx| - 1].tok]
  }

  function StartOf(lx: seq<Lexeme>, i: int): nat {
    if 0 <= i < |lx| then lx[i].start else 0
  }

  /** End of the token before position `i`: 0 at the front. */
  function EndBefore(lx: seq<Lexeme>, i: int): nat {
    if 0 < i <= |lx| then lx[i - 1].end else 0
  }

  function Size(e: Expr): (n: nat)
    ensures n > 0
  {
    match e
    case Prim(_) => 1
    case Paren(x) => 1 + Size(x) + 1
    case KeywordGroup(_, x) => 2 + Size(x) + 1
    case KeywordUnary(_, x) => 1 + Size(x)
    case Unary(_, x) => 1 + Size(x)
    case Postfix(b, _) => Size(b) + 1
    case Member(b, _, _) => Size(b) + 2
    case Index(b, x) => Size(b) + 1 + Size(x) + 1
    case Call(b, a) => Size(b) + 1 + SizeArgs(a) + 1
    case Binary(l, _, r) => Size(l) + 1 + Size(r)
    case Ternary(c, t, f) => Size(c) + 1 + Size(t) + 1 + Size(f)
    case Assign(l, _, r) => Size(l) + 1 + Size(r)
  }

  function SizeArgs(a: Args): nat {
    match a
    case NoArgs => 0
    case MoreArgs(x, NoArgs) => Size(x)
    case MoreArgs(x, rest) => Size(x) + 1 + SizeArgs(rest)
  }

  // ----- the flattened tree -----

  datatype Kind = KPrim | KParen | KUnary | KBinary | KTernary | KAssign | KCall | KIndex | KMember | KPostfix

  datatype Node = Node(kind: Kind, start: nat, end: nat, compound: bool, kids: seq<Node>, ops: seq<Tok>)

  /** One more operand on the right: chains of one precedence level stay flat. */
  function Attach(left: Node, op: BinOp, right: Node): Node {
    if left.kind == KBinary && |left.ops| > 0 && left.ops[0].Bin? && Power(left.ops[0].bin) == Power(op) then
      left.(kids := left.kids + [right], ops := left.ops + [Bin(op)], end := right.end)
    else
      Node(KBinary, left.start, right.end, true, [left, right], [Bin(op)])
  }

  /** The node the parser builds for `e` over the tokens from `i` on. */
  function Decorate(e: Expr, lx: seq<Lexeme>, i: int): Node {
    match e
    case Prim(_) => Node(KPrim, StartOf(lx, i), EndBefore(lx, i + 1), false, [], [])
    case Paren(x) =>
      Node(KParen, StartOf(lx, i), EndBefore(lx, i + 2 + Size(x)), false, [Decorate(x, lx, i + 1)], [])
    case KeywordGroup(_, x) =>
      var group := Node(KParen, StartOf(lx, i + 1), EndBefore(lx, i + 3 + Size(x)), false, [Decorate(x, lx, i + 2)], []);
      Node(KPrim, StartOf(lx, i), group.end, false, [group], [])
    case KeywordUnary(_, x) =>
      var n := Decorate(x, lx, i + 1);
      Node(KUnary, StartOf(lx, i), n.end, false, [n], [])
    case Unary(_, x) =>
      var n := Decorate(x, lx, i + 1);
      Node(KUnary, StartOf(lx, i), n.end, false, [n], [])
    case Postfix(b, _) =>
      var n := Decorate(b, lx, i);
      Node(KPostfix, n.start, EndBefore(lx, i + Size(b) + 1), false, [n], [])
    case Member(b, _, _) =>
      var n := Decorate(b, lx, i);
      Node(KMember, n.start, EndBefore(lx, i + Size(b) + 2), false, [n], [])
    case Index(b, x) =>
      var n := Decorate(b, lx, i);
      Node(KIndex, n.start, EndBefore(lx, i + Size(b) + 2 + Size(x)), false,
           [n, Decorate(x, lx, i + Size(b) + 1)], [])
    case Call(b, a) =>
      var n := Decorate(b, lx, i);
      Node(KCall, n.start, EndBefore(lx, i + Size(b) + 2 + SizeArgs(a)), false,
           [n] + DecorateArgs(a, lx, i + Size(b) + 1), [])
    case Binary(l, op, r) => Attach(Decorate(l, lx, i), op, Decorate(r, lx, i + Size(l) + 1))
    case Ternary(c, t, f) =>
      var n := Decorate(c, lx, i);
      var no := Decorate(f, lx, i + Size(c) + 1 + Size(t) + 1);
      Node(KTernary, n.start, no.end, true, [n, Decorate(t, lx, i + Size(c) + 1), no], [])
    case Assign(l, op, r) =>
      var n := Decorate(l, lx, i);
      var v := Decorate(r, lx, i + Size(l) + 1);
      Node(KAssign, n.start, v.end, false, [n, v], [Assigner(op)])
  }

  function DecorateArgs(a: Args, lx: seq<Lexeme>, i: int): seq<Node> {
    match a
    case NoArgs => []
    case MoreArgs(x, rest) => [Decorate(x, lx, i)] + DecorateArgs(rest, lx, i + Size(x) + 1)
  }

  // ----- insertions -----

  datatype Side = Open | Close
  datatype Insert = Insert(pos: nat, side: Side)

  function Pair(start: nat, end: nat): seq<Insert> {
    [Insert(start, Open), Insert(end, Close)]
  }

  /** Wrap every compound operand of a binary or ternary node; recurse everywhere. */
  function Collect(n: Node): seq<Insert>
    decreases n, 1
  {
    CollectKids(n.kids, n.kind == KBinary || n.kind == KTernary)
  }

  function CollectKids(kids: seq<Node>, operands: bool): seq<Insert>
    decreases kids, 0
  {
    if kids == [] then []
    else
      var k := kids[|kids| - 1];
      CollectKids(kids[..|kids| - 1], operands)
      + (if operands && k.compound then Pair(k.start, k.end) else []) + Collect(k)
  }

  /** The outer pair of a return value, then the operands. */
  function CollectWhole(n: Node, outer: bool): seq<Insert> {
    (if outer && n.compound then Pair(n.start, n.end) else []) + Collect(n)
  }

  lemma CollectNil(operands: bool)
    ensures CollectKids([], operands) == []
  {
  }

  lemma CollectLeaf(n: Node)
    requires n.kids == []
    ensures Collect(n) == []
  {
  }

  lemma CollectOne(k: Node, operands: bool)
    ensures CollectKids([k], operands) == (if operands && k.compound then Pair(k.start, k.end) else []) + Collect(k)
  {
    assert [k][..0] == [];
    assert CollectKids([], operands) == [];
  }

  /** The insertions of the last child. */
  function CollectLast(k: Node, operands: bool): seq<Insert> {
    (if operands && k.compound then Pair(k.start, k.end) else []) + Collect(k)
  }

  lemma CollectSnoc(kids: seq<Node>, k: Node, operands: bool)
    ensures CollectKids(kids + [k], operands) == CollectKids(kids, operands) + CollectLast(k, operands)
  {
    hide Collect;
    assert (kids + [k])[..|kids|] == kids;
  }

  lemma {:induction false} CollectPlus(a: seq<Node>, b: seq<Node>, operands: bool)
    ensures CollectKids(a + b, operands) == CollectKids(a, operands) + CollectKids(b, operands)
    decreases |b|
  {
    hide CollectKids, CollectLast;
    if b == [] {
      assert a + b == a;
      CollectNil(operands);
    } else {
      var (front, k) := (b[..|b| - 1], b[|b| - 1]);
      assert b == front + [k] && a + b == (a + front) + [k];
      CollectPlus(a, front, operands);
      CollectSnoc(a + front, k, operands);
      CollectSnoc(front, k, operands);
    }
  }

  /** The same insertions, read off the unflattened tree. */
  function Inserts(e: Expr, lx: seq<Lexeme>, i: int): seq<Insert>
    decreases e, 0
  {
    match e
    case Prim(_) => []
    case Paren(x) => Inserts(x, lx, i + 1)
    case KeywordGroup(_, x) => Inserts(x, lx, i + 2)
    case KeywordUnary(_, x) => Inserts(x, lx, i + 1)
    case Unary(_, x) => Inserts(x, lx, i + 1)
    case Postfix(b, _) => Inserts(b, lx, i)
    case Member(b, _, _) => Inserts(b, lx, i)
    case Index(b, x) => Inserts(b, lx, i) + Inserts(x, lx, i + Size(b) + 1)
    case Call(b, a) => Inserts(b, lx, i) + InsertsArgs(a, lx, i + Size(b) + 1)
    case Binary(l, op, r) =>
      OperandInserts(Compound(l) && !SameChain(l, op), l, lx, i)
      + OperandInserts(Compound(r), r, lx, i + Size(l) + 1)
    case Ternary(c, t, f) =>
      OperandInserts(Compound(c), c, lx, i) + OperandInserts(Compound(t), t, lx, i + Size(c) + 1)
      + OperandInserts(Compound(f), f, lx, i + Size(c) + 1 + Size(t) + 1)
    case Assign(l, _, r) => Inserts(l, lx, i) + Inserts(r, lx, i + Size(l) + 1)
  }

  function InsertsArgs(a: Args, lx: seq<Lexeme>, i: int): seq<Insert>
    decreases a, 0
  {
    match a
    case NoArgs => []
    case MoreArgs(x, rest) => Inserts(x, lx, i) + InsertsArgs(rest, lx, i + Size(x) + 1)
  }

  /** An operand's insertions, in a pair of its own exactly when `b`. */
  function OperandInserts(b: bool, e: Expr, lx: seq<Lexeme>, i: int): seq<Insert>
    decreases e, 1
  {
    (if b then Pair(StartOf(lx, i), EndBefore(lx, i + Size(e))) else []) + Inserts(e, lx, i)
  }

  /** `n` spans tokens `i..i+Size(e)`, is compound exactly when `e` is, and if
      binary its first operator has the power of `e`'s. */
  predicate Shaped(n: Node, e: Expr, start: nat, end: nat) {
    && n.start == start && n.end == end && n.compound == Compound(e)
    && (n.kind == KBinary <==> e.Binary?)
    && (e.Binary? ==> |n.ops| > 0 && n.ops[0].Bin? && Power(n.ops[0].bin) == Power(e.op))
  }

  lemma AttachShape(l: Expr, op: BinOp, r: Expr, m: Node, n: Node)
    requires Shaped(m, l, m.start, m.end)
    ensures Shaped(Attach(m, op, n), Binary(l, op, r), m.start, n.end)
  {
  }

  lemma {:induction false} DecorateShape(e: Expr, lx: seq<Lexeme>, i: int)
    ensures Shaped(Decorate(e, lx, i), e, StartOf(lx, i), EndBefore(lx, i + Size(e)))
    decreases e, 1
  {
    if e.KeywordUnary? || e.Unary? {
      DecorateShape(e.operand, lx, i + 1);
    } else if e.Postfix? || e.Member? || e.Index? || e.Call? {
      DecorateShape(e.base, lx, i);
    } else if Compound(e) || e.Assign? {
      InfixShape(e, lx, i);
    }
  }

  lemma {:induction false} InfixShape(e: Expr, lx: seq<Lexeme>, i: int)
    requires Compound(e) || e.Assign?
    ensures Shaped(Decorate(e, lx, i), e, StartOf(lx, i), EndBefore(lx, i + Size(e)))
    decreases e, 0, 1
  {
    hide Attach, DecorateArgs, SizeArgs;
    if e.Binary? {
      var (l, op, r) := (e.left, e.op, e.right);
      DecorateShape(l, lx, i);
      DecorateShape(r, lx, i + Size(l) + 1);
      AttachShape(l, op, r, Decorate(l, lx, i), Decorate(r, lx, i + Size(l) + 1));
    } else if e.Ternary? {
      TernaryShape(e, lx, i);
    } else {
      DecorateShape(e.target, lx, i);
      DecorateShape(e.value, lx, i + Size(e.target) + 1);
    }
  }

  lemma {:induction false} TernaryShape(e: Expr, lx: seq<Lexeme>, i: int)
    requires e.Ternary?
    ensures Shaped(Decorate(e, lx, i), e, StartOf(lx, i), EndBefore(lx, i + Size(e)))
    decreases e, 0, 0
  {
    hide Attach, DecorateArgs, SizeArgs;
    DecorateShape(e.cond, lx, i);
    DecorateShape(e.no, lx, i + Size(e.cond) + 1 + Size(e.yes) + 1);
  }

  lemma CollectAttach(left: Node, op: BinOp, right: Node)
    ensures Collect(Attach(left, op, right)) ==
      (if left.kind == KBinary && |left.ops| > 0 && left.ops[0].Bin? && Power(left.ops[0].bin) == Power(op) then []
       else if left.compound then Pair(left.start, left.end) else []) + Collect(left)
      + ((if right.compound then Pair(right.start, right.end) else []) + Collect(right))
  {
    CollectOne(right, true);
    CollectOne(left, true);
    CollectPlus(left.kids, [right], true);
    CollectPlus([left], [right], true);
    assert [left] + [right] == [left, right];
    assert left.kind == KBinary ==> Collect(left) == [] + Collect(left);
  }

  lemma CollectParent1(n: Node, k: Node)
    requires n.kids == [k] && n.kind != KBinary && n.kind != KTernary
    ensures Collect(n) == Collect(k)
  {
    CollectOne(k, false);
  }

  lemma CollectParent2(n: Node, a: Node, b: Node)
    requires n.kids == [a, b] && n.kind != KBinary && n.kind != KTernary
    ensures Collect(n) == Collect(a) + Collect(b)
  {
    CollectOne(a, false);
    CollectOne(b, false);
    CollectPlus([a], [b], false);
    assert [a] + [b] == [a, b];
  }

  lemma CollectTernary(n: Node, a: Node, b: Node, c: Node)
    requires n.kids == [a, b, c] && n.kind == KTernary
    ensures Collect(n) ==
      (if a.compound then Pair(a.start, a.end) else []) + Collect(a)
      + ((if b.compound then Pair(b.start, b.end) else []) + Collect(b))
      + ((if c.compound then Pair(c.start, c.end) else []) + Collect(c))
  {
    hide CollectKids;
    assert [a, b, c] == [a] + [b] + [c];
    CollectPlus([a] + [b], [c], true);
    CollectPlus([a], [b], true);
    CollectOne(a, true);
    CollectOne(b, true);
    CollectOne(c, true);
  }

  /** The pass over the flattened tree collects what the nested tree calls for. */
  lemma {:induction false} CollectDecorate(e: Expr, lx: seq<Lexeme>, i: int)
    ensures Collect(Decorate(e, lx, i)) == Inserts(e, lx, i)
    decreases e, 1
  {
    hide Collect, CollectKids, Attach;
    if e.Prim? {
      CollectLeaf(Decorate(e, lx, i));
    } else if e.Paren? {
      CollectDecorate(e.inner, lx, i + 1);
      CollectParent1(Decorate(e, lx, i), Decorate(e.inner, lx, i + 1));
    } else if e.KeywordGroup? {
      CollectDecorateGroup(e, lx, i);
    } else if e.KeywordUnary? || e.Unary? {
      CollectDecorate(e.operand, lx, i + 1);
      CollectParent1(Decorate(e, lx, i), Decorate(e.operand, lx, i + 1));
    } else if e.Postfix? || e.Member? {
      CollectDecorate(e.base, lx, i);
      CollectParent1(Decorate(e, lx, i), Decorate(e.base, lx, i));
    } else if e.Index? || e.Assign? {
      CollectDecoratePair(e, lx, i);
    } else if e.Call? {
      CollectDecorateCall(e, lx, i);
    } else if e.Binary? {
      CollectDecorateBinary(e, lx, i);
    } else if e.Ternary? {
      CollectDecorateTernary(e, lx, i);
    }
  }

  lemma {:induction false} CollectDecorateGroup(e: Expr, lx: seq<Lexeme>, i: int)
    requires e.KeywordGroup?
    ensures Collect(Decorate(e, lx, i)) == Inserts(e, lx, i)
    decreases e, 0
  {
    hide Collect, CollectKids, Attach;
    var n := Decorate(e, lx, i);
    CollectDecorate(e.inner, lx, i + 2);
    CollectParent1(n, n.kids[0]);
    CollectParent1(n.kids[0], Decorate(e.inner, lx, i + 2));
  }

  lemma {:induction false} CollectDecoratePair(e: Expr, lx: seq<Lexeme>, i: int)
    requires e.Index? || e.Assign?
    ensures Collect(Decorate(e, lx, i)) == Inserts(e, lx, i)
    decreases e, 0
  {
    hide Collect, CollectKids, Attach;
    var (a, b) := if e.Index? then (e.base, e.index) else (e.target, e.value);
    CollectDecorate(a, lx, i);
    CollectDecorate(b, lx, i + Size(a) + 1);
    CollectParent2(Decorate(e, lx, i), Decorate(a, lx, i), Decorate(b, lx, i + Size(a) + 1));
  }

  lemma {:induction false} CollectDecorateCall(e: Expr, lx: seq<Lexeme>, i: int)
    requires e.Call?
    ensures Collect(Decorate(e, lx, i)) == Inserts(e, lx, i)
    decreases e, 0
  {
    hide CollectKids;
    var n := Decorate(e.base, lx, i);
    CollectDecorate(e.base, lx, i);
    CollectDecorateArgs(e.args, lx, i + Size(e.base) + 1);
    CollectOne(n, false);
    CollectPlus([n], DecorateArgs(e.args, lx, i + Size(e.base) + 1), false);
  }

  lemma {:induction false} CollectDecorateBinary(e: Expr, lx: seq<Lexeme>, i: int)
    requires e.Binary?
    ensures Collect(Decorate(e, lx, i)) == Inserts(e, lx, i)
    decreases e, 0
  {
    hide Collect, CollectKids, Attach;
    var j := i + Size(e.left) + 1;
    CollectDecorate(e.left, lx, i);
    CollectDecorate(e.right, lx, j);
    DecorateShape(e.left, lx, i);
    DecorateShape(e.right, lx, j);
    CollectAttach(Decorate(e.left, lx, i), e.op, Decorate(e.right, lx, j));
  }

  lemma {:induction false} CollectOperand(e: Expr, lx: seq<Lexeme>, i: int)
    ensures var n := Decorate(e, lx, i);
      (if n.compound then Pair(n.start, n.end) else []) + Collect(n) == OperandInserts(Compound(e), e, lx, i)
    decreases e, 2
  {
    CollectDecorate(e, lx, i);
    DecorateShape(e, lx, i);
  }

  lemma {:induction false} CollectDecorateTernary(e: Expr, lx: seq<Lexeme>, i: int)
    requires e.Ternary?
    ensures Collect(Decorate(e, lx, i)) == Inserts(e, lx, i)
    decreases e, 0
  {
    hide Collect, CollectKids;
    var j := i + Size(e.cond) + 1;
    var k := j + Size(e.yes) + 1;
    CollectOperand(e.cond, lx, i);
    CollectOperand(e.yes, lx, j);
    CollectOperand(e.no, lx, k);
    CollectTernary(Decorate(e, lx, i), Decorate(e.cond, lx, i), Decorate(e.yes, lx, j), Decorate(e.no, lx, k));
  }

  lemma {:induction false} CollectDecorateArgs(a: Args, lx: seq<Lexeme>, i: int)
    ensures CollectKids(DecorateArgs(a, lx, i), false) == InsertsArgs(a, lx, i)
    decreases a, 1
  {
    hide CollectKids;
    CollectNil(false);
    if a.MoreArgs? {
      var (x, rest) := (a.head, a.tail);
      CollectDecorate(x, lx, i);
      CollectDecorateArgs(rest, lx, i + Size(x) + 1);
      CollectOne(Decorate(x, lx, i), false);
      CollectPlus([Decorate(x, lx, i)], DecorateArgs(rest, lx, i + Size(x) + 1), false);
    }
  }

  lemma CollectDecorateWhole(e: Expr, lx: seq<Lexeme>, i: int, outer: bool)
    ensures CollectWhole(Decorate(e, lx, i), outer) == OperandInserts(outer && Compound(e), e, lx, i)
  {
    CollectDecorate(e, lx, i);
    DecorateShape(e, lx, i);
  }
}
