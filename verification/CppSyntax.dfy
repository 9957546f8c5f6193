/** Tokens and expression trees of the controlling expressions that the
    parenthesising rewriter works on, with their printed form and the
    precedence discipline that the parser's trees obey. */
module CppSyntax {

  /** The binary operators, in the rewriter's eleven-row binding-power table. */
  datatype BinOp =
    | Mul | Div | Mod
    | Add | Sub
    | Shl | Shr
    | Lt | Le | Gt | Ge | Cmp
    | EqEq | NotEq
    | BitAnd | BitXor | BitOr
    | AndAnd | OrOr

  /** Binding power: higher binds tighter. */
  function Power(op: BinOp): (n: int)
    ensures 0 <= n <= 10
  {
    match op
    case Mul | Div | Mod => 10
    case Add | Sub => 9
    case Shl | Shr => 8
    case Lt | Le | Gt | Ge | Cmp => 6
    case EqEq | NotEq => 5
    case BitAnd => 4
    case BitXor => 3
    case BitOr => 2
    case AndAnd => 1
    case OrOr => 0
  }

  datatype AssignOp =
    Set | AddSet | SubSet | MulSet | DivSet | ModSet | AndSet | OrSet | XorSet | ShlSet | ShrSet

  datatype AccessOp = Dot | Arrow | DotStar | ArrowStar

  datatype AtomKind = Name | Number | StringLit | CharLit

  /** `Atom` is an identifier, qualified name or literal; `Bundle` a name with the
      template arguments read as part of it; `Keyword` one of sizeof, alignof and
      noexcept; `Other` any token the modelled grammar has no rule for. */
  datatype Tok =
    | Atom(kind: AtomKind, text: string)
    | Bundle(raw: seq<Tok>)
    | Keyword(text: string)
    | Bin(bin: BinOp)
    | Assigner(asn: AssignOp)
    | Access(acc: AccessOp)
    | Bang | Tilde | PlusPlus | MinusMinus
    | Question | Colon | Comma
    | LParen | RParen | LBracket | RBracket
    | Other(text: string)

  predicate IsAtom(t: Tok) {
    t.Atom? || (t.Bundle? && t.raw != [] && t.raw[0].Atom?)
  }

  predicate IsPrefix(t: Tok) {
    t.Bang? || t.Tilde? || t.PlusPlus? || t.MinusMinus?
    || (t.Bin? && (t.bin.Sub? || t.bin.Add? || t.bin.Mul? || t.bin.BitAnd?))
  }

  /** Tokens that extend a primary to its right. */
  predicate StartsPostfix(t: Tok) {
    t.LParen? || t.LBracket? || t.Access? || t.PlusPlus? || t.MinusMinus?
  }

  /** Chains of one precedence level are kept as left-nested pairs here. */
  datatype Expr =
    | Prim(tok: Tok)
    | Paren(inner: Expr)
    | KeywordGroup(kw: Tok, inner: Expr)
    | KeywordUnary(kw: Tok, operand: Expr)
    | Unary(prefix: Tok, operand: Expr)
    | Postfix(base: Expr, suffix: Tok)
    | Member(base: Expr, access: Tok, name: Tok)
    | Index(base: Expr, index: Expr)
    | Call(base: Expr, args: Args)
    | Binary(left: Expr, op: BinOp, right: Expr)
    | Ternary(cond: Expr, yes: Expr, no: Expr)
    | Assign(target: Expr, asn: AssignOp, value: Expr)

  datatype Args = NoArgs | MoreArgs(head: Expr, tail: Args)

  function Print(e: Expr): (ts: seq<Tok>)
    ensures |ts| > 0
  {
    match e
    case Prim(t) => [t]
    case Paren(x) => [LParen] + Print(x) + [RParen]
    case KeywordGroup(kw, x) => [kw, LParen] + Print(x) + [RParen]
    case KeywordUnary(kw, x) => [kw] + Print(x)
    case Unary(t, x) => [t] + Print(x)
    case Postfix(b, t) => Print(b) + [t]
    case Member(b, t, n) => Print(b) + [t, n]
    case Index(b, x) => Print(b) + [LBracket] + Print(x) + [RBracket]
    case Call(b, a) => Print(b) + [LParen] + PrintArgs(a) + [RParen]
    case Binary(l, op, r) => Print(l) + [Bin(op)] + Print(r)
    case Ternary(c, t, f) => Print(c) + [Question] + Print(t) + [Colon] + Print(f)
    case Assign(l, op, r) => Print(l) + [Assigner(op)] + Print(r)
  }

  function PrintArgs(a: Args): (ts: seq<Tok>)
    ensures a.MoreArgs? ==> |ts| > 0
  {
    match a
    case NoArgs => []
    case MoreArgs(x, NoArgs) => Print(x)
    case MoreArgs(x, rest) => Print(x) + [Comma] + PrintArgs(rest)
  }

  /** The left-most token. */
  function First(e: Expr): Tok {
    match e
    case Prim(t) => t
    case Paren(_) => LParen
    case KeywordGroup(kw, _) => kw
    case KeywordUnary(kw, _) => kw
    case Unary(t, _) => t
    case Postfix(b, _) => First(b)
    case Member(b, _, _) => First(b)
    case Index(b, _) => First(b)
    case Call(b, _) => First(b)
    case Binary(l, _, _) => First(l)
    case Ternary(c, _, _) => First(c)
    case Assign(l, _, _) => First(l)
  }

  const ILL_FORMED := -3

  /** How tightly a tree holds together: assignment -2, ternary -1, a binary
      chain its operator's power, prefix forms 11, postfix forms 12; ILL_FORMED
      when some part would need parentheses to stay where it is. */
  function Rank(e: Expr): int {
    match e
    case Prim(t) => if IsAtom(t) then 12 else ILL_FORMED
    case Paren(x) => if Rank(x) >= -2 then 12 else ILL_FORMED
    case KeywordGroup(kw, x) => if kw.Keyword? && Rank(x) >= -2 then 11 else ILL_FORMED
    case KeywordUnary(kw, x) => if kw.Keyword? && Rank(x) >= 11 && !First(x).LParen? then 11 else ILL_FORMED
    case Unary(t, x) => if IsPrefix(t) && Rank(x) >= 11 then 11 else ILL_FORMED
    case Postfix(b, t) => if (t.PlusPlus? || t.MinusMinus?) && Rank(b) >= 12 then 12 else ILL_FORMED
    case Member(b, t, _) => if t.Access? && Rank(b) >= 12 then 12 else ILL_FORMED
    case Index(b, x) => if Rank(b) >= 12 && Rank(x) >= -2 then 12 else ILL_FORMED
    case Call(b, a) => if Rank(b) >= 12 && RankArgs(a) >= -2 then 12 else ILL_FORMED
    case Binary(l, op, r) => if Rank(l) >= Power(op) && Rank(r) > Power(op) then Power(op) else ILL_FORMED
    case Ternary(c, t, f) => if Rank(c) >= 0 && Rank(t) >= -1 && Rank(f) >= -1 then -1 else ILL_FORMED
    case Assign(l, _, r) => if Rank(l) >= -1 && Rank(r) >= -2 then -2 else ILL_FORMED
  }

  /** The least rank among arguments, at most -2. */
  function RankArgs(a: Args): int {
    match a
    case NoArgs => -2
    case MoreArgs(x, rest) => if Rank(x) >= -2 then RankArgs(rest) else ILL_FORMED
  }

  /** The trees whose printed form needs no further parentheses. */
  predicate WellFormed(e: Expr) {
    Rank(e) >= -2
  }

  /** The abstract tree: what is left when grouping parentheses are erased. */
  function Erase(e: Expr): Expr {
    match e
    case Prim(t) => e
    case Paren(x) => Erase(x)
    case KeywordGroup(kw, x) => KeywordGroup(kw, Erase(x))
    case KeywordUnary(kw, x) => KeywordUnary(kw, Erase(x))
    case Unary(t, x) => Unary(t, Erase(x))
    case Postfix(b, t) => Postfix(Erase(b), t)
    case Member(b, t, n) => Member(Erase(b), t, n)
    case Index(b, x) => Index(Erase(b), Erase(x))
    case Call(b, a) => Call(Erase(b), EraseArgs(a))
    case Binary(l, op, r) => Binary(Erase(l), op, Erase(r))
    case Ternary(c, t, f) => Ternary(Erase(c), Erase(t), Erase(f))
    case Assign(l, op, r) => Assign(Erase(l), op, Erase(r))
  }

  function EraseArgs(a: Args): Args {
    match a
    case NoArgs => NoArgs
    case MoreArgs(x, rest) => MoreArgs(Erase(x), EraseArgs(rest))
  }

  predicate At(ts: seq<Tok>, i: int, t: Tok) {
    0 <= i < |ts| && ts[i] == t
  }

  const NO_MATCH := -1

  /** Reads the printed form of `e` in `ts` from `i` on: the position after it,
      or NO_MATCH (MatchPrint relates this to Print). */
  function Match(e: Expr, ts: seq<Tok>, i: int): (j: int)
    ensures j == NO_MATCH || 0 <= i < j <= |ts|
  {
    match e
    case Prim(t) => MatchTok(t, ts, i)
    case Paren(x) => MatchTok(RParen, ts, Match(x, ts, MatchTok(LParen, ts, i)))
    case KeywordGroup(kw, x) => MatchTok(RParen, ts, Match(x, ts, MatchTok(LParen, ts, MatchTok(kw, ts, i))))
    case KeywordUnary(kw, x) => Match(x, ts, MatchTok(kw, ts, i))
    case Unary(t, x) => Match(x, ts, MatchTok(t, ts, i))
    case Postfix(b, t) => MatchTok(t, ts, Match(b, ts, i))
    case Member(b, t, n) => MatchTok(n, ts, MatchTok(t, ts, Match(b, ts, i)))
    case Index(b, x) => MatchTok(RBracket, ts, Match(x, ts, MatchTok(LBracket, ts, Match(b, ts, i))))
    case Call(b, a) => MatchTok(RParen, ts, MatchArgs(a, ts, MatchTok(LParen, ts, Match(b, ts, i))))
    case Binary(l, op, r) => Match(r, ts, MatchTok(Bin(op), ts, Match(l, ts, i)))
    case Ternary(c, t, f) =>
      Match(f, ts, MatchTok(Colon, ts, Match(t, ts, MatchTok(Question, ts, Match(c, ts, i)))))
    case Assign(l, op, r) => Match(r, ts, MatchTok(Assigner(op), ts, Match(l, ts, i)))
  }

  function MatchTok(t: Tok, ts: seq<Tok>, i: int): (j: int)
    ensures j == NO_MATCH || 0 <= i < j <= |ts|
  {
    if At(ts, i, t) then i + 1 else NO_MATCH
  }

  function MatchArgs(a: Args, ts: seq<Tok>, i: int): (j: int)
    ensures j == NO_MATCH || 0 <= i <= j <= |ts|
  {
    match a
    case NoArgs => if 0 <= i <= |ts| then i else NO_MATCH
    case MoreArgs(x, NoArgs) => Match(x, ts, i)
    case MoreArgs(x, rest) => MatchArgs(rest, ts, MatchTok(Comma, ts, Match(x, ts, i)))
  }

  lemma {:induction false} MatchFirst(e: Expr, ts: seq<Tok>, i: int)
    requires Match(e, ts, i) > 0
    ensures At(ts, i, First(e))
  {
    match e
    case Prim(_) =>
    case Paren(_) =>
    case KeywordGroup(_, _) =>
    case KeywordUnary(_, _) =>
    case Unary(_, _) =>
    case Postfix(b, _) => MatchFirst(b, ts, i);
    case Member(b, _, _) => MatchFirst(b, ts, i);
    case Index(b, _) => MatchFirst(b, ts, i);
    case Call(b, _) => MatchFirst(b, ts, i);
    case Binary(l, _, _) => MatchFirst(l, ts, i);
    case Ternary(c, _, _) => MatchFirst(c, ts, i);
    case Assign(l, _, _) => MatchFirst(l, ts, i);
  }

  /** A postfix-level tree starts with an atom or an opening parenthesis. */
  lemma {:induction false} PostfixFirst(e: Expr)
    requires Rank(e) >= 12
    ensures IsAtom(First(e)) || First(e).LParen?
  {
    if !e.Prim? && !e.Paren? {
      PostfixFirst(e.base);
    }
  }

  /** No expression starts with a closing parenthesis. */
  lemma {:induction false} ExprFirst(e: Expr)
    requires WellFormed(e)
    ensures !First(e).RParen?
  {
    if e.Binary? {
      ExprFirst(e.left);
    } else if e.Ternary? {
      ExprFirst(e.cond);
    } else if e.Assign? {
      ExprFirst(e.target);
    } else if Rank(e) >= 12 {
      PostfixFirst(e);
    }
  }

  // ----- Match is Print, read in place -----

  /** Reading a token sequence at `i`: the position after it, or NO_MATCH. */
  function MatchSeq(p: seq<Tok>, ts: seq<Tok>, i: int): (j: int) {
    if 0 <= i && i + |p| <= |ts| && ts[i..i + |p|] == p then i + |p| else NO_MATCH
  }

  lemma MatchSeqTok(t: Tok, ts: seq<Tok>, i: int)
    ensures MatchSeq([t], ts, i) == MatchTok(t, ts, i)
  {
    if 0 <= i < |ts| {
      assert ts[i] == ts[i..i + 1][0];
    }
  }

  lemma MatchSeqPlus(p: seq<Tok>, q: seq<Tok>, ts: seq<Tok>, i: int)
    ensures MatchSeq(p + q, ts, i) == MatchSeq(q, ts, MatchSeq(p, ts, i))
  {
    if 0 <= i && i + |p| + |q| <= |ts| {
      assert ts[i..i + |p + q|] == ts[i..i + |p|] + ts[i + |p|..i + |p| + |q|];
      if ts[i..i + |p + q|] == p + q {
        assert ts[i..i + |p|] == (p + q)[..|p|];
        assert ts[i + |p|..i + |p| + |q|] == (p + q)[|p|..];
      }
    }
  }

  lemma MatchSeqSnoc(p: seq<Tok>, t: Tok, ts: seq<Tok>, i: int)
    ensures MatchSeq(p + [t], ts, i) == MatchTok(t, ts, MatchSeq(p, ts, i))
  {
    MatchSeqPlus(p, [t], ts, i);
    MatchSeqTok(t, ts, MatchSeq(p, ts, i));
  }

  lemma MatchSeqCons(t: Tok, p: seq<Tok>, ts: seq<Tok>, i: int)
    ensures MatchSeq([t] + p, ts, i) == MatchSeq(p, ts, MatchTok(t, ts, i))
  {
    MatchSeqPlus([t], p, ts, i);
    MatchSeqTok(t, ts, i);
  }

  lemma MatchSeqInfix(p: seq<Tok>, t: Tok, q: seq<Tok>, ts: seq<Tok>, i: int)
    ensures MatchSeq(p + [t] + q, ts, i) == MatchSeq(q, ts, MatchTok(t, ts, MatchSeq(p, ts, i)))
  {
    MatchSeqPlus(p + [t], q, ts, i);
    MatchSeqSnoc(p, t, ts, i);
  }

  lemma {:induction false} MatchPrint(e: Expr, ts: seq<Tok>, i: int)
    ensures Match(e, ts, i) == MatchSeq(Print(e), ts, i)
  {
    match e
    case Prim(t) =>
      MatchSeqTok(t, ts, i);
    case Paren(x) =>
      MatchPrint(x, ts, MatchTok(LParen, ts, i));
      MatchSeqCons(LParen, Print(x), ts, i);
      MatchSeqSnoc([LParen] + Print(x), RParen, ts, i);
    case KeywordGroup(kw, x) =>
      MatchPrint(x, ts, MatchTok(LParen, ts, MatchTok(kw, ts, i)));
      assert [kw, LParen] == [kw] + [LParen];
      MatchSeqTok(kw, ts, i);
      MatchSeqInfix([kw], LParen, Print(x), ts, i);
      MatchSeqSnoc([kw, LParen] + Print(x), RParen, ts, i);
    case KeywordUnary(kw, x) =>
      MatchPrint(x, ts, MatchTok(kw, ts, i));
      MatchSeqCons(kw, Print(x), ts, i);
    case Unary(t, x) =>
      MatchPrint(x, ts, MatchTok(t, ts, i));
      MatchSeqCons(t, Print(x), ts, i);
    case Postfix(b, t) =>
      MatchPrint(b, ts, i);
      MatchSeqSnoc(Print(b), t, ts, i);
    case Member(b, t, n) =>
      MatchPrint(b, ts, i);
      assert Print(b) + [t, n] == Print(b) + [t] + [n];
      MatchSeqSnoc(Print(b), t, ts, i);
      MatchSeqSnoc(Print(b) + [t], n, ts, i);
    case Index(b, x) =>
      MatchPrint(b, ts, i);
      MatchPrint(x, ts, MatchTok(LBracket, ts, Match(b, ts, i)));
      MatchSeqInfix(Print(b), LBracket, Print(x), ts, i);
      MatchSeqSnoc(Print(b) + [LBracket] + Print(x), RBracket, ts, i);
    case Call(b, a) =>
      MatchPrint(b, ts, i);
      MatchPrintArgs(a, ts, MatchTok(LParen, ts, Match(b, ts, i)));
      MatchSeqInfix(Print(b), LParen, PrintArgs(a), ts, i);
      MatchSeqSnoc(Print(b) + [LParen] + PrintArgs(a), RParen, ts, i);
    case Binary(l, op, r) =>
      MatchPrint(l, ts, i);
      MatchPrint(r, ts, MatchTok(Bin(op), ts, Match(l, ts, i)));
      MatchSeqInfix(Print(l), Bin(op), Print(r), ts, i);
    case Ternary(c, t, f) =>
      MatchPrint(c, ts, i);
      var m := Match(t, ts, MatchTok(Question, ts, Match(c, ts, i)));
      MatchPrint(t, ts, MatchTok(Question, ts, Match(c, ts, i)));
      MatchPrint(f, ts, MatchTok(Colon, ts, m));
      MatchSeqInfix(Print(c), Question, Print(t), ts, i);
      MatchSeqInfix(Print(c) + [Question] + Print(t), Colon, Print(f), ts, i);
    case Assign(l, op, r) =>
      MatchPrint(l, ts, i);
      MatchPrint(r, ts, MatchTok(Assigner(op), ts, Match(l, ts, i)));
      MatchSeqInfix(Print(l), Assigner(op), Print(r), ts, i);
  }

  lemma {:induction false} MatchPrintArgs(a: Args, ts: seq<Tok>, i: int)
    ensures MatchArgs(a, ts, i) == MatchSeq(PrintArgs(a), ts, i)
  {
    match a
    case NoArgs =>
    case MoreArgs(x, rest) =>
      MatchPrint(x, ts, i);
      if rest.MoreArgs? {
        MatchPrintArgs(rest, ts, MatchTok(Comma, ts, Match(x, ts, i)));
        MatchSeqInfix(Print(x), Comma, PrintArgs(rest), ts, i);
      }
  }

  /** A tree that reads a whole token sequence prints to that sequence. */
  lemma MatchAll(e: Expr, ts: seq<Tok>)
    ensures Match(e, ts, 0) == |ts| <==> Print(e) == ts
  {
    MatchPrint(e, ts, 0);
    assert ts[0..|ts|] == ts;
  }
}
