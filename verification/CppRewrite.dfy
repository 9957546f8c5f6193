/** The wrapping rule on trees, and what a rewrite of a whole expression keeps:
    it parses, to the wrapped tree, whose abstract tree is the original one, and
    a second rewrite changes nothing. */
module CppRewrite {
  import opened CppSyntax
  import opened CppParser

  /** Top-level construct is an unparenthesised binary or ternary operator. */
  predicate Compound(e: Expr) {
    e.Binary? || e.Ternary?
  }

  /** `left` continues the same-precedence chain of `op`. */
  predicate SameChain(left: Expr, op: BinOp) {
    left.Binary? && Power(left.op) == Power(op)
  }

  /** Parenthesise every compound operand of a binary or ternary operator. */
  function Wrap(e: Expr): Expr {
    match e
    case Prim(_) => e
    case Paren(x) => Paren(Wrap(x))
    case KeywordGroup(kw, x) => KeywordGroup(kw, Wrap(x))
    case KeywordUnary(kw, x) => KeywordUnary(kw, Wrap(x))
    case Unary(t, x) => Unary(t, Wrap(x))
    case Postfix(b, t) => Postfix(Wrap(b), t)
    case Member(b, t, n) => Member(Wrap(b), t, n)
    case Index(b, x) => Index(Wrap(b), Wrap(x))
    case Call(b, a) => Call(Wrap(b), WrapArgs(a))
    case Binary(l, op, r) => Binary(if SameChain(l, op) then Wrap(l) else Shield(l, Wrap(l)), op, Shield(r, Wrap(r)))
    case Ternary(c, t, f) => Ternary(Shield(c, Wrap(c)), Shield(t, Wrap(t)), Shield(f, Wrap(f)))
    case Assign(l, op, r) => Assign(Wrap(l), op, Wrap(r))
  }

  function WrapArgs(a: Args): Args {
    match a
    case NoArgs => NoArgs
    case MoreArgs(x, rest) => MoreArgs(Wrap(x), WrapArgs(rest))
  }

  /** `wrapped`, in parentheses if the operand it stands for is compound. */
  function Shield(operand: Expr, wrapped: Expr): Expr {
    if Compound(operand) then Paren(wrapped) else wrapped
  }

  /** A return value also gets an outer pair; a condition reuses its own. */
  function WrapWhole(e: Expr, outer: bool): Expr {
    if outer then Shield(e, Wrap(e)) else Wrap(e)
  }

  /** The token-level rewrite: unparsed text is skipped. */
  function Rewrite(ts: seq<Tok>, outer: bool): seq<Tok> {
    var r := Parse(ts);
    if r.Ok? then Print(WrapWhole(r.e, outer)) else ts
  }

  /** The house rule: no compound operand stands unparenthesised. */
  predicate Compliant(e: Expr) {
    match e
    case Prim(_) => true
    case Paren(x) => Compliant(x)
    case KeywordGroup(_, x) => Compliant(x)
    case KeywordUnary(_, x) => Compliant(x)
    case Unary(_, x) => Compliant(x)
    case Postfix(b, _) => Compliant(b)
    case Member(b, _, _) => Compliant(b)
    case Index(b, x) => Compliant(b) && Compliant(x)
    case Call(b, a) => Compliant(b) && CompliantArgs(a)
    case Binary(l, op, r) =>
      Compliant(l) && Compliant(r) && (Compound(l) ==> SameChain(l, op)) && !Compound(r)
    case Ternary(c, t, f) =>
      Compliant(c) && Compliant(t) && Compliant(f) && !Compound(c) && !Compound(t) && !Compound(f)
    case Assign(l, _, r) => Compliant(l) && Compliant(r)
  }

  predicate CompliantArgs(a: Args) {
    match a
    case NoArgs => true
    case MoreArgs(x, rest) => Compliant(x) && CompliantArgs(rest)
  }

  predicate CompliantWhole(e: Expr, outer: bool) {
    Compliant(e) && (outer ==> !Compound(e))
  }

  // ----- wrapping keeps well-formedness, rank and meaning -----

  lemma {:induction false} WrapFirst(e: Expr)
    requires Rank(e) >= 11
    ensures First(Wrap(e)) == First(e)
  {
    match e
    case Postfix(b, _) => WrapFirst(b);
    case Member(b, _, _) => WrapFirst(b);
    case Index(b, _) => WrapFirst(b);
    case Call(b, _) => WrapFirst(b);
    case Prim(_) =>
    case Paren(_) =>
    case KeywordGroup(_, _) =>
    case KeywordUnary(_, _) =>
    case Unary(_, _) =>
  }

  lemma {:induction false} WrapRank(e: Expr)
    requires WellFormed(e)
    ensures Rank(Wrap(e)) == Rank(e)
  {
    match e
    case Prim(_) =>
    case Paren(x) => WrapRank(x);
    case KeywordGroup(_, x) => WrapRank(x);
    case KeywordUnary(_, x) => WrapRank(x); WrapFirst(x);
    case Unary(_, x) => WrapRank(x);
    case Postfix(b, _) => WrapRank(b);
    case Member(b, _, _) => WrapRank(b);
    case Index(b, x) => WrapRank(b); WrapRank(x);
    case Call(b, a) => WrapRank(b); WrapRankArgs(a);
    case Binary(l, _, r) => WrapRank(l); WrapRank(r);
    case Ternary(c, t, f) => WrapRank(c); WrapRank(t); WrapRank(f);
    case Assign(l, _, r) => WrapRank(l); WrapRank(r);
  }

  lemma {:induction false} WrapRankArgs(a: Args)
    requires RankArgs(a) >= -2
    ensures RankArgs(WrapArgs(a)) >= -2
  {
    match a
    case NoArgs =>
    case MoreArgs(x, rest) => WrapRank(x); WrapRankArgs(rest);
  }

  lemma {:induction false} WrapErase(e: Expr)
    ensures Erase(Wrap(e)) == Erase(e)
  {
    match e
    case Prim(_) =>
    case Paren(x) => WrapErase(x);
    case KeywordGroup(_, x) => WrapErase(x);
    case KeywordUnary(_, x) => WrapErase(x);
    case Unary(_, x) => WrapErase(x);
    case Postfix(b, _) => WrapErase(b);
    case Member(b, _, _) => WrapErase(b);
    case Index(b, x) => WrapErase(b); WrapErase(x);
    case Call(b, a) => WrapErase(b); WrapEraseArgs(a);
    case Binary(l, _, r) => WrapErase(l); WrapErase(r);
    case Ternary(c, t, f) => WrapErase(c); WrapErase(t); WrapErase(f);
    case Assign(l, _, r) => WrapErase(l); WrapErase(r);
  }

  lemma {:induction false} WrapEraseArgs(a: Args)
    ensures EraseArgs(WrapArgs(a)) == EraseArgs(a)
  {
    match a
    case NoArgs =>
    case MoreArgs(x, rest) => WrapErase(x); WrapEraseArgs(rest);
  }

  lemma {:induction false} WrapCompliant(e: Expr)
    ensures Compliant(Wrap(e))
  {
    match e
    case Prim(_) =>
    case Paren(x) => WrapCompliant(x);
    case KeywordGroup(_, x) => WrapCompliant(x);
    case KeywordUnary(_, x) => WrapCompliant(x);
    case Unary(_, x) => WrapCompliant(x);
    case Postfix(b, _) => WrapCompliant(b);
    case Member(b, _, _) => WrapCompliant(b);
    case Index(b, x) => WrapCompliant(b); WrapCompliant(x);
    case Call(b, a) => WrapCompliant(b); WrapCompliantArgs(a);
    case Binary(l, _, r) => WrapCompliant(l); WrapCompliant(r);
    case Ternary(c, t, f) => WrapCompliant(c); WrapCompliant(t); WrapCompliant(f);
    case Assign(l, _, r) => WrapCompliant(l); WrapCompliant(r);
  }

  lemma {:induction false} WrapCompliantArgs(a: Args)
    ensures CompliantArgs(WrapArgs(a))
  {
    match a
    case NoArgs =>
    case MoreArgs(x, rest) => WrapCompliant(x); WrapCompliantArgs(rest);
  }

  /** Wrapping leaves a tree alone exactly when it already obeys the rule. */
  lemma {:induction false} WrapFixed(e: Expr)
    ensures Wrap(e) == e <==> Compliant(e)
  {
    WrapCompliant(e);
    if Compliant(e) {
      CompliantFixed(e);
    }
  }

  lemma {:induction false} CompliantFixed(e: Expr)
    requires Compliant(e)
    ensures Wrap(e) == e
  {
    match e
    case Prim(_) =>
    case Paren(x) => CompliantFixed(x);
    case KeywordGroup(_, x) => CompliantFixed(x);
    case KeywordUnary(_, x) => CompliantFixed(x);
    case Unary(_, x) => CompliantFixed(x);
    case Postfix(b, _) => CompliantFixed(b);
    case Member(b, _, _) => CompliantFixed(b);
    case Index(b, x) => CompliantFixed(b); CompliantFixed(x);
    case Call(b, a) => CompliantFixed(b); CompliantFixedArgs(a);
    case Binary(l, _, r) => CompliantFixed(l); CompliantFixed(r);
    case Ternary(c, t, f) => CompliantFixed(c); CompliantFixed(t); CompliantFixed(f);
    case Assign(l, _, r) => CompliantFixed(l); CompliantFixed(r);
  }

  lemma {:induction false} CompliantFixedArgs(a: Args)
    requires CompliantArgs(a)
    ensures WrapArgs(a) == a
  {
    match a
    case NoArgs =>
    case MoreArgs(x, rest) => CompliantFixed(x); CompliantFixedArgs(rest);
  }

  lemma WrapWholeFacts(e: Expr, outer: bool)
    requires WellFormed(e)
    ensures WellFormed(WrapWhole(e, outer)) && Erase(WrapWhole(e, outer)) == Erase(e)
    ensures CompliantWhole(WrapWhole(e, outer), outer)
    ensures WrapWhole(e, outer) == e <==> CompliantWhole(e, outer)
  {
    WrapRank(e);
    WrapErase(e);
    WrapCompliant(e);
    WrapFixed(e);
  }

  // ----- the rewrite of a whole expression -----

  /** In the grammar without the template guess, whatever parses still parses
      after the rewrite, to a tree that obeys the house rule and has the original
      abstract tree. */
  lemma RewriteReparses(ts: seq<Tok>, outer: bool)
    requires Parse(ts).Ok?
    ensures var again := Parse(Rewrite(ts, outer));
      && again.Ok? && again.e == WrapWhole(Parse(ts).e, outer)
      && Erase(again.e) == Erase(Parse(ts).e)
      && CompliantWhole(again.e, outer)
  {
    var e := Parse(ts).e;
    ParseSound(ts);
    WrapWholeFacts(e, outer);
    ParsePrint(WrapWhole(e, outer));
  }

  /** In that grammar a second rewrite changes nothing. */
  lemma RewriteIdempotent(ts: seq<Tok>, outer: bool)
    ensures Rewrite(Rewrite(ts, outer), outer) == Rewrite(ts, outer)
  {
    var r := Parse(ts);
    if r.Ok? {
      RewriteReparses(ts, outer);
      ParseSound(ts);
      WrapWholeFacts(r.e, outer);
      WrapWholeFacts(WrapWhole(r.e, outer), outer);
    }
  }

  /** The rewrite leaves a parsed text alone exactly when it already obeys the
      house rule. */
  lemma RewriteFixed(ts: seq<Tok>, outer: bool)
    requires Parse(ts).Ok?
    ensures Rewrite(ts, outer) == ts <==> CompliantWhole(Parse(ts).e, outer)
  {
    var e := Parse(ts).e;
    ParseSound(ts);
    WrapWholeFacts(e, outer);
    if Rewrite(ts, outer) == ts {
      ParsePrint(WrapWhole(e, outer));
    }
  }

  /** Different abstract trees never share a printed form, so the parse of a
      rewritten text fixes its meaning. */
  lemma PrintInjective(a: Expr, b: Expr)
    requires WellFormed(a) && WellFormed(b) && Print(a) == Print(b)
    ensures a == b
  {
    ParsePrint(a);
    ParsePrint(b);
  }
}
