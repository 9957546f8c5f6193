/** The grammar of the expressions that the rewriter reads, and the house rule it
    enforces, written down from tiers of operators instead of binding powers; and
    that parsing and wrapping do what these two say. */
module CppGrammar {
  import opened CppSyntax
  import opened CppParser
  import opened CppRewrite
  import opened CppFold
  import opened CppTemplate

  // ----- the tiers -----

  /** The binary operators, tightest first. */
  const TIERS: seq<set<BinOp>> := [
    {Mul, Div, Mod}, {Add, Sub}, {Shl, Shr}, {Lt, Le, Gt, Ge, Cmp}, {EqEq, NotEq},
    {BitAnd}, {BitXor}, {BitOr}, {AndAnd}, {OrOr}]

  ghost predicate Ahead(tiers: seq<set<BinOp>>, p: BinOp, q: BinOp) {
    exists i, j :: 0 <= i < j < |tiers| && p in tiers[i] && q in tiers[j]
  }

  ghost predicate Beside(tiers: seq<set<BinOp>>, p: BinOp, q: BinOp) {
    exists i :: 0 <= i < |tiers| && p in tiers[i] && q in tiers[i]
  }

  ghost predicate Tighter(p: BinOp, q: BinOp) {
    Ahead(TIERS, p, q)
  }

  ghost predicate SameTier(p: BinOp, q: BinOp) {
    Beside(TIERS, p, q)
  }

  function TierOf(p: BinOp): nat {
    match p
    case Mul | Div | Mod => 0
    case Add | Sub => 1
    case Shl | Shr => 2
    case Lt | Le | Gt | Ge | Cmp => 3
    case EqEq | NotEq => 4
    case BitAnd => 5
    case BitXor => 6
    case BitOr => 7
    case AndAnd => 8
    case OrOr => 9
  }

  lemma TierAt(p: BinOp, i: nat)
    requires i < |TIERS|
    ensures p in TIERS[i] <==> i == TierOf(p)
  {
  }

  lemma TierInRange(p: BinOp)
    ensures TierOf(p) < |TIERS|
  {
  }

  lemma OneTierEach(tiers: seq<set<BinOp>>, p: BinOp, q: BinOp, i: nat, j: nat)
    requires i < |tiers| && p in tiers[i] && forall k: nat | k < |tiers| && p in tiers[k] :: k == i
    requires j < |tiers| && q in tiers[j] && forall k: nat | k < |tiers| && q in tiers[k] :: k == j
    ensures Ahead(tiers, p, q) <==> i < j
    ensures Beside(tiers, p, q) <==> i == j
  {
  }

  lemma TiersAre(p: BinOp, q: BinOp)
    ensures Tighter(p, q) <==> TierOf(p) < TierOf(q)
    ensures SameTier(p, q) <==> TierOf(p) == TierOf(q)
  {
    hide Ahead, Beside, TierOf;
    TierInRange(p);
    TierInRange(q);
    TierAt(p, TierOf(p));
    TierAt(q, TierOf(q));
    forall k: nat | k < |TIERS| && p in TIERS[k] ensures k == TierOf(p) { TierAt(p, k); }
    forall k: nat | k < |TIERS| && q in TIERS[k] ensures k == TierOf(q) { TierAt(q, k); }
    OneTierEach(TIERS, p, q, TierOf(p), TierOf(q));
  }

  lemma TierPower(p: BinOp, q: BinOp)
    ensures TierOf(p) < TierOf(q) <==> Power(p) > Power(q)
    ensures TierOf(p) == TierOf(q) <==> Power(p) == Power(q)
  {
  }

  /** The binding powers order the operators as the tiers do. */
  lemma PowersAreTiers(p: BinOp, q: BinOp)
    ensures Power(p) > Power(q) <==> Tighter(p, q)
    ensures Power(p) == Power(q) <==> SameTier(p, q)
  {
    hide Power, TierOf, Ahead, Beside;
    TiersAre(p, q);
    TierPower(p, q);
  }

  // ----- the grammar -----

  /** Holds together without a binary, conditional or assignment operator. */
  predicate Operand(e: Expr) {
    !e.Binary? && !e.Ternary? && !e.Assign?
  }

  /** A primary or a primary with suffixes. */
  predicate Suffixed(e: Expr) {
    e.Prim? || e.Paren? || e.Postfix? || e.Member? || e.Index? || e.Call?
  }

  const PREFIXES := {Bang, Tilde, PlusPlus, MinusMinus, Bin(Sub), Bin(Add), Bin(Mul), Bin(BitAnd)}

  /** Trees of the grammar: binary operators group to the left within a tier, a
      tighter tier inside a looser one; the condition of a ternary is no ternary,
      its branches are no assignments, and an assignment groups to the right. */
  ghost predicate Grammatical(e: Expr) {
    match e
    case Prim(t) => t.Atom? || (t.Bundle? && |t.raw| > 0 && t.raw[0].Atom?)
    case Paren(x) => Grammatical(x)
    case KeywordGroup(kw, x) => kw.Keyword? && Grammatical(x)
    case KeywordUnary(kw, x) => kw.Keyword? && Operand(x) && Grammatical(x) && !First(x).LParen?
    case Unary(t, x) => t in PREFIXES && Operand(x) && Grammatical(x)
    case Postfix(b, t) => t in {PlusPlus, MinusMinus} && Suffixed(b) && Grammatical(b)
    case Member(b, t, _) => t.Access? && Suffixed(b) && Grammatical(b)
    case Index(b, x) => Suffixed(b) && Grammatical(b) && Grammatical(x)
    case Call(b, a) => Suffixed(b) && Grammatical(b) && GrammaticalArgs(a)
    case Binary(l, p, r) =>
      && Grammatical(l) && (Operand(l) || (l.Binary? && (Tighter(l.op, p) || SameTier(l.op, p))))
      && Grammatical(r) && (Operand(r) || (r.Binary? && Tighter(r.op, p)))
    case Ternary(c, t, f) =>
      Grammatical(c) && Grammatical(t) && Grammatical(f) && (Operand(c) || c.Binary?) && !t.Assign? && !f.Assign?
    case Assign(l, _, r) => Grammatical(l) && !l.Assign? && Grammatical(r)
  }

  ghost predicate GrammaticalArgs(a: Args) {
    a.MoreArgs? ==> Grammatical(a.head) && GrammaticalArgs(a.tail)
  }

  /** What a rank says about the form of a tree. */
  lemma RankForm(e: Expr)
    requires WellFormed(e)
    ensures Rank(e) >= 11 <==> Operand(e)
    ensures Rank(e) >= 12 <==> Suffixed(e)
    ensures Rank(e) == -2 <==> e.Assign?
    ensures Rank(e) == -1 <==> e.Ternary?
    ensures e.Binary? ==> Rank(e) == Power(e.op)
    ensures Rank(e) >= 0 <==> Operand(e) || e.Binary?
  {
    hide Power;
  }

  lemma BinaryGrammatical(l: Expr, p: BinOp, r: Expr)
    requires Grammatical(l) <==> WellFormed(l)
    requires Grammatical(r) <==> WellFormed(r)
    ensures Grammatical(Binary(l, p, r)) <==> WellFormed(Binary(l, p, r))
  {
    hide Tighter, SameTier, Rank, Grammatical, Power;
    assert 0 <= Power(p) <= 10;
    BinaryUnfold(l, p, r);
    if WellFormed(l) && WellFormed(r) {
      RankForm(l);
      RankForm(r);
      if l.Binary? { PowersAreTiers(l.op, p); }
      if r.Binary? { PowersAreTiers(r.op, p); }
    }
  }

  lemma BinaryUnfold(l: Expr, p: BinOp, r: Expr)
    ensures WellFormed(Binary(l, p, r)) <==> Rank(l) >= Power(p) && Rank(r) > Power(p)
    ensures Grammatical(Binary(l, p, r)) <==>
      && Grammatical(l) && (Operand(l) || (l.Binary? && (Tighter(l.op, p) || SameTier(l.op, p))))
      && Grammatical(r) && (Operand(r) || (r.Binary? && Tighter(r.op, p)))
  {
    hide Tighter, SameTier, Power;
  }

  lemma {:induction false} GrammaticalIff(e: Expr)
    ensures Grammatical(e) <==> WellFormed(e)
    decreases e, 0
  {
    hide Tighter, SameTier, Power;
    match e
    case Prim(t) =>
    case Paren(x) => GrammaticalIff(x);
    case KeywordGroup(_, x) => GrammaticalIff(x);
    case KeywordUnary(_, x) => Form(x);
    case Unary(_, x) => Form(x);
    case Postfix(b, _) => Form(b);
    case Member(b, _, _) => Form(b);
    case Index(b, x) => Form(b); GrammaticalIff(x);
    case Call(b, a) => Form(b); GrammaticalArgsIff(a);
    case Binary(l, p, r) =>
      GrammaticalIff(l);
      GrammaticalIff(r);
      BinaryGrammatical(l, p, r);
    case Ternary(c, t, f) => Form(c); Form(t); Form(f);
    case Assign(l, _, r) => Form(l); Form(r);
  }

  lemma {:induction false} Form(e: Expr)
    ensures Grammatical(e) <==> WellFormed(e)
    ensures WellFormed(e) ==> (Rank(e) >= 11 <==> Operand(e)) && (Rank(e) >= 12 <==> Suffixed(e))
    ensures WellFormed(e) ==> (Rank(e) >= 0 <==> Operand(e) || e.Binary?) && (Rank(e) >= -1 <==> !e.Assign?)
    decreases e, 1
  {
    hide Rank;
    GrammaticalIff(e);
    if WellFormed(e) {
      RankForm(e);
    }
  }

  lemma {:induction false} GrammaticalArgsIff(a: Args)
    ensures GrammaticalArgs(a) <==> RankArgs(a) >= -2
    decreases a, 0
  {
    if a.MoreArgs? {
      GrammaticalIff(a.head);
      GrammaticalArgsIff(a.tail);
    }
  }

  /** The parser decides the grammar: it finds a tree exactly if the tokens spell
      a grammatical one, and then that one. */
  lemma ParseIff(ts: seq<Tok>, e: Expr)
    ensures Parse(ts) == Ok(e, |ts|) <==> Grammatical(e) && Print(e) == ts
  {
    hide Parse, Print, Rank, Grammatical;
    GrammaticalIff(e);
    ParseSound(ts);
    if WellFormed(e) {
      ParsePrint(e);
    }
  }

  /** The same for the tool, which folds template arguments first. */
  lemma ReadsIff(ts: seq<Tok>, e: Expr)
    ensures Reads(ts, e) <==> Grammatical(e) && Print(e) == Fold(ts, false)
  {
    hide Parse, Print, Grammatical, Fold;
    ParseIff(Fold(ts, false), e);
  }

  // ----- two operators in a row -----

  function Infix(a: seq<Tok>, p: BinOp, b: seq<Tok>): seq<Tok> {
    a + [Bin(p)] + b
  }

  function InParens(ts: seq<Tok>): seq<Tok> {
    [LParen] + ts + [RParen]
  }

  ghost function Grouped(a: Expr, p: BinOp, b: Expr, q: BinOp, c: Expr): Expr {
    if Tighter(q, p) then Binary(a, p, Binary(b, q, c)) else Binary(Binary(a, p, b), q, c)
  }

  lemma GroupedSpells(a: Expr, p: BinOp, b: Expr, q: BinOp, c: Expr)
    ensures Print(Grouped(a, p, b, q, c)) == Infix(Infix(Print(a), p, Print(b)), q, Print(c))
  {
    hide Tighter;
    var (x, y, z) := (Print(a), Print(b), Print(c));
    assert Infix(x, p, Infix(y, q, z)) == Infix(Infix(x, p, y), q, z);
    assert Print(Binary(b, q, c)) == Infix(y, q, z) && Print(Binary(a, p, b)) == Infix(x, p, y);
  }

  lemma GroupedGrammatical(a: Expr, p: BinOp, b: Expr, q: BinOp, c: Expr)
    requires Operand(a) && Operand(b) && Operand(c) && Grammatical(a) && Grammatical(b) && Grammatical(c)
    ensures Grammatical(Grouped(a, p, b, q, c))
  {
    hide Tighter, SameTier, Power, Grammatical, Rank;
    PowersAreTiers(q, p);
    PowersAreTiers(p, q);
    if Tighter(q, p) {
      BinaryUnfold(b, q, c);
      BinaryUnfold(a, p, Binary(b, q, c));
    } else {
      BinaryUnfold(a, p, b);
      BinaryUnfold(Binary(a, p, b), q, c);
    }
  }

  /** Which operator takes the middle operand: the tighter one, the left one within
      a tier; for any three operands. */
  lemma TwoOperators(a: Expr, p: BinOp, b: Expr, q: BinOp, c: Expr)
    requires Operand(a) && Operand(b) && Operand(c) && Grammatical(a) && Grammatical(b) && Grammatical(c)
    ensures var ts := Infix(Infix(Print(a), p, Print(b)), q, Print(c));
      Parse(ts) == Ok(if Tighter(q, p) then Binary(a, p, Binary(b, q, c)) else Binary(Binary(a, p, b), q, c), |ts|)
  {
    hide Parse, Print, Grammatical, Tighter, SameTier;
    GroupedSpells(a, p, b, q, c);
    GroupedGrammatical(a, p, b, q, c);
    ParseIff(Print(Grouped(a, p, b, q, c)), Grouped(a, p, b, q, c));
  }

  /** Which pair the rewrite adds there: around the tighter operator with its
      operands, and none within a tier. */
  lemma TwoOperatorsRewritten(a: Expr, p: BinOp, b: Expr, q: BinOp, c: Expr, outer: bool)
    requires Operand(a) && Operand(b) && Operand(c) && Grammatical(a) && Grammatical(b) && Grammatical(c)
    ensures var (x, y, z) := (Print(Wrap(a)), Print(Wrap(b)), Print(Wrap(c)));
      var inner :=
        if Tighter(q, p) then Infix(x, p, InParens(Infix(y, q, z)))
        else if SameTier(p, q) then Infix(Infix(x, p, y), q, z)
        else Infix(InParens(Infix(x, p, y)), q, z);
      Rewrite(Infix(Infix(Print(a), p, Print(b)), q, Print(c)), outer) == if outer then InParens(inner) else inner
  {
    hide Parse, Print, Grammatical, Tighter, SameTier, Wrap, Infix, InParens;
    TwoOperators(a, p, b, q, c);
    GroupedWrapped(a, p, b, q, c);
    PrintParen(Wrap(Grouped(a, p, b, q, c)));
  }

  lemma PrintParen(e: Expr)
    ensures Print(Paren(e)) == InParens(Print(e))
  {
  }

  lemma PrintBinary(l: Expr, p: BinOp, r: Expr)
    ensures Print(Binary(l, p, r)) == Infix(Print(l), p, Print(r))
  {
  }

  lemma GroupedWrapped(a: Expr, p: BinOp, b: Expr, q: BinOp, c: Expr)
    requires Operand(a) && Operand(b) && Operand(c)
    ensures var (x, y, z) := (Print(Wrap(a)), Print(Wrap(b)), Print(Wrap(c)));
      Print(Wrap(Grouped(a, p, b, q, c))) ==
        if Tighter(q, p) then Infix(x, p, InParens(Infix(y, q, z)))
        else if SameTier(p, q) then Infix(Infix(x, p, y), q, z)
        else Infix(InParens(Infix(x, p, y)), q, z)
  {
    hide Tighter, SameTier, Power, Print;
    PowersAreTiers(p, q);
    var (u, v, w) := (Wrap(a), Wrap(b), Wrap(c));
    PrintBinary(v, q, w);
    PrintBinary(u, p, v);
    PrintBinary(Binary(u, p, v), q, w);
    PrintParen(Binary(v, q, w));
    PrintParen(Binary(u, p, v));
    PrintBinary(u, p, Paren(Binary(v, q, w)));
    PrintBinary(Paren(Binary(u, p, v)), q, w);
  }

  // ----- the house rule -----

  /** No operand of a binary or ternary operator is itself one without parentheses;
      a chain within a tier counts as one operator. */
  ghost predicate HouseRule(e: Expr) {
    match e
    case Prim(_) => true
    case Paren(x) => HouseRule(x)
    case KeywordGroup(_, x) => HouseRule(x)
    case KeywordUnary(_, x) => HouseRule(x)
    case Unary(_, x) => HouseRule(x)
    case Postfix(b, _) => HouseRule(b)
    case Member(b, _, _) => HouseRule(b)
    case Index(b, x) => HouseRule(b) && HouseRule(x)
    case Call(b, a) => HouseRuleArgs(a) && HouseRule(b)
    case Binary(l, p, r) =>
      && HouseRule(l) && !l.Ternary? && (l.Binary? ==> SameTier(l.op, p))
      && HouseRule(r) && !r.Ternary? && !r.Binary?
    case Ternary(c, t, f) =>
      && HouseRule(c) && !c.Ternary? && !c.Binary?
      && HouseRule(t) && !t.Ternary? && !t.Binary?
      && HouseRule(f) && !f.Ternary? && !f.Binary?
    case Assign(l, _, r) => HouseRule(l) && HouseRule(r)
  }

  ghost predicate HouseRuleArgs(a: Args) {
    a.MoreArgs? ==> HouseRule(a.head) && HouseRuleArgs(a.tail)
  }

  /** A return value is in parentheses itself. */
  ghost predicate HouseRuleWhole(e: Expr, outer: bool) {
    HouseRule(e) && (outer ==> !e.Binary? && !e.Ternary?)
  }

  lemma {:induction false} HouseRuleIff(e: Expr)
    ensures HouseRule(e) <==> Compliant(e)
  {
    hide SameTier, Power;
    match e
    case Prim(_) =>
    case Paren(x) => HouseRuleIff(x);
    case KeywordGroup(_, x) => HouseRuleIff(x);
    case KeywordUnary(_, x) => HouseRuleIff(x);
    case Unary(_, x) => HouseRuleIff(x);
    case Postfix(b, _) => HouseRuleIff(b);
    case Member(b, _, _) => HouseRuleIff(b);
    case Index(b, x) => HouseRuleIff(b); HouseRuleIff(x);
    case Call(b, a) => HouseRuleIff(b); HouseRuleArgsIff(a);
    case Binary(l, p, r) =>
      HouseRuleIff(l);
      HouseRuleIff(r);
      if l.Binary? { PowersAreTiers(l.op, p); }
    case Ternary(c, t, f) => HouseRuleIff(c); HouseRuleIff(t); HouseRuleIff(f);
    case Assign(l, _, r) => HouseRuleIff(l); HouseRuleIff(r);
  }

  lemma {:induction false} HouseRuleArgsIff(a: Args)
    ensures HouseRuleArgs(a) <==> CompliantArgs(a)
  {
    if a.MoreArgs? {
      HouseRuleIff(a.head);
      HouseRuleArgsIff(a.tail);
    }
  }

  // ----- wrapping adds as little as the rule allows -----

  /** `w` is `e` with pairs of parentheses added. */
  ghost predicate Covers(e: Expr, w: Expr)
    decreases w
  {
    || (w.Paren? && Covers(e, w.inner))
    || match e
       case Prim(_) => w == e
       case Paren(x) => w.Paren? && Covers(x, w.inner)
       case KeywordGroup(kw, x) => w.KeywordGroup? && w.kw == kw && Covers(x, w.inner)
       case KeywordUnary(kw, x) => w.KeywordUnary? && w.kw == kw && Covers(x, w.operand)
       case Unary(t, x) => w.Unary? && w.prefix == t && Covers(x, w.operand)
       case Postfix(b, t) => w.Postfix? && w.suffix == t && Covers(b, w.base)
       case Member(b, t, n) => w.Member? && w.access == t && w.name == n && Covers(b, w.base)
       case Index(b, x) => w.Index? && Covers(b, w.base) && Covers(x, w.index)
       case Call(b, a) => w.Call? && Covers(b, w.base) && CoversArgs(a, w.args)
       case Binary(l, p, r) => w.Binary? && w.op == p && Covers(l, w.left) && Covers(r, w.right)
       case Ternary(c, t, f) => w.Ternary? && Covers(c, w.cond) && Covers(t, w.yes) && Covers(f, w.no)
       case Assign(l, p, r) => w.Assign? && w.asn == p && Covers(l, w.target) && Covers(r, w.value)
  }

  ghost predicate CoversArgs(a: Args, w: Args)
    decreases w
  {
    if a.NoArgs? then w.NoArgs? else w.MoreArgs? && Covers(a.head, w.head) && CoversArgs(a.tail, w.tail)
  }

  lemma {:induction false} WrapCovers(e: Expr)
    ensures Covers(e, Wrap(e))
  {
    match e
    case Prim(_) =>
    case Paren(x) => WrapCovers(x);
    case KeywordGroup(_, x) => WrapCovers(x);
    case KeywordUnary(_, x) => WrapCovers(x);
    case Unary(_, x) => WrapCovers(x);
    case Postfix(b, _) => WrapCovers(b);
    case Member(b, _, _) => WrapCovers(b);
    case Index(b, x) => WrapCovers(b); WrapCovers(x);
    case Call(b, a) => WrapCovers(b); WrapCoversArgs(a);
    case Binary(l, _, r) => WrapCovers(l); WrapCovers(r); ShieldCovers(l); ShieldCovers(r);
    case Ternary(c, t, f) =>
      WrapCovers(c); WrapCovers(t); WrapCovers(f);
      ShieldCovers(c); ShieldCovers(t); ShieldCovers(f);
    case Assign(l, _, r) => WrapCovers(l); WrapCovers(r);
  }

  lemma ShieldCovers(e: Expr)
    requires Covers(e, Wrap(e))
    ensures Covers(e, Shield(e, Wrap(e)))
  {
    hide Wrap;
    ParenCovers(e, Paren(Wrap(e)));
  }

  lemma {:induction false} WrapCoversArgs(a: Args)
    ensures CoversArgs(a, WrapArgs(a))
  {
    if a.MoreArgs? {
      WrapCovers(a.head);
      WrapCoversArgs(a.tail);
    }
  }

  /** Adding parentheses never breaks the rule. */
  lemma {:induction false} RuleUpward(e: Expr, w: Expr)
    requires Covers(e, w) && HouseRule(e)
    ensures HouseRule(w)
    decreases w, 1
  {
    hide SameTier;
    if w.Paren? && Covers(e, w.inner) {
      RuleUpward(e, w.inner);
    } else {
      match e
      case Prim(_) =>
      case Paren(x) => RuleUpward(x, w.inner);
      case KeywordGroup(_, x) => RuleUpward(x, w.inner);
      case KeywordUnary(_, x) => RuleUpward(x, w.operand);
      case Unary(_, x) => RuleUpward(x, w.operand);
      case Postfix(b, _) => RuleUpward(b, w.base);
      case Member(b, _, _) => RuleUpward(b, w.base);
      case Index(b, x) => RuleUpward(b, w.base); RuleUpward(x, w.index);
      case Call(b, a) => RuleUpward(b, w.base); RuleUpwardArgs(a, w.args);
      case Assign(l, _, r) => RuleUpward(l, w.target); RuleUpward(r, w.value);
      case _ => RuleUpwardInfix(e, w);
    }
  }

  lemma {:induction false} RuleUpwardInfix(e: Expr, w: Expr)
    requires (e.Binary? && w.Binary?) || (e.Ternary? && w.Ternary?)
    requires Covers(e, w) && HouseRule(e)
    ensures HouseRule(w)
    decreases w, 0
  {
    hide SameTier;
    if e.Binary? {
      RuleUpward(e.left, w.left);
      RuleUpward(e.right, w.right);
      CoversForm(e.left, w.left);
      CoversForm(e.right, w.right);
    } else {
      RuleUpward(e.cond, w.cond);
      RuleUpward(e.yes, w.yes);
      RuleUpward(e.no, w.no);
      CoversForm(e.cond, w.cond);
      CoversForm(e.yes, w.yes);
      CoversForm(e.no, w.no);
    }
  }

  /** A bare operator covers only itself. */
  lemma CoversForm(e: Expr, w: Expr)
    requires Covers(e, w)
    ensures w.Binary? ==> e.Binary? && e.op == w.op
    ensures w.Ternary? ==> e.Ternary?
  {
  }

  lemma {:induction false} RuleUpwardArgs(a: Args, w: Args)
    requires CoversArgs(a, w) && HouseRuleArgs(a)
    ensures HouseRuleArgs(w)
    decreases w, 0
  {
    if a.MoreArgs? {
      RuleUpward(a.head, w.head);
      RuleUpwardArgs(a.tail, w.tail);
    }
  }

  /** An operand that the rule wants in parentheses. */
  lemma {:induction false} ShieldLeast(e: Expr, w: Expr)
    requires Covers(e, w) && HouseRule(w) && !w.Binary? && !w.Ternary?
    ensures Covers(Shield(e, Wrap(e)), w)
    decreases w, 1
  {
    hide Wrap, HouseRule;
    if Compound(e) {
      assert w.Paren? && Covers(e, w.inner);
      ParenRule(w);
      WrapLeast(e, w.inner);
      ParenCovers(Wrap(e), w);
    } else {
      WrapLeast(e, w);
    }
  }

  lemma ParenRule(w: Expr)
    requires w.Paren?
    ensures HouseRule(w) == HouseRule(w.inner)
  {
  }

  lemma ParenCovers(e: Expr, w: Expr)
    requires w.Paren? && Covers(e, w.inner)
    ensures Covers(Paren(e), w) && Covers(e, w)
  {
  }

  /** Any way to obey the rule by adding parentheses has the ones of the rewrite. */
  lemma {:induction false} WrapLeast(e: Expr, w: Expr)
    requires Covers(e, w) && HouseRule(w)
    ensures Covers(Wrap(e), w)
    decreases w, 0
  {
    hide SameTier, Power, Compound;
    if w.Paren? && Covers(e, w.inner) {
      WrapLeast(e, w.inner);
    } else {
      match e
      case Prim(_) =>
      case Paren(x) => WrapLeast(x, w.inner);
      case KeywordGroup(_, x) => WrapLeast(x, w.inner);
      case KeywordUnary(_, x) => WrapLeast(x, w.operand);
      case Unary(_, x) => WrapLeast(x, w.operand);
      case Postfix(b, _) => WrapLeast(b, w.base);
      case Member(b, _, _) => WrapLeast(b, w.base);
      case Index(b, x) => WrapLeast(b, w.base); WrapLeast(x, w.index);
      case Call(b, a) => WrapLeast(b, w.base); WrapLeastArgs(a, w.args);
      case Binary(l, p, r) =>
        if w.left.Binary? {
          PowersAreTiers(w.left.op, p);
          WrapLeast(l, w.left);
        } else {
          LeftLeast(l, p, w.left);
        }
        ShieldLeast(r, w.right);
      case Ternary(c, t, f) => ShieldLeast(c, w.cond); ShieldLeast(t, w.yes); ShieldLeast(f, w.no);
      case Assign(l, _, r) => WrapLeast(l, w.target); WrapLeast(r, w.value);
    }
  }

  /** A left operand in parentheses covers a bare chain as well. */
  lemma {:induction false} LeftLeast(l: Expr, p: BinOp, w: Expr)
    requires Covers(l, w) && HouseRule(w) && !w.Binary? && !w.Ternary?
    ensures Covers(if SameChain(l, p) then Wrap(l) else Shield(l, Wrap(l)), w)
    decreases w, 2
  {
    if SameChain(l, p) {
      WrapLeast(l, w);
    } else {
      ShieldLeast(l, w);
    }
  }

  lemma {:induction false} WrapLeastArgs(a: Args, w: Args)
    requires CoversArgs(a, w) && HouseRuleArgs(w)
    ensures CoversArgs(WrapArgs(a), w)
    decreases w, 0
  {
    if a.MoreArgs? {
      WrapLeast(a.head, w.head);
      WrapLeastArgs(a.tail, w.tail);
    }
  }

  lemma WrapCompound(e: Expr)
    ensures Compound(Wrap(e)) == Compound(e)
  {
  }

  /** The rewrite is the least way to obey the rule: among the trees that add
      parentheses to `e`, those that obey it are those that add at least the ones
      of the rewrite. */
  lemma RewriteLeast(e: Expr, w: Expr, outer: bool)
    requires Covers(e, w)
    ensures HouseRuleWhole(w, outer) <==> Covers(WrapWhole(e, outer), w)
    ensures Covers(e, WrapWhole(e, outer)) && HouseRuleWhole(WrapWhole(e, outer), outer)
  {
    hide Covers, HouseRule, Wrap, Compliant;
    WrapCovers(e);
    WrapCompliant(e);
    ShieldCovers(e);
    HouseRuleIff(Wrap(e));
    ParenRule(Paren(Wrap(e)));
    WrapCompound(e);
    if HouseRuleWhole(w, outer) {
      if outer { ShieldLeast(e, w); } else { WrapLeast(e, w); }
    }
    if Covers(WrapWhole(e, outer), w) {
      RuleUpward(WrapWhole(e, outer), w);
      CoversForm(WrapWhole(e, outer), w);
    }
  }

  lemma CoversItself(e: Expr, outer: bool)
    requires WellFormed(e)
    ensures Covers(e, WrapWhole(e, outer)) && HouseRuleWhole(WrapWhole(e, outer), outer) && Grammatical(WrapWhole(e, outer))
  {
    hide Covers, HouseRule, Grammatical, Wrap, Rank, Compliant;
    WrapCovers(e);
    ShieldCovers(e);
    RewriteLeast(e, WrapWhole(e, outer), outer);
    WrapWholeFacts(e, outer);
    GrammaticalIff(WrapWhole(e, outer));
  }

  /** The whole rewrite, for every token list that the grammar reads as `e` once
      template arguments are folded: the new tokens spell `e` with the least
      parentheses that obey the house rule, a tree of the grammar again, and fold to
      that spelling exactly if there is no hazard. */
  lemma RewriteMeaning(ts: seq<Tok>, e: Expr, outer: bool)
    requires Lexed(ts) && Grammatical(e) && Print(e) == Fold(ts, false)
    ensures var (w, again) := (WrapWhole(e, outer), RewriteToks(ts, outer));
      && Covers(e, w) && HouseRuleWhole(w, outer) && Grammatical(w)
      && again == Flat(Print(w))
      && (Fold(again, false) == Print(w) <==> !Hazardous(e, outer))
  {
    hide Covers, HouseRuleWhole, Grammatical, Wrap, Rank, Print, Fold, Flat, Hazardous, RewriteToks;
    ReadsIff(ts, e);
    GrammaticalIff(e);
    CoversItself(e, outer);
    FoldRewritten(ts, e, outer);
  }
}
