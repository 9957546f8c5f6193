/** Two expressions whose rewrite changes what the template guess makes of them:
    one that is then read as a call, and one that a second pass rewrites into a
    different expression. */
module CppExamples {
  import opened CppSyntax
  import opened CppParser
  import opened CppRewrite
  import opened CppSplice
  import opened CppText
  import opened CppFold
  import opened CppTemplate

  function Id(text: string): Tok {
    Atom(Name, text)
  }

  function V(text: string): Expr {
    Prim(Id(text))
  }

  // ----- tokens that fold or stay as they are -----

  /** Where no `<` follows, names stay names. */
  lemma {:induction false} NoLessStable(es: seq<Tok>, member: bool)
    requires forall k | 0 <= k < |es| :: es[k] != Bin(Lt)
    requires forall k | 0 <= k < |es| && |Raw(es[k])| > 1 ::
      !IsName(Raw(es[k])[|Raw(es[k])| - 1]) && k + 1 < |es| && es[k + 1] == LParen
    ensures Stable(es, member)
    decreases |es|
  {
    hide Template;
    if es != [] {
      forall k | 0 <= k < |es| - 1
        ensures es[1..][k] == es[k + 1]
      {
      }
      NoLessStable(es[1..], Next(Raw(es[0])[0], member));
    }
  }

  // ----- printing from the parts -----

  lemma BinaryPrint(l: Expr, op: BinOp, r: Expr)
    ensures Print(Binary(l, op, r)) == Print(l) + [Bin(op)] + Print(r)
    ensures Rank(l) >= Power(op) && Rank(r) > Power(op) ==> Rank(Binary(l, op, r)) == Power(op)
  {
  }

  lemma ParenPrint(x: Expr)
    ensures Print(Paren(x)) == [LParen] + Print(x) + [RParen]
    ensures Rank(x) >= -2 ==> Rank(Paren(x)) == 12
  {
  }

  lemma NamePrint(text: string)
    ensures Print(V(text)) == [Id(text)] && Rank(V(text)) == 12
  {
  }

  // ----- (m + (a < b)) * ((c > d + e) / q) -----

  function Sum(): Expr {
    Binary(V("d"), Add, V("e"))
  }

  function Less(): Expr {
    Binary(V("a"), Lt, V("b"))
  }

  function Left(): Expr {
    Paren(Binary(V("m"), Add, Paren(Less())))
  }

  /** ((c > x) / q) */
  function Right(x: Expr): Expr {
    Paren(Binary(Paren(Binary(V("c"), Gt, x)), Div, V("q")))
  }

  function Product(): Expr {
    Binary(Left(), Mul, Right(Sum()))
  }

  function LeftToks(): seq<Tok> {
    [LParen, Id("m"), Bin(Add), LParen, Id("a"), Bin(Lt), Id("b"), RParen, RParen]
  }

  lemma SumPrint()
    ensures Print(Sum()) == [Id("d"), Bin(Add), Id("e")] && Rank(Sum()) == 9
    ensures Print(Less()) == [Id("a"), Bin(Lt), Id("b")] && Rank(Less()) == 6
  {
    hide Print, Rank;
    NamePrint("a");
    NamePrint("b");
    NamePrint("d");
    NamePrint("e");
    BinaryPrint(V("d"), Add, V("e"));
    BinaryPrint(V("a"), Lt, V("b"));
  }

  lemma LeftPrint()
    ensures Print(Left()) == LeftToks() && Rank(Left()) == 12
  {
    hide Print, Rank, Less;
    SumPrint();
    NamePrint("m");
    ParenPrint(Less());
    BinaryPrint(V("m"), Add, Paren(Less()));
    ParenPrint(Binary(V("m"), Add, Paren(Less())));
  }

  lemma RightPrint(x: Expr)
    requires Rank(x) > 6
    ensures Print(Right(x)) == [LParen, LParen, Id("c"), Bin(Gt)] + Print(x) + [RParen, Bin(Div), Id("q"), RParen]
    ensures Rank(Right(x)) == 12
  {
    hide Print, Rank;
    var g := Binary(V("c"), Gt, x);
    NamePrint("c");
    NamePrint("q");
    BinaryPrint(V("c"), Gt, x);
    ParenPrint(g);
    BinaryPrint(Paren(g), Div, V("q"));
    ParenPrint(Binary(Paren(g), Div, V("q")));
  }

  /** The tokens of the product around `x`. */
  function ProductToks(x: seq<Tok>): seq<Tok> {
    LeftToks() + [Bin(Mul), LParen, LParen, Id("c"), Bin(Gt)] + x + [RParen, Bin(Div), Id("q"), RParen]
  }

  lemma ProductPrint(x: Expr)
    requires Rank(x) > 6
    ensures var p := Binary(Left(), Mul, Right(x)); Print(p) == ProductToks(Print(x)) && WellFormed(p)
  {
    hide Print, Rank, Left, Right;
    LeftPrint();
    RightPrint(x);
    BinaryPrint(Left(), Mul, Right(x));
  }

  /** The first pass puts d + e in parentheses and nothing else. */
  lemma ProductWrap()
    ensures Wrap(Product()) == Binary(Left(), Mul, Right(Paren(Sum())))
  {
    assert Wrap(Less()) == Less() && Wrap(Sum()) == Sum();
    assert Wrap(Left()) == Left();
  }

  /** What the scan after `a` runs over: b)) * ((c > */
  function Inside(): seq<Tok> {
    [Id("b"), RParen, RParen, Bin(Mul), LParen, LParen, Id("c"), Bin(Gt)]
  }

  predicate Neutral(t: Tok) {
    t.Atom? || t.LParen? || t.RParen? || t == Bin(Mul)
  }

  lemma {:induction false} ClosesFirst(s: seq<Tok>, n: nat)
    requires n < |s| && s[n] == Bin(Gt) && forall k | 0 <= k < n :: Neutral(s[k])
    ensures CloseAt(s, 1) == n
    decreases n
  {
    if n > 0 {
      ClosesFirst(s[1..], n - 1);
    }
  }

  lemma InsideCloses(rest: seq<Tok>)
    ensures CloseAt(Inside() + rest, 1) == 7 && Weight(Inside()) <= SCAN_LIMIT
  {
    hide CloseAt, Weight;
    ClosesFirst(Inside() + rest, 7);
    InsideWeight();
  }

  lemma {:induction false} ShortWeight(s: seq<Tok>)
    requires forall k | 0 <= k < |s| :: Lexemes(s[k]) == 1
    ensures Weight(s) == |s|
  {
    hide Lexemes;
    if s != [] {
      ShortWeight(s[1..]);
    }
  }

  lemma InsideWeight()
    ensures Weight(Inside()) == 8
  {
    var s := Inside();
    forall k | 0 <= k < 8
      ensures Lexemes(s[k]) == 1
    {
      assert [s[k]][1..] == [];
      assert RawWeight([s[k]][1..]) == 0;
    }
    ShortWeight(s);
  }

  /** The scan after `a` succeeds exactly if a parenthesis follows the `>`. */
  lemma InsideTemplate(rest: seq<Tok>)
    requires rest != []
    ensures Template(Inside() + rest) <==> Follows(rest[0])
  {
    hide CloseAt, Weight, Follows;
    InsideCloses(rest);
    var s := Inside() + rest;
    assert s[..8] == Inside() && s[8] == rest[0];
  }

  /** The name `a` with what the second pass takes for its arguments. */
  function Bundled(): Tok {
    Bundle([Id("a"), Bin(Lt)] + Inside())
  }

  lemma InsideSize()
    ensures |Inside()| == 8 && Lexed(Inside())
  {
  }

  lemma BundledSealed()
    ensures Sealed(Bundled().raw, false)
  {
    hide Template, CloseAt, Inside;
    var raw := Bundled().raw;
    var s := raw + [LParen];
    InsideSize();
    assert s[2..] == Inside() + [LParen];
    InsideTemplate([LParen]);
    InsideCloses([LParen]);
    assert s[10] == LParen;
  }

  /** (m + (a<...>(d + e)) / q) */
  function Misread(): Expr {
    Paren(Binary(V("m"), Add, Quotient()))
  }

  function Quotient(): Expr {
    Binary(Paren(Call(Prim(Bundled()), MoreArgs(Sum(), NoArgs))), Div, V("q"))
  }

  function MisreadToks(): seq<Tok> {
    [LParen, Id("m"), Bin(Add), LParen, Bundled(), LParen, Id("d"), Bin(Add), Id("e"), RParen, RParen, Bin(Div), Id("q"), RParen]
  }

  lemma CallPrint()
    ensures var c := Call(Prim(Bundled()), MoreArgs(Sum(), NoArgs));
      Print(c) == [Bundled(), LParen, Id("d"), Bin(Add), Id("e"), RParen] && Rank(c) == 12
  {
    SumPrint();
    hide Sum;
    assert Print(Prim(Bundled())) == [Bundled()] && Rank(Prim(Bundled())) == 12;
  }

  lemma MisreadPrint()
    ensures Print(Misread()) == MisreadToks() && WellFormed(Misread())
  {
    hide Print, Rank, Sum, Bundled;
    var c := Call(Prim(Bundled()), MoreArgs(Sum(), NoArgs));
    CallPrint();
    NamePrint("m");
    NamePrint("q");
    ParenPrint(c);
    BinaryPrint(Paren(c), Div, V("q"));
    BinaryPrint(V("m"), Add, Quotient());
    ParenPrint(Binary(V("m"), Add, Quotient()));
  }

  /** The tokens after the first pass. */
  function Once(): seq<Tok> {
    ProductToks([LParen, Id("d"), Bin(Add), Id("e"), RParen])
  }

  lemma MisreadFolds()
    ensures Fold(Once(), false) == MisreadToks()
  {
    hide Fold, Good, Stable, Sealed;
    var es := MisreadToks();
    MisreadGood();
    MisreadStable();
    FoldFlat(es, false);
    MisreadFlat();
  }

  lemma MisreadFlat()
    ensures Flat(MisreadToks()) == Once()
  {
    hide Flat;
    var (a, b) := ([LParen, Id("m"), Bin(Add), LParen], [LParen, Id("d"), Bin(Add), Id("e"), RParen, RParen, Bin(Div), Id("q"), RParen]);
    assert MisreadToks() == (a + [Bundled()]) + b;
    FlatPlus(a + [Bundled()], b);
    FlatPlus(a, [Bundled()]);
    FlatOne(Bundled());
    FlatPlain(a);
    FlatPlain(b);
    assert Once() == a + Bundled().raw + b;
  }

  lemma BundledRaw()
    ensures Raw(Bundled()) == Bundled().raw && |Bundled().raw| == 10 && Bundled().raw[9] == Bin(Gt)
    ensures Bundled().raw[0] == Id("a")
  {
  }

  lemma MisreadStable()
    ensures Stable(MisreadToks(), false)
  {
    hide Stable, Inside;
    var es := MisreadToks();
    BundledRaw();
    NoLessStable(es, false);
  }

  lemma {:induction false} GoodPlain(a: seq<Tok>, b: seq<Tok>)
    requires Lexed(a) && (forall k | 0 <= k < |a| :: !a[k].Access?) && Good(b, false)
    ensures Good(a + b, false)
  {
    hide Sealed;
    if a == [] {
      assert a + b == b;
    } else {
      assert (a + b)[1..] == a[1..] + b;
      GoodPlain(a[1..], b);
    }
  }

  lemma MisreadGood()
    ensures Good(MisreadToks(), false)
  {
    hide Sealed, Good, Inside;
    var (a, b) := ([LParen, Id("m"), Bin(Add), LParen], [LParen, Id("d"), Bin(Add), Id("e"), RParen, RParen, Bin(Div), Id("q"), RParen]);
    assert MisreadToks() == a + ([Bundled()] + b);
    assert Good([], false) by { GoodNothing(); }
    GoodPlain(b, []);
    assert b + [] == b;
    BundledSealed();
    BundledRaw();
    GoodBundle(Bundled(), b);
    GoodPlain(a, [Bundled()] + b);
  }

  lemma GoodNothing()
    ensures Good([], false)
  {
  }

  lemma GoodBundle(t: Tok, rest: seq<Tok>)
    requires t.Bundle? && Sealed(t.raw, false) && !Raw(t)[0].Access? && Good(rest, false)
    ensures Good([t] + rest, false)
  {
    hide Sealed;
    assert ([t] + rest)[1..] == rest;
  }

  // ----- the first reading -----

  /** A single `<`, after which the scan fails. */
  lemma {:induction false} OneLessStable(es: seq<Tok>, k: nat)
    requires Lexed(es) && 0 < k < |es| && !Template(es[k + 1..])
    requires forall j | 0 <= j < |es| :: (es[j] == Bin(Lt) <==> j == k) && !es[j].Access?
    ensures Stable(es, false)
    decreases |es|
  {
    hide Template;
    var rest := es[1..];
    if k == 1 {
      assert es[2..] == es[k + 1..];
      LessThenStable(rest);
    } else {
      assert rest[k - 1 + 1..] == es[k + 1..];
      OneLessStable(rest, k - 1);
    }
  }

  lemma LessThenStable(es: seq<Tok>)
    requires Lexed(es) && es != [] && es[0] == Bin(Lt)
    requires forall j | 1 <= j < |es| :: es[j] != Bin(Lt)
    ensures Stable(es, false)
  {
    hide Template;
    NoLessStable(es[1..], false);
  }

  /** The tokens before any pass. */
  function Before(): seq<Tok> {
    ProductToks([Id("d"), Bin(Add), Id("e")])
  }

  lemma BeforeFolds()
    ensures Lexed(Before()) && Fold(Before(), false) == Before()
  {
    hide Fold, Good, Stable, Template;
    var ts := Before();
    assert ts[6..] == Inside() + [Id("d"), Bin(Add), Id("e"), RParen, Bin(Div), Id("q"), RParen];
    InsideTemplate([Id("d"), Bin(Add), Id("e"), RParen, Bin(Div), Id("q"), RParen]);
    OneLessStable(ts, 5);
    assert Good([], false) by { GoodNothing(); }
    GoodPlain(ts, []);
    assert ts + [] == ts;
    FoldFlat(ts, false);
    FlatPlain(ts);
  }

  lemma BeforeReads()
    ensures Lexed(Before()) && Reads(Before(), Product())
  {
    hide Print, Rank, Left, Right, Sum, Parse, Fold, ProductToks;
    SumPrint();
    ProductPrint(Sum());
    BeforeFolds();
    ParsePrint(Product());
  }

  lemma OnceIsRewritten()
    ensures RewriteToks(Before(), false) == Once()
  {
    hide Print, Rank, Left, Right, Sum, Parse, Fold, Flat, ProductToks, Hazardous;
    BeforeReads();
    ProductWrap();
    FoldRewritten(Before(), Product(), false);
    SumPrint();
    ParenPrint(Sum());
    ProductPrint(Paren(Sum()));
    assert Print(Paren(Sum())) == [LParen, Id("d"), Bin(Add), Id("e"), RParen];
    OncePlain();
  }

  lemma OncePlain()
    ensures Flat(Once()) == Once()
  {
    hide Flat;
    FlatPlain(Once());
  }

  // ----- the second pass -----

  lemma OnceReads()
    ensures Reads(Once(), Misread())
  {
    hide Print, Rank, Parse, Fold, Misread, MisreadToks;
    MisreadFolds();
    MisreadPrint();
    ParsePrint(Misread());
  }

  lemma MisreadBreaksRule()
    ensures !Compliant(Misread()) && Erase(Misread()) != Erase(Product())
  {
    assert Erase(Misread()).op == Add;
    assert Erase(Product()).op == Mul;
  }

  /** (m + ((a < b)) * ((c > (d + e)) / q)) */
  function Twice(): seq<Tok> {
    [LParen, Id("m"), Bin(Add), LParen] + Once()[3..] + [RParen]
  }

  function Changed(): Expr {
    Paren(Binary(V("m"), Add, Binary(Paren(Paren(Less())), Mul, Right(Paren(Sum())))))
  }

  lemma ChangedPrint()
    ensures Print(Changed()) == Twice() && WellFormed(Changed())
  {
    hide Print, Rank, Less, Sum, Right;
    SumPrint();
    ParenPrint(Sum());
    RightPrint(Paren(Sum()));
    ParenPrint(Less());
    ParenPrint(Paren(Less()));
    var r := Binary(Paren(Paren(Less())), Mul, Right(Paren(Sum())));
    BinaryPrint(Paren(Paren(Less())), Mul, Right(Paren(Sum())));
    NamePrint("m");
    BinaryPrint(V("m"), Add, r);
    ParenPrint(Binary(V("m"), Add, r));
  }

  /** The first pass over `(m + (a < b)) * ((c > d + e) / q)` adds the pair around
      d + e. The second takes everything from `a` to the `>` for one name, sees a
      sum with an unparenthesised quotient in it, and adds a pair around that; the
      result, read without the guess, is no longer a product. */
  lemma SecondPassChangesMeaning(after: Source)
    requires Toks(after.lx) == RewriteToks(Before(), false)
    ensures Lexed(Before()) && Reads(Before(), Product()) && Hazardous(Product(), false)
    ensures Reads(Toks(after.lx), Misread()) && ToolInserts(after, false) != []
    ensures RewriteToks(Toks(after.lx), false) == Twice()
    ensures Parse(Twice()) == Ok(Changed(), |Twice()|) && Erase(Changed()) != Erase(Product())
  {
    hide Print, Rank, Parse, Fold, Flat, Misread, Product, Hazardous, Changed, Erase, Compliant, RewriteToks, ToolInserts, Before, Once;
    BeforeReads();
    OnceIsRewritten();
    OnceReads();
    MisreadBreaksRule();
    BeforeAfter(after);
    TwiceIsRewritten();
    ChangedPrint();
    ParsePrint(Changed());
    ChangedMeaning();
  }

  lemma ChangedMeaning()
    ensures Erase(Changed()) != Erase(Product())
  {
    assert Erase(Changed()).op == Add;
    assert Erase(Product()).op == Mul;
  }

  /** The hazard, and what the second pass does about it. */
  lemma BeforeAfter(after: Source)
    requires Toks(after.lx) == Once() == RewriteToks(Before(), false)
    requires Lexed(Before()) && Reads(Before(), Product()) && Reads(Once(), Misread()) && !Compliant(Misread())
    ensures Hazardous(Product(), false) && ToolInserts(after, false) != []
  {
    hide Parse, Fold, Compliant, CompliantWhole, Misread, Product, RewriteToks, Before, Once, Hazardous, ToolInserts;
    SecondPassIff(Before(), Product(), after, false);
    RewritePreservesMeaning(Before(), Product(), false);
    ConditionRule(Misread());
  }

  /** Without an outer pair the rule is about operands alone. */
  lemma ConditionRule(e: Expr)
    ensures CompliantWhole(e, false) == Compliant(e)
  {
  }

  lemma MisreadWrap()
    ensures Wrap(Misread()) == Paren(Binary(V("m"), Add, Paren(Quotient())))
  {
    assert Wrap(Sum()) == Sum();
    assert Wrap(Quotient()) == Quotient();
  }

  lemma TwiceIsRewritten()
    ensures RewriteToks(Once(), false) == Twice()
  {
    hide Print, Rank, Parse, Fold, Flat, Hazardous;
    OnceReads();
    assert Lexed(Once());
    FoldRewritten(Once(), Misread(), false);
    MisreadWrap();
    TwicePrint();
    TwiceFlat();
  }

  function TwiceToks(): seq<Tok> {
    [LParen, Id("m"), Bin(Add), LParen] + MisreadToks()[3..] + [RParen]
  }

  lemma TwicePrint()
    ensures Print(Paren(Binary(V("m"), Add, Paren(Quotient())))) == TwiceToks()
  {
    hide Print, Rank, Sum, Bundled;
    var c := Call(Prim(Bundled()), MoreArgs(Sum(), NoArgs));
    CallPrint();
    NamePrint("m");
    NamePrint("q");
    ParenPrint(c);
    BinaryPrint(Paren(c), Div, V("q"));
    ParenPrint(Quotient());
    BinaryPrint(V("m"), Add, Paren(Quotient()));
    ParenPrint(Binary(V("m"), Add, Paren(Quotient())));
  }

  lemma TwiceFlat()
    ensures Flat(TwiceToks()) == Twice()
  {
    hide Flat, MisreadToks, Once;
    var (a, m, z) := ([LParen, Id("m"), Bin(Add), LParen], MisreadToks(), [RParen]);
    assert |m| == 14 && m[..3] == [LParen, Id("m"), Bin(Add)] by { MisreadStart(); }
    assert m == m[..3] + m[3..];
    FlatPlus(m[..3], m[3..]);
    FlatPlain(m[..3]);
    MisreadFlat();
    assert Flat(m[3..]) == Once()[3..];
    FlatPlus(a + m[3..], z);
    FlatPlus(a, m[3..]);
    FlatPlain(a);
    FlatPlain(z);
  }

  lemma MisreadStart()
    ensures |MisreadToks()| == 14 && MisreadToks()[..3] == [LParen, Id("m"), Bin(Add)]
  {
  }

  // ----- a < b > c + d -----

  function Plus(): Expr {
    Binary(V("c"), Add, V("d"))
  }

  function Chain(): Expr {
    Binary(Less(), Gt, Plus())
  }

  function ChainToks(): seq<Tok> {
    [Id("a"), Bin(Lt), Id("b"), Bin(Gt), Id("c"), Bin(Add), Id("d")]
  }

  /** The name `a` with `b` for its argument. */
  function Named(): Tok {
    Bundle([Id("a"), Bin(Lt), Id("b"), Bin(Gt)])
  }

  function ChainCall(): Expr {
    Call(Prim(Named()), MoreArgs(Plus(), NoArgs))
  }

  function ChainCallToks(): seq<Tok> {
    [Named(), LParen, Id("c"), Bin(Add), Id("d"), RParen]
  }

  lemma PlusPrint()
    ensures Print(Plus()) == [Id("c"), Bin(Add), Id("d")] && Rank(Plus()) == 9
  {
    hide Print, Rank;
    NamePrint("c");
    NamePrint("d");
    BinaryPrint(V("c"), Add, V("d"));
  }

  /** The scan after `a` succeeds exactly if a parenthesis follows the `>`. */
  lemma ChainTemplate(rest: seq<Tok>)
    requires rest != []
    ensures Template([Id("b"), Bin(Gt)] + rest) <==> Follows(rest[0])
    ensures CloseAt([Id("b"), Bin(Gt)] + rest, 1) == 1
  {
    hide CloseAt, Weight, Follows, Lexemes;
    var s := [Id("b"), Bin(Gt)] + rest;
    ClosesFirst(s, 1);
    assert s[..2] == [Id("b"), Bin(Gt)];
    PairWeight();
    ShortWeight(s[..2]);
  }

  lemma PairWeight()
    ensures Lexemes(Id("b")) == 1 && Lexemes(Bin(Gt)) == 1
  {
    assert [Id("b")][1..] == [] && [Bin(Gt)][1..] == [];
    assert RawWeight([Id("b")][1..]) == 0 && RawWeight([Bin(Gt)][1..]) == 0;
  }

  lemma ChainFolds()
    ensures Lexed(ChainToks()) && Fold(ChainToks(), false) == ChainToks()
  {
    hide Fold, Good, Stable, Template;
    var ts := ChainToks();
    assert ts[2..] == [Id("b"), Bin(Gt)] + [Id("c"), Bin(Add), Id("d")];
    ChainTemplate([Id("c"), Bin(Add), Id("d")]);
    OneLessStable(ts, 1);
    assert Good([], false) by { GoodNothing(); }
    GoodPlain(ts, []);
    assert ts + [] == ts;
    FoldFlat(ts, false);
    FlatPlain(ts);
  }

  lemma ChainReads()
    ensures Lexed(ChainToks()) && Reads(ChainToks(), Chain())
  {
    hide Print, Rank, Parse, Fold, Less, Plus;
    SumPrint();
    PlusPrint();
    BinaryPrint(Less(), Gt, Plus());
    assert Print(Chain()) == ChainToks();
    ParsePrint(Chain());
    ChainFolds();
  }

  lemma NamedSealed()
    ensures Sealed(Named().raw, false)
  {
    hide Template, CloseAt;
    var s := Named().raw + [LParen];
    assert s[2..] == [Id("b"), Bin(Gt)] + [LParen];
    ChainTemplate([LParen]);
    assert s[4] == LParen;
  }

  lemma ChainCallPrint()
    ensures Print(ChainCall()) == ChainCallToks() && Rank(ChainCall()) == 12
  {
    PlusPrint();
    hide Plus;
    assert Print(Prim(Named())) == [Named()] && Rank(Prim(Named())) == 12;
  }

  lemma ChainCallReads()
    ensures Fold(Flat(ChainCallToks()), false) == ChainCallToks() && Reads(Flat(ChainCallToks()), ChainCall())
  {
    hide Print, Rank, Parse, Fold, Flat, Good, Stable, Sealed, ChainCall;
    var (es, b) := (ChainCallToks(), [LParen, Id("c"), Bin(Add), Id("d"), RParen]);
    assert es == [Named()] + b;
    assert Good([], false) by { GoodNothing(); }
    GoodPlain(b, []);
    assert b + [] == b;
    NamedSealed();
    GoodBundle(Named(), b);
    NoLessStable(es, false);
    FoldFlat(es, false);
    ChainCallPrint();
    ParsePrint(ChainCall());
  }

  lemma ChainRewritten()
    ensures RewriteToks(ChainToks(), false) == Flat(ChainCallToks())
  {
    hide Print, Rank, Parse, Fold, Flat, Hazardous;
    ChainReads();
    FoldRewritten(ChainToks(), Chain(), false);
    ChainWrap();
    SumPrint();
    PlusPrint();
    ParenPrint(Plus());
    BinaryPrint(Less(), Gt, Paren(Plus()));
    var (ts, b) := (ChainToks(), [LParen, Id("c"), Bin(Add), Id("d"), RParen]);
    assert Print(Wrap(Chain())) == Named().raw + b;
    FlatPlain(Named().raw + b);
    FlatCons(Named(), b);
    FlatPlain(b);
    assert ChainCallToks() == [Named()] + b;
  }

  lemma ChainWrap()
    ensures Wrap(Chain()) == Binary(Less(), Gt, Paren(Plus()))
  {
    assert Wrap(Less()) == Less() && Wrap(Plus()) == Plus();
  }

  /** The tool reads `a < b > c + d` as comparisons, adds the pair around c + d, and
      then reads a call of a<b>. That obeys the rule, so nothing more is added. */
  lemma ChainBecomesCall(after: Source)
    requires Toks(after.lx) == RewriteToks(ChainToks(), false)
    ensures Lexed(ChainToks()) && Reads(ChainToks(), Chain()) && Hazardous(Chain(), false)
    ensures Reads(Toks(after.lx), ChainCall()) && ToolInserts(after, false) == []
  {
    hide Parse, Fold, Flat, Hazardous, RewriteToks, ToolInserts, Compliant, CompliantWhole, ChainToks, ChainCallToks;
    ChainReads();
    ChainRewritten();
    ChainCallReads();
    SecondPassIff(ChainToks(), Chain(), after, false);
    RewritePreservesMeaning(ChainToks(), Chain(), false);
    ChainWrap();
    ChainCallRule();
  }

  lemma ChainCallRule()
    ensures CompliantWhole(ChainCall(), false) && ChainCall() != WrapWhole(Chain(), false)
  {
  }
}
