/** Which rewrites change what the template guess makes of an expression, and
    what a second pass does then. */
module CppTemplate {
  import opened Prelude
  import opened CppSyntax
  import opened CppParser
  import opened CppRewrite
  import opened CppSplice
  import opened CppText
  import opened CppFold

  // ----- the scan over a row with parentheses -----

  lemma {:induction false} CloseParens(t: Tok, n: nat, rest: seq<Tok>, depth: nat)
    requires (t.LParen? || t.RParen?) && depth > 0
    ensures CloseAt(Copies(t, n) + rest, depth) == Shift(CloseAt(rest, depth), n)
  {
    hide Depth;
    var s := Copies(t, n) + rest;
    if n == 0 {
      assert s == rest;
    } else {
      assert s[0] == t && s[1..] == Copies(t, n - 1) + rest;
      ParenDepth(t, depth);
      CloseParens(t, n - 1, rest, depth);
    }
  }

  lemma ParenDepth(t: Tok, depth: nat)
    requires (t.LParen? || t.RParen?) && depth > 0
    ensures Depth(t, depth) == depth
  {
  }

  /** Where the token of cell `j` stands among the spelled-out tokens. */
  function Off(cs: seq<Cell>, j: nat): nat
    requires j < |cs|
  {
    if j == 0 then cs[0].opens else cs[0].opens + 1 + cs[0].closes + Off(cs[1..], j - 1)
  }

  /** Their weight up to and including that token. */
  function Spread(cs: seq<Cell>, j: nat): nat
    requires j < |cs|
  {
    if j == 0 then cs[0].opens + Lexemes(cs[0].tok)
    else cs[0].opens + Lexemes(cs[0].tok) + cs[0].closes + Spread(cs[1..], j - 1)
  }

  lemma ExpandCons(cs: seq<Cell>)
    requires cs != []
    ensures Expand(cs) == Copies(LParen, cs[0].opens) + ([cs[0].tok] + (Copies(RParen, cs[0].closes) + Expand(cs[1..])))
  {
    assert cs == [cs[0]] + cs[1..];
    ExpandPlus([cs[0]], cs[1..]);
    ExpandOne(cs[0]);
  }

  lemma CellToksRest(cs: seq<Cell>)
    requires cs != []
    ensures CellToks(cs)[1..] == CellToks(cs[1..])
  {
  }

  /** Added parentheses neither open nor close brackets. */
  lemma {:induction false} CloseExpand(cs: seq<Cell>, depth: nat)
    requires depth > 0
    ensures var j := CloseAt(CellToks(cs), depth);
      CloseAt(Expand(cs), depth) == if j < 0 then -1 else Off(cs, j)
    decreases |cs|
  {
    hide Expand, Copies, CellToks, Depth;
    if cs == [] {
      assert Expand(cs) == [] by { ExpandNothing(); }
    } else {
      var (c, rest) := (cs[0], cs[1..]);
      var after := Copies(RParen, c.closes) + Expand(rest);
      ExpandCons(cs);
      CloseParens(LParen, c.opens, [c.tok] + after, depth);
      assert ([c.tok] + after)[1..] == after;
      CellToksRest(cs);
      var d := Depth(c.tok, depth);
      if d > 0 {
        CloseParens(RParen, c.closes, Expand(rest), d);
        CloseExpand(rest, d);
      }
    }
  }

  lemma ExpandNothing()
    ensures Expand([]) == []
  {
  }

  lemma {:induction false} WeightCopies(t: Tok, n: nat)
    requires t.LParen? || t.RParen?
    ensures Weight(Copies(t, n)) == n
  {
    if n > 0 {
      assert Copies(t, n)[1..] == Copies(t, n - 1);
      WeightCopies(t, n - 1);
      assert Lexemes(t) == 1 by {
        assert [t][1..] == [];
        assert RawWeight([t][1..]) == 0;
      }
    }
  }

  /** The tokens spelled out up to cell `j`, itself, and after it. */
  lemma {:induction false} ExpandSplit(cs: seq<Cell>, j: nat)
    requires j < |cs|
    ensures var (q, all) := (Off(cs, j), Expand(cs));
      && all == Expand(cs[..j]) + Copies(LParen, cs[j].opens) + [cs[j].tok] + Copies(RParen, cs[j].closes) + Expand(cs[j + 1..])
      && q == |Expand(cs[..j])| + cs[j].opens
    decreases j
  {
    var (front, c, back) := (cs[..j], cs[j], cs[j + 1..]);
    assert cs == (front + [c]) + back;
    ExpandPlus(front + [c], back);
    ExpandPlus(front, [c]);
    ExpandOne(c);
    OffIs(cs, j);
  }

  lemma {:induction false} OffIs(cs: seq<Cell>, j: nat)
    requires j < |cs|
    ensures Off(cs, j) == |Expand(cs[..j])| + cs[j].opens
    decreases j
  {
    hide Expand;
    if j == 0 {
      ExpandNothing();
    } else {
      OffIs(cs[1..], j - 1);
      ExpandCons(cs[..j]);
      assert cs[..j][1..] == cs[1..][..j - 1];
    }
  }

  lemma {:induction false} SpreadIs(cs: seq<Cell>, j: nat)
    requires j < |cs|
    ensures Off(cs, j) < |Expand(cs)| && Weight(Expand(cs)[..Off(cs, j) + 1]) == Spread(cs, j)
    decreases j
  {
    hide Expand, Weight, Lexemes;
    var (c, rest) := (cs[0], cs[1..]);
    var after := Copies(RParen, c.closes) + Expand(rest);
    ExpandCons(cs);
    WeightCopies(LParen, c.opens);
    WeightOne(c.tok);
    WeightCopies(RParen, c.closes);
    if j == 0 {
      assert Expand(cs)[..c.opens + 1] == Copies(LParen, c.opens) + [c.tok];
      WeightPlus(Copies(LParen, c.opens), [c.tok]);
    } else {
      var n := Off(rest, j - 1) + 1;
      SpreadIs(rest, j - 1);
      var front := Copies(LParen, c.opens) + [c.tok] + Copies(RParen, c.closes);
      assert Expand(cs)[..Off(cs, j) + 1] == front + Expand(rest)[..n];
      WeightPlus(front, Expand(rest)[..n]);
      WeightPlus(Copies(LParen, c.opens) + [c.tok], Copies(RParen, c.closes));
      WeightPlus(Copies(LParen, c.opens), [c.tok]);
    }
  }

  // ----- which rewrites change a reading -----

  /** The scan after a `<` over the cells that follow it, `closes` parentheses
      first: it closes before an added parenthesis or a token that may follow, and
      with the added parentheses stays within its limit. */
  predicate Scan(closes: nat, rest: seq<Cell>) {
    var j := CloseAt(CellToks(rest), 1);
    && j >= 0 && j + 1 < |rest| && closes + Spread(rest, j) <= SCAN_LIMIT
    && rest[j].closes == 0 && (rest[j + 1].opens > 0 || Follows(rest[j + 1].tok))
  }

  /** The first token of a row. */
  lemma FirstOf(cs: seq<Cell>)
    requires cs != []
    ensures |Expand(cs)| > 0 && Expand(cs)[0] == if cs[0].opens > 0 then LParen else cs[0].tok
  {
    ExpandCons(cs);
  }

  /** The scan through closing parentheses first. */
  lemma TemplateShifted(closes: nat, es: seq<Tok>)
    ensures var q := CloseAt(es, 1);
      Template(Copies(RParen, closes) + es) <==>
        q >= 0 && closes + Weight(es[..q + 1]) <= SCAN_LIMIT && q + 1 < |es| && Follows(es[q + 1])
  {
    hide CloseAt, Weight, Follows, Copies;
    var ts := Copies(RParen, closes) + es;
    var q := CloseAt(es, 1);
    CloseParens(RParen, closes, es, 1);
    if q >= 0 {
      WeightCopies(RParen, closes);
      WeightPlus(Copies(RParen, closes), es[..q + 1]);
      assert ts[..closes + q + 1] == Copies(RParen, closes) + es[..q + 1];
      assert q + 1 < |es| ==> ts[closes + q + 1] == es[q + 1];
    }
  }

  /** The scan after a cell in the spelled-out row. */
  lemma TemplateExpand(closes: nat, rest: seq<Cell>)
    ensures Template(Copies(RParen, closes) + Expand(rest)) <==> Scan(closes, rest)
  {
    hide CloseAt, Weight, Expand, Off, Spread, Follows, CellToks, Template, Copies;
    var j := CloseAt(CellToks(rest), 1);
    TemplateShifted(closes, Expand(rest));
    CloseExpand(rest, 1);
    if j >= 0 {
      SpreadIs(rest, j);
      NextAfter(rest, j);
    }
  }

  /** What follows the token of cell `j`. */
  lemma NextAfter(cs: seq<Cell>, j: nat)
    requires j < |cs|
    ensures var (q, all) := (Off(cs, j), Expand(cs));
      q + 1 < |all| && Follows(all[q + 1]) <==>
        j + 1 < |cs| && cs[j].closes == 0 && (cs[j + 1].opens > 0 || Follows(cs[j + 1].tok))
  {
    ExpandSplit(cs, j);
    var (q, all, back) := (Off(cs, j), Expand(cs), cs[j + 1..]);
    var after := Copies(RParen, cs[j].closes) + Expand(back);
    assert all[q + 1..] == after;
    assert q + 1 < |all| ==> all[q + 1] == all[q + 1..][0];
    if cs[j].closes == 0 {
      assert after == Expand(back);
      if back != [] {
        FirstOf(back);
      } else {
        ExpandNothing();
      }
    }
  }

  /** The tool looks for template arguments after this token. */
  predicate Asks(t: Tok, member: bool) {
    if |Raw(t)| > 1 then IsName(Raw(t)[|Raw(t)| - 1]) else member || IsName(t)
  }

  /** With the added parentheses a `<` right after the first cell starts template
      arguments. */
  predicate HazardHere(cs: seq<Cell>, member: bool)
    requires cs != []
  {
    && Asks(cs[0].tok, member) && cs[0].closes == 0
    && |cs| > 1 && cs[1].tok == Bin(Lt) && cs[1].opens == 0 && Scan(cs[1].closes, cs[2..])
  }

  predicate Hazard(cs: seq<Cell>, member: bool) {
    cs != [] && (HazardHere(cs, member) || Hazard(cs[1..], Next(Raw(cs[0].tok)[0], member)))
  }

  /** Parentheses are added neither between an access operator and its member, nor
      after a token before something that may follow template arguments. */
  ghost predicate Tidy(cs: seq<Cell>, member: bool) {
    cs != [] ==>
      var m := Next(Raw(cs[0].tok)[0], member);
      && (member ==> cs[0].opens == 0) && (m ==> cs[0].closes == 0)
      && (cs[0].closes > 0 && |cs| > 1 ==> !Follows(cs[1].tok))
      && Tidy(cs[1..], m)
  }

  lemma {:induction false} ParensStable(t: Tok, n: nat, rest: seq<Tok>)
    requires t.LParen? || t.RParen?
    ensures Stable(Copies(t, n) + rest, false) == Stable(rest, false)
    ensures Good(Copies(t, n) + rest, false) == Good(rest, false)
  {
    hide HeadStable;
    var s := Copies(t, n) + rest;
    if n == 0 {
      assert s == rest;
    } else {
      assert s[0] == t && s[1..] == Copies(t, n - 1) + rest;
      ParenHead(s);
      ParensStable(t, n - 1, rest);
    }
  }

  lemma ParenHead(s: seq<Tok>)
    requires s != [] && (s[0].LParen? || s[0].RParen?)
    ensures HeadStable(s, false)
  {
    hide Template;
  }

  /** Parentheses around one token, in front of others. */
  lemma CellStable(c: Cell, rest: seq<Tok>, member: bool)
    requires (member ==> c.opens == 0) && (Next(Raw(c.tok)[0], member) ==> c.closes == 0)
    ensures var (after, m) := (Copies(RParen, c.closes) + rest, Next(Raw(c.tok)[0], member));
      var all := Copies(LParen, c.opens) + ([c.tok] + after);
      && (Stable(all, member) <==> HeadStable([c.tok] + after, member) && Stable(rest, m))
      && (Good(all, member) <==> (c.tok.Bundle? ==> Sealed(c.tok.raw, member)) && Good(rest, m))
  {
    hide HeadStable, Sealed;
    var (after, m) := (Copies(RParen, c.closes) + rest, Next(Raw(c.tok)[0], member));
    assert ([c.tok] + after)[1..] == after;
    if c.opens > 0 {
      ParensStable(LParen, c.opens, [c.tok] + after);
    } else {
      assert Copies(LParen, 0) + ([c.tok] + after) == [c.tok] + after;
    }
    if c.closes > 0 {
      ParensStable(RParen, c.closes, rest);
    } else {
      assert after == rest;
    }
  }

  lemma {:induction false} GoodExpand(cs: seq<Cell>, member: bool)
    requires Tidy(cs, member) && Good(CellToks(cs), member)
    ensures Good(Expand(cs), member)
    decreases |cs|
  {
    hide Expand, CellToks, Sealed;
    if cs == [] {
      ExpandNothing();
    } else {
      ExpandCons(cs);
      CellToksRest(cs);
      CellToksFirst(cs);
      GoodExpand(cs[1..], Next(Raw(cs[0].tok)[0], member));
      CellStable(cs[0], Expand(cs[1..]), member);
    }
  }

  lemma CellToksFirst(cs: seq<Cell>)
    requires cs != []
    ensures CellToks(cs) == [cs[0].tok] + CellToks(cs[1..])
  {
  }

  /** How the first token of a row is read, parentheses added. */
  lemma HeadExpand(cs: seq<Cell>, member: bool)
    requires cs != [] && Tidy(cs, member) && HeadStable(CellToks(cs), member)
    ensures HeadStable([cs[0].tok] + (Copies(RParen, cs[0].closes) + Expand(cs[1..])), member) <==> !HazardHere(cs, member)
  {
    hide Template, Scan, Expand, Copies, CellToks, Tidy, Follows;
    var (c, rest) := (cs[0], cs[1..]);
    var after := Copies(RParen, c.closes) + Expand(rest);
    CellToksFirst(cs);
    if Asks(c.tok, member) {
      var last := Raw(c.tok)[|Raw(c.tok)| - 1];
      AskedExpand(last, c.closes, rest, if |Raw(c.tok)| > 1 then false else member);
      assert ([c.tok] + after)[1..] == after;
    } else if |Raw(c.tok)| > 1 {
      KeepsExpand(cs, member);
      assert ([c.tok] + after)[1..] == after;
    }
  }

  /** After a name the tool asks for a `<`. */
  lemma AskedExpand(t: Tok, closes: nat, rest: seq<Cell>, member: bool)
    requires member || IsName(t)
    ensures Guesses([t] + (Copies(RParen, closes) + Expand(rest)), member) <==>
      closes == 0 && rest != [] && rest[0].tok == Bin(Lt) && rest[0].opens == 0 && Scan(rest[0].closes, rest[1..])
  {
    hide Template, Scan, Expand;
    var after := Copies(RParen, closes) + Expand(rest);
    var s := [t] + after;
    assert closes > 0 ==> s[1] == RParen;
    if closes == 0 {
      assert after == Expand(rest);
      if rest == [] {
        ExpandNothing();
      } else {
        FirstOf(rest);
        if rest[0].opens == 0 {
          ExpandCons(rest);
          assert s[2..] == Copies(RParen, rest[0].closes) + Expand(rest[1..]);
          TemplateExpand(rest[0].closes, rest[1..]);
        }
      }
    }
  }

  /** What follows template arguments still does. */
  lemma KeepsExpand(cs: seq<Cell>, member: bool)
    requires cs != [] && Tidy(cs, member) && |Raw(cs[0].tok)| > 1 && !Asks(cs[0].tok, member)
    requires Keeps(Raw(cs[0].tok), CellToks(cs[1..]), member)
    ensures Keeps(Raw(cs[0].tok), Copies(RParen, cs[0].closes) + Expand(cs[1..]), member)
  {
    hide Guesses, Expand;
    var rest := cs[1..];
    assert rest != [] && CellToks(rest)[0] == cs[1].tok;
    FirstOf(rest);
    assert Copies(RParen, 0) + Expand(rest) == Expand(rest);
  }

  /** A row is read as it stands, parentheses added, exactly if it has no hazard. */
  lemma {:induction false} StableExpand(cs: seq<Cell>, member: bool)
    requires Tidy(cs, member) && Stable(CellToks(cs), member)
    ensures Stable(Expand(cs), member) <==> !Hazard(cs, member)
    decreases |cs|
  {
    hide Expand, CellToks, HeadStable, HazardHere;
    if cs == [] {
      ExpandNothing();
    } else {
      ExpandCons(cs);
      CellToksFirst(cs);
      StableExpand(cs[1..], Next(Raw(cs[0].tok)[0], member));
      HeadExpand(cs, member);
      CellStable(cs[0], Expand(cs[1..]), member);
    }
  }

  // ----- the rows of a rewrite are tidy -----

  /** Whether a member name has to follow the row. */
  predicate After(cs: seq<Cell>, member: bool) {
    if cs == [] then member else After(cs[1..], Next(Raw(cs[0].tok)[0], member))
  }

  ghost predicate Seam(a: seq<Cell>, b: seq<Cell>) {
    a != [] && b != [] && a[|a| - 1].closes > 0 ==> !Follows(b[0].tok)
  }

  lemma {:induction false} TidyPlus(a: seq<Cell>, b: seq<Cell>, member: bool)
    ensures Tidy(a + b, member) <==> Tidy(a, member) && Tidy(b, After(a, member)) && Seam(a, b)
    ensures After(a + b, member) == After(b, After(a, member))
  {
    hide Follows;
    if a == [] {
      assert a + b == b;
    } else {
      assert (a + b)[1..] == a[1..] + b;
      TidyPlus(a[1..], b, Next(Raw(a[0].tok)[0], member));
      if |a| == 1 {
        assert |a + b| > 1 ==> (a + b)[1] == b[0];
      } else {
        assert a[1..][|a[1..]| - 1] == a[|a| - 1];
      }
    }
  }

  /** A row that is tidy and complete. */
  ghost predicate Neat(cs: seq<Cell>) {
    Tidy(cs, false) && !After(cs, false)
  }

  lemma NeatPlain(t: Tok)
    requires !Raw(t)[0].Access?
    ensures Neat([Plain(t)])
  {
    assert [Plain(t)][1..] == [];
  }

  lemma NeatPlus(a: seq<Cell>, b: seq<Cell>)
    requires Neat(a) && Neat(b) && Seam(a, b)
    ensures Neat(a + b)
  {
    hide Tidy, After, Seam;
    TidyPlus(a, b, false);
  }

  lemma NeatJoin(a: seq<Cell>, t: Tok, b: seq<Cell>)
    requires Neat(a) && Neat(b) && !Raw(t)[0].Access? && (a != [] && a[|a| - 1].closes > 0 ==> !Follows(t))
    ensures Neat(a + [Plain(t)] + b)
  {
    hide Neat;
    NeatPlain(t);
    NeatPlus(a, [Plain(t)]);
    NeatPlus(a + [Plain(t)], b);
  }

  lemma NeatSnoc(a: seq<Cell>, t: Tok)
    requires Neat(a) && !Raw(t)[0].Access? && (a != [] && a[|a| - 1].closes > 0 ==> !Follows(t))
    ensures Neat(a + [Plain(t)])
  {
    hide Neat;
    NeatPlain(t);
    NeatPlus(a, [Plain(t)]);
  }

  lemma NeatCons(t: Tok, b: seq<Cell>)
    requires Neat(b) && !Raw(t)[0].Access?
    ensures Neat([Plain(t)] + b)
  {
    hide Neat;
    NeatPlain(t);
    NeatPlus([Plain(t)], b);
  }

  lemma NeatMember(a: seq<Cell>, t: Tok, n: Tok)
    requires Neat(a) && t.Access?
    ensures Neat(a + [Plain(t), Plain(n)])
  {
    var b := [Plain(t), Plain(n)];
    var last := [Plain(n)];
    assert last[1..] == [];
    assert Tidy(last, true) && !After(last, true);
    assert b[1..] == last;
    assert Tidy(b, false) && !After(b, false);
    TidyPlus(a, b, false);
  }

  lemma NeatEnclose(b: bool, cs: seq<Cell>)
    requires Neat(cs) && |cs| > 0
    ensures Neat(EncloseIf(b, cs))
    ensures !b ==> EncloseIf(b, cs) == cs
  {
    if b {
      NeatOpen(cs);
      NeatClose(AddOpen(cs));
    }
  }

  lemma NeatOpen(cs: seq<Cell>)
    requires Neat(cs) && |cs| > 0
    ensures Neat(AddOpen(cs))
  {
    var r := AddOpen(cs);
    assert r[1..] == cs[1..];
  }

  lemma NeatClose(cs: seq<Cell>)
    requires Neat(cs) && |cs| > 0
    ensures Neat(AddClose(cs))
  {
    var (front, last) := (cs[..|cs| - 1], cs[|cs| - 1]);
    var more := last.(closes := last.closes + 1);
    assert cs == front + [last] && AddClose(cs) == front + [more];
    TidyPlus(front, [last], false);
    TidyPlus(front, [more], false);
    assert [last][1..] == [] && [more][1..] == [];
  }

  /** A postfix form ends with no added parenthesis. */
  lemma LastPlain(e: Expr)
    requires Rank(e) >= 12
    ensures var cs := Outline(e); cs[|cs| - 1].closes == 0
  {
  }

  lemma {:induction false} OutlineNeat(e: Expr)
    requires Rank(e) >= -2
    ensures Neat(Outline(e))
    decreases e, 1
  {
    hide EncloseIf, Neat, Row, Follows;
    match e
    case Prim(t) => NeatPlain(t);
    case Paren(x) => GroupNeat(x);
    case KeywordGroup(kw, x) =>
      GroupNeat(x);
      NeatCons(kw, [Plain(LParen)] + Outline(x) + [Plain(RParen)]);
      assert Outline(e) == [Plain(kw)] + ([Plain(LParen)] + Outline(x) + [Plain(RParen)]);
    case KeywordUnary(kw, x) => OutlineNeat(x); NeatCons(kw, Outline(x));
    case Unary(t, x) => OutlineNeat(x); NeatCons(t, Outline(x));
    case Postfix(b, t) => OutlineNeat(b); LastPlain(b); NeatSnoc(Outline(b), t);
    case Member(b, t, n) => OutlineNeat(b); NeatMember(Outline(b), t, n);
    case Index(b, x) =>
      OutlineNeat(b);
      OutlineNeat(x);
      LastPlain(b);
      NeatJoin(Outline(b), LBracket, Outline(x));
      InfixFollows(RBracket);
      NeatSnoc(Outline(b) + [Plain(LBracket)] + Outline(x), RBracket);
    case Call(b, a) =>
      OutlineNeat(b);
      ArgsNeat(a);
      LastPlain(b);
      NeatJoin(Outline(b), LParen, OutlineArgs(a));
      InfixFollows(RParen);
      NeatSnoc(Outline(b) + [Plain(LParen)] + OutlineArgs(a), RParen);
    case Binary(l, op, r) =>
      var (p, q) := (Compound(l) && !SameChain(l, op), Compound(r));
      RowNeat(p, l);
      RowNeat(q, r);
      InfixFollows(Bin(op));
      NeatJoin(Row(p, l), Bin(op), Row(q, r));
    case Ternary(c, t, f) => TernaryNeat(c, t, f);
    case Assign(l, op, r) =>
      OutlineNeat(l);
      OutlineNeat(r);
      InfixFollows(Assigner(op));
      NeatJoin(Outline(l), Assigner(op), Outline(r));
  }

  lemma {:induction false} TernaryNeat(c: Expr, t: Expr, f: Expr)
    requires Rank(Ternary(c, t, f)) >= -2
    ensures Neat(Outline(Ternary(c, t, f)))
    decreases Ternary(c, t, f), 0
  {
    hide EncloseIf, Neat, Row, Follows;
    RowNeat(Compound(c), c);
    RowNeat(Compound(t), t);
    RowNeat(Compound(f), f);
    InfixFollows(Question);
    InfixFollows(Colon);
    NeatJoin(Row(Compound(c), c), Question, Row(Compound(t), t));
    NeatJoin(Row(Compound(c), c) + [Plain(Question)] + Row(Compound(t), t), Colon, Row(Compound(f), f));
  }

  /** No operator may follow template arguments. */
  lemma InfixFollows(t: Tok)
    requires t.Bin? || t.Question? || t.Colon? || t.Assigner? || t.Comma? || t.RParen? || t.RBracket?
    ensures !Follows(t) && !Raw(t)[0].Access?
  {
  }

  lemma {:induction false} GroupNeat(x: Expr)
    requires Rank(x) >= -2
    ensures Neat([Plain(LParen)] + Outline(x) + [Plain(RParen)])
    decreases x, 2
  {
    hide Outline, Neat, Follows;
    OutlineNeat(x);
    NeatCons(LParen, Outline(x));
    InfixFollows(RParen);
    NeatSnoc([Plain(LParen)] + Outline(x), RParen);
  }

  lemma {:induction false} RowNeat(b: bool, x: Expr)
    requires Rank(x) >= -2
    ensures Neat(Row(b, x))
    decreases x, 2
  {
    hide Outline, Neat, EncloseIf;
    OutlineNeat(x);
    NeatEnclose(b, Outline(x));
  }

  lemma {:induction false} ArgsNeat(a: Args)
    requires RankArgs(a) >= -2
    ensures Neat(OutlineArgs(a))
    decreases a, 1
  {
    hide Outline, Follows;
    if a.MoreArgs? {
      OutlineNeat(a.head);
      ArgsNeat(a.tail);
      if a.tail.MoreArgs? {
        InfixFollows(Comma);
        NeatJoin(Outline(a.head), Comma, OutlineArgs(a.tail));
      }
    }
  }

  // ----- what the tool reads, before and after -----

  /** The tool reads the tokens `ts` as the tree `e`. */
  ghost predicate Reads(ts: seq<Tok>, e: Expr) {
    Parse(Fold(ts, false)) == Ok(e, |Fold(ts, false)|)
  }

  /** The tokens of the rewritten text; a text the tool cannot read stays as it is. */
  function RewriteToks(ts: seq<Tok>, outer: bool): seq<Tok> {
    if Parse(Fold(ts, false)).Ok? then Flat(Rewrite(Fold(ts, false), outer)) else ts
  }

  /** The added parentheses let the tool take a `<` of `e` for a bracket. */
  ghost predicate Hazardous(e: Expr, outer: bool) {
    Hazard(Row(outer && Compound(e), e), false)
  }

  lemma ParsesWhole(ts: seq<Tok>)
    requires Parse(ts).Ok?
    ensures Parse(ts).next == |ts|
  {
  }

  lemma RowSpells(e: Expr, outer: bool)
    ensures Expand(Row(outer && Compound(e), e)) == Print(WrapWhole(e, outer))
  {
    hide Expand, Print, Row, Wrap;
    RowExpand(outer && Compound(e), e);
  }

  /** The rewritten tokens fold back to the printing of the wrapped tree exactly if
      there is no hazard. */
  lemma FoldRewritten(ts: seq<Tok>, e: Expr, outer: bool)
    requires Lexed(ts) && Reads(ts, e)
    ensures RewriteToks(ts, outer) == Flat(Print(WrapWhole(e, outer)))
    ensures Lexed(RewriteToks(ts, outer))
    ensures Fold(RewriteToks(ts, outer), false) == Print(WrapWhole(e, outer)) <==> !Hazardous(e, outer)
  {
    hide Fold, Flat, Parse, Print, Wrap, Row, Expand, Stable, Good, Hazard, CellToks, Rank, Neat;
    var f := Fold(ts, false);
    var b := outer && Compound(e);
    var cs := Row(b, e);
    ParseSound(f);
    RowToks(b, e);
    RowSpells(e, outer);
    FoldGood(ts, false);
    FoldStable(ts, false);
    RowNeat(b, e);
    NeatTidy(cs);
    GoodExpand(cs, false);
    StableExpand(cs, false);
    FoldFlat(Expand(cs), false);
    FlatSource(Expand(cs), false);
  }

  lemma NeatTidy(cs: seq<Cell>)
    requires Neat(cs)
    ensures Tidy(cs, false)
  {
  }

  lemma {:induction false} LexedExpand(cs: seq<Cell>)
    requires Lexed(CellToks(cs))
    ensures Lexed(Expand(cs))
    decreases |cs|
  {
    hide Expand;
    if cs == [] {
      ExpandNothing();
    } else {
      ExpandCons(cs);
      CellToksFirst(cs);
      LexedParts(CellToks(cs), 1);
      LexedExpand(cs[1..]);
      assert CellToks(cs)[0] == cs[0].tok;
    }
  }

  /** Where the tool guessed nothing, it guesses something after the rewrite
      exactly if there is a hazard. */
  lemma GuessesIff(ts: seq<Tok>, e: Expr, outer: bool)
    requires Lexed(ts) && Reads(ts, e) && Fold(ts, false) == ts
    ensures var again := RewriteToks(ts, outer); Fold(again, false) == again <==> !Hazardous(e, outer)
  {
    hide Fold, Flat, Parse, Print, Wrap, Row, Expand, Hazardous, RewriteToks, Lexed;
    var b := outer && Compound(e);
    FoldRewritten(ts, e, outer);
    ParseSound(ts);
    RowToks(b, e);
    RowSpells(e, outer);
    LexedExpand(Row(b, e));
    FlatPlain(Expand(Row(b, e)));
  }

  /** Meaning preservation, for every expression the tool reads: it reads the
      rewritten tokens as the wrapped tree, which is the one it read before once
      paren nodes are erased, exactly if there is no hazard. */
  lemma RewritePreservesMeaning(ts: seq<Tok>, e: Expr, outer: bool)
    requires Lexed(ts) && Reads(ts, e)
    ensures Erase(WrapWhole(e, outer)) == Erase(e) && CompliantWhole(WrapWhole(e, outer), outer)
    ensures Reads(RewriteToks(ts, outer), WrapWhole(e, outer)) <==> !Hazardous(e, outer)
  {
    hide Fold, Flat, Parse, Print, Wrap, Erase, CompliantWhole, Hazardous, RewriteToks;
    var (f, again, w) := (Fold(ts, false), RewriteToks(ts, outer), WrapWhole(e, outer));
    FoldRewritten(ts, e, outer);
    RewriteReparses(f, outer);
    assert Rewrite(f, outer) == Print(w);
    assert Parse(Print(w)) == Ok(w, |Print(w)|) by { ParsesWhole(Print(w)); }
    ParseSound(Fold(again, false));
  }

  /** The same folding on tokens with their offsets. */
  function FoldLexemes(lx: seq<Lexeme>, member: bool): (r: seq<Lexeme>)
    ensures lx != [] ==> r != []
  {
    if lx == [] then []
    else
      var n := Span(Toks(lx), member);
      [Lexeme(Pack(Toks(lx)[..n]), lx[0].start, lx[n - 1].end)] + FoldLexemes(lx[n..], Next(lx[0].tok, member))
  }

  lemma ToksPlus(a: seq<Lexeme>, k: nat)
    requires k <= |a|
    ensures Toks(a)[k..] == Toks(a[k..])
  {
  }

  lemma {:induction false} FoldLexemesToks(lx: seq<Lexeme>, member: bool)
    ensures Toks(FoldLexemes(lx, member)) == Fold(Toks(lx), member)
    decreases |lx|
  {
    hide Span, Toks;
    if lx == [] {
      assert Toks([]) == [];
    } else {
      var n := Span(Toks(lx), member);
      FoldOnce(Toks(lx), member);
      ToksPlus(lx, n);
      FoldLexemesToks(lx[n..], Next(lx[0].tok, member));
      ToksPlus(FoldLexemes(lx, member), 1);
    }
  }

  /** What the tool inserts into a text. */
  function ToolInserts(s: Source, outer: bool): seq<Insert> {
    InsertionsFor(Source(s.text, FoldLexemes(s.lx, false)), outer)
  }

  /** A second pass inserts nothing exactly if there is no hazard, or what the
      tool makes of the rewritten tokens cannot be parsed, or obeys the rule. */
  lemma SecondPassIff(ts: seq<Tok>, e: Expr, after: Source, outer: bool)
    requires Lexed(ts) && Reads(ts, e)
    requires Toks(after.lx) == RewriteToks(ts, outer)
    ensures ToolInserts(after, outer) == [] <==>
      || !Hazardous(e, outer)
      || (var r := Parse(Fold(Toks(after.lx), false)); r.Err? || CompliantWhole(r.e, outer))
  {
    hide Fold, Flat, Parse, Print, Wrap, Erase, CompliantWhole, Hazardous, RewriteToks;
    RewritePreservesMeaning(ts, e, outer);
    var s := Source(after.text, FoldLexemes(after.lx, false));
    FoldLexemesToks(after.lx, false);
    if Parse(Toks(s.lx)).Ok? {
      InsertsNothing(s, outer);
    }
  }

  /** Without a hazard the rewrite is final. */
  lemma SecondPassInsertsNothing(ts: seq<Tok>, e: Expr, after: Source, outer: bool)
    requires Lexed(ts) && Reads(ts, e) && !Hazardous(e, outer)
    requires Toks(after.lx) == RewriteToks(ts, outer)
    ensures Reads(Toks(after.lx), WrapWhole(e, outer)) && ToolInserts(after, outer) == []
    ensures RewriteToks(Toks(after.lx), outer) == Toks(after.lx)
  {
    hide Fold, Flat, Parse, Print, Wrap, Erase, Hazardous, CompliantWhole;
    RewritePreservesMeaning(ts, e, outer);
    SecondPassIff(ts, e, after, outer);
    var f := Fold(Toks(after.lx), false);
    RewriteFixed(f, outer);
    FoldRewritten(ts, e, outer);
    FlatFold(Toks(after.lx), false);
  }

  // ----- conditions to check beforehand -----

  /** No right operand of `>` or `>>` is compound. */
  predicate Calm(e: Expr) {
    match e
    case Prim(_) => true
    case Paren(x) => Calm(x)
    case KeywordGroup(_, x) => Calm(x)
    case KeywordUnary(_, x) => Calm(x)
    case Unary(_, x) => Calm(x)
    case Postfix(b, _) => Calm(b)
    case Member(b, _, _) => Calm(b)
    case Index(b, x) => Calm(b) && Calm(x)
    case Call(b, a) => Calm(b) && CalmArgs(a)
    case Binary(l, op, r) => Calm(l) && Calm(r) && (Angle(Bin(op)) ==> !Compound(r))
    case Ternary(c, t, f) => Calm(c) && Calm(t) && Calm(f)
    case Assign(l, _, r) => Calm(l) && Calm(r)
  }

  predicate CalmArgs(a: Args) {
    a.MoreArgs? ==> Calm(a.head) && CalmArgs(a.tail)
  }

  /** No parenthesis is added right after a `>` or `>>`. */
  ghost predicate Bare(cs: seq<Cell>) {
    forall k | 0 < k < |cs| && Angle(cs[k - 1].tok) :: cs[k].opens == 0
  }

  lemma BareJoin(a: seq<Cell>, t: Tok, b: seq<Cell>)
    requires Bare(a) && Bare(b) && (Angle(t) && b != [] ==> b[0].opens == 0)
    ensures Bare(a + [Plain(t)] + b)
  {
    var cs := a + [Plain(t)] + b;
    forall k | 0 < k < |cs| && Angle(cs[k - 1].tok)
      ensures cs[k].opens == 0
    {
      if k > |a| + 1 {
        assert cs[k] == b[k - |a| - 1] && cs[k - 1] == b[k - 1 - |a| - 1];
      }
    }
  }

  lemma BareSnoc(a: seq<Cell>, t: Tok)
    requires Bare(a)
    ensures Bare(a + [Plain(t)])
  {
    BareJoin(a, t, []);
    assert a + [Plain(t)] + [] == a + [Plain(t)];
  }

  lemma BareCons(t: Tok, b: seq<Cell>)
    requires Bare(b) && !Angle(t)
    ensures Bare([Plain(t)] + b)
  {
    BareJoin([], t, b);
    assert [] + [Plain(t)] + b == [Plain(t)] + b;
  }

  lemma BareEnclose(b: bool, cs: seq<Cell>)
    requires Bare(cs) && |cs| > 0
    ensures Bare(EncloseIf(b, cs))
    ensures !b ==> EncloseIf(b, cs)[0].opens == cs[0].opens
  {
  }

  /** A prefix or postfix form starts with no added parenthesis. */
  lemma {:induction false} FirstPlain(e: Expr)
    requires Rank(e) >= 11
    ensures Outline(e)[0].opens == 0
  {
    if e.Postfix? || e.Member? || e.Index? || e.Call? {
      assert Rank(e.base) >= 11;
      FirstPlain(e.base);
    }
  }

  lemma {:induction false} OutlineBare(e: Expr)
    requires Rank(e) >= -2 && Calm(e)
    ensures Bare(Outline(e))
    decreases e, 1
  {
    hide EncloseIf, Bare, Row;
    match e
    case Prim(t) => BareOne(t);
    case Paren(x) => GroupBare(x);
    case KeywordGroup(kw, x) =>
      GroupBare(x);
      BareCons(kw, [Plain(LParen)] + Outline(x) + [Plain(RParen)]);
      assert Outline(e) == [Plain(kw)] + ([Plain(LParen)] + Outline(x) + [Plain(RParen)]);
    case KeywordUnary(kw, x) => OutlineBare(x); BareCons(kw, Outline(x));
    case Unary(t, x) => OutlineBare(x); BareCons(t, Outline(x));
    case Postfix(b, t) => OutlineBare(b); BareSnoc(Outline(b), t);
    case Member(b, t, n) =>
      OutlineBare(b);
      BareSnoc(Outline(b), t);
      BareSnoc(Outline(b) + [Plain(t)], n);
      assert Outline(e) == Outline(b) + [Plain(t)] + [Plain(n)];
    case Index(b, x) =>
      OutlineBare(b);
      OutlineBare(x);
      BareJoin(Outline(b), LBracket, Outline(x));
      BareSnoc(Outline(b) + [Plain(LBracket)] + Outline(x), RBracket);
    case Call(b, a) =>
      OutlineBare(b);
      ArgsBare(a);
      BareJoin(Outline(b), LParen, OutlineArgs(a));
      BareSnoc(Outline(b) + [Plain(LParen)] + OutlineArgs(a), RParen);
    case Binary(l, op, r) =>
      var (p, q) := (Compound(l) && !SameChain(l, op), Compound(r));
      RowBare(p, l);
      RowBare(q, r);
      BareJoin(Row(p, l), Bin(op), Row(q, r));
    case Ternary(c, t, f) =>
      RowBare(Compound(c), c);
      RowBare(Compound(t), t);
      RowBare(Compound(f), f);
      BareJoin(Row(Compound(c), c), Question, Row(Compound(t), t));
      BareJoin(Row(Compound(c), c) + [Plain(Question)] + Row(Compound(t), t), Colon, Row(Compound(f), f));
    case Assign(l, op, r) =>
      OutlineBare(l);
      OutlineBare(r);
      BareJoin(Outline(l), Assigner(op), Outline(r));
  }

  lemma BareOne(t: Tok)
    ensures Bare([Plain(t)])
  {
  }

  lemma {:induction false} GroupBare(x: Expr)
    requires Rank(x) >= -2 && Calm(x)
    ensures Bare([Plain(LParen)] + Outline(x) + [Plain(RParen)])
    decreases x, 2
  {
    hide Outline, Bare;
    OutlineBare(x);
    BareCons(LParen, Outline(x));
    BareSnoc([Plain(LParen)] + Outline(x), RParen);
  }

  /** An operand's row, and its start if the operand is neither compound nor an
      assignment. */
  lemma {:induction false} RowBare(b: bool, x: Expr)
    requires Rank(x) >= -2 && Calm(x)
    ensures Bare(Row(b, x))
    ensures !b && Rank(x) >= 11 ==> Row(b, x)[0].opens == 0
    decreases x, 2
  {
    hide Outline, Bare, EncloseIf;
    OutlineBare(x);
    BareEnclose(b, Outline(x));
    if Rank(x) >= 11 {
      FirstPlain(x);
    }
  }

  lemma {:induction false} ArgsBare(a: Args)
    requires RankArgs(a) >= -2 && CalmArgs(a)
    ensures Bare(OutlineArgs(a))
    decreases a, 1
  {
    hide Outline;
    if a.MoreArgs? {
      OutlineBare(a.head);
      ArgsBare(a.tail);
      if a.tail.MoreArgs? {
        BareJoin(Outline(a.head), Comma, OutlineArgs(a.tail));
      }
    }
  }

  /** The rewrite of an expression in which no right operand of `>` or `>>` is
      compound changes no reading. */
  lemma CalmNoHazard(ts: seq<Tok>, e: Expr, outer: bool)
    requires Lexed(ts) && Reads(ts, e) && Calm(e)
    ensures !Hazardous(e, outer)
  {
    hide Fold, Parse, Row, Calm, Bare, Stable, CellToks, Hazard, Rank, Print;
    var b := outer && Compound(e);
    ParseSound(Fold(ts, false));
    RowBare(b, e);
    RowToks(b, e);
    FoldStable(ts, false);
    BareNoHazard(Row(b, e), false);
  }

  lemma {:induction false} BareNoHazard(cs: seq<Cell>, member: bool)
    requires Bare(cs) && Stable(CellToks(cs), member)
    ensures !Hazard(cs, member)
    decreases |cs|
  {
    hide CellToks, HeadStable, HazardHere;
    if cs != [] {
      CellToksFirst(cs);
      if HazardHere(cs, member) {
        BareHead(cs, member);
      }
      BareNoHazard(cs[1..], Next(Raw(cs[0].tok)[0], member));
    }
  }

  lemma BareHead(cs: seq<Cell>, member: bool)
    requires cs != [] && Bare(cs) && HazardHere(cs, member)
    ensures !HeadStable(CellToks(cs), member)
  {
    hide Template, CellToks, Scan, Bare;
    CellToksFirst(cs);
    CellToksFirst(cs[1..]);
    BareScan(cs);
    var (t, rest) := (cs[0].tok, CellToks(cs[1..]));
    var last := Raw(t)[|Raw(t)| - 1];
    assert cs[1..][1..] == cs[2..];
    assert rest[1..] == CellToks(cs[2..]);
    assert ([last] + rest)[2..] == rest[1..] && ([t] + rest)[2..] == rest[1..] && ([t] + rest)[1..] == rest;
  }

  /** Without an added parenthesis after the closing bracket the scan succeeded before. */
  lemma BareScan(cs: seq<Cell>)
    requires |cs| > 1 && Bare(cs) && Scan(cs[1].closes, cs[2..])
    ensures Template(CellToks(cs[2..]))
  {
    hide CloseAt, Spread, Weight, Follows;
    var rest := cs[2..];
    var j := CloseAt(CellToks(rest), 1);
    ClosesAtAngle(CellToks(rest), 1);
    assert rest[j] == cs[2 + j] && rest[j + 1] == cs[3 + j];
    SpreadCovers(rest, j);
  }

  lemma {:induction false} SpreadCovers(cs: seq<Cell>, j: nat)
    requires j < |cs|
    ensures Weight(CellToks(cs)[..j + 1]) <= Spread(cs, j)
    decreases j
  {
    hide Lexemes;
    var ts := CellToks(cs)[..j + 1];
    if j == 0 {
      assert ts == [cs[0].tok];
      WeightOne(cs[0].tok);
    } else {
      SpreadCovers(cs[1..], j - 1);
      assert ts[1..] == CellToks(cs[1..])[..j];
    }
  }

  /** Without a `>` or `>>` no `<` is taken for a bracket, before or after. */
  lemma NoAngleNoHazard(ts: seq<Tok>, e: Expr, outer: bool)
    requires Lexed(ts) && Reads(ts, e) && forall k | 0 <= k < |ts| :: !Angle(ts[k])
    ensures Fold(ts, false) == ts && !Hazardous(e, outer)
  {
    hide Fold, Parse, Row, Hazard;
    NoAngleFold(ts, false);
    ParseSound(ts);
    RowToks(outer && Compound(e), e);
    NoAngleCells(Row(outer && Compound(e), e), false);
  }

  lemma {:induction false} NoAngleFold(ts: seq<Tok>, member: bool)
    requires forall k | 0 <= k < |ts| :: !Angle(ts[k])
    ensures Fold(ts, member) == ts
    decreases |ts|
  {
    if ts != [] {
      if |ts| > 1 { NoAngleNoClose(ts[2..]); }
      NoAngleFold(ts[1..], Next(ts[0], member));
    }
  }

  lemma {:induction false} NoAngleCells(cs: seq<Cell>, member: bool)
    requires forall k | 0 <= k < |cs| :: !Angle(CellToks(cs)[k])
    ensures !Hazard(cs, member)
    decreases |cs|
  {
    if cs != [] {
      assert forall k | 0 <= k < |cs| :: cs[k].tok == CellToks(cs)[k];
      if |cs| > 1 { NoAngleNoClose(CellToks(cs[2..])); }
      NoAngleCells(cs[1..], Next(Raw(cs[0].tok)[0], member));
    }
  }

  lemma NoAngleNoClose(ts: seq<Tok>)
    requires forall k | 0 <= k < |ts| :: !Angle(ts[k])
    ensures CloseAt(ts, 1) < 0
  {
    if CloseAt(ts, 1) >= 0 {
      ClosesAtAngle(ts, 1);
    }
  }
}
