/** The precedence-climbing parser as functions over a token sequence, with the
    two halves of its specification: what it returns prints back to exactly the
    tokens it consumed, and every well-formed tree is what its own printed form
    parses to. */
module CppParser {
  import opened CppSyntax

  datatype Parsed = Ok(e: Expr, next: nat) | Err
  datatype ParsedArgs = OkArgs(args: Args, next: nat) | ErrArgs

  const BOTTOM := -2   // parse_expr's lowest minimum binding power

  function ParseExpr(ts: seq<Tok>, i: nat, power: int): (r: Parsed)
    requires i <= |ts|
    ensures r.Ok? ==> i < r.next <= |ts|
    decreases |ts| - i, 4
  {
    var u := ParseUnary(ts, i);
    if u.Err? then Err else ParseLoop(ts, u.next, u.e, power)
  }

  function ParseLoop(ts: seq<Tok>, i: nat, left: Expr, power: int): (r: Parsed)
    requires i <= |ts|
    ensures r.Ok? ==> i <= r.next <= |ts|
    decreases |ts| - i, 0
  {
    if i == |ts| then Ok(left, i)
    else if ts[i].Question? && power <= -1 then
      var t := ParseExpr(ts, i + 1, -1);
      if t.Err? || !At(ts, t.next, Colon) then Err else
      var f := ParseExpr(ts, t.next + 1, -1);
      if f.Err? then Err else ParseLoop(ts, f.next, Ternary(left, t.e, f.e), power)
    else if ts[i].Assigner? && power <= -2 then
      var v := ParseExpr(ts, i + 1, BOTTOM);
      if v.Err? then Err else ParseLoop(ts, v.next, Assign(left, ts[i].asn, v.e), power)
    else if ts[i].Bin? && Power(ts[i].bin) >= power then
      var right := ParseExpr(ts, i + 1, Power(ts[i].bin) + 1);
      if right.Err? then Err else ParseLoop(ts, right.next, Binary(left, ts[i].bin, right.e), power)
    else Ok(left, i)
  }

  function ParseUnary(ts: seq<Tok>, i: nat): (r: Parsed)
    requires i <= |ts|
    ensures r.Ok? ==> i < r.next <= |ts|
    decreases |ts| - i, 3
  {
    if i == |ts| then Err
    else if IsPrefix(ts[i]) then
      var x := ParseUnary(ts, i + 1);
      if x.Err? then Err else Ok(Unary(ts[i], x.e), x.next)
    else if ts[i].Keyword? then
      if At(ts, i + 1, LParen) then
        var g := ParseGroup(ts, i + 1);
        if g.Err? then Err else Ok(KeywordGroup(ts[i], g.e), g.next)
      else
        var x := ParseUnary(ts, i + 1);
        if x.Err? then Err else Ok(KeywordUnary(ts[i], x.e), x.next)
    else ParsePostfix(ts, i)
  }

  /** The expression between a pair of parentheses; `next` is past the closer. */
  function ParseGroup(ts: seq<Tok>, i: nat): (r: Parsed)
    requires At(ts, i, LParen)
    ensures r.Ok? ==> i + 1 < r.next <= |ts|
    decreases |ts| - i, 1
  {
    var x := ParseExpr(ts, i + 1, BOTTOM);
    if x.Err? || !At(ts, x.next, RParen) then Err else Ok(x.e, x.next + 1)
  }

  function ParsePostfix(ts: seq<Tok>, i: nat): (r: Parsed)
    requires i <= |ts|
    ensures r.Ok? ==> i < r.next <= |ts|
    decreases |ts| - i, 2
  {
    if i == |ts| then Err
    else if IsAtom(ts[i]) then PostfixLoop(ts, i + 1, Prim(ts[i]))
    else if ts[i].LParen? then
      var g := ParseGroup(ts, i);
      if g.Err? then Err else PostfixLoop(ts, g.next, Paren(g.e))
    else Err
  }

  function PostfixLoop(ts: seq<Tok>, i: nat, node: Expr): (r: Parsed)
    requires i <= |ts|
    ensures r.Ok? ==> i <= r.next <= |ts|
    decreases |ts| - i, 1
  {
    if i == |ts| then Ok(node, i)
    else if ts[i].LParen? then
      var a := ParseCallArgs(ts, i);
      if a.ErrArgs? then Err else PostfixLoop(ts, a.next, Call(node, a.args))
    else if ts[i].LBracket? then
      var x := ParseExpr(ts, i + 1, BOTTOM);
      if x.Err? || !At(ts, x.next, RBracket) then Err
      else PostfixLoop(ts, x.next + 1, Index(node, x.e))
    else if ts[i].Access? then
      if i + 1 == |ts| then Err else PostfixLoop(ts, i + 2, Member(node, ts[i], ts[i + 1]))
    else if ts[i].PlusPlus? || ts[i].MinusMinus? then
      PostfixLoop(ts, i + 1, Postfix(node, ts[i]))
    else Ok(node, i)
  }

  function ParseCallArgs(ts: seq<Tok>, i: nat): (r: ParsedArgs)
    requires At(ts, i, LParen)
    ensures r.OkArgs? ==> i + 1 < r.next <= |ts|
    decreases |ts| - i, 0
  {
    if At(ts, i + 1, RParen) then OkArgs(NoArgs, i + 2)
    else
      var a := ParseArgs(ts, i + 1);
      if a.ErrArgs? || !At(ts, a.next, RParen) then ErrArgs else OkArgs(a.args, a.next + 1)
  }

  function ParseArgs(ts: seq<Tok>, i: nat): (r: ParsedArgs)
    requires i <= |ts|
    ensures r.OkArgs? ==> i < r.next <= |ts| && r.args.MoreArgs?
    decreases |ts| - i, 5
  {
    var x := ParseExpr(ts, i, BOTTOM);
    if x.Err? then ErrArgs
    else if At(ts, x.next, Comma) then
      var rest := ParseArgs(ts, x.next + 1);
      if rest.ErrArgs? then ErrArgs else OkArgs(MoreArgs(x.e, rest.args), rest.next)
    else OkArgs(MoreArgs(x.e, NoArgs), x.next)
  }

  /** A whole expression: everything consumed, or no tree at all. */
  function Parse(ts: seq<Tok>): Parsed {
    var r := ParseExpr(ts, 0, BOTTOM);
    if r.Ok? && r.next == |ts| then r else Err
  }

  // ----- which tokens end an expression -----

  /** No operator at `i` is taken by a loop running at `power`. */
  predicate Stops(ts: seq<Tok>, i: nat, power: int) {
    i < |ts| ==>
      && !(ts[i].Bin? && Power(ts[i].bin) >= power)
      && !(ts[i].Question? && power <= -1)
      && !(ts[i].Assigner? && power <= -2)
  }

  /** The token after a tree of rank `n` is not one that its right-most operand
      would take. */
  predicate Closed(ts: seq<Tok>, i: nat, n: int) {
    n < 11 ==> Stops(ts, i, if n < 0 then n else n + 1)
  }

  predicate NoPostfix(ts: seq<Tok>, i: nat) {
    i < |ts| ==> !StartsPostfix(ts[i])
  }

  // ----- soundness: a parse spells exactly what it consumed -----

  lemma {:induction false} ExprSound(ts: seq<Tok>, i: nat, power: int, r: Parsed)
    requires i <= |ts| && power <= 11 && r == ParseExpr(ts, i, power) && r.Ok?
    ensures Match(r.e, ts, i) == r.next && Rank(r.e) >= power && Rank(r.e) >= -2 && Stops(ts, r.next, power)
    decreases |ts| - i, 4
  {
    var u := ParseUnary(ts, i);
    UnarySound(ts, i, u);
    LoopSound(ts, i, u.next, u.e, power, r);
  }

  /** `Closed` is what makes the step sound: after a right operand the next
      operator never binds tighter than the one just consumed. */
  lemma BinaryStep(ts: seq<Tok>, k: nat, i: nat, left: Expr, right: Expr, j: nat)
    requires Match(left, ts, k) == i && Rank(left) >= -2 && Closed(ts, i, Rank(left))
    requires i < |ts| && ts[i].Bin? && Match(right, ts, i + 1) == j
    requires Rank(right) > Power(ts[i].bin) && Stops(ts, j, Power(ts[i].bin) + 1)
    ensures var e := Binary(left, ts[i].bin, right);
      Match(e, ts, k) == j && Rank(e) == Power(ts[i].bin) && Closed(ts, j, Rank(e))
  {
    assert Rank(left) >= Power(ts[i].bin);
  }

  /** A closed tree before `?` binds tighter than a ternary. */
  lemma ClosedRank(ts: seq<Tok>, i: nat, n: int)
    requires At(ts, i, Question) && n >= -2 && Closed(ts, i, n)
    ensures n >= 0
  {
  }

  lemma TernaryRank(left: Expr, yes: Expr, no: Expr)
    requires Rank(left) >= 0 && Rank(yes) >= -1 && Rank(no) >= -1
    ensures Rank(Ternary(left, yes, no)) == -1
  {
  }

  lemma TernaryStep(ts: seq<Tok>, k: nat, i: nat, left: Expr, yes: Expr, m: nat, no: Expr, j: nat)
    requires Match(left, ts, k) == i && Rank(left) >= -2 && Closed(ts, i, Rank(left))
    requires At(ts, i, Question) && Match(yes, ts, i + 1) == m && Rank(yes) >= -1
    requires At(ts, m, Colon) && Match(no, ts, m + 1) == j && Rank(no) >= -1 && Stops(ts, j, -1)
    ensures var e := Ternary(left, yes, no);
      Match(e, ts, k) == j && Rank(e) == -1 && Closed(ts, j, Rank(e))
  {
    hide Rank, Power, Match;
    ClosedRank(ts, i, Rank(left));
    TernaryRank(left, yes, no);
    TernaryMatch(ts, k, i, left, yes, m, no, j);
  }

  lemma TernaryMatch(ts: seq<Tok>, k: nat, i: nat, left: Expr, yes: Expr, m: nat, no: Expr, j: nat)
    requires Match(left, ts, k) == i && At(ts, i, Question) && Match(yes, ts, i + 1) == m
    requires At(ts, m, Colon) && Match(no, ts, m + 1) == j
    ensures Match(Ternary(left, yes, no), ts, k) == j
  {
  }

  lemma AssignStep(ts: seq<Tok>, k: nat, i: nat, left: Expr, value: Expr, j: nat)
    requires Match(left, ts, k) == i && Rank(left) >= -2 && Closed(ts, i, Rank(left))
    requires i < |ts| && ts[i].Assigner? && Match(value, ts, i + 1) == j && Rank(value) >= -2 && Stops(ts, j, BOTTOM)
    ensures var e := Assign(left, ts[i].asn, value);
      Match(e, ts, k) == j && Rank(e) == -2 && Closed(ts, j, Rank(e))
  {
    hide Power;
    assert Rank(left) >= -1;
  }

  lemma {:induction false} LoopSound(ts: seq<Tok>, k: nat, i: nat, left: Expr, power: int, r: Parsed)
    requires i <= |ts| && power <= 11 && r == ParseLoop(ts, i, left, power) && r.Ok?
    requires Match(left, ts, k) == i && Rank(left) >= power && Rank(left) >= -2 && Closed(ts, i, Rank(left))
    ensures Match(r.e, ts, k) == r.next && Rank(r.e) >= power && Rank(r.e) >= -2 && Stops(ts, r.next, power)
    decreases |ts| - i, 0, 1
  {
    if i == |ts| {
    } else if ts[i].Question? && power <= -1 {
      TernaryLoopSound(ts, k, i, left, power, r);
    } else if ts[i].Assigner? && power <= -2 {
      AssignLoopSound(ts, k, i, left, power, r);
    } else if ts[i].Bin? && Power(ts[i].bin) >= power {
      BinaryLoopSound(ts, k, i, left, power, r);
    }
  }

  lemma TernaryUnfold(ts: seq<Tok>, i: nat, left: Expr, power: int, r: Parsed, t: Parsed)
    requires At(ts, i, Question) && power <= -1 && r == ParseLoop(ts, i, left, power) && r.Ok?
    requires t == ParseExpr(ts, i + 1, -1)
    ensures t.Ok? && At(ts, t.next, Colon)
    ensures var f := ParseExpr(ts, t.next + 1, -1);
      f.Ok? && r == ParseLoop(ts, f.next, Ternary(left, t.e, f.e), power)
  {
  }

  lemma {:induction false} TernaryLoopSound(ts: seq<Tok>, k: nat, i: nat, left: Expr, power: int, r: Parsed)
    requires At(ts, i, Question) && power <= -1 && r == ParseLoop(ts, i, left, power) && r.Ok?
    requires Match(left, ts, k) == i && Rank(left) >= power && Rank(left) >= -2 && Closed(ts, i, Rank(left))
    ensures Match(r.e, ts, k) == r.next && Rank(r.e) >= power && Rank(r.e) >= -2 && Stops(ts, r.next, power)
    decreases |ts| - i, 0, 0
  {
    hide Match, Rank, Power;
    var t := ParseExpr(ts, i + 1, -1);
    TernaryUnfold(ts, i, left, power, r, t);
    ExprSound(ts, i + 1, -1, t);
    TernaryElseSound(ts, k, i, left, power, t, ParseExpr(ts, t.next + 1, -1), r);
  }

  lemma {:induction false} TernaryElseSound(ts: seq<Tok>, k: nat, i: nat, left: Expr, power: int,
                                            t: Parsed, f: Parsed, r: Parsed)
    requires Match(left, ts, k) == i && Rank(left) >= power && Rank(left) >= -2 && Closed(ts, i, Rank(left))
    requires At(ts, i, Question) && power <= -1 && t.Ok? && Match(t.e, ts, i + 1) == t.next && Rank(t.e) >= -1
    requires At(ts, t.next, Colon) && f == ParseExpr(ts, t.next + 1, -1) && f.Ok?
    requires r == ParseLoop(ts, f.next, Ternary(left, t.e, f.e), power) && r.Ok?
    ensures Match(r.e, ts, k) == r.next && Rank(r.e) >= power && Rank(r.e) >= -2 && Stops(ts, r.next, power)
    decreases |ts| - t.next, 5
  {
    hide Match, Rank, Power;
    ExprSound(ts, t.next + 1, -1, f);
    TernaryStep(ts, k, i, left, t.e, t.next, f.e, f.next);
    LoopSound(ts, k, f.next, Ternary(left, t.e, f.e), power, r);
  }

  lemma {:induction false} AssignLoopSound(ts: seq<Tok>, k: nat, i: nat, left: Expr, power: int, r: Parsed)
    requires i < |ts| && power <= 11 && r == ParseLoop(ts, i, left, power) && r.Ok?
    requires Match(left, ts, k) == i && Rank(left) >= power && Rank(left) >= -2 && Closed(ts, i, Rank(left))
    requires ts[i].Assigner? && power <= -2
    ensures Match(r.e, ts, k) == r.next && Rank(r.e) >= power && Rank(r.e) >= -2 && Stops(ts, r.next, power)
    decreases |ts| - i, 0, 0
  {
    hide Match, Rank, Power;
    var v := ParseExpr(ts, i + 1, BOTTOM);
    ExprSound(ts, i + 1, BOTTOM, v);
    AssignStep(ts, k, i, left, v.e, v.next);
    LoopSound(ts, k, v.next, Assign(left, ts[i].asn, v.e), power, r);
  }

  lemma {:induction false} BinaryLoopSound(ts: seq<Tok>, k: nat, i: nat, left: Expr, power: int, r: Parsed)
    requires i < |ts| && power <= 11 && r == ParseLoop(ts, i, left, power) && r.Ok?
    requires Match(left, ts, k) == i && Rank(left) >= power && Rank(left) >= -2 && Closed(ts, i, Rank(left))
    requires ts[i].Bin? && Power(ts[i].bin) >= power
    ensures Match(r.e, ts, k) == r.next && Rank(r.e) >= power && Rank(r.e) >= -2 && Stops(ts, r.next, power)
    decreases |ts| - i, 0, 0
  {
    hide Match, Rank, Power;
    var right := ParseExpr(ts, i + 1, Power(ts[i].bin) + 1);
    ExprSound(ts, i + 1, Power(ts[i].bin) + 1, right);
    BinaryStep(ts, k, i, left, right.e, right.next);
    LoopSound(ts, k, right.next, Binary(left, ts[i].bin, right.e), power, r);
  }

  lemma {:induction false} UnarySound(ts: seq<Tok>, i: nat, r: Parsed)
    requires i <= |ts| && r == ParseUnary(ts, i) && r.Ok?
    ensures Match(r.e, ts, i) == r.next && Rank(r.e) >= 11
    decreases |ts| - i, 3
  {
    hide ParseExpr, ParseLoop, ParseGroup, ParsePostfix, Power;
    if ts[i].Keyword? && At(ts, i + 1, LParen) {
      GroupSound(ts, i + 1, ParseGroup(ts, i + 1));
    } else if IsPrefix(ts[i]) || ts[i].Keyword? {
      var x := ParseUnary(ts, i + 1);
      UnarySound(ts, i + 1, x);
      MatchFirst(x.e, ts, i + 1);
    } else {
      PostfixSound(ts, i, r);
    }
  }

  lemma {:induction false} GroupSound(ts: seq<Tok>, i: nat, r: Parsed)
    requires At(ts, i, LParen) && r == ParseGroup(ts, i) && r.Ok?
    ensures MatchTok(RParen, ts, Match(r.e, ts, i + 1)) == r.next && Rank(r.e) >= -2
    decreases |ts| - i, 1
  {
    ExprSound(ts, i + 1, BOTTOM, ParseExpr(ts, i + 1, BOTTOM));
  }

  lemma {:induction false} PostfixSound(ts: seq<Tok>, i: nat, r: Parsed)
    requires i <= |ts| && r == ParsePostfix(ts, i) && r.Ok?
    ensures Match(r.e, ts, i) == r.next && Rank(r.e) >= 12
    decreases |ts| - i, 2
  {
    if IsAtom(ts[i]) {
      PostfixLoopSound(ts, i, i + 1, Prim(ts[i]), r);
    } else {
      var g := ParseGroup(ts, i);
      GroupSound(ts, i, g);
      PostfixLoopSound(ts, i, g.next, Paren(g.e), r);
    }
  }

  lemma SuffixSteps(ts: seq<Tok>, k: nat, i: nat, node: Expr)
    requires i < |ts| && Match(node, ts, k) == i && Rank(node) >= 12
    ensures ts[i].Access? && i + 1 < |ts| ==>
      Match(Member(node, ts[i], ts[i + 1]), ts, k) == i + 2 && Rank(Member(node, ts[i], ts[i + 1])) >= 12
    ensures ts[i].PlusPlus? || ts[i].MinusMinus? ==>
      Match(Postfix(node, ts[i]), ts, k) == i + 1 && Rank(Postfix(node, ts[i])) >= 12
  {
  }

  lemma CallStep(ts: seq<Tok>, k: nat, i: nat, node: Expr, args: Args, next: nat)
    requires At(ts, i, LParen) && Match(node, ts, k) == i && Rank(node) >= 12
    requires MatchTok(RParen, ts, MatchArgs(args, ts, i + 1)) == next && RankArgs(args) >= -2
    ensures Match(Call(node, args), ts, k) == next && Rank(Call(node, args)) >= 12
  {
  }

  lemma {:induction false} PostfixLoopSound(ts: seq<Tok>, k: nat, i: nat, node: Expr, r: Parsed)
    requires i <= |ts| && r == PostfixLoop(ts, i, node) && r.Ok?
    requires Match(node, ts, k) == i && Rank(node) >= 12
    ensures Match(r.e, ts, k) == r.next && Rank(r.e) >= 12
    decreases |ts| - i, 1, 1
  {
    hide ParseExpr, ParseLoop, ParseCallArgs, Match, MatchArgs, Rank, RankArgs;
    if i == |ts| {
    } else if ts[i].LParen? {
      var a := ParseCallArgs(ts, i);
      CallArgsSound(ts, i, a);
      CallStep(ts, k, i, node, a.args, a.next);
      PostfixLoopSound(ts, k, a.next, Call(node, a.args), r);
    } else if ts[i].LBracket? {
      IndexLoopSound(ts, k, i, node, ParseExpr(ts, i + 1, BOTTOM), r);
    } else if ts[i].Access? {
      SuffixSteps(ts, k, i, node);
      PostfixLoopSound(ts, k, i + 2, Member(node, ts[i], ts[i + 1]), r);
    } else if ts[i].PlusPlus? || ts[i].MinusMinus? {
      SuffixSteps(ts, k, i, node);
      PostfixLoopSound(ts, k, i + 1, Postfix(node, ts[i]), r);
    }
  }

  lemma {:induction false} BracketedSound(ts: seq<Tok>, i: nat, x: Parsed)
    requires i <= |ts| && x == ParseExpr(ts, i, BOTTOM) && x.Ok?
    ensures Match(x.e, ts, i) == x.next && Rank(x.e) >= -2
    decreases |ts| - i, 5
  {
    ExprSound(ts, i, BOTTOM, x);
  }

  lemma {:induction false} IndexLoopSound(ts: seq<Tok>, k: nat, i: nat, node: Expr, x: Parsed, r: Parsed)
    requires At(ts, i, LBracket) && x == ParseExpr(ts, i + 1, BOTTOM) && x.Ok? && At(ts, x.next, RBracket)
    requires r == PostfixLoop(ts, x.next + 1, Index(node, x.e)) && r.Ok?
    requires Match(node, ts, k) == i && Rank(node) >= 12
    ensures Match(r.e, ts, k) == r.next && Rank(r.e) >= 12
    decreases |ts| - i, 1, 0
  {
    hide Match, Rank;
    BracketedSound(ts, i + 1, x);
    IndexStep(ts, k, i, node, x.e, x.next);
    PostfixLoopSound(ts, k, x.next + 1, Index(node, x.e), r);
  }

  lemma IndexStep(ts: seq<Tok>, k: nat, i: nat, node: Expr, x: Expr, j: nat)
    requires Match(node, ts, k) == i && Rank(node) >= 12
    requires At(ts, i, LBracket) && Match(x, ts, i + 1) == j && Rank(x) >= -2 && At(ts, j, RBracket)
    ensures Match(Index(node, x), ts, k) == j + 1 && Rank(Index(node, x)) == 12
  {
  }

  lemma {:induction false} CallArgsSound(ts: seq<Tok>, i: nat, r: ParsedArgs)
    requires At(ts, i, LParen) && r == ParseCallArgs(ts, i) && r.OkArgs?
    ensures MatchTok(RParen, ts, MatchArgs(r.args, ts, i + 1)) == r.next && RankArgs(r.args) >= -2
    decreases |ts| - i, 0
  {
    if !At(ts, i + 1, RParen) {
      ArgsSound(ts, i + 1, ParseArgs(ts, i + 1));
    }
  }

  lemma {:induction false} ArgsSound(ts: seq<Tok>, i: nat, r: ParsedArgs)
    requires i <= |ts| && r == ParseArgs(ts, i) && r.OkArgs?
    ensures MatchArgs(r.args, ts, i) == r.next && RankArgs(r.args) >= -2
    decreases |ts| - i, 5
  {
    var x := ParseExpr(ts, i, BOTTOM);
    ExprSound(ts, i, BOTTOM, x);
    if At(ts, x.next, Comma) {
      ArgsSound(ts, x.next + 1, ParseArgs(ts, x.next + 1));
    }
  }

  /** Every accepted token sequence is the printed form of the tree returned,
      and that tree is well-formed. */
  lemma ParseSound(ts: seq<Tok>)
    ensures var r := Parse(ts); r.Ok? ==> Print(r.e) == ts && WellFormed(r.e)
  {
    var r := Parse(ts);
    if r.Ok? {
      ExprSound(ts, 0, BOTTOM, r);
      MatchAll(r.e, ts);
    }
  }

  // ----- completeness: a well-formed tree is what its printed form parses to -----

  lemma LoopStops(ts: seq<Tok>, i: nat, e: Expr, power: int)
    requires i <= |ts| && Stops(ts, i, power)
    ensures ParseLoop(ts, i, e, power) == Ok(e, i)
  {
  }

  lemma LoopTakesBinary(ts: seq<Tok>, i: nat, left: Expr, right: Expr, j: nat, power: int, r: Parsed)
    requires i < |ts| && ts[i].Bin? && Power(ts[i].bin) >= power
    requires ParseExpr(ts, i + 1, Power(ts[i].bin) + 1) == Ok(right, j)
    requires r == ParseLoop(ts, j, Binary(left, ts[i].bin, right), power)
    ensures ParseLoop(ts, i, left, power) == r
  {
  }

  lemma LoopTakesTernary(ts: seq<Tok>, i: nat, left: Expr, yes: Expr, m: nat, no: Expr, j: nat, power: int, r: Parsed)
    requires At(ts, i, Question) && power <= -1 && ParseExpr(ts, i + 1, -1) == Ok(yes, m)
    requires At(ts, m, Colon) && ParseExpr(ts, m + 1, -1) == Ok(no, j)
    requires r == ParseLoop(ts, j, Ternary(left, yes, no), power)
    ensures ParseLoop(ts, i, left, power) == r
  {
  }

  lemma LoopTakesAssign(ts: seq<Tok>, i: nat, left: Expr, value: Expr, j: nat, power: int, r: Parsed)
    requires i < |ts| && ts[i].Assigner? && power <= -2 && ParseExpr(ts, i + 1, BOTTOM) == Ok(value, j)
    requires r == ParseLoop(ts, j, Assign(left, ts[i].asn, value), power)
    ensures ParseLoop(ts, i, left, power) == r
  {
  }

  lemma BinaryParts(e: Expr, ts: seq<Tok>, i: nat, j: nat)
    requires e.Binary? && Match(e, ts, i) == j && Rank(e) >= -2
    ensures Rank(e) == Power(e.op) && Rank(e.left) >= Power(e.op) && Rank(e.right) > Power(e.op)
    ensures var m := Match(e.left, ts, i); At(ts, m, Bin(e.op)) && Match(e.right, ts, m + 1) == j
  {
  }

  lemma TernaryParts(e: Expr, ts: seq<Tok>, i: nat, j: nat)
    requires e.Ternary? && Match(e, ts, i) == j && Rank(e) >= -2
    ensures Rank(e) == -1 && Rank(e.cond) >= 0 && Rank(e.yes) >= -1 && Rank(e.no) >= -1
    ensures var m := Match(e.cond, ts, i);
      && At(ts, m, Question)
      && var k := Match(e.yes, ts, m + 1);
      At(ts, k, Colon) && Match(e.no, ts, k + 1) == j
  {
    hide Rank;
    TernaryRanks(e);
  }

  lemma TernaryRanks(e: Expr)
    requires e.Ternary? && Rank(e) >= -2
    ensures Rank(e) == -1 && Rank(e.cond) >= 0 && Rank(e.yes) >= -1 && Rank(e.no) >= -1
  {
  }

  lemma AssignParts(e: Expr, ts: seq<Tok>, i: nat, j: nat)
    requires e.Assign? && Match(e, ts, i) == j && Rank(e) >= -2
    ensures Rank(e) == -2 && Rank(e.target) >= -1 && Rank(e.value) >= -2
    ensures var m := Match(e.target, ts, i); At(ts, m, Assigner(e.asn)) && Match(e.value, ts, m + 1) == j
  {
  }

  lemma UnaryRank(e: Expr)
    requires Rank(e) >= -2 && !e.Binary? && !e.Ternary? && !e.Assign?
    ensures Rank(e) >= 11
  {
  }

  /** Running the parser over a printed tree brings it to its own loop with
      exactly that tree on the left. */
  lemma {:induction false} ExprPrinted(ts: seq<Tok>, i: nat, e: Expr, j: nat, power: int, r: Parsed)
    requires Match(e, ts, i) == j && Rank(e) >= power && Rank(e) >= -2
    requires NoPostfix(ts, j) && Closed(ts, j, Rank(e))
    requires r == ParseLoop(ts, j, e, power)
    ensures ParseExpr(ts, i, power) == r
    decreases e, 2
  {
    hide ParseLoop, ParseUnary, Power, Match, Rank;
    if e.Binary? {
      BinaryParts(e, ts, i, j);
      var m := Match(e.left, ts, i);
      OperandPrinted(ts, m + 1, e.right, j, Power(e.op) + 1);
      LoopTakesBinary(ts, m, e.left, e.right, j, power, r);
      ExprPrinted(ts, i, e.left, m, power, r);
    } else if e.Ternary? {
      TernaryParts(e, ts, i, j);
      var m := Match(e.cond, ts, i);
      var k := Match(e.yes, ts, m + 1);
      OperandPrinted(ts, m + 1, e.yes, k, -1);
      OperandPrinted(ts, k + 1, e.no, j, -1);
      LoopTakesTernary(ts, m, e.cond, e.yes, k, e.no, j, power, r);
      ExprPrinted(ts, i, e.cond, m, power, r);
    } else if e.Assign? {
      AssignParts(e, ts, i, j);
      var m := Match(e.target, ts, i);
      OperandPrinted(ts, m + 1, e.value, j, BOTTOM);
      LoopTakesAssign(ts, m, e.target, e.value, j, power, r);
      ExprPrinted(ts, i, e.target, m, power, r);
    } else {
      UnaryRank(e);
      UnaryPrinted(ts, i, e, j);
    }
  }

  /** A printed tree followed by a token its parse does not take is read whole. */
  lemma {:induction false} OperandPrinted(ts: seq<Tok>, i: nat, e: Expr, j: nat, power: int)
    requires Match(e, ts, i) == j && Rank(e) >= power && Rank(e) >= -2
    requires NoPostfix(ts, j) && Stops(ts, j, power)
    ensures ParseExpr(ts, i, power) == Ok(e, j)
    decreases e, 3
  {
    hide ParseExpr, ParseLoop, Match, Rank, Power;
    LoopStops(ts, j, e, power);
    ExprPrinted(ts, i, e, j, power, Ok(e, j));
  }

  lemma {:induction false} UnaryPrinted(ts: seq<Tok>, i: nat, e: Expr, j: nat)
    requires Match(e, ts, i) == j && Rank(e) >= 11 && NoPostfix(ts, j)
    ensures ParseUnary(ts, i) == Ok(e, j)
    decreases e, 1
  {
    hide ParseUnary, Power;
    if e.Unary? || e.KeywordUnary? {
      PrefixPrinted(ts, i, e, j);
    } else if e.KeywordGroup? {
      KeywordGroupPrinted(ts, i, e, j);
    } else {
      PostfixFirst(e);
      MatchFirst(e, ts, i);
      PostfixUnaryPrinted(ts, i, e, j);
    }
  }

  lemma {:induction false} PrefixPrinted(ts: seq<Tok>, i: nat, e: Expr, j: nat)
    requires (e.Unary? || e.KeywordUnary?) && Match(e, ts, i) == j && Rank(e) >= 11 && NoPostfix(ts, j)
    ensures ParseUnary(ts, i) == Ok(e, j)
    decreases e, 0, 2
  {
    hide ParsePostfix, ParseGroup, NoPostfix, First, ParseUnary, Power;
    PrefixParts(ts, i, e, j);
    UnaryPrinted(ts, i + 1, e.operand, j);
    PrefixTaken(ts, i, e, j);
  }

  /** What a prefix form consists of. */
  lemma PrefixParts(ts: seq<Tok>, i: nat, e: Expr, j: nat)
    requires (e.Unary? || e.KeywordUnary?) && Match(e, ts, i) == j && Rank(e) >= 11
    ensures i + 1 <= |ts| && Match(e.operand, ts, i + 1) == j && Rank(e.operand) >= 11
    ensures e.Unary? ==> ts[i] == e.prefix && IsPrefix(ts[i])
    ensures e.KeywordUnary? ==> ts[i] == e.kw && ts[i].Keyword? && !At(ts, i + 1, LParen)
  {
    if e.KeywordUnary? {
      MatchFirst(e.operand, ts, i + 1);
    }
  }

  lemma PrefixTaken(ts: seq<Tok>, i: nat, e: Expr, j: nat)
    requires (e.Unary? || e.KeywordUnary?) && i < |ts| && ParseUnary(ts, i + 1) == Ok(e.operand, j)
    requires e.Unary? ==> ts[i] == e.prefix && IsPrefix(ts[i])
    requires e.KeywordUnary? ==> ts[i] == e.kw && ts[i].Keyword? && !At(ts, i + 1, LParen)
    ensures ParseUnary(ts, i) == Ok(e, j)
  {
    hide ParsePostfix, ParseGroup;
  }

  lemma {:induction false} KeywordGroupPrinted(ts: seq<Tok>, i: nat, e: Expr, j: nat)
    requires e.KeywordGroup? && Match(e, ts, i) == j && Rank(e) >= 11
    ensures ParseUnary(ts, i) == Ok(e, j)
    decreases e, 0, 2
  {
    hide ParsePostfix, ParseGroup, Power;
    GroupPrinted(ts, i + 1, e.inner, j);
  }

  lemma {:induction false} PostfixUnaryPrinted(ts: seq<Tok>, i: nat, e: Expr, j: nat)
    requires Match(e, ts, i) == j && Rank(e) >= 12 && NoPostfix(ts, j) && (IsAtom(ts[i]) || ts[i].LParen?)
    ensures ParseUnary(ts, i) == Ok(e, j)
    decreases e, 0, 1
  {
    PostfixStops(ts, j, e);
    PostfixPrinted(ts, i, e, j, Ok(e, j));
  }

  lemma PostfixStops(ts: seq<Tok>, j: nat, e: Expr)
    requires j <= |ts| && NoPostfix(ts, j)
    ensures PostfixLoop(ts, j, e) == Ok(e, j)
  {
  }

  lemma {:induction false} GroupPrinted(ts: seq<Tok>, i: nat, x: Expr, j: nat)
    requires At(ts, i, LParen) && MatchTok(RParen, ts, Match(x, ts, i + 1)) == j && Rank(x) >= -2
    ensures ParseGroup(ts, i) == Ok(x, j)
    decreases x, 4
  {
    hide ParseLoop, ParseUnary, ParseExpr, Rank, Power;
    OperandPrinted(ts, i + 1, x, j - 1, BOTTOM);
  }

  lemma {:induction false} PostfixPrinted(ts: seq<Tok>, i: nat, e: Expr, j: nat, r: Parsed)
    requires Match(e, ts, i) == j && Rank(e) >= 12 && r == PostfixLoop(ts, j, e)
    ensures ParsePostfix(ts, i) == r
    decreases e, 0, 0, 0
  {
    hide ParseExpr, ParseLoop, ParseUnary, ParseGroup, ParseCallArgs, PostfixLoop, Power;
    if e.Paren? {
      GroupPrinted(ts, i, e.inner, j);
    } else if !e.Prim? {
      var m := Match(e.base, ts, i);
      if e.Index? {
        IndexPrinted(ts, m, e, j, r);
      } else if e.Call? {
        CallArgsPrinted(ts, m, e.args, j);
        LoopTakesCall(ts, m, e.base, e.args, j, r);
      } else {
        LoopTakesSuffix(ts, m, e, j, r);
      }
      PostfixPrinted(ts, i, e.base, m, r);
    }
  }

  lemma {:induction false} IndexPrinted(ts: seq<Tok>, m: nat, e: Expr, j: nat, r: Parsed)
    requires e.Index? && Rank(e.index) >= -2 && j <= |ts| && r == PostfixLoop(ts, j, e)
    requires m <= |ts| && MatchTok(RBracket, ts, Match(e.index, ts, MatchTok(LBracket, ts, m))) == j
    ensures PostfixLoop(ts, m, e.base) == r
    decreases e.index, 4
  {
    OperandPrinted(ts, m + 1, e.index, j - 1, BOTTOM);
    LoopTakesIndex(ts, m, e.base, e.index, j, r);
  }

  lemma LoopTakesIndex(ts: seq<Tok>, m: nat, base: Expr, x: Expr, j: nat, r: Parsed)
    requires At(ts, m, LBracket) && 0 < j && ParseExpr(ts, m + 1, BOTTOM) == Ok(x, j - 1) && At(ts, j - 1, RBracket)
    requires r == PostfixLoop(ts, j, Index(base, x))
    ensures PostfixLoop(ts, m, base) == r
  {
  }

  lemma LoopTakesCall(ts: seq<Tok>, m: nat, base: Expr, a: Args, j: nat, r: Parsed)
    requires At(ts, m, LParen) && ParseCallArgs(ts, m) == OkArgs(a, j)
    requires r == PostfixLoop(ts, j, Call(base, a))
    ensures PostfixLoop(ts, m, base) == r
  {
  }

  lemma LoopTakesSuffix(ts: seq<Tok>, m: nat, e: Expr, j: nat, r: Parsed)
    requires e.Postfix? || e.Member?
    requires Rank(e) >= 12
    requires j <= |ts|
    requires if e.Postfix? then MatchTok(e.suffix, ts, m) == j else MatchTok(e.name, ts, MatchTok(e.access, ts, m)) == j
    requires r == PostfixLoop(ts, j, e)
    ensures PostfixLoop(ts, m, e.base) == r
  {
  }

  lemma {:induction false} CallArgsPrinted(ts: seq<Tok>, i: nat, a: Args, j: nat)
    requires At(ts, i, LParen) && MatchTok(RParen, ts, MatchArgs(a, ts, i + 1)) == j && RankArgs(a) >= -2
    ensures ParseCallArgs(ts, i) == OkArgs(a, j)
    decreases a, 5
  {
    if a.MoreArgs? {
      ExprFirst(a.head);
      MatchFirst(a.head, ts, i + 1);
      ArgsPrinted(ts, i + 1, a, j - 1);
    }
  }

  lemma {:induction false} ArgsPrinted(ts: seq<Tok>, i: nat, a: Args, j: nat)
    requires a.MoreArgs? && MatchArgs(a, ts, i) == j && RankArgs(a) >= -2 && At(ts, j, RParen)
    ensures ParseArgs(ts, i) == OkArgs(a, j)
    decreases a, 4
  {
    var m := Match(a.head, ts, i);
    if a.tail.MoreArgs? {
      ArgsPrinted(ts, m + 1, a.tail, j);
    }
    OperandPrinted(ts, i, a.head, m, BOTTOM);
  }

  /** The parser and the printer are inverse on well-formed trees. */
  lemma ParsePrint(e: Expr)
    requires WellFormed(e)
    ensures Parse(Print(e)) == Ok(e, |Print(e)|)
  {
    var ts := Print(e);
    MatchAll(e, ts);
    OperandPrinted(ts, 0, e, |ts|, BOTTOM);
  }
}
