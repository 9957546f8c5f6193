/** The rewriter in the form it runs in: a parser object that advances an index
    over the tokens and extends a flat node in place, and a splicer that counts
    insertions per position and cuts the text from the right. */
module CppStyle {
  import opened Prelude
  import opened CppSyntax
  import opened CppParser
  import opened CppRewrite
  import opened CppSplice
  import opened CppWeave
  import opened CppText
  import opened CppFold
  import opened CppTemplate

  datatype Built = Built(node: Node) | Failed
  datatype BuiltArgs = BuiltArgs(nodes: seq<Node>) | FailedArgs

  /** A sub-parse consumes exactly the tokens of its tree. */
  lemma ExprSize(ts: seq<Tok>, i: nat, power: int, r: Parsed)
    requires i <= |ts| && power <= 11 && r == ParseExpr(ts, i, power) && r.Ok?
    ensures r.next == i + Size(r.e)
  {
    hide ParseExpr, Match, Rank, Size, Stops;
    ExprSound(ts, i, power, r);
    MatchSize(r.e, ts, i);
  }

  lemma UnarySize(ts: seq<Tok>, i: nat, r: Parsed)
    requires i <= |ts| && r == ParseUnary(ts, i) && r.Ok?
    ensures r.next == i + Size(r.e)
  {
    hide ParseUnary, Match, Rank, Size;
    UnarySound(ts, i, r);
    MatchSize(r.e, ts, i);
  }

  lemma GroupSize(ts: seq<Tok>, i: nat, r: Parsed)
    requires At(ts, i, LParen) && r == ParseGroup(ts, i) && r.Ok?
    ensures r.next == i + Size(r.e) + 2
  {
    hide Match, Rank, Size;
    GroupSound(ts, i, r);
    MatchSize(r.e, ts, i + 1);
  }

  lemma {:induction false} MatchSize(e: Expr, ts: seq<Tok>, i: int)
    requires Match(e, ts, i) > 0
    ensures Match(e, ts, i) == i + Size(e)
  {
    MatchPrint(e, ts, i);
    OutlineSize(e);
    OutlineToks(e);
  }

  /** The parser object's outcome is the node of the tree the grammar gives, and
      the index stands right after its tokens. */
  ghost predicate Agrees(t: seq<Lexeme>, spec: Parsed, start: nat, out: Built, i: nat) {
    match spec
    case Err => out.Failed?
    case Ok(e, n) => out == Built(Decorate(e, t, start)) && i == n
  }

  ghost predicate AgreesArgs(t: seq<Lexeme>, spec: ParsedArgs, start: nat, out: BuiltArgs, i: nat) {
    match spec
    case ErrArgs => out.FailedArgs?
    case OkArgs(a, n) => out == BuiltArgs(DecorateArgs(a, t, start)) && i == n
  }

  lemma BinaryDecorate(e: Expr, op: BinOp, x: Expr, t: seq<Lexeme>, i: nat)
    ensures var left := Decorate(e, t, i);
      && Decorate(Binary(e, op, x), t, i) == Attach(left, op, Decorate(x, t, i + Size(e) + 1))
      && (left.kind == KBinary ==> |left.ops| > 0 && left.ops[0].Bin?)
    ensures Size(Binary(e, op, x)) == Size(e) + 1 + Size(x)
  {
    hide Attach;
    DecorateShape(e, t, i);
  }

  lemma TernaryDecorate(c: Expr, y: Expr, n: Expr, t: seq<Lexeme>, i: nat)
    ensures var (a, b, d) := (Decorate(c, t, i), Decorate(y, t, i + Size(c) + 1),
                              Decorate(n, t, i + Size(c) + 1 + Size(y) + 1));
      Decorate(Ternary(c, y, n), t, i) == Node(KTernary, a.start, d.end, true, [a, b, d], [])
    ensures Size(Ternary(c, y, n)) == Size(c) + 1 + Size(y) + 1 + Size(n)
  {
    hide SizeArgs, DecorateArgs, Attach;
  }

  lemma AssignDecorate(l: Expr, op: AssignOp, v: Expr, t: seq<Lexeme>, i: nat)
    ensures var (a, b) := (Decorate(l, t, i), Decorate(v, t, i + Size(l) + 1));
      Decorate(Assign(l, op, v), t, i) == Node(KAssign, a.start, b.end, false, [a, b], [Assigner(op)])
    ensures Size(Assign(l, op, v)) == Size(l) + 1 + Size(v)
  {
    hide SizeArgs, DecorateArgs, Attach;
  }

  /** A complete ternary tail: its node, its size and the loop after it. */
  lemma TernaryBuilt(t: seq<Lexeme>, ts: seq<Tok>, start: nat, i: nat, e: Expr, y: Parsed, n: Parsed, power: int)
    requires ts == Toks(t) && i == start + Size(e) && At(ts, i, Question) && power <= -1
    requires y == ParseExpr(ts, i + 1, -1) && y.Ok? && At(ts, y.next, Colon)
    requires n == ParseExpr(ts, y.next + 1, -1) && n.Ok?
    ensures var (a, b, d) := (Decorate(e, t, start), Decorate(y.e, t, i + 1), Decorate(n.e, t, y.next + 1));
      Decorate(Ternary(e, y.e, n.e), t, start) == Node(KTernary, a.start, d.end, true, [a, b, d], [])
    ensures start + Size(Ternary(e, y.e, n.e)) == n.next > i
    ensures ParseLoop(ts, i, e, power) == ParseLoop(ts, n.next, Ternary(e, y.e, n.e), power)
  {
    hide Decorate, Size, Power, ParseExpr;
    ExprSize(ts, i + 1, -1, y);
    ExprSize(ts, y.next + 1, -1, n);
    TernaryDecorate(e, y.e, n.e, t, start);
    LoopTakesTernary(ts, i, e, y.e, y.next, n.e, n.next, power, ParseLoop(ts, n.next, Ternary(e, y.e, n.e), power));
  }

  lemma IndexFails(ts: seq<Tok>, i: nat, e: Expr)
    requires At(ts, i, LBracket)
    ensures var x := ParseExpr(ts, i + 1, BOTTOM); x.Err? || !At(ts, x.next, RBracket) ==> PostfixLoop(ts, i, e).Err?
  {
    hide ParseExpr;
  }

  lemma IndexBuilt(t: seq<Lexeme>, ts: seq<Tok>, start: nat, i: nat, e: Expr, x: Parsed)
    requires ts == Toks(t) && i == start + Size(e) && At(ts, i, LBracket)
    requires x == ParseExpr(ts, i + 1, BOTTOM) && x.Ok? && At(ts, x.next, RBracket)
    ensures var (a, b) := (Decorate(e, t, start), Decorate(x.e, t, i + 1));
      Decorate(Index(e, x.e), t, start) == Node(KIndex, a.start, t[x.next].end, false, [a, b], [])
    ensures start + Size(Index(e, x.e)) == x.next + 1 > i
    ensures PostfixLoop(ts, i, e) == PostfixLoop(ts, x.next + 1, Index(e, x.e))
  {
    hide Decorate, Size, ParseExpr;
    ExprSize(ts, i + 1, BOTTOM, x);
    IndexDecorate(e, x.e, t, start);
    LoopTakesIndex(ts, i, e, x.e, x.next + 1, PostfixLoop(ts, x.next + 1, Index(e, x.e)));
  }

  // ----- reading tokens and folded tokens side by side -----

  /** The tokens from `at` on fold to those from `i` on. */
  ghost predicate Aligned(lx: seq<Lexeme>, at: nat, t: seq<Lexeme>, i: nat, member: bool) {
    at <= |lx| && i <= |t| && FoldLexemes(lx[at..], member) == t[i..]
  }

  /** The folded tokens of a text. */
  ghost predicate Core(lx: seq<Lexeme>, t: seq<Lexeme>) {
    t == FoldLexemes(lx, false) && Lexed(Toks(lx))
  }

  /** What a look at the next token says about the next folded one. */
  ghost predicate Peeked(lx: seq<Lexeme>, at: nat, t: seq<Lexeme>, i: nat) {
    && at <= |lx| && i <= |t| && (at == |lx| <==> i == |t|)
    && (at < |lx| ==>
      && !lx[at].tok.Bundle?
      && (if IsName(lx[at].tok) then IsAtom(t[i].tok) && t[i].start == lx[at].start else t[i] == lx[at]))
  }

  lemma AlignStart(lx: seq<Lexeme>)
    ensures Aligned(lx, 0, FoldLexemes(lx, false), 0, false)
  {
    assert lx[0..] == lx;
  }

  /** One folded token on. */
  lemma AlignToken(lx: seq<Lexeme>, at: nat, t: seq<Lexeme>, i: nat, member: bool)
    requires Aligned(lx, at, t, i, member) && at < |lx|
    ensures var n := Span(Toks(lx)[at..], member);
      && i < |t| && at + n <= |lx|
      && t[i] == Lexeme(Pack(Toks(lx)[at..at + n]), lx[at].start, lx[at + n - 1].end)
      && Aligned(lx, at + n, t, i + 1, Next(lx[at].tok, member))
  {
    hide Span, Toks;
    ToksPlus(lx, at);
    var (rest, n) := (lx[at..], Span(Toks(lx)[at..], member));
    FoldLexemesOnce(rest, member);
    assert Toks(rest)[..n] == Toks(lx)[at..at + n];
    assert rest[n..] == lx[at + n..];
    assert t[i..][1..] == t[i + 1..];
  }

  lemma FoldLexemesOnce(lx: seq<Lexeme>, member: bool)
    requires lx != []
    ensures var n := Span(Toks(lx), member);
      FoldLexemes(lx, member) ==
        [Lexeme(Pack(Toks(lx)[..n]), lx[0].start, lx[n - 1].end)] + FoldLexemes(lx[n..], Next(lx[0].tok, member))
  {
    hide Span, Toks, Pack, Next, Template;
  }

  lemma AlignPeek(lx: seq<Lexeme>, at: nat, t: seq<Lexeme>, i: nat)
    requires Core(lx, t) && Aligned(lx, at, t, i, false)
    ensures Peeked(lx, at, t, i)
  {
    hide Span, Toks;
    if at < |lx| {
      AlignToken(lx, at, t, i, false);
      NotBundle(lx, at);
      ToksAt(lx, at);
      if !IsName(lx[at].tok) {
        PlainSpan(Toks(lx)[at..]);
      }
    }
  }

  lemma ToksAt(lx: seq<Lexeme>, at: nat)
    requires at < |lx|
    ensures |Toks(lx)| == |lx| && Toks(lx)[at] == lx[at].tok
  {
  }

  lemma NotBundle(lx: seq<Lexeme>, at: nat)
    requires Lexed(Toks(lx)) && at < |lx|
    ensures !lx[at].tok.Bundle?
  {
    assert Toks(lx)[at] == lx[at].tok;
  }

  lemma PlainSpan(ts: seq<Tok>)
    requires ts != [] && !IsName(ts[0])
    ensures Span(ts, false) == 1
  {
  }

  lemma AlignPlain(lx: seq<Lexeme>, at: nat, t: seq<Lexeme>, i: nat)
    requires Aligned(lx, at, t, i, false) && at < |lx| && !IsName(lx[at].tok) && !lx[at].tok.Access?
    ensures Aligned(lx, at + 1, t, i + 1, false)
  {
    hide Span, Toks;
    AlignToken(lx, at, t, i, false);
    ToksAt(lx, at);
    PlainSpan(Toks(lx)[at..]);
  }

  lemma AlignAccess(lx: seq<Lexeme>, at: nat, t: seq<Lexeme>, i: nat)
    requires Aligned(lx, at, t, i, false) && at < |lx| && lx[at].tok.Access?
    ensures Aligned(lx, at + 1, t, i + 1, true) && (at + 1 == |lx| <==> i + 1 == |t|)
  {
    hide Span, Toks;
    AlignToken(lx, at, t, i, false);
    ToksAt(lx, at);
    PlainSpan(Toks(lx)[at..]);
    FoldLexemesNothing(true);
    assert |lx[at + 1..]| == 0 <==> |t[i + 1..]| == 0;
  }

  /** A name before a `<`. */
  lemma SpanName(ts: seq<Tok>, name: nat)
    requires name + 1 < |ts| && IsName(ts[name]) && ts[name + 1] == Bin(Lt)
    ensures var n := 3 + CloseAt(ts[name + 2..], 1);
      if Template(ts[name + 2..]) then
        && name + n < |ts|
        && Span(ts[name..], false) == if Rooted(ts[name + n]) then n + Span(ts[name + n..], false) else n
      else Span(ts[name..], false) == 1
  {
    var s := ts[name..];
    assert s[2..] == ts[name + 2..];
    var n := 3 + CloseAt(s[2..], 1);
    if Template(s[2..]) {
      assert s[n] == ts[name + n] && s[n..] == ts[name + n..];
    }
  }

  lemma SpanLone(ts: seq<Tok>, name: nat)
    requires name < |ts| && !(name + 1 < |ts| && ts[name + 1] == Bin(Lt))
    ensures Span(ts[name..], false) == 1
  {
  }

  lemma SpanMember(ts: seq<Tok>, name: nat)
    requires name < |ts|
    ensures Span(ts[name..], true) ==
      if name + 1 < |ts| && ts[name + 1] == Bin(Lt) && Template(ts[name + 2..]) then 3 + CloseAt(ts[name + 2..], 1) else 1
  {
    var s := ts[name..];
    if |s| > 1 {
      assert s[2..] == ts[name + 2..];
    }
  }

  class Parser {
    const lx: seq<Lexeme>
    var at: nat

    /** The tokens with template arguments folded in, and how many of those have
        been read. */
    ghost const t: seq<Lexeme>
    ghost const ts: seq<Tok>
    ghost var i: nat

    ghost predicate Valid()
      reads this
    {
      && ts == Toks(t) && i <= |t| && at <= |lx|
      && Core(lx, t) && Aligned(lx, at, t, i, false) && Peeked(lx, at, t, i)
    }

    constructor (toks: seq<Lexeme>)
      requires Lexed(Toks(toks))
      ensures Valid() && lx == toks && at == 0 && i == 0
    {
      lx := toks;
      t := FoldLexemes(toks, false);
      ts := Toks(FoldLexemes(toks, false));
      at, i := 0, 0;
      AlignStart(toks);
      AlignPeek(toks, 0, FoldLexemes(toks, false), 0);
    }

    /** Past a token that is neither a name nor an access operator. */
    method Advance()
      requires Valid() && at < |lx| && !IsName(lx[at].tok) && !lx[at].tok.Access?
      modifies this`at, this`i
      ensures Valid() && at == old(at) + 1 && i == old(i) + 1
    {
      hide Aligned, FoldLexemes;
      AlignPlain(lx, at, t, i);
      at := at + 1;
      i := i + 1;
      AlignPeek(lx, at, t, i);
    }

    /** Past `tok` if it is next. */
    method Accept(tok: Tok) returns (found: bool)
      requires Valid() && (tok.LParen? || tok.RParen? || tok.RBracket? || tok.Comma? || tok.Colon?)
      modifies this`at, this`i
      ensures Valid() && (found <==> At(ts, old(i), tok))
      ensures found <==> old(at) < |lx| && lx[old(at)].tok == tok
      ensures !found ==> i == old(i) && at == old(at)
      ensures found ==> i == old(i) + 1 && at == old(at) + 1 && lx[at - 1] == t[i - 1]
    {
      hide Aligned, Core;
      found := at < |lx| && lx[at].tok == tok;
      if found {
        Advance();
      }
    }

    /** The scan from a `<`: past the brackets if it succeeds, else back where it was. */
    method TryTemplate() returns (fired: bool)
      requires at < |lx| && lx[at].tok == Bin(Lt)
      modifies this`at
      ensures fired == Template(Toks(lx)[old(at) + 1..])
      ensures at == if fired then old(at) + 2 + CloseAt(Toks(lx)[old(at) + 1..], 1) else old(at)
      ensures at <= |lx|
    {
      hide CloseAt, Weight, Depth, Lexemes, Follows;
      var start := at;
      ghost var rest := Toks(lx)[start + 1..];
      at := at + 1;
      var depth, steps := 1, 0;
      ghost var k := 0;
      ScanStart(rest);
      while depth > 0
        invariant k == at - (start + 1) && 0 <= k <= |rest| && at <= |lx|
        invariant depth >= 0 && 0 <= steps <= SCAN_LIMIT && (depth == 0 ==> k > 0)
        invariant Scanned(rest, k, depth, steps)
        decreases |lx| - at
      {
        ScanStep(rest, k, depth, steps);
        if at == |lx| {
          at := start;
          return false;
        }
        var p := lx[at].tok;
        assert p == rest[k];
        steps := steps + Lexemes(p);
        var d := Depth(p, depth);
        if steps > SCAN_LIMIT || d < 0 {
          at := start;
          return false;
        }
        depth := d;
        at, k := at + 1, k + 1;
      }
      ScanEnd(rest, k, steps);
      assert at < |lx| ==> lx[at].tok == rest[k];
      fired := at < |lx| && Follows(lx[at].tok);
      if !fired {
        at := start;
      }
    }

    /** A name with the template arguments it may have. */
    method TakeName() returns (end: nat)
      requires Valid() && at < |lx| && IsName(lx[at].tok)
      modifies this`at, this`i
      ensures Valid() && old(at) < at && i == old(i) + 1 && end == t[old(i)].end
    {
      hide Aligned, FoldLexemes, Template, CloseAt, Core, Span, Toks;
      ghost var (start, name, rest) := (at, at, Toks(lx));
      ToksAt(lx, at);
      at := at + 1;
      var more := true;
      while more && at < |lx| && lx[at].tok == Bin(Lt)
        invariant start < at <= |lx| && start <= name < at && i == old(i) && |rest| == |lx|
        invariant more ==> at == name + 1 && IsName(lx[name].tok)
        invariant Span(rest[start..], false) == name - start + (if more then Span(rest[name..], false) else at - name)
        decreases |lx| - at, if more then 1 else 0
      {
        ToksAt(lx, name);
        ToksAt(lx, at);
        SpanName(rest, name);
        more := TryTemplate();
        if more {
          ToksAt(lx, at);
          more := Rooted(lx[at].tok);
          if more {
            name := at;
            at := at + 1;
          }
        }
      }
      if more {
        if at < |lx| { ToksAt(lx, at); }
        SpanLone(rest, name);
      }
      AlignToken(lx, start, t, i, false);
      end := lx[at - 1].end;
      i := i + 1;
      AlignPeek(lx, at, t, i);
    }

    /** An access operator and the member name after it, if there is one. */
    method TakeMember() returns (found: bool, end: nat)
      requires Valid() && at < |lx| && lx[at].tok.Access?
      modifies this`at, this`i
      ensures Valid() && (found <==> old(i) + 1 < |t|)
      ensures found ==> i == old(i) + 2 && end == t[old(i) + 1].end
    {
      hide Aligned, FoldLexemes, Template, CloseAt, Core, Span, Toks;
      AlignAccess(lx, at, t, i);
      if at + 1 == |lx| {
        return false, 0;
      }
      ghost var (start, rest) := (at + 1, Toks(lx));
      at := at + 2;
      ToksAt(lx, start);
      SpanMember(rest, start);
      if at < |lx| { ToksAt(lx, at); }
      if at < |lx| && lx[at].tok == Bin(Lt) {
        var fired := TryTemplate();
      }
      AlignToken(lx, start, t, i + 1, true);
      end := lx[at - 1].end;
      i := i + 2;
      AlignPeek(lx, at, t, i);
      return true, end;
    }

    method ParseExpr(minPower: int) returns (r: Built)
      requires Valid() && minPower <= 11
      modifies this`at, this`i
      ensures Valid() && Agrees(t, CppParser.ParseExpr(ts, old(i), minPower), old(i), r, i)
      decreases |t| - i, 4
    {
      hide CppParser.ParseUnary, Decorate, Size, Power, Aligned, Core;
      ghost var spec := CppParser.ParseExpr(ts, i, minPower);
      ghost var u := CppParser.ParseUnary(ts, i);
      r := ParseUnary();
      if r.Failed? {
        return Failed;
      }
      UnarySize(ts, old(i), u);
      ghost var e := u.e;
      while at < |lx|
        invariant Valid() && r.Built? && r.node == Decorate(e, t, old(i)) && i == old(i) + Size(e) && old(i) < i
        invariant spec == ParseLoop(ts, i, e, minPower)
        decreases |t| - i
      {
        var op := lx[at].tok;
        if op.Question? && minPower <= -1 {
          r, e := TernaryTail(r.node, e, old(i), minPower);
        } else if op.Assigner? && minPower <= -2 {
          r, e := AssignTail(r.node, e, old(i), minPower);
        } else if op.Bin? && Power(op.bin) >= minPower {
          r, e := BinaryTail(r.node, e, old(i), minPower);
        } else {
          break;
        }
        if r.Failed? {
          return Failed;
        }
      }
    }

    /** One more operator and operand at the index, onto the tree `e` built so far. */
    method BinaryTail(left: Node, ghost e: Expr, ghost start: nat, minPower: int) returns (r: Built, ghost e': Expr)
      requires Valid() && at < |lx| && lx[at].tok.Bin? && minPower <= Power(lx[at].tok.bin)
      requires left == Decorate(e, t, start) && i == start + Size(e)
      modifies this`at, this`i
      ensures Valid()
      ensures r.Failed? ==> ParseLoop(ts, old(i), e, minPower).Err?
      ensures r.Built? ==>
        && r.node == Decorate(e', t, start) && old(i) < i == start + Size(e')
        && ParseLoop(ts, old(i), e, minPower) == ParseLoop(ts, i, e', minPower)
      decreases |t| - i, 3
    {
      hide Decorate, Size, Power, Aligned, Core;
      var op := lx[at].tok.bin;
      Advance();
      ghost var x := CppParser.ParseExpr(ts, i, Power(op) + 1);
      var right := ParseExpr(Power(op) + 1);
      if right.Failed? {
        return Failed, e;
      }
      ExprSize(ts, old(i) + 1, Power(op) + 1, x);
      BinaryDecorate(e, op, x.e, t, start);
      LoopTakesBinary(ts, old(i), e, x.e, x.next, minPower, ParseLoop(ts, x.next, Binary(e, op, x.e), minPower));
      e' := Binary(e, op, x.e);
      if left.kind == KBinary && Power(left.ops[0].bin) == Power(op) {
        r := Built(left.(kids := left.kids + [right.node], ops := left.ops + [Bin(op)], end := right.node.end));
      } else {
        r := Built(Node(KBinary, left.start, right.node.end, true, [left, right.node], [Bin(op)]));
      }
    }

    method TernaryTail(left: Node, ghost e: Expr, ghost start: nat, minPower: int) returns (r: Built, ghost e': Expr)
      requires Valid() && at < |lx| && lx[at].tok.Question? && minPower <= -1
      requires left == Decorate(e, t, start) && i == start + Size(e)
      modifies this`at, this`i
      ensures Valid()
      ensures r.Failed? ==> ParseLoop(ts, old(i), e, minPower).Err?
      ensures r.Built? ==>
        && r.node == Decorate(e', t, start) && old(i) < i == start + Size(e')
        && ParseLoop(ts, old(i), e, minPower) == ParseLoop(ts, i, e', minPower)
      decreases |t| - i, 3
    {
      hide Decorate, Size, Power, CppParser.ParseExpr, Aligned, Core;
      Advance();
      ghost var y := CppParser.ParseExpr(ts, i, -1);
      var yes := ParseExpr(-1);
      if yes.Failed? {
        return Failed, e;
      }
      var colon := Accept(Colon);
      if !colon {
        return Failed, e;
      }
      ghost var n := CppParser.ParseExpr(ts, i, -1);
      var no := ParseExpr(-1);
      if no.Failed? {
        return Failed, e;
      }
      TernaryBuilt(t, ts, start, old(i), e, y, n, minPower);
      e' := Ternary(e, y.e, n.e);
      r := Built(Node(KTernary, left.start, no.node.end, true, [left, yes.node, no.node], []));
    }

    method AssignTail(left: Node, ghost e: Expr, ghost start: nat, minPower: int) returns (r: Built, ghost e': Expr)
      requires Valid() && at < |lx| && lx[at].tok.Assigner? && minPower <= -2
      requires left == Decorate(e, t, start) && i == start + Size(e)
      modifies this`at, this`i
      ensures Valid()
      ensures r.Failed? ==> ParseLoop(ts, old(i), e, minPower).Err?
      ensures r.Built? ==>
        && r.node == Decorate(e', t, start) && old(i) < i == start + Size(e')
        && ParseLoop(ts, old(i), e, minPower) == ParseLoop(ts, i, e', minPower)
      decreases |t| - i, 3
    {
      hide Decorate, Size, Power, Aligned, Core;
      var op := lx[at].tok;
      Advance();
      ghost var v := CppParser.ParseExpr(ts, i, BOTTOM);
      var rhs := ParseExpr(BOTTOM);
      if rhs.Failed? {
        return Failed, e;
      }
      ExprSize(ts, old(i) + 1, BOTTOM, v);
      AssignDecorate(e, op.asn, v.e, t, start);
      LoopTakesAssign(ts, old(i), e, v.e, v.next, minPower, ParseLoop(ts, v.next, Assign(e, op.asn, v.e), minPower));
      e' := Assign(e, op.asn, v.e);
      r := Built(Node(KAssign, left.start, rhs.node.end, false, [left, rhs.node], [op]));
    }

    method ParseUnary() returns (r: Built)
      requires Valid()
      modifies this`at, this`i
      ensures Valid() && Agrees(t, CppParser.ParseUnary(ts, old(i)), old(i), r, i)
      decreases |t| - i, 3
    {
      hide CppParser.ParseExpr, CppParser.ParsePostfix, ParseGroup, PostfixLoop, ParseLoop, Aligned, Core;
      if at == |lx| {
        return Failed;
      }
      var p := lx[at];
      if IsPrefix(p.tok) {
        Advance();
        r := UnaryTail(p);
      } else if p.tok.Keyword? {
        Advance();
        if at < |lx| && lx[at].tok == LParen {
          ghost var g := ParseGroup(ts, i);
          var inner := ParseParenGroup();
          if inner.Failed? {
            return Failed;
          }
          GroupSize(ts, old(i) + 1, g);
          r := Built(Node(KPrim, p.start, inner.node.end, false, [inner.node], []));
        } else {
          r := UnaryTail(p);
        }
      } else {
        r := ParsePostfix();
      }
    }

    /** The operand of the prefix or keyword just read. */
    method UnaryTail(p: Lexeme) returns (r: Built)
      requires Valid() && 0 < i && t[i - 1] == p
      requires IsPrefix(p.tok) || (p.tok.Keyword? && !At(ts, i, LParen))
      modifies this`at, this`i
      ensures Valid() && Agrees(t, CppParser.ParseUnary(ts, old(i) - 1), old(i) - 1, r, i)
      decreases |t| - i, 4
    {
      hide CppParser.ParsePostfix, ParseGroup, Aligned, Core;
      var operand := ParseUnary();
      if operand.Failed? {
        return Failed;
      }
      r := Built(Node(KUnary, p.start, operand.node.end, false, [operand.node], []));
    }

    /** Consumes a parenthesised expression; the node spans the parentheses. */
    method ParseParenGroup() returns (r: Built)
      requires Valid() && at < |lx| && lx[at].tok == LParen
      modifies this`at, this`i
      ensures Valid()
      ensures match ParseGroup(ts, old(i))
        case Err => r.Failed?
        case Ok(x, n) => r == Built(Decorate(Paren(x), t, old(i))) && i == n
      decreases |t| - i, 1
    {
      hide CppParser.ParseExpr, Aligned, Core;
      var lp := lx[at];
      Advance();
      ghost var x := CppParser.ParseExpr(ts, i, BOTTOM);
      var inner := ParseExpr(BOTTOM);
      if inner.Failed? || at == |lx| || lx[at].tok != RParen {
        return Failed;
      }
      ExprSize(ts, old(i) + 1, BOTTOM, x);
      var rp := lx[at];
      Advance();
      r := Built(Node(KParen, lp.start, rp.end, false, [inner.node], []));
    }

    method ParsePostfix() returns (r: Built)
      requires Valid()
      modifies this`at, this`i
      ensures Valid() && Agrees(t, CppParser.ParsePostfix(ts, old(i)), old(i), r, i)
      decreases |t| - i, 2
    {
      hide CppParser.ParseExpr, ParseGroup, CppParser.ParseCallArgs, PostfixLoop, Aligned, Core;
      if at == |lx| {
        return Failed;
      }
      ghost var e;
      if lx[at].tok.Atom? {
        e := Prim(t[i].tok);
        var start := lx[at].start;
        var end := lx[at].end;
        if IsName(lx[at].tok) {
          end := TakeName();
        } else {
          Advance();
        }
        r := Built(Node(KPrim, start, end, false, [], []));
      } else if lx[at].tok == LParen {
        ghost var g := ParseGroup(ts, i);
        r := ParseParenGroup();
        if r.Failed? {
          return;
        }
        GroupSize(ts, old(i), g);
        e := Paren(g.e);
      } else {
        return Failed;
      }
      r := Suffixes(r.node, e, old(i));
    }

    /** The suffixes after a primary expression, from the left. */
    method Suffixes(base: Node, ghost e0: Expr, ghost start: nat) returns (r: Built)
      requires Valid() && start < i && base == Decorate(e0, t, start) && i == start + Size(e0)
      modifies this`at, this`i
      ensures Valid() && Agrees(t, PostfixLoop(ts, old(i), e0), start, r, i)
      decreases |t| - start, 1
    {
      hide CppParser.ParseExpr, ParseGroup, CppParser.ParseCallArgs, PostfixLoop, Decorate, Size, Aligned, Core;
      r := Built(base);
      ghost var e := e0;
      while at < |lx|
        invariant Valid() && r.Built? && r.node == Decorate(e, t, start) && i == start + Size(e) && old(i) <= i
        invariant PostfixLoop(ts, old(i), e0) == PostfixLoop(ts, i, e)
        decreases |t| - i
      {
        var p := lx[at].tok;
        if p == LParen {
          r, e := CallTail(r.node, e, start);
        } else if p == LBracket {
          r, e := IndexTail(r.node, e, start);
        } else if p.Access? {
          r, e := MemberTail(r.node, e, start);
        } else if p.PlusPlus? || p.MinusMinus? {
          SuffixDecorate(e, p, t, start);
          SuffixStep(ts, i, e);
          e := Postfix(e, p);
          r := Built(Node(KPostfix, r.node.start, lx[at].end, false, [r.node], []));
          Advance();
        } else {
          break;
        }
        if r.Failed? {
          return;
        }
      }
      PostfixStops(ts, i, e);
    }

    method MemberTail(base: Node, ghost e: Expr, ghost start: nat) returns (r: Built, ghost e': Expr)
      requires Valid() && at < |lx| && lx[at].tok.Access?
      requires base == Decorate(e, t, start) && i == start + Size(e)
      modifies this`at, this`i
      ensures Valid()
      ensures r.Failed? ==> PostfixLoop(ts, old(i), e).Err?
      ensures r.Built? ==>
        && r.node == Decorate(e', t, start) && old(i) < i == start + Size(e')
        && PostfixLoop(ts, old(i), e) == PostfixLoop(ts, i, e')
      decreases |t| - i, 0
    {
      hide Decorate, Size, Aligned, Core;
      var found, end := TakeMember();
      if !found {
        return Failed, e;
      }
      MemberDecorate(e, t[old(i)].tok, t[old(i) + 1].tok, t, start);
      e' := Member(e, t[old(i)].tok, t[old(i) + 1].tok);
      r := Built(Node(KMember, base.start, end, false, [base], []));
    }

    method IndexTail(base: Node, ghost e: Expr, ghost start: nat) returns (r: Built, ghost e': Expr)
      requires Valid() && at < |lx| && lx[at].tok == LBracket
      requires base == Decorate(e, t, start) && i == start + Size(e)
      modifies this`at, this`i
      ensures Valid()
      ensures r.Failed? ==> PostfixLoop(ts, old(i), e).Err?
      ensures r.Built? ==>
        && r.node == Decorate(e', t, start) && old(i) < i == start + Size(e')
        && PostfixLoop(ts, old(i), e) == PostfixLoop(ts, i, e')
      decreases |t| - i, 0
    {
      hide Decorate, Size, CppParser.ParseExpr, PostfixLoop, Aligned, Core;
      Advance();
      IndexFails(ts, old(i), e);
      ghost var x := CppParser.ParseExpr(ts, i, BOTTOM);
      var idx := ParseExpr(BOTTOM);
      if idx.Failed? || at == |lx| || lx[at].tok != RBracket {
        return Failed, e;
      }
      IndexBuilt(t, ts, start, old(i), e, x);
      e' := Index(e, x.e);
      r := Built(Node(KIndex, base.start, lx[at].end, false, [base, idx.node], []));
      Advance();
    }

    method CallTail(base: Node, ghost e: Expr, ghost start: nat) returns (r: Built, ghost e': Expr)
      requires Valid() && at < |lx| && lx[at].tok == LParen
      requires base == Decorate(e, t, start) && i == start + Size(e)
      modifies this`at, this`i
      ensures Valid()
      ensures r.Failed? ==> PostfixLoop(ts, old(i), e).Err?
      ensures r.Built? ==>
        && r.node == Decorate(e', t, start) && old(i) < i == start + Size(e')
        && PostfixLoop(ts, old(i), e) == PostfixLoop(ts, i, e')
      decreases |t| - i, 1
    {
      hide Decorate, Size, CppParser.ParseCallArgs, Aligned, Core;
      ghost var a := CppParser.ParseCallArgs(ts, i);
      var args := ParseCallArgs();
      if args.FailedArgs? {
        return Failed, e;
      }
      CallArgsSize(ts, old(i), a);
      CallDecorate(e, a.args, t, start);
      LoopTakesCall(ts, old(i), e, a.args, a.next, PostfixLoop(ts, a.next, Call(e, a.args)));
      e' := Call(e, a.args);
      r := Built(Node(KCall, base.start, lx[at - 1].end, false, [base] + args.nodes, []));
    }

    method ParseCallArgs() returns (r: BuiltArgs)
      requires Valid() && at < |lx| && lx[at].tok == LParen
      modifies this`at, this`i
      ensures Valid()
      ensures AgreesArgs(t, CppParser.ParseCallArgs(ts, old(i)), old(i) + 1, r, i)
      ensures r.BuiltArgs? ==> at > 0 && i > 0 && lx[at - 1] == t[i - 1]
      decreases |t| - i, 0
    {
      hide CppParser.ParseExpr, ParseArgs, Decorate, Size, DecorateArgs, SizeArgs, DecorateList, Width, PrependTo, Prepend,
        Aligned, Core, Peeked;
      var open := Accept(LParen);
      var done := Accept(RParen);
      if done {
        NoArgsDecorate(t, old(i) + 1);
        return BuiltArgs([]);
      }
      var args := [];
      ghost var spec := ParseArgs(ts, i);
      ghost var before := [];
      PrependNothing(t, i, spec);
      ghost var x: Parsed := Err;
      var more := true;
      while more
        invariant Valid() && old(i) < i
        invariant more ==> args == DecorateList(before, t, old(i) + 1) && i == old(i) + 1 + Width(before)
        invariant more ==> spec == PrependTo(before, ParseArgs(ts, i))
        invariant !more ==> x.Ok? && spec == OkArgs(Prepend(before, MoreArgs(x.e, NoArgs)), i)
        invariant !more ==> x.Ok? && args == DecorateList(before, t, old(i) + 1) + [Decorate(x.e, t, old(i) + 1 + Width(before))]
        decreases more, |t| - i
      {
        x := CppParser.ParseExpr(ts, i, BOTTOM);
        ArgTaken(t, ts, old(i) + 1, i, before, x);
        var a := ParseExpr(BOTTOM);
        if a.Failed? {
          return FailedArgs;
        }
        args := args + [a.node];
        more := Accept(Comma);
        if more {
          before := before + [x.e];
        }
      }
      PrependDecorate(before, MoreArgs(x.e, NoArgs), t, old(i) + 1);
      LastArgDecorate(x.e, t, old(i) + 1 + Width(before));
      done := Accept(RParen);
      if !done {
        return FailedArgs;
      }
      r := BuiltArgs(args);
    }
  }

  /** One argument, and what follows it. */
  lemma ArgsOnce(ts: seq<Tok>, i: nat, x: Parsed)
    requires i <= |ts| && x == CppParser.ParseExpr(ts, i, BOTTOM)
    ensures x.Err? ==> ParseArgs(ts, i).ErrArgs?
    ensures x.Ok? && !At(ts, x.next, Comma) ==> ParseArgs(ts, i) == OkArgs(MoreArgs(x.e, NoArgs), x.next)
    ensures x.Ok? && At(ts, x.next, Comma) ==>
      var rest := ParseArgs(ts, x.next + 1);
      ParseArgs(ts, i) == if rest.ErrArgs? then ErrArgs else OkArgs(MoreArgs(x.e, rest.args), rest.next)
  {
    hide CppParser.ParseExpr;
  }

  // ----- the template scan -----

  /** After `k` tokens of the scan, `depth` brackets are open. */
  ghost predicate Scanned(rest: seq<Tok>, k: nat, depth: nat, steps: nat) {
    && k <= |rest| && steps == Weight(rest[..k])
    && CloseAt(rest, 1) == if depth == 0 then k - 1 else Shift(CloseAt(rest[k..], depth), k)
  }

  lemma ScanStart(rest: seq<Tok>)
    ensures Scanned(rest, 0, 1, 0)
  {
    assert rest[0..] == rest && rest[..0] == [];
  }

  lemma ScanStep(rest: seq<Tok>, k: nat, depth: nat, steps: nat)
    requires Scanned(rest, k, depth, steps) && depth > 0
    ensures k == |rest| ==> !Template(rest)
    ensures k < |rest| ==>
      var d := Depth(rest[k], depth);
      var more := steps + Lexemes(rest[k]);
      if d < 0 || more > SCAN_LIMIT then !Template(rest) else Scanned(rest, k + 1, d, more)
  {
    hide Depth, Lexemes, Follows;
    if k < |rest| {
      assert rest[k..][1..] == rest[k + 1..];
      assert rest[..k + 1] == rest[..k] + [rest[k]];
      WeightPlus(rest[..k], [rest[k]]);
      WeightOne(rest[k]);
      var j := CloseAt(rest, 1);
      if j >= k {
        assert rest[..j + 1] == rest[..k + 1] + rest[k + 1..j + 1];
        WeightPlus(rest[..k + 1], rest[k + 1..j + 1]);
      }
    }
  }

  lemma ScanEnd(rest: seq<Tok>, k: nat, steps: nat)
    requires Scanned(rest, k, 0, steps) && steps <= SCAN_LIMIT && k > 0
    ensures CloseAt(rest, 1) == k - 1 && (Template(rest) <==> k < |rest| && Follows(rest[k]))
  {
  }

  lemma SuffixStep(ts: seq<Tok>, i: nat, e: Expr)
    requires i < |ts| && (ts[i].PlusPlus? || ts[i].MinusMinus?)
    ensures PostfixLoop(ts, i, e) == PostfixLoop(ts, i + 1, Postfix(e, ts[i]))
  {
  }

  lemma SuffixDecorate(b: Expr, p: Tok, t: seq<Lexeme>, i: nat)
    requires i + Size(b) < |t|
    ensures Decorate(Postfix(b, p), t, i) ==
      Node(KPostfix, Decorate(b, t, i).start, t[i + Size(b)].end, false, [Decorate(b, t, i)], [])
    ensures Size(Postfix(b, p)) == Size(b) + 1
  {
    hide SizeArgs, DecorateArgs, Attach;
  }

  lemma MemberDecorate(b: Expr, p: Tok, n: Tok, t: seq<Lexeme>, i: nat)
    requires i + Size(b) + 1 < |t|
    ensures Decorate(Member(b, p, n), t, i) ==
      Node(KMember, Decorate(b, t, i).start, t[i + Size(b) + 1].end, false, [Decorate(b, t, i)], [])
    ensures Size(Member(b, p, n)) == Size(b) + 2
  {
    hide SizeArgs, DecorateArgs, Attach;
  }

  lemma IndexDecorate(b: Expr, x: Expr, t: seq<Lexeme>, i: nat)
    requires i + Size(b) + 1 + Size(x) < |t|
    ensures Decorate(Index(b, x), t, i) ==
      Node(KIndex, Decorate(b, t, i).start, t[i + Size(b) + 1 + Size(x)].end, false,
           [Decorate(b, t, i), Decorate(x, t, i + Size(b) + 1)], [])
    ensures Size(Index(b, x)) == Size(b) + 1 + Size(x) + 1
  {
    hide SizeArgs, DecorateArgs, Attach;
  }

  lemma CallDecorate(b: Expr, a: Args, t: seq<Lexeme>, i: nat)
    requires i + Size(b) + 1 + SizeArgs(a) < |t|
    ensures Decorate(Call(b, a), t, i) ==
      Node(KCall, Decorate(b, t, i).start, t[i + Size(b) + 1 + SizeArgs(a)].end, false,
           [Decorate(b, t, i)] + DecorateArgs(a, t, i + Size(b) + 1), [])
    ensures Size(Call(b, a)) == Size(b) + 1 + SizeArgs(a) + 1
  {
    hide SizeArgs, DecorateArgs, Attach;
  }

  lemma CallArgsSize(ts: seq<Tok>, i: nat, r: ParsedArgs)
    requires At(ts, i, LParen) && r == CppParser.ParseCallArgs(ts, i) && r.OkArgs?
    ensures r.next == i + 2 + SizeArgs(r.args)
  {
    hide MatchArgs, RankArgs, SizeArgs, PrintArgs, CppParser.ParseCallArgs;
    CallArgsSound(ts, i, r);
    MatchPrintArgs(r.args, ts, i + 1);
    OutlineSizeArgs(r.args);
    OutlineToksArgs(r.args);
  }

  // ----- argument lists, built from the left -----

  ghost function Prepend(done: seq<Expr>, a: Args): Args {
    if done == [] then a else Prepend(done[..|done| - 1], MoreArgs(done[|done| - 1], a))
  }

  ghost function PrependTo(done: seq<Expr>, r: ParsedArgs): ParsedArgs {
    if r.ErrArgs? then ErrArgs else OkArgs(Prepend(done, r.args), r.next)
  }

  ghost function Width(done: seq<Expr>): nat {
    if done == [] then 0 else Width(done[..|done| - 1]) + Size(done[|done| - 1]) + 1
  }

  ghost function DecorateList(done: seq<Expr>, t: seq<Lexeme>, i: nat): seq<Node> {
    if done == [] then []
    else
      var n := |done| - 1;
      DecorateList(done[..n], t, i) + [Decorate(done[n], t, i + Width(done[..n]))]
  }

  /** One more argument at `i`, with `done` before it. */
  lemma ArgTaken(t: seq<Lexeme>, ts: seq<Tok>, start: nat, i: nat, done: seq<Expr>, x: Parsed)
    requires ts == Toks(t) && i <= |ts| && i == start + Width(done) && x == CppParser.ParseExpr(ts, i, BOTTOM)
    ensures x.Err? ==> PrependTo(done, ParseArgs(ts, i)).ErrArgs?
    ensures x.Ok? ==>
      && DecorateList(done + [x.e], t, start) == DecorateList(done, t, start) + [Decorate(x.e, t, i)]
      && x.next + 1 == start + Width(done + [x.e])
      && (if At(ts, x.next, Comma) then
            PrependTo(done, ParseArgs(ts, i)) == PrependTo(done + [x.e], ParseArgs(ts, x.next + 1))
          else PrependTo(done, ParseArgs(ts, i)) == OkArgs(Prepend(done, MoreArgs(x.e, NoArgs)), x.next))
  {
    hide CppParser.ParseExpr, ParseArgs, Decorate, Size, DecorateList, Width, PrependTo, Prepend;
    ArgsOnce(ts, i, x);
    PrependErr(done, ParseArgs(ts, i));
    if x.Ok? {
      ExprSize(ts, i, BOTTOM, x);
      DecorateListSnoc(done, x.e, t, start);
      if At(ts, x.next, Comma) {
        PrependSnoc(done, x.e, ParseArgs(ts, x.next + 1));
      }
    }
  }

  lemma NoArgsDecorate(t: seq<Lexeme>, i: nat)
    ensures DecorateArgs(NoArgs, t, i) == []
  {
  }

  lemma LastArgDecorate(x: Expr, t: seq<Lexeme>, i: nat)
    ensures DecorateArgs(MoreArgs(x, NoArgs), t, i) == [Decorate(x, t, i)]
  {
    hide Decorate, Size;
    NoArgsDecorate(t, i + Size(x) + 1);
  }

  lemma PrependNothing(t: seq<Lexeme>, i: nat, r: ParsedArgs)
    ensures DecorateList([], t, i) == [] && Width([]) == 0 && PrependTo([], r) == r
  {
  }

  lemma PrependErr(done: seq<Expr>, r: ParsedArgs)
    ensures PrependTo(done, r) == if r.ErrArgs? then ErrArgs else OkArgs(Prepend(done, r.args), r.next)
  {
  }

  lemma PrependSnoc(done: seq<Expr>, x: Expr, r: ParsedArgs)
    ensures PrependTo(done + [x], r) ==
      PrependTo(done, if r.ErrArgs? then ErrArgs else OkArgs(MoreArgs(x, r.args), r.next))
  {
    assert (done + [x])[..|done|] == done;
  }

  lemma DecorateListSnoc(done: seq<Expr>, x: Expr, t: seq<Lexeme>, i: nat)
    ensures DecorateList(done + [x], t, i) == DecorateList(done, t, i) + [Decorate(x, t, i + Width(done))]
    ensures Width(done + [x]) == Width(done) + Size(x) + 1
  {
    assert (done + [x])[..|done|] == done;
  }

  lemma {:induction false} PrependDecorate(done: seq<Expr>, a: Args, t: seq<Lexeme>, i: nat)
    ensures DecorateArgs(Prepend(done, a), t, i) ==
      DecorateList(done, t, i) + DecorateArgs(a, t, i + Width(done))
    decreases |done|
  {
    hide Decorate, Size;
    if done != [] {
      var n := |done| - 1;
      PrependDecorate(done[..n], MoreArgs(done[n], a), t, i);
    }
  }

  // ----- collecting and applying insertions -----

  /** Appends the insertions of a tree to a list. */
  method CollectWraps(node: Node, inserts: seq<Insert>) returns (r: seq<Insert>)
    ensures r == inserts + Collect(node)
    decreases node
  {
    r := inserts;
    var operands := node.kind == KBinary || node.kind == KTernary;
    for k := 0 to |node.kids|
      invariant r == inserts + CollectKids(node.kids[..k], operands)
    {
      var kid := node.kids[k];
      assert node.kids[..k + 1][..k] == node.kids[..k];
      if operands && kid.compound {
        r := r + [Insert(kid.start, Open), Insert(kid.end, Close)];
      }
      r := CollectWraps(kid, r);
    }
    assert node.kids[..|node.kids|] == node.kids;
  }

  function CountAt(m: map<nat, nat>, p: nat): nat {
    if p in m then m[p] else 0
  }

  function Bump(m: map<nat, nat>, q: nat): (r: map<nat, nat>)
    ensures forall p: nat :: CountAt(r, p) == CountAt(m, p) + if p == q then 1 else 0
    ensures r.Keys == m.Keys + {q}
  {
    m[q := CountAt(m, q) + 1]
  }

  /** The members of a finite set, largest first. */
  method Descending(ps: set<nat>) returns (r: seq<nat>)
    ensures forall p :: p in r <==> p in ps
    ensures forall a, b :: 0 <= a < b < |r| ==> r[a] > r[b]
  {
    r := [];
    var rest := ps;
    while rest != {}
      invariant rest <= ps
      invariant forall p :: p in r <==> p in ps - rest
      invariant forall a, b :: 0 <= a < b < |r| ==> r[a] > r[b]
      invariant forall p, q :: p in r && q in rest ==> p > q
      decreases |rest|
    {
      var top :| top in rest;
      var others := rest - {top};
      while others != {}
        invariant others <= rest && top in rest && top !in others
        invariant forall q :: q in rest && q !in others ==> q <= top
        decreases |others|
      {
        var q :| q in others;
        if q > top {
          top := q;
        }
        others := others - {q};
      }
      assert forall a :: 0 <= a < |r| ==> r[a] in r;
      r := r + [top];
      rest := rest - {top};
    }
  }

  /** Splices counted parentheses into the text, from the right-most position on. */
  method ApplyInserts(src: string, inserts: seq<Insert>) returns (out: string)
    requires forall x :: x in inserts ==> x.pos <= |src|
    ensures out == Chars(Splice(src, multiset(inserts)))
  {
    hide Spliced, Opens, Closes, Chars, Splice;
    var opens, closes := CountInserts(inserts, |src|);
    var positions := Descending(opens.Keys + closes.Keys);
    ghost var m := multiset(inserts);
    out := src;
    ghost var done: nat := |src| + 1;
    SplicedStart(src, m, positions);
    var k := 0;
    while k < |positions|
      invariant 0 <= k <= |positions| && Spliced(src, m, positions, k, done, out)
    {
      var pos := positions[k];
      var text := Copies(')', CountAt(closes, pos)) + Copies('(', CountAt(opens, pos));
      SplicedStep(src, m, positions, k, done, out, text);
      out := out[..pos] + text + out[pos..];
      done := pos;
      k := k + 1;
    }
    SplicedEnd(src, m, positions, done, out);
  }

  /** The first `k` positions have been spliced: the text from `done` on is final. */
  ghost predicate Spliced(src: string, m: multiset<Insert>, positions: seq<nat>, k: nat, done: nat, out: string) {
    && k <= |positions| && done <= |src| + 1
    && (forall a :: k <= a < |positions| ==> positions[a] < done)
    && (forall p: nat :: p < done && p !in positions[k..] ==> Opens(m, p) == 0 && Closes(m, p) == 0)
    && out == src[..Clip(src, done)] + Chars(Tail(src, done, m))
  }

  lemma SplicedStart(src: string, m: multiset<Insert>, positions: seq<nat>)
    requires forall p :: p in positions ==> p <= |src|
    requires forall p: nat :: p !in positions ==> Opens(m, p) == 0 && Closes(m, p) == 0
    ensures Spliced(src, m, positions, 0, |src| + 1, src)
  {
    hide Tail, Opens, Closes, Chars, Clip;
    assert positions[0..] == positions;
    TailNone(src, m);
    forall a | 0 <= a < |positions|
      ensures positions[a] < |src| + 1
    {
      assert positions[a] in positions;
    }
  }

  lemma SplicedStep(src: string, m: multiset<Insert>, positions: seq<nat>, k: nat, done: nat, out: string, text: string)
    requires Spliced(src, m, positions, k, done, out) && k < |positions|
    requires forall a, b :: 0 <= a < b < |positions| ==> positions[a] > positions[b]
    requires text == Copies(')', Closes(m, positions[k])) + Copies('(', Opens(m, positions[k]))
    ensures var pos := positions[k];
      pos <= |out| && Spliced(src, m, positions, k + 1, pos, out[..pos] + text + out[pos..])
  {
    hide Tail, Opens, Closes, Chars, Clip;
    var pos := positions[k];
    assert positions[k..] == [pos] + positions[k + 1..];
    assert forall p: nat :: pos < p < done ==> p !in positions[k..];
    SpliceStep(src, m, pos, done, out, text);
  }

  lemma SplicedEnd(src: string, m: multiset<Insert>, positions: seq<nat>, done: nat, out: string)
    requires Spliced(src, m, positions, |positions|, done, out)
    ensures out == Chars(Splice(src, m))
  {
    hide Tail, Opens, Closes, Chars, Clip, Splice;
    assert positions[|positions|..] == [];
    SpliceEnd(src, m, done);
  }

  lemma TailNone(src: string, m: multiset<Insert>)
    ensures Clip(src, |src| + 1) == |src| && src == src[..|src|] + Chars(Tail(src, |src| + 1, m))
  {
  }

  /** Nothing left to insert before `done`. */
  lemma SpliceEnd(src: string, m: multiset<Insert>, done: nat)
    requires done <= |src| + 1 && forall p: nat :: p < done ==> Opens(m, p) == 0 && Closes(m, p) == 0
    ensures src[..Clip(src, done)] + Chars(Tail(src, done, m)) == Chars(Splice(src, m))
  {
    hide Tail, Opens, Closes, Chars, Weave;
    TailSkips(src, 0, done, m);
    TailIsWeave(src, 0, m);
    assert src[..Clip(src, done)] == src[0..Clip(src, done)];
  }

  method CountInserts(inserts: seq<Insert>, ghost n: nat) returns (opens: map<nat, nat>, closes: map<nat, nat>)
    requires forall x :: x in inserts ==> x.pos <= n
    ensures forall p: nat :: CountAt(opens, p) == Opens(multiset(inserts), p)
    ensures forall p: nat :: CountAt(closes, p) == Closes(multiset(inserts), p)
    ensures (forall p :: p in opens ==> p <= n) && (forall p :: p in closes ==> p <= n)
  {
    opens, closes := map[], map[];
    for k := 0 to |inserts|
      invariant forall p: nat :: CountAt(opens, p) == Opens(multiset(inserts[..k]), p)
      invariant forall p: nat :: CountAt(closes, p) == Closes(multiset(inserts[..k]), p)
      invariant (forall p :: p in opens ==> p <= n) && (forall p :: p in closes ==> p <= n)
    {
      var x := inserts[k];
      assert inserts[..k + 1] == inserts[..k] + [x];
      assert multiset(inserts[..k + 1]) == multiset(inserts[..k]) + multiset{x};
      assert x in inserts && x == Insert(x.pos, x.side);
      if x.side == Open {
        opens := Bump(opens, x.pos);
      } else {
        closes := Bump(closes, x.pos);
      }
    }
    assert inserts[..|inserts|] == inserts;
  }

  lemma SpliceStep(src: string, m: multiset<Insert>, pos: nat, done: nat, out: string, text: string)
    requires pos < done <= |src| + 1
    requires forall p: nat :: pos < p < done ==> Opens(m, p) == 0 && Closes(m, p) == 0
    requires out == src[..Clip(src, done)] + Chars(Tail(src, done, m))
    requires text == Copies(')', Closes(m, pos)) + Copies('(', Opens(m, pos))
    ensures pos <= |out|
    ensures out[..pos] + text + out[pos..] == src[..pos] + Chars(Tail(src, pos, m))
  {
    hide Opens, Closes, Tail;
    var here := if pos < |src| then [src[pos]] else [];
    var mid := src[Clip(src, pos + 1)..Clip(src, done)];
    var rest := Chars(Tail(src, done, m));
    TailSkips(src, pos + 1, done, m);
    TailHead(src, pos, m, here, text);
    assert src[..Clip(src, done)] == src[..pos] + (here + mid);
    SpliceStrings(src[..pos], here, mid, rest, text, out);
  }

  lemma TailHead(src: string, pos: nat, m: multiset<Insert>, here: string, text: string)
    requires pos <= |src| && here == (if pos < |src| then [src[pos]] else [])
    requires text == Copies(')', Closes(m, pos)) + Copies('(', Opens(m, pos))
    ensures Chars(Tail(src, pos, m)) == (text + here) + Chars(Tail(src, pos + 1, m))
  {
    hide Opens, Closes;
    var marks := if pos < |src| then [Kept(src[pos])] else [];
    var front := Repeat(')', Closes(m, pos)) + Repeat('(', Opens(m, pos));
    CharsPlus(front + marks, Tail(src, pos + 1, m));
    CharsPlus(front, marks);
    assert Chars(front) == text;
    assert Chars(marks) == here;
  }

  lemma SpliceStrings(a: string, h: string, s: string, r: string, text: string, out: string)
    requires out == a + (h + s) + r
    ensures |a| <= |out| && out[..|a|] == a
    ensures a + text + out[|a|..] == a + ((text + h) + (s + r))
  {
    assert out[|a|..] == h + s + r;
    assert a + text + (h + s + r) == a + ((text + h) + (s + r));
  }

  lemma {:induction false} MarksInRange(cs: seq<Cell>, lx: seq<Lexeme>, i: int, n: nat)
    requires Spaced(lx, n)
    ensures forall x :: x in Marks(cs, lx, i) ==> x.pos <= n
    decreases |cs|
  {
    if cs != [] {
      MarksInRange(cs[..|cs| - 1], lx, i, n);
    }
  }

  lemma InsertsInRange(e: Expr, lx: seq<Lexeme>, outer: bool, n: nat)
    requires Spaced(lx, n)
    ensures forall x :: x in CollectWhole(Decorate(e, lx, 0), outer) ==> x.pos <= n
  {
    hide Marks, Row, CollectWhole, Decorate, OperandInserts;
    var b := outer && Compound(e);
    CollectDecorateWhole(e, lx, 0, outer);
    MarksRow(b, e, lx, 0);
    MarksInRange(Row(b, e), lx, 0, n);
    var ins := OperandInserts(b, e, lx, 0);
    assert forall x :: x in ins ==> x in multiset(ins);
  }

  lemma SpliceNothing(src: string)
    ensures Chars(Splice(src, multiset{})) == src
  {
    WeaveNone(src, 0, |src|, multiset{});
    assert src[0..|src|] == src;
  }

  /** Every token starts at `p` or later. */
  ghost predicate From(lx: seq<Lexeme>, p: nat) {
    forall k | 0 <= k < |lx| :: lx[k].start >= p
  }

  lemma SpacedCons(x: Lexeme, rest: seq<Lexeme>, n: nat)
    requires x.start < x.end <= n && Spaced(rest, n) && From(rest, x.end)
    ensures Spaced([x] + rest, n) && From([x] + rest, x.start)
  {
  }

  lemma SpacedRest(lx: seq<Lexeme>, m: nat, n: nat)
    requires Spaced(lx, n) && 0 < m <= |lx|
    ensures Spaced(lx[m..], n) && lx[0].start < lx[m - 1].end <= n
    ensures m < |lx| ==> lx[m - 1].end <= lx[m].start
  {
    assert m > 1 ==> lx[0].end <= lx[m - 1].start;
  }

  /** Folded tokens are still non-empty, in order and inside the text. */
  lemma {:induction false} FoldSpaced(lx: seq<Lexeme>, member: bool, n: nat)
    requires Spaced(lx, n)
    ensures Spaced(FoldLexemes(lx, member), n)
    ensures lx != [] ==> From(FoldLexemes(lx, member), lx[0].start)
    decreases |lx|
  {
    hide Span, FoldLexemes, Spaced, From, Toks;
    if lx == [] {
      FoldLexemesNothing(member);
    } else {
      ToksAt(lx, 0);
      var m := Span(Toks(lx), member);
      var (rest, next) := (lx[m..], Next(lx[0].tok, member));
      FoldLexemesOnce(lx, member);
      SpacedRest(lx, m, n);
      FoldSpaced(rest, next, n);
      FoldLexemesNothing(next);
      FromLater(FoldLexemes(rest, next), if rest == [] then n else rest[0].start, lx[m - 1].end);
      SpacedCons(Lexeme(Pack(Toks(lx)[..m]), lx[0].start, lx[m - 1].end), FoldLexemes(rest, next), n);
    }
  }

  lemma FromLater(lx: seq<Lexeme>, p: nat, q: nat)
    requires q <= p && (lx == [] || From(lx, p))
    ensures From(lx, q)
  {
  }

  lemma FoldLexemesNothing(member: bool)
    ensures FoldLexemes([], member) == []
  {
  }

  /** Rewrites one controlling expression of a text; `outer` asks for a pair
      around a compound return value. What cannot be parsed is left alone. */
  method ComputeParen(src: string, lx: seq<Lexeme>, outer: bool) returns (out: string)
    requires Spaced(lx, |src|) && Lexed(Toks(lx))
    ensures out == Chars(Splice(src, multiset(ToolInserts(Source(src, lx), outer))))
  {
    hide CppParser.ParseExpr, Decorate, Splice, Collect, FoldLexemes;
    SpliceNothing(src);
    FoldSpaced(lx, false, |src|);
    ghost var fx := FoldLexemes(lx, false);
    var p := new Parser(lx);
    var node := p.ParseExpr(BOTTOM);
    if node.Failed? || p.at != |lx| {
      return src;
    }
    ghost var e := Parse(Toks(fx)).e;
    InsertsInRange(e, fx, outer, |src|);
    var inserts := [];
    if outer && node.node.compound {
      inserts := [Insert(node.node.start, Open), Insert(node.node.end, Close)];
    }
    inserts := CollectWraps(node.node, inserts);
    assert inserts == InsertionsFor(Source(src, fx), outer);
    out := ApplyInserts(src, inserts);
  }
}
