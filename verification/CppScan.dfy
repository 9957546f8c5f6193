/** What the template scan accepts, said by counting brackets: which tokens it
    stops at, where it ends, how far it reads and what has to follow. */
module CppScan {
  import opened Prelude
  import opened CppSyntax
  import opened CppFold

  /** Angle brackets opened less those closed. */
  function Net(ts: seq<Tok>): int {
    if ts == [] then 0 else Net(ts[..|ts| - 1]) + Worth(ts[|ts| - 1])
  }

  function Worth(t: Tok): int {
    if t == Bin(Lt) then 1 else if t == Bin(Gt) then -1 else if t == Bin(Shr) then -2 else 0
  }

  const FORBIDDEN := {
    Bin(AndAnd), Bin(OrOr), Bin(EqEq), Bin(NotEq), Bin(Le), Bin(Ge), Bin(Cmp),
    Question, Other(";"), Other("{"), Other("}")}

  /** `j` is where `depth` open brackets are closed for the first time, exactly,
      with no forbidden token up to there. */
  ghost predicate ClosesAt(ts: seq<Tok>, depth: nat, j: int) {
    && 0 <= j < |ts|
    && depth + Net(ts[..j + 1]) == 0
    && (forall k | 0 <= k <= j :: depth + Net(ts[..k]) > 0)
    && (forall k | 0 <= k <= j :: ts[k] !in FORBIDDEN)
  }

  /** What may follow the arguments: a parenthesis, a brace or the scope operator,
      alone or at the head of a qualified name. */
  predicate Introduces(t: Tok) {
    t in {LParen, Other("{"), Other("::")} || (t.Atom? && t.kind == Name && "::" <= t.text)
  }

  lemma {:induction false} NetCons(t: Tok, ts: seq<Tok>)
    ensures Net([t] + ts) == Worth(t) + Net(ts)
  {
    if ts == [] {
      assert [t] + ts == [t] && [t][..0] == [];
    } else {
      var n := |ts| - 1;
      assert ([t] + ts)[..n + 1] == [t] + ts[..n] && ([t] + ts)[n + 1] == ts[n];
      NetCons(t, ts[..n]);
    }
  }

  lemma DepthWorth(t: Tok, depth: nat)
    requires depth > 0 && !t.Bundle?
    ensures Depth(t, depth) < 0 <==> t in FORBIDDEN || depth + Worth(t) < 0
    ensures Depth(t, depth) >= 0 ==> Depth(t, depth) == depth + Worth(t)
  {
  }

  lemma ClosesHead(ts: seq<Tok>, depth: nat)
    requires ts != [] && depth > 0
    ensures forall k | 0 < k <= |ts| :: Net(ts[..k]) == Worth(ts[0]) + Net(ts[1..][..k - 1])
    ensures Net(ts[..0]) == 0
  {
    forall k | 0 < k <= |ts|
      ensures Net(ts[..k]) == Worth(ts[0]) + Net(ts[1..][..k - 1])
    {
      assert ts[..k] == [ts[0]] + ts[1..][..k - 1];
      NetCons(ts[0], ts[1..][..k - 1]);
    }
  }

  /** Closing past the first token is closing in the rest. */
  lemma ClosesTail(ts: seq<Tok>, depth: nat, j: int)
    requires ts != [] && depth > 0 && depth + Worth(ts[0]) > 0 && ts[0] !in FORBIDDEN
    ensures ClosesAt(ts, depth, j) <==> ClosesAt(ts[1..], depth + Worth(ts[0]), j - 1)
  {
    hide Net, Worth, FORBIDDEN;
    ClosesHead(ts, depth);
    var (rest, d) := (ts[1..], depth + Worth(ts[0]));
    assert Net(rest[..0]) == 0 by { assert rest[..0] == ts[..0]; }
    if ClosesAt(ts, depth, j) {
      assert j > 0;
      assert rest[..j] == ts[1..][..j + 1 - 1];
      forall k | 0 <= k <= j - 1
        ensures d + Net(rest[..k]) > 0 && rest[k] !in FORBIDDEN
      {
        assert depth + Net(ts[..k + 1]) > 0 && rest[k] == ts[k + 1];
      }
    }
    if ClosesAt(rest, d, j - 1) {
      forall k | 0 <= k <= j
        ensures depth + Net(ts[..k]) > 0 && ts[k] !in FORBIDDEN
      {
        if k > 0 {
          assert d + Net(rest[..k - 1]) > 0 && rest[k - 1] == ts[k];
        }
      }
    }
  }

  lemma {:induction false} CloseAtIff(ts: seq<Tok>, depth: nat, j: nat)
    requires depth > 0 && Lexed(ts)
    ensures CloseAt(ts, depth) == j <==> ClosesAt(ts, depth, j)
    decreases |ts|
  {
    if ts != [] {
      hide Depth, Worth, FORBIDDEN, Lexed, ClosesAt;
      LexedParts(ts, 1);
      NotBundled(ts);
      DepthWorth(ts[0], depth);
      var d := Depth(ts[0], depth);
      ClosesFirst(ts, depth, j);
      if d > 0 && j > 0 {
        ClosesTail(ts, depth, j);
        CloseAtIff(ts[1..], d, j - 1);
      }
    }
  }

  /** What the first token decides. */
  lemma ClosesFirst(ts: seq<Tok>, depth: nat, j: nat)
    requires ts != [] && depth > 0
    ensures ClosesAt(ts, depth, j) ==> ts[0] !in FORBIDDEN && (if j == 0 then depth + Worth(ts[0]) == 0 else depth + Worth(ts[0]) > 0)
    ensures ts[0] !in FORBIDDEN && depth + Worth(ts[0]) == 0 && j == 0 ==> ClosesAt(ts, depth, j)
  {
    hide Worth, FORBIDDEN;
    ClosesHead(ts, depth);
    assert Net(ts[1..][..0]) == 0;
    assert Net(ts[..1]) == Worth(ts[0]);
  }

  /** The arguments after a `<` end with the token at `j`. */
  ghost predicate ArgumentsTo(rest: seq<Tok>, j: int) {
    ClosesAt(rest, 1, j) && RawWeight(rest[..j + 1]) <= 64 && j + 1 < |rest| && Introduces(rest[j + 1])
  }

  /** The scan after a `<` succeeds exactly if its bracket is closed before any
      forbidden token, within 64 lexical tokens, and the right token follows. */
  lemma TemplateIff(rest: seq<Tok>)
    requires Lexed(rest)
    ensures Template(rest) <==> exists j :: ArgumentsTo(rest, j)
    ensures forall j | ArgumentsTo(rest, j) :: j == CloseAt(rest, 1)
  {
    hide CloseAt, ClosesAt, RawWeight, Weight, Follows, Introduces;
    var c := CloseAt(rest, 1);
    forall j | ClosesAt(rest, 1, j)
      ensures 0 <= j == c
    {
      ClosesIn(rest, j);
      CloseAtIff(rest, 1, j);
    }
    if c >= 0 {
      CloseAtIff(rest, 1, c);
      Fits(rest, c);
      assert Template(rest) <==> ArgumentsTo(rest, c);
    }
  }

  /** A name before a `<`, or any token in member position, is read together with
      arguments exactly if the scan finds some. */
  lemma SpanIff(ts: seq<Tok>, member: bool)
    requires Lexed(ts) && ts != []
    ensures Span(ts, member) > 1 <==>
      && |ts| > 1 && ts[1] == Bin(Lt) && (member || (ts[0].Atom? && ts[0].kind == Name))
      && exists j :: ArgumentsTo(ts[2..], j)
    ensures forall j | |ts| > 1 && Span(ts, member) > 1 && ArgumentsTo(ts[2..], j) ::
      if !member && ts[3 + j].Atom? && Introduces(ts[3 + j]) then Span(ts, member) == 3 + j + Span(ts[3 + j..], false)
      else Span(ts, member) == 3 + j
  {
    hide Template, ArgumentsTo, CloseAt, Span, Guesses, Introduces, Lexed;
    SpanOnce(ts, member);
    if |ts| > 1 {
      LexedParts(ts, 2);
      TemplateIff(ts[2..]);
      forall j | Guesses(ts, member) && ArgumentsTo(ts[2..], j)
        ensures 0 <= j && j + 3 < |ts| && Introduces(ts[3 + j]) && j == CloseAt(ts[2..], 1)
      {
        ArgumentsInside(ts[2..], j);
      }
    }
  }

  lemma SpanOnce(ts: seq<Tok>, member: bool)
    requires ts != []
    ensures Span(ts, member) > 1 <==> Guesses(ts, member)
    ensures Guesses(ts, member) <==>
      |ts| > 1 && ts[1] == Bin(Lt) && (member || (ts[0].Atom? && ts[0].kind == Name)) && Template(ts[2..])
    ensures Guesses(ts, member) ==> var n := 3 + CloseAt(ts[2..], 1);
      && 3 <= n < |ts|
      && Span(ts, member) == if !member && ts[n].Atom? && Introduces(ts[n]) then n + Span(ts[n..], false) else n
  {
    hide CloseAt, Weight;
    if Guesses(ts, member) {
      var n := 3 + CloseAt(ts[2..], 1);
      assert ts[2..][n - 2] == ts[n];
      RootedIs(ts[n]);
    }
  }

  lemma RootedIs(t: Tok)
    ensures Rooted(t) <==> t.Atom? && Introduces(t)
  {
  }

  lemma ArgumentsInside(rest: seq<Tok>, j: int)
    requires ArgumentsTo(rest, j)
    ensures 0 <= j && j + 1 < |rest| && Introduces(rest[j + 1])
  {
  }

  lemma ClosesIn(ts: seq<Tok>, j: int)
    requires ClosesAt(ts, 1, j)
    ensures 0 <= j < |ts|
  {
  }

  lemma Fits(rest: seq<Tok>, c: int)
    requires Lexed(rest) && 0 <= c < |rest|
    ensures Weight(rest[..c + 1]) == RawWeight(rest[..c + 1])
    ensures c + 1 < |rest| ==> (Follows(rest[c + 1]) <==> Introduces(rest[c + 1]))
  {
    LexedParts(rest, c + 1);
    RawWeightIs(rest[..c + 1]);
  }

  // ----- how far the scan reads -----

  /** No scope operator in it. */
  ghost predicate Unqualified(text: string) {
    forall k | 0 <= k < |text| :: text[k] != ':'
  }

  /** Names joined by the scope operator. */
  function Joined(parts: seq<string>): string
    requires parts != []
  {
    if |parts| == 1 then parts[0] else parts[0] + "::" + Joined(parts[1..])
  }

  lemma {:induction false} ScopesSkip(a: string, b: string)
    requires Unqualified(a)
    ensures Scopes(a + "::" + b) == 1 + Scopes(b)
    ensures Scopes(a) == 0
  {
    var s := a + "::" + b;
    if a == [] {
      assert s == "::" + b && s[..2] == "::" && s[2..] == b;
    } else {
      assert s[1..] == a[1..] + "::" + b && s[0] == a[0] && s[0] != "::"[0];
      assert s[..2][0] == s[0];
      assert |a| >= 2 ==> a[..2][0] == a[0];
      ScopesSkip(a[1..], b);
    }
  }

  lemma {:induction false} ScopesJoined(parts: seq<string>)
    requires parts != [] && forall k | 0 <= k < |parts| :: Unqualified(parts[k])
    ensures Scopes(Joined(parts)) == |parts| - 1
  {
    hide Unqualified, Scopes;
    if |parts| > 1 {
      ScopesSkip(parts[0], Joined(parts[1..]));
      ScopesJoined(parts[1..]);
    } else {
      ScopesSkip(parts[0], []);
    }
  }

  /** A qualified name counts as its parts and the scope operators between them. */
  lemma LexemesOfName(parts: seq<string>)
    requires parts != [] && parts[0] != [] && forall k | 0 <= k < |parts| :: Unqualified(parts[k])
    ensures RawLexemes(Atom(Name, Joined(parts))) == 2 * |parts| - 1
    ensures RawLexemes(Atom(Name, "::" + Joined(parts))) == 2 * |parts|
  {
    hide Scopes, Unqualified;
    ScopesJoined(parts);
    var text := Joined(parts);
    assert Scopes("::" + text) == 1 + Scopes(text) by {
      assert Unqualified([]) by { NothingUnqualified(); }
      ScopesSkip([], text);
      assert [] + "::" + text == "::" + text;
    }
    assert ("::" + text)[..2] == "::";
    assert text[0] != ':' by { FirstCharacter(parts[0]); }
    assert text[0] == parts[0][0];
    if |text| >= 2 {
      assert text[..2][0] == text[0] && text[0] != "::"[0];
    }
  }

  lemma NothingUnqualified()
    ensures Unqualified([])
  {
  }

  lemma FirstCharacter(text: string)
    requires Unqualified(text) && text != []
    ensures text[0] != ':'
  {
  }

  lemma {:induction false} WeightOfCopies(t: Tok, n: nat)
    requires RawLexemes(t) == 1
    ensures RawWeight(Copies(t, n)) == n
  {
    hide RawLexemes;
    if n > 0 {
      assert Copies(t, n)[1..] == Copies(t, n - 1);
      WeightOfCopies(t, n - 1);
    }
  }

  /** 64 tokens are read, 65 are not. */
  lemma ScanLimit(text: string, n: nat)
    requires text != [] && Unqualified(text)
    ensures Template(Copies(Atom(Name, text), n) + [Bin(Gt), LParen]) <==> n + 1 <= 64
  {
    hide CloseAt, Template, RawWeight, RawLexemes, Unqualified, ClosesAt, Lexed;
    var t := Atom(Name, text);
    var (body, rest) := (Copies(t, n), Copies(t, n) + [Bin(Gt), LParen]);
    PlainRow(t, n);
    TemplateIff(rest);
    assert rest[..n + 1] == body + [Bin(Gt)];
    CloseAtIff(rest, 1, n);
    LexemesOfName([text]);
    WeightOfCopies(t, n);
    RawWeightSnoc(body, Bin(Gt));
    GreaterIsOne();
    assert ArgumentsTo(rest, n) <==> n + 1 <= 64;
  }

  lemma GreaterIsOne()
    ensures RawLexemes(Bin(Gt)) == 1
  {
  }

  lemma PlainRow(t: Tok, n: nat)
    requires t.Atom?
    ensures var rest := Copies(t, n) + [Bin(Gt), LParen]; Lexed(rest) && ClosesAt(rest, 1, n)
  {
    var rest := Copies(t, n) + [Bin(Gt), LParen];
    forall k | 0 <= k <= n ensures Net(rest[..k]) == 0 { NetOfCopies(t, rest, k); }
    assert rest[..n + 1][..n] == rest[..n];
  }

  lemma {:induction false} NetOfCopies(t: Tok, rest: seq<Tok>, k: nat)
    requires k <= |rest| && Worth(t) == 0 && forall i | 0 <= i < k :: rest[i] == t
    ensures Net(rest[..k]) == 0
  {
    if k > 0 {
      assert rest[..k][..k - 1] == rest[..k - 1];
      NetOfCopies(t, rest, k - 1);
    }
  }

  lemma {:induction false} RawWeightSnoc(ts: seq<Tok>, t: Tok)
    ensures RawWeight(ts + [t]) == RawWeight(ts) + RawLexemes(t)
  {
    hide RawLexemes;
    if ts == [] {
      assert ts + [t] == [t] && [t][1..] == [];
    } else {
      assert (ts + [t])[1..] == ts[1..] + [t];
      RawWeightSnoc(ts[1..], t);
    }
  }
}
