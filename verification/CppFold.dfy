/** The guess that a `<` after a name opens template arguments. What is taken for
    a name with its arguments is one token to the rest of the parser, so reading
    an expression is folding those tokens together and parsing what is left. */
module CppFold {
  import opened CppSyntax

  // ----- the scan -----

  /** Tokens that cannot stand in a template argument list. */
  predicate Barred(t: Tok) {
    || (t.Bin? && (t.bin.AndAnd? || t.bin.OrOr? || t.bin.EqEq? || t.bin.NotEq? || t.bin.Le? || t.bin.Cmp? || t.bin.Ge?))
    || t.Question?
    || t == Other(";") || t == Other("{") || t == Other("}")
  }

  function Shift(n: int, d: nat): int {
    if n < 0 then -1 else n + d
  }

  /** The tokens that a token was made of. */
  function Raw(t: Tok): (r: seq<Tok>)
    ensures |r| > 0
  {
    if t.Bundle? && |t.raw| > 1 then t.raw else [t]
  }

  function Flat(ts: seq<Tok>): (r: seq<Tok>)
    ensures |r| >= |ts|
  {
    if ts == [] then [] else Raw(ts[0]) + Flat(ts[1..])
  }

  /** Brackets open after a source token; 0 once all are closed, -1 if the scan fails. */
  function RawDepth(t: Tok, depth: nat): (d: int)
    requires depth > 0
    ensures d >= -1
  {
    if Barred(t) then -1
    else if t == Bin(Lt) then depth + 1
    else if t == Bin(Gt) then depth - 1
    else if t == Bin(Shr) then if depth >= 2 then depth - 2 else -1
    else depth
  }

  /** The same after any token: the brackets of a bundle are balanced, and a scan
      that ended at its first token would find no parenthesis there. */
  function Depth(t: Tok, depth: nat): (d: int)
    requires depth > 0
    ensures d >= -1
  {
    var d := RawDepth(Raw(t)[0], depth);
    if |Raw(t)| > 1 && d == 0 then -1 else d
  }

  /** Index of the token that closes `depth` open angle brackets, or -1. */
  function CloseAt(ts: seq<Tok>, depth: nat): (j: int)
    requires depth > 0
    ensures -1 <= j < |ts|
  {
    if ts == [] then -1
    else
      var d := Depth(ts[0], depth);
      if d < 0 then -1 else if d == 0 then 0 else Shift(CloseAt(ts[1..], d), 1)
  }

  /** Occurrences of the scope operator in a name. */
  function Scopes(text: string): nat {
    if |text| < 2 then 0 else if text[..2] == "::" then 1 + Scopes(text[2..]) else Scopes(text[1..])
  }

  predicate IsName(t: Tok) {
    t.Atom? && t.kind.Name?
  }

  /** A name that starts with the scope operator. */
  predicate Rooted(t: Tok) {
    IsName(t) && |t.text| >= 2 && t.text[..2] == "::"
  }

  /** Lexical tokens that a source token stands for: a qualified name is one atom here. */
  function RawLexemes(t: Tok): nat {
    if Rooted(t) then 2 * Scopes(t.text) else if IsName(t) then 2 * Scopes(t.text) + 1 else 1
  }

  function RawWeight(ts: seq<Tok>): nat {
    if ts == [] then 0 else RawLexemes(ts[0]) + RawWeight(ts[1..])
  }

  function Lexemes(t: Tok): nat {
    RawWeight(Raw(t))
  }

  function Weight(ts: seq<Tok>): nat {
    if ts == [] then 0 else Lexemes(ts[0]) + Weight(ts[1..])
  }

  const SCAN_LIMIT := 64

  /** What has to follow the closing bracket. */
  predicate RawFollows(t: Tok) {
    t.LParen? || t == Other("::") || t == Other("{") || Rooted(t)
  }

  predicate Follows(t: Tok) {
    RawFollows(Raw(t)[0])
  }

  /** The scan over the tokens after a `<` succeeds. */
  predicate Template(rest: seq<Tok>) {
    var j := CloseAt(rest, 1);
    j >= 0 && Weight(rest[..j + 1]) <= SCAN_LIMIT && j + 1 < |rest| && Follows(rest[j + 1])
  }

  // ----- folding -----

  /** The first token is a name, or a member name, and the scan after it succeeds. */
  predicate Guesses(ts: seq<Tok>, member: bool) {
    |ts| > 1 && ts[1] == Bin(Lt) && (member || IsName(ts[0])) && Template(ts[2..])
  }

  /** How many tokens are read as one. A name goes on after its arguments if the
      scope operator follows; a member name does not. */
  function Span(ts: seq<Tok>, member: bool): (n: nat)
    requires ts != []
    ensures 1 <= n <= |ts|
    decreases |ts|
  {
    if Guesses(ts, member) then
      var n := 3 + CloseAt(ts[2..], 1);
      if !member && Rooted(ts[n]) then n + Span(ts[n..], false) else n
    else 1
  }

  function Pack(r: seq<Tok>): Tok
    requires r != []
  {
    if |r| == 1 then r[0] else Bundle(r)
  }

  /** What follows an access operator is a member name, whatever it is. */
  predicate Next(t: Tok, member: bool) {
    !member && t.Access?
  }

  function Fold(ts: seq<Tok>, member: bool): seq<Tok> {
    if ts == [] then []
    else
      var n := Span(ts, member);
      [Pack(ts[..n])] + Fold(ts[n..], Next(ts[0], member))
  }

  /** Tokens as the lexer gives them. */
  predicate Lexed(ts: seq<Tok>) {
    forall k | 0 <= k < |ts| :: !ts[k].Bundle?
  }

  lemma {:induction false} FlatPlus(a: seq<Tok>, b: seq<Tok>)
    ensures Flat(a + b) == Flat(a) + Flat(b)
  {
    if a == [] {
      assert a + b == b;
    } else {
      assert (a + b)[1..] == a[1..] + b;
      FlatPlus(a[1..], b);
    }
  }

  lemma {:induction false} FlatPlain(ts: seq<Tok>)
    requires Lexed(ts)
    ensures Flat(ts) == ts
  {
    if ts != [] {
      FlatPlain(ts[1..]);
      assert ts == [ts[0]] + ts[1..];
    }
  }

  lemma FoldOnce(ts: seq<Tok>, member: bool)
    requires ts != []
    ensures var n := Span(ts, member);
      Fold(ts, member) == [Pack(ts[..n])] + Fold(ts[n..], Next(ts[0], member))
  {
    hide Span;
  }

  lemma FlatCons(t: Tok, ts: seq<Tok>)
    ensures Flat([t] + ts) == Raw(t) + Flat(ts)
  {
    assert ([t] + ts)[1..] == ts;
  }

  /** Folding loses nothing. */
  lemma {:induction false} FlatFold(ts: seq<Tok>, member: bool)
    requires Lexed(ts)
    ensures Flat(Fold(ts, member)) == ts
    decreases |ts|
  {
    hide Span, Fold, Flat, Lexed, Raw, Pack, Next;
    if ts == [] {
      FoldNothing(member);
    } else {
      var n := Span(ts, member);
      LexedParts(ts, n);
      FoldOnce(ts, member);
      FlatFold(ts[n..], Next(ts[0], member));
      FlatCons(Pack(ts[..n]), Fold(ts[n..], Next(ts[0], member)));
      RawPack(ts[..n]);
      assert ts == ts[..n] + ts[n..];
    }
  }

  lemma FoldNothing(member: bool)
    ensures Fold([], member) == [] && Flat([]) == []
  {
  }

  lemma LexedParts(ts: seq<Tok>, n: nat)
    requires Lexed(ts) && n <= |ts|
    ensures Lexed(ts[..n]) && Lexed(ts[n..])
  {
  }

  lemma RawPack(r: seq<Tok>)
    requires r != [] && Lexed(r)
    ensures Raw(Pack(r)) == r
  {
  }

  // ----- the scan does not look past what decides it -----

  lemma {:induction false} CloseLocal(x: seq<Tok>, a: seq<Tok>, b: seq<Tok>, depth: nat)
    requires depth > 0 && 0 <= CloseAt(x + a, depth) < |x|
    ensures CloseAt(x + b, depth) == CloseAt(x + a, depth)
  {
    hide Depth;
    var d := Depth(x[0], depth);
    if d > 0 {
      assert (x + a)[1..] == x[1..] + a && (x + b)[1..] == x[1..] + b;
      CloseLocal(x[1..], a, b, d);
    }
  }

  predicate Angle(t: Tok) {
    t == Bin(Gt) || t == Bin(Shr)
  }

  /** A scan that closes does so at a `>` or `>>`. */
  lemma {:induction false} ClosesAtAngle(ts: seq<Tok>, depth: nat)
    requires depth > 0 && CloseAt(ts, depth) >= 0
    ensures Angle(ts[CloseAt(ts, depth)])
  {
    var d := Depth(ts[0], depth);
    if d > 0 {
      ClosesAtAngle(ts[1..], d);
    }
  }

  /** `raw` is one token to the parser if a call follows. */
  ghost predicate Sealed(raw: seq<Tok>, member: bool) {
    |raw| > 1 && Lexed(raw) && Span(raw + [LParen], member) == |raw|
  }

  /** What may come after such tokens without undoing or extending them. */
  predicate Keeps(raw: seq<Tok>, rest: seq<Tok>, member: bool)
    requires raw != []
  {
    var last := raw[|raw| - 1];
    if IsName(last) then !Guesses([last] + rest, false)
    else rest != [] && RawFollows(Raw(rest[0])[0]) && (member || !Rooted(Raw(rest[0])[0]))
  }

  /** The first arguments of `raw`, in any context: where they end, and whether
      they are read so, depends on the token after them alone. */
  lemma FirstSegment(raw: seq<Tok>, a: seq<Tok>, member: bool, n: nat)
    requires |raw| > 1 && Lexed(raw) && Lexed(a) && n == 3 + CloseAt((raw + a)[2..], 1) && Guesses(raw + a, member)
    requires Span(raw + a, member) == |raw|
    ensures 3 <= n <= |raw| && Angle(raw[n - 1])
    ensures n < |raw| ==> !member && Rooted(raw[n]) && Span(raw[n..] + a, false) == |raw| - n
    ensures n == |raw| ==> a != [] && RawFollows(a[0]) && (member || !Rooted(a[0]))
  {
    hide CloseAt, Template;
    var s := raw + a;
    GuessAngle(s, member);
    if n < |raw| {
      assert s[n..] == raw[n..] + a;
    } else if n == |raw| {
      assert s[n..] == a;
    }
  }

  /** The token that closes, and that the scan found what has to follow. */
  lemma GuessAngle(ts: seq<Tok>, member: bool)
    requires Guesses(ts, member) && Lexed(ts)
    ensures var n := 3 + CloseAt(ts[2..], 1); 3 <= n < |ts| && Angle(ts[n - 1]) && RawFollows(ts[n])
  {
    ClosesAtAngle(ts[2..], 1);
  }

  lemma OtherContext(raw: seq<Tok>, a: seq<Tok>, b: seq<Tok>, member: bool, n: nat)
    requires |raw| > 1 && Lexed(raw) && Lexed(a) && Lexed(b)
    requires n == 3 + CloseAt((raw + a)[2..], 1) && Guesses(raw + a, member) && n <= |raw|
    ensures |raw + b| > 1 && (Guesses(raw + b, member) <==> n < |raw| || (b != [] && RawFollows(b[0])))
    ensures CloseAt((raw + b)[2..], 1) == n - 3
  {
    hide CloseAt, Weight;
    var (x, c) := (raw[2..], n - 3);
    assert (raw + a)[2..] == x + a && (raw + b)[2..] == x + b;
    CloseLocal(x, a, b, 1);
    assert (x + a)[..c + 1] == x[..c + 1] && (x + b)[..c + 1] == x[..c + 1];
    assert n < |raw| ==> (x + b)[c + 1] == raw[n] && (x + a)[c + 1] == raw[n];
    assert n == |raw| && b != [] ==> (x + b)[c + 1] == b[0];
  }

  /** Whether tokens are read as one depends on what follows them alone. */
  lemma {:induction false} SpanLocal(raw: seq<Tok>, a: seq<Tok>, b: seq<Tok>, member: bool)
    requires |raw| > 1 && Lexed(raw) && Lexed(a) && Lexed(b) && Span(raw + a, member) == |raw|
    ensures Keeps(raw, a, member)
    ensures Span(raw + b, member) == |raw| <==> Keeps(raw, b, member)
    decreases |raw|
  {
    hide CloseAt, Template;
    var n := 3 + CloseAt((raw + a)[2..], 1);
    FirstSegment(raw, a, member, n);
    OtherContext(raw, a, b, member, n);
    var t := raw + b;
    if n == |raw| {
      assert b != [] ==> t[n] == b[0];
    } else {
      var rest := raw[n..];
      assert t[n..] == rest + b && t[n] == raw[n];
      assert rest[|rest| - 1] == raw[|raw| - 1];
      if |rest| > 1 {
        SpanLocal(rest, a, b, false);
      } else {
        assert rest == [raw[n]];
      }
    }
  }

  lemma SealedAnywhere(raw: seq<Tok>, a: seq<Tok>, b: seq<Tok>, member: bool)
    requires |raw| > 1 && Lexed(raw) && Lexed(a) && Lexed(b) && Span(raw + a, member) == |raw|
    ensures Sealed(raw, member) && (Span(raw + b, member) == |raw| <==> Keeps(raw, b, member))
  {
    hide Guesses;
    SpanLocal(raw, a, b, member);
    SpanLocal(raw, a, [LParen], member);
    CallKeeps(raw, member);
  }

  lemma CallKeeps(raw: seq<Tok>, member: bool)
    requires raw != []
    ensures Keeps(raw, [LParen], member)
  {
  }

  // ----- the scan over bundles is the scan over their tokens -----

  lemma DepthDeeper(t: Tok, depth: nat, h: nat)
    requires depth > 0 && !t.Bundle? && Depth(t, depth) >= 0
    ensures Depth(t, depth + h) == Depth(t, depth) + h
  {
  }

  /** Brackets closed among themselves leave those around them open. */
  lemma {:induction false} ClosePast(x: seq<Tok>, depth: nat, h: nat, rest: seq<Tok>)
    requires depth > 0 && h > 0 && Lexed(x) && CloseAt(x, depth) == |x| - 1 && x != []
    ensures CloseAt(x + rest, depth + h) == Shift(CloseAt(rest, h), |x|)
  {
    hide Depth;
    var d := Depth(x[0], depth);
    DepthDeeper(x[0], depth, h);
    assert (x + rest)[1..] == x[1..] + rest;
    if d > 0 {
      ClosePast(x[1..], d, h, rest);
    } else {
      assert x[1..] + rest == rest;
    }
  }

  /** The tokens of a bundle after its first do not change what is open. */
  lemma {:induction false} BundlePast(raw: seq<Tok>, a: seq<Tok>, member: bool, h: nat, rest: seq<Tok>)
    requires |raw| > 1 && Lexed(raw) && Lexed(a) && Span(raw + a, member) == |raw| && h > 0
    ensures CloseAt(raw[1..] + rest, h) == Shift(CloseAt(rest, h), |raw| - 1)
    decreases |raw|
  {
    hide CloseAt, Template, Depth, Lexed;
    var n := 3 + CloseAt((raw + a)[2..], 1);
    SpanGuesses(raw, a, member);
    hide Span, Guesses;
    FirstSegment(raw, a, member, n);
    LexedParts(raw, n);
    LexedParts(raw[..n], 2);
    var (x, more) := (raw[2..n], raw[n..]);
    assert (raw + a)[2..] == x + (more + a);
    CloseExact(x, more + a);
    assert raw[1..] + rest == [Bin(Lt)] + (x + (more + rest));
    CloseCons(Bin(Lt), x + (more + rest), h);
    ClosePast(x, 1, h, more + rest);
    if more == [] {
      assert more + rest == rest;
    } else {
      assert more + rest == [more[0]] + (more[1..] + rest);
      CloseCons(more[0], more[1..] + rest, h);
      if |more| > 1 {
        BundlePast(more, a, false, h, rest);
      } else {
        assert more[1..] + rest == rest;
      }
    }
  }

  lemma SpanGuesses(raw: seq<Tok>, a: seq<Tok>, member: bool)
    requires |raw| > 1 && Span(raw + a, member) == |raw|
    ensures Guesses(raw + a, member) && raw[1] == Bin(Lt)
  {
    hide Template, CloseAt;
    assert (raw + a)[1] == raw[1];
  }

  lemma CloseExact(x: seq<Tok>, a: seq<Tok>)
    requires x != [] && CloseAt(x + a, 1) == |x| - 1
    ensures CloseAt(x, 1) == |x| - 1
  {
    CloseLocal(x, a, [], 1);
    assert x + [] == x;
  }

  /** A `<` opens one more; a name opens and closes nothing. */
  lemma CloseCons(t: Tok, rest: seq<Tok>, h: nat)
    requires h > 0 && (t == Bin(Lt) || IsName(t))
    ensures CloseAt([t] + rest, h) == Shift(CloseAt(rest, if IsName(t) then h else h + 1), 1)
  {
    assert ([t] + rest)[1..] == rest;
  }

  /** Bundles that the tool would make, each in its place. */
  ghost predicate Good(es: seq<Tok>, member: bool) {
    es != [] ==>
      (es[0].Bundle? ==> Sealed(es[0].raw, member)) && Good(es[1..], Next(Raw(es[0])[0], member))
  }

  lemma {:induction false} FlatSource(es: seq<Tok>, member: bool)
    requires Good(es, member)
    ensures Lexed(Flat(es))
  {
    hide Sealed;
    if es != [] {
      FlatSource(es[1..], Next(Raw(es[0])[0], member));
      if es[0].Bundle? { SealedFacts(es[0].raw, member); }
      SourcePlus(Raw(es[0]), Flat(es[1..]));
    }
  }

  lemma SourcePlus(a: seq<Tok>, b: seq<Tok>)
    ensures Lexed(a) && Lexed(b) <==> Lexed(a + b)
  {
    if Lexed(a + b) {
      assert forall k | 0 <= k < |a| :: a[k] == (a + b)[k];
      assert forall k | 0 <= k < |b| :: b[k] == (a + b)[|a| + k];
    }
  }

  lemma SealedFacts(raw: seq<Tok>, member: bool)
    requires Sealed(raw, member)
    ensures |raw| > 1 && Lexed(raw) && raw[1] == Bin(Lt) && (member || IsName(raw[0]))
  {
    hide Template;
    assert (raw + [LParen])[1] == raw[1];
  }

  lemma {:induction false} WeightPlus(a: seq<Tok>, b: seq<Tok>)
    ensures Weight(a + b) == Weight(a) + Weight(b)
  {
    hide Lexemes;
    if a == [] {
      assert a + b == b;
    } else {
      assert (a + b)[1..] == a[1..] + b;
      WeightPlus(a[1..], b);
    }
  }

  lemma WeightOne(t: Tok)
    ensures Weight([t]) == Lexemes(t)
  {
    hide Lexemes;
    assert [t][1..] == [];
    assert Weight([]) == 0;
  }

  lemma {:induction false} RawWeightIs(ts: seq<Tok>)
    requires Lexed(ts)
    ensures Weight(ts) == RawWeight(ts)
  {
    hide RawLexemes;
    if ts != [] {
      RawWeightIs(ts[1..]);
      assert [ts[0]][1..] == [];
      assert RawWeight([ts[0]]) == RawLexemes(ts[0]) + RawWeight([]);
    }
  }

  lemma {:induction false} WeightFlat(es: seq<Tok>, member: bool)
    requires Good(es, member)
    ensures Weight(Flat(es)) == Weight(es)
  {
    hide Sealed, RawWeight;
    if es != [] {
      WeightFlat(es[1..], Next(Raw(es[0])[0], member));
      WeightPlus(Raw(es[0]), Flat(es[1..]));
      if es[0].Bundle? { SealedFacts(es[0].raw, member); }
      RawWeightIs(Raw(es[0]));
    }
  }

  lemma {:induction false} GoodFront(es: seq<Tok>, member: bool, n: nat)
    requires Good(es, member) && n <= |es|
    ensures Good(es[..n], member)
  {
    hide Sealed;
    if n > 0 {
      GoodFront(es[1..], Next(Raw(es[0])[0], member), n - 1);
      assert es[..n][1..] == es[1..][..n - 1];
    }
  }

  /** Where the scan closes among the tokens of `es`: at the same place, or at the
      first token of a bundle, after which no parenthesis stands. */
  lemma {:induction false} CloseFlat(es: seq<Tok>, member: bool, depth: nat)
    requires Good(es, member) && depth > 0
    ensures var (j, c, f) := (CloseAt(es, depth), CloseAt(Flat(es), depth), Flat(es));
      if j >= 0 then c == |Flat(es[..j])| else c < 0 || (c + 1 < |f| && f[c + 1] == Bin(Lt))
  {
    hide Sealed, Depth;
    if es != [] {
      var (t, rest) := (es[0], es[1..]);
      var m := Next(Raw(t)[0], member);
      var d := Depth(t, depth);
      assert Flat(es) == Raw(t) + Flat(rest);
      HeadPast(t, member, Flat(rest), depth);
      if d > 0 {
        CloseFlat(rest, m, d);
        var j := CloseAt(rest, d);
        if j >= 0 {
          assert es[..j + 1][1..] == rest[..j];
          assert Flat(es[..j + 1]) == Raw(t) + Flat(rest[..j]);
        }
      }
    }
  }

  /** The scan through one token. */
  lemma HeadPast(t: Tok, member: bool, rest: seq<Tok>, depth: nat)
    requires depth > 0 && (t.Bundle? ==> Sealed(t.raw, member))
    ensures var d := Depth(t, depth);
      var c := CloseAt(Raw(t) + rest, depth);
      if d > 0 then c == Shift(CloseAt(rest, d), |Raw(t)|)
      else if d == 0 then c == 0
      else c < 0 || (c + 1 < |Raw(t) + rest| && (Raw(t) + rest)[c + 1] == Bin(Lt))
  {
    hide Sealed;
    var r := Raw(t);
    assert (r + rest)[0] == r[0] && (r + rest)[1..] == r[1..] + rest;
    if t.Bundle? {
      SealedFacts(t.raw, member);
      var d := Depth(t, depth);
      if d > 0 {
        SealedPast(t.raw, member, d, rest);
      }
    } else {
      assert r[1..] + rest == rest;
    }
  }

  lemma SealedPast(raw: seq<Tok>, member: bool, h: nat, rest: seq<Tok>)
    requires Sealed(raw, member) && h > 0
    ensures CloseAt(raw[1..] + rest, h) == Shift(CloseAt(rest, h), |raw| - 1)
  {
    BundlePast(raw, [LParen], member, h, rest);
  }

  /** Around a token that is not a bundle. */
  lemma FlatAt(es: seq<Tok>, j: nat)
    requires j < |es| && |Raw(es[j])| == 1
    ensures var (c, f) := (|Flat(es[..j])|, Flat(es));
      && c < |f| && f[..c + 1] == Flat(es[..j + 1])
      && (c + 1 < |f| <==> j + 1 < |es|)
      && (j + 1 < |es| ==> f[c + 1] == Raw(es[j + 1])[0])
  {
    hide Flat;
    var (front, back) := (es[..j + 1], es[j + 1..]);
    assert front == es[..j] + [es[j]] && es == front + back;
    FlatPlus(es[..j], [es[j]]);
    FlatPlus(front, back);
    FlatOne(es[j]);
    if back != [] {
      FlatCons(back[0], back[1..]);
      assert back == [back[0]] + back[1..];
    } else {
      FlatNothing();
    }
  }

  lemma FlatNothing()
    ensures Flat([]) == []
  {
  }

  /** The scan succeeds over tokens exactly if it does over what they were made of. */
  lemma TemplateFlat(es: seq<Tok>, member: bool)
    requires Good(es, member)
    ensures Template(Flat(es)) == Template(es)
  {
    hide CloseAt, Weight, Sealed, Good, Flat, RawFollows;
    var (j, c, f) := (CloseAt(es, 1), CloseAt(Flat(es), 1), Flat(es));
    CloseFlat(es, member, 1);
    FlatSource(es, member);
    if j >= 0 {
      ClosesAtAngle(es, 1);
      FlatAt(es, j);
      GoodFront(es, member, j + 1);
      WeightFlat(es[..j + 1], member);
    } else if c >= 0 {
      LessFollowsNothing();
    }
  }

  lemma LessFollowsNothing()
    ensures !Follows(Bin(Lt))
  {
  }

  lemma FlatOne(t: Tok)
    ensures Flat([t]) == Raw(t)
  {
    assert Flat([]) == [];
    assert [t][1..] == [];
  }

  // ----- which tokens are read as they stand -----

  /** The first token is read as it stands: a bundle is neither undone nor
      extended by what follows it, a name becomes none. */
  predicate HeadStable(es: seq<Tok>, member: bool)
    requires es != []
  {
    if |Raw(es[0])| > 1 then Keeps(Raw(es[0]), es[1..], member) else !Guesses(es, member)
  }

  predicate Stable(es: seq<Tok>, member: bool) {
    es != [] ==> HeadStable(es, member) && Stable(es[1..], Next(Raw(es[0])[0], member))
  }

  /** A `<` after a name is found among the tokens exactly if it is found among
      what they were made of. */
  lemma GuessFlat(t: Tok, rest: seq<Tok>, member: bool)
    requires !t.Bundle? && Good(rest, Next(t, member))
    ensures Guesses([t] + Flat(rest), member) == Guesses([t] + rest, member)
  {
    hide Good, Sealed, Template, Flat;
    var (a, b) := ([t] + Flat(rest), [t] + rest);
    if rest == [] {
      FlatNothing();
    } else if member || IsName(t) {
      assert a[1] == Raw(rest[0])[0] by { FirstRaw(rest); }
      PlainLess(rest, Next(t, member));
      if rest[0] == Bin(Lt) {
        GoodRest(rest, Next(t, member));
        assert rest == [rest[0]] + rest[1..];
        FlatCons(rest[0], rest[1..]);
        assert a[2..] == Flat(rest[1..]) && b[2..] == rest[1..];
        TemplateFlat(rest[1..], Next(rest[0], Next(t, member)));
      }
    }
  }

  lemma FirstRaw(rest: seq<Tok>)
    requires rest != []
    ensures Flat(rest) != [] && Flat(rest)[0] == Raw(rest[0])[0]
  {
  }

  lemma GoodRest(es: seq<Tok>, member: bool)
    requires Good(es, member) && es != []
    ensures (es[0].Bundle? ==> Sealed(es[0].raw, member)) && Good(es[1..], Next(Raw(es[0])[0], member))
  {
  }

  /** Outside a member position no bundle starts with a `<`. */
  lemma PlainLess(es: seq<Tok>, member: bool)
    requires es != [] && Good(es, member) && !member
    ensures Raw(es[0])[0] == Bin(Lt) <==> es[0] == Bin(Lt)
  {
    hide Sealed;
    if es[0].Bundle? {
      SealedFacts(es[0].raw, member);
    }
  }

  lemma KeepsFlat(raw: seq<Tok>, rest: seq<Tok>, member: bool)
    requires raw != [] && Lexed(raw) && Good(rest, false)
    ensures Keeps(raw, Flat(rest), member) == Keeps(raw, rest, member)
  {
    hide Guesses, Good, Flat;
    var last := raw[|raw| - 1];
    if IsName(last) {
      GuessFlat(last, rest, false);
    } else if rest == [] {
      FlatNothing();
    } else {
      FirstRaw(rest);
      FlatSource(rest, false);
    }
  }

  /** The tokens read as one at the head of what `es` was made of. */
  lemma SpanFlat(es: seq<Tok>, member: bool)
    requires es != [] && Good(es, member)
    ensures var (r, f) := (Raw(es[0]), Flat(es[1..]));
      Span(r + f, member) == |r| <==> HeadStable(es, member)
  {
    hide Sealed, Guesses, Keeps, Flat, Template;
    var (t, rest) := (es[0], es[1..]);
    var m := Next(Raw(t)[0], member);
    GoodRest(es, member);
    FlatSource(rest, m);
    assert es == [t] + rest;
    if t.Bundle? {
      SealedFacts(t.raw, member);
      assert !m;
      SealedSpan(t.raw, Flat(rest), member);
      KeepsFlat(t.raw, rest, member);
    } else {
      GuessFlat(t, rest, member);
    }
  }

  lemma SealedSpan(raw: seq<Tok>, b: seq<Tok>, member: bool)
    requires Sealed(raw, member) && Lexed(b)
    ensures Span(raw + b, member) == |raw| <==> Keeps(raw, b, member)
  {
    hide Guesses, Keeps;
    SpanLocal(raw, [LParen], b, member);
  }

  /** What `es` was made of is read as `es` exactly if every token of it is. */
  lemma {:induction false} FoldFlat(es: seq<Tok>, member: bool)
    requires Good(es, member)
    ensures Fold(Flat(es), member) == es <==> Stable(es, member)
    decreases |es|
  {
    hide Sealed, Span, Fold, Flat, HeadStable, Good, Next;
    if es == [] {
      FoldNothing(member);
    } else {
      var (t, rest) := (es[0], es[1..]);
      var (r, f, m) := (Raw(t), Flat(rest), Next(Raw(t)[0], member));
      assert es == [t] + rest;
      GoodRest(es, member);
      FlatCons(t, rest);
      SpanFlat(es, member);
      var n := Span(r + f, member);
      FoldOnce(r + f, member);
      if n == |r| {
        assert (r + f)[..n] == r && (r + f)[n..] == f;
        PackRaw(t, member);
        FoldFlat(rest, m);
      } else {
        FlatSource(es, member);
        RawPack((r + f)[..n]);
        assert Fold(r + f, member)[0] != t;
      }
    }
  }

  lemma PackRaw(t: Tok, member: bool)
    requires t.Bundle? ==> Sealed(t.raw, member)
    ensures Pack(Raw(t)) == t
  {
  }

  /** What the tool reads is good and stable. */
  lemma {:induction false} FoldGood(ts: seq<Tok>, member: bool)
    requires Lexed(ts)
    ensures Good(Fold(ts, member), member)
    decreases |ts|
  {
    hide Sealed, Span, Fold, Lexed, Raw, Next, Good;
    if ts == [] {
      FoldNothing(member);
      GoodNothing(member);
    } else {
      var n := Span(ts, member);
      var (r, rest, m) := (ts[..n], ts[n..], Next(ts[0], member));
      LexedParts(ts, n);
      FoldOnce(ts, member);
      FoldGood(rest, m);
      RawPack(r);
      if n > 1 {
        assert ts == r + rest;
        SealedHere(r, rest, member);
      } else {
        NotBundled(ts);
      }
      GoodCons(Pack(r), Fold(rest, m), member);
    }
  }

  lemma GoodNothing(member: bool)
    ensures Good([], member)
  {
  }

  lemma GoodCons(t: Tok, es: seq<Tok>, member: bool)
    requires (t.Bundle? ==> Sealed(t.raw, member)) && Good(es, Next(Raw(t)[0], member))
    ensures Good([t] + es, member)
  {
    hide Sealed, Raw;
    assert ([t] + es)[1..] == es;
  }

  lemma NotBundled(ts: seq<Tok>)
    requires Lexed(ts) && ts != []
    ensures !ts[0].Bundle?
  {
  }

  lemma SealedHere(raw: seq<Tok>, a: seq<Tok>, member: bool)
    requires |raw| > 1 && Lexed(raw) && Lexed(a) && Span(raw + a, member) == |raw|
    ensures Sealed(raw, member)
  {
    hide Guesses, Keeps;
    SealedAnywhere(raw, a, [], member);
  }

  lemma FoldStable(ts: seq<Tok>, member: bool)
    requires Lexed(ts)
    ensures Stable(Fold(ts, member), member)
  {
    hide Fold, Stable, Good;
    FoldGood(ts, member);
    FlatFold(ts, member);
    FoldFlat(Fold(ts, member), member);
  }
}
