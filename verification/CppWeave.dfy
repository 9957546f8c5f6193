/** Inserting parentheses into a text at counted positions. */
module CppWeave {
  import opened CppSplice

  /** A character of the output, from the source or inserted. */
  datatype Mark = Kept(c: char) | Added(c: char)

  function Chars(ms: seq<Mark>): (s: string)
    ensures |s| == |ms| && forall i :: 0 <= i < |ms| ==> s[i] == ms[i].c
  {
    seq(|ms|, i requires 0 <= i < |ms| => ms[i].c)
  }

  /** What is left when the inserted characters are deleted. */
  function Deleted(ms: seq<Mark>): string {
    if ms == [] then []
    else Deleted(ms[..|ms| - 1]) + (if ms[|ms| - 1].Kept? then [ms[|ms| - 1].c] else [])
  }

  function KeepAll(s: string): (ms: seq<Mark>)
    ensures |ms| == |s| && forall i :: 0 <= i < |s| ==> ms[i] == Kept(s[i])
  {
    seq(|s|, i requires 0 <= i < |s| => Kept(s[i]))
  }

  function Repeat(c: char, n: nat): (ms: seq<Mark>)
    ensures |ms| == n && forall i :: 0 <= i < n ==> ms[i] == Added(c)
  {
    seq(n, _ => Added(c))
  }

  function Opens(ins: multiset<Insert>, p: nat): nat {
    ins[Insert(p, Open)]
  }

  function Closes(ins: multiset<Insert>, p: nat): nat {
    ins[Insert(p, Close)]
  }

  /** Character `p` with the parentheses that open just before it and those that
      close just after it. */
  function Around(src: string, p: nat, ins: multiset<Insert>): seq<Mark>
    requires p < |src|
  {
    Repeat('(', Opens(ins, p)) + [Kept(src[p])] + Repeat(')', Closes(ins, p + 1))
  }

  function Weave(src: string, a: nat, b: nat, ins: multiset<Insert>): seq<Mark>
    requires a <= b <= |src|
    decreases b - a
  {
    if a == b then [] else Weave(src, a, b - 1, ins) + Around(src, b - 1, ins)
  }

  /** The whole text: at each position the closing parentheses come first. */
  function Splice(src: string, ins: multiset<Insert>): seq<Mark> {
    Repeat(')', Closes(ins, 0)) + Weave(src, 0, |src|, ins) + Repeat('(', Opens(ins, |src|))
  }

  lemma {:induction false} WeavePlus(src: string, a: nat, b: nat, c: nat, ins: multiset<Insert>)
    requires a <= b <= c <= |src|
    ensures Weave(src, a, c, ins) == Weave(src, a, b, ins) + Weave(src, b, c, ins)
    decreases c - b
  {
    if b < c {
      WeavePlus(src, a, b, c - 1, ins);
    }
  }

  lemma {:induction false} WeaveAgree(src: string, a: nat, b: nat, ins: multiset<Insert>, jns: multiset<Insert>)
    requires a <= b <= |src|
    requires forall p: nat :: a <= p < b ==> Opens(ins, p) == Opens(jns, p)
    requires forall p: nat :: a < p <= b ==> Closes(ins, p) == Closes(jns, p)
    ensures Weave(src, a, b, ins) == Weave(src, a, b, jns)
    decreases b - a
  {
    if a < b {
      WeaveAgree(src, a, b - 1, ins, jns);
    }
  }

  lemma {:induction false} WeaveNone(src: string, a: nat, b: nat, ins: multiset<Insert>)
    requires a <= b <= |src|
    requires forall p: nat :: a <= p < b ==> Opens(ins, p) == 0
    requires forall p: nat :: a < p <= b ==> Closes(ins, p) == 0
    ensures Weave(src, a, b, ins) == KeepAll(src[a..b])
    decreases b - a
  {
    if a < b {
      WeaveNone(src, a, b - 1, ins);
      KeepSnoc(src, a, b);
    }
  }

  lemma WeaveNil(src: string, a: nat, ins: multiset<Insert>)
    requires a <= |src|
    ensures Weave(src, a, a, ins) == []
  {
  }

  lemma WeaveOne(src: string, a: nat, ins: multiset<Insert>)
    requires a < |src|
    ensures Weave(src, a, a + 1, ins) == Around(src, a, ins)
  {
    assert Weave(src, a, a, ins) == [];
  }

  /** A range with no insertion strictly inside. */
  lemma {:induction false} WeaveQuiet(src: string, a: nat, b: nat, ins: multiset<Insert>)
    requires a < b <= |src|
    requires forall p: nat :: a < p < b ==> Opens(ins, p) == 0 && Closes(ins, p) == 0
    ensures Weave(src, a, b, ins) == (Repeat('(', Opens(ins, a)) + KeepAll(src[a..b])) + Repeat(')', Closes(ins, b))
    decreases b - a
  {
    hide Opens, Closes;
    if a + 1 == b {
      WeaveOne(src, a, ins);
      assert KeepAll(src[a..b]) == [Kept(src[a])];
    } else {
      WeaveQuiet(src, a, b - 1, ins);
      assert Repeat(')', Closes(ins, b - 1)) == [];
      assert Repeat('(', Opens(ins, b - 1)) == [];
      KeepSnoc(src, a, b);
    }
  }

  lemma KeepSnoc(src: string, a: nat, b: nat)
    requires a < b <= |src|
    ensures KeepAll(src[a..b]) == KeepAll(src[a..b - 1]) + [Kept(src[b - 1])]
  {
  }

  // ----- deleting what was inserted -----

  lemma {:induction false} DeletedPlus(a: seq<Mark>, b: seq<Mark>)
    ensures Deleted(a + b) == Deleted(a) + Deleted(b)
    decreases |b|
  {
    if b == [] {
      assert a + b == a;
    } else {
      assert (a + b)[..|a + b| - 1] == a + b[..|b| - 1];
      DeletedPlus(a, b[..|b| - 1]);
    }
  }

  lemma {:induction false} DeletedRepeat(c: char, n: nat)
    ensures Deleted(Repeat(c, n)) == []
  {
    if n > 0 {
      assert Repeat(c, n)[..n - 1] == Repeat(c, n - 1);
      DeletedRepeat(c, n - 1);
    }
  }

  lemma DeletedAround(src: string, p: nat, ins: multiset<Insert>)
    requires p < |src|
    ensures Deleted(Around(src, p, ins)) == [src[p]]
  {
    DeletedRepeat('(', Opens(ins, p));
    DeletedRepeat(')', Closes(ins, p + 1));
    DeletedPlus(Repeat('(', Opens(ins, p)) + [Kept(src[p])], Repeat(')', Closes(ins, p + 1)));
    DeletedPlus(Repeat('(', Opens(ins, p)), [Kept(src[p])]);
    assert [Kept(src[p])][..0] == [];
  }

  lemma {:induction false} DeletedWeave(src: string, a: nat, b: nat, ins: multiset<Insert>)
    requires a <= b <= |src|
    ensures Deleted(Weave(src, a, b, ins)) == src[a..b]
    decreases b - a
  {
    hide Weave, Around, Deleted;
    if a < b {
      DeletedWeave(src, a, b - 1, ins);
      DeletedAround(src, b - 1, ins);
      DeletedPlus(Weave(src, a, b - 1, ins), Around(src, b - 1, ins));
      WeaveSnoc(src, a, b, ins);
    } else {
      WeaveNil(src, a, ins);
      DeletedRepeat(' ', 0);
      assert Repeat(' ', 0) == [];
    }
  }

  lemma WeaveSnoc(src: string, a: nat, b: nat, ins: multiset<Insert>)
    requires a < b <= |src|
    ensures Weave(src, a, b, ins) == Weave(src, a, b - 1, ins) + Around(src, b - 1, ins)
  {
    hide Around;
  }

  /** Whatever is inserted, deleting the inserted characters gives back the
      source exactly, and only parentheses are inserted. */
  lemma SpliceDeletes(src: string, ins: multiset<Insert>)
    ensures Deleted(Splice(src, ins)) == src
    ensures forall m :: m in Splice(src, ins) && m.Added? ==> m.c == '(' || m.c == ')'
  {
    DeletedWeave(src, 0, |src|, ins);
    DeletedRepeat(')', Closes(ins, 0));
    DeletedRepeat('(', Opens(ins, |src|));
    DeletedPlus(Repeat(')', Closes(ins, 0)) + Weave(src, 0, |src|, ins), Repeat('(', Opens(ins, |src|)));
    DeletedPlus(Repeat(')', Closes(ins, 0)), Weave(src, 0, |src|, ins));
    AddsOnlyParens(src, 0, |src|, ins);
  }

  lemma {:induction false} AddsOnlyParens(src: string, a: nat, b: nat, ins: multiset<Insert>)
    requires a <= b <= |src|
    ensures forall m :: m in Weave(src, a, b, ins) && m.Added? ==> m.c == '(' || m.c == ')'
    decreases b - a
  {
    if a < b {
      AddsOnlyParens(src, a, b - 1, ins);
    }
  }

  // ----- splicing from the right -----

  /** The output from position `p` on, `p` up to one past the end of the text. */
  function Tail(src: string, p: nat, ins: multiset<Insert>): seq<Mark>
    requires p <= |src| + 1
    decreases |src| + 1 - p
  {
    if p == |src| + 1 then []
    else
      Repeat(')', Closes(ins, p)) + Repeat('(', Opens(ins, p))
      + (if p < |src| then [Kept(src[p])] else []) + Tail(src, p + 1, ins)
  }

  lemma {:induction false} TailIsWeave(src: string, p: nat, ins: multiset<Insert>)
    requires p <= |src|
    ensures Tail(src, p, ins) ==
      Repeat(')', Closes(ins, p)) + Weave(src, p, |src|, ins) + Repeat('(', Opens(ins, |src|))
    decreases |src| - p
  {
    hide Weave, Opens, Closes;
    WeaveNil(src, p, ins);
    if p < |src| {
      TailIsWeave(src, p + 1, ins);
      WeavePlus(src, p, p + 1, |src|, ins);
      WeaveOne(src, p, ins);
    } else {
      assert Tail(src, p + 1, ins) == [];
    }
  }

  function Clip(src: string, p: nat): (n: nat)
    ensures n <= |src| && (p <= |src| ==> n == p)
  {
    if p <= |src| then p else |src|
  }

  lemma CharsPlus(a: seq<Mark>, b: seq<Mark>)
    ensures Chars(a + b) == Chars(a) + Chars(b)
  {
  }

  lemma TailOnce(src: string, p: nat, ins: multiset<Insert>)
    requires p <= |src|
    ensures Tail(src, p, ins) ==
      Repeat(')', Closes(ins, p)) + Repeat('(', Opens(ins, p))
      + (if p < |src| then [Kept(src[p])] else []) + Tail(src, p + 1, ins)
  {
    hide Opens, Closes;
  }

  lemma CharsHere(src: string, p: nat, here: seq<Mark>)
    requires p <= |src| && here == if p < |src| then [Kept(src[p])] else []
    ensures Chars(here) == src[p..Clip(src, p + 1)]
  {
  }

  lemma TailStep(src: string, p: nat, ins: multiset<Insert>)
    requires p <= |src| && Opens(ins, p) == 0 && Closes(ins, p) == 0
    ensures Chars(Tail(src, p, ins)) == src[p..Clip(src, p + 1)] + Chars(Tail(src, p + 1, ins))
  {
    hide Opens, Closes, Chars, Tail;
    var here := if p < |src| then [Kept(src[p])] else [];
    assert Repeat(')', 0) + Repeat('(', 0) + here == here;
    TailOnce(src, p, ins);
    CharsPlus(here, Tail(src, p + 1, ins));
    CharsHere(src, p, here);
  }

  /** Positions without insertions are copied. */
  lemma {:induction false} TailSkips(src: string, p: nat, q: nat, ins: multiset<Insert>)
    requires p <= q <= |src| + 1
    requires forall r: nat :: p <= r < q ==> Opens(ins, r) == 0 && Closes(ins, r) == 0
    ensures Chars(Tail(src, p, ins)) == src[Clip(src, p)..Clip(src, q)] + Chars(Tail(src, q, ins))
    decreases q - p
  {
    hide Tail, Chars;
    if p < q {
      TailStep(src, p, ins);
      TailSkips(src, p + 1, q, ins);
      assert src[p..Clip(src, q)] == src[p..Clip(src, p + 1)] + src[Clip(src, p + 1)..Clip(src, q)];
    }
  }
}
