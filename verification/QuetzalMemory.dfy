/** Compressed memory of a saved game: the difference from the story, its zero
    runs shortened (section 3 of Quetzal 1.4). */
module QuetzalMemory {
  import opened Prelude
  import opened QuetzalBytes

  // ----- the coding -----

  /** A non-zero byte of the difference, or a run of zeros. */
  datatype Piece = Literal(b: Byte) | Run(n: nat)

  predicate Codable(ps: seq<Piece>) {
    forall k | 0 <= k < |ps| :: if ps[k].Run? then 1 <= ps[k].n <= 256 else ps[k].b != 0
  }

  /** The difference that the pieces stand for. */
  function Expand(ps: seq<Piece>): seq<Byte> {
    if ps == [] then []
    else (if ps[0].Run? then Zeros(ps[0].n) else [ps[0].b]) + Expand(ps[1..])
  }

  /** The bytes the pieces are written as: a run is 00 and its length less one. */
  function Coded(ps: seq<Piece>): seq<Byte>
    requires Codable(ps)
  {
    if ps == [] then []
    else (if ps[0].Run? then [0, ps[0].n - 1] else [ps[0].b]) + Coded(ps[1..])
  }

  // ----- decoding -----

  /** Zeros that the second byte of a run pair stands for. */
  function RunLength(b: Byte): (n: nat)
    ensures 1 <= n <= 256
  {
    var n: int := b;
    n + 1
  }

  /** `cut` if the payload ends inside a run pair. */
  datatype Decoded = Decoded(out: seq<Byte>, cut: bool)

  function After(front: seq<Byte>, d: Decoded): Decoded {
    Decoded(front + d.out, d.cut)
  }

  function Decode(payload: seq<Byte>): Decoded {
    if payload == [] then Decoded([], false)
    else if payload[0] != 0 then After([payload[0]], Decode(payload[1..]))
    else if |payload| == 1 then Decoded([], true)
    else After(Zeros(RunLength(payload[1])), Decode(payload[2..]))
  }

  /** Whichever way the zeros are split into runs, decoding gives the difference. */
  lemma {:induction false} DecodeCoded(ps: seq<Piece>)
    requires Codable(ps)
    ensures Decode(Coded(ps)) == Decoded(Expand(ps), false)
  {
    if ps != [] {
      DecodeCoded(ps[1..]);
      var s := Coded(ps);
      if ps[0].Run? {
        assert s[2..] == Coded(ps[1..]);
      } else {
        assert s[1..] == Coded(ps[1..]);
      }
    }
  }

  /** The pieces of a payload that is not cut. */
  function Pieces(payload: seq<Byte>): seq<Piece> {
    if payload == [] then []
    else if payload[0] != 0 then [Literal(payload[0])] + Pieces(payload[1..])
    else if |payload| == 1 then []
    else [Run(RunLength(payload[1]))] + Pieces(payload[2..])
  }

  /** Every payload that is not cut is a coding, of what it decodes to. */
  lemma {:induction false} DecodedIsCoded(payload: seq<Byte>)
    requires !Decode(payload).cut
    ensures var ps := Pieces(payload); Codable(ps) && Coded(ps) == payload && Expand(ps) == Decode(payload).out
  {
    if payload != [] {
      var ps := Pieces(payload);
      var rest := if payload[0] != 0 then payload[1..] else payload[2..];
      DecodedIsCoded(rest);
      assert ps[1..] == Pieces(rest);
      if payload[0] != 0 {
        assert payload == [payload[0]] + rest;
      } else {
        assert payload == [0, payload[1]] + rest;
      }
    }
  }

  // ----- against the story -----

  datatype Problem = CutRun | PastStatic

  datatype Memory = Memory(bytes: seq<Byte>, problems: seq<Problem>)

  /** Where static memory begins, from the story's header. */
  function Static(story: seq<Byte>): nat {
    Be(story, 0x0E, 2)
  }

  /** The difference filled up with zeros to `n` bytes. */
  function Filled(out: seq<Byte>, n: nat): (s: seq<Byte>)
    ensures |s| >= n && |s| >= |out|
  {
    if |out| < n then out + Zeros(n - |out|) else out
  }

  function DecodeMemory(payload: seq<Byte>, story: Option<seq<Byte>>): Memory {
    var d := Decode(payload);
    if d.cut then Memory(d.out, [CutRun])
    else if story.None? then Memory(d.out, [])
    else
      var n := Static(story.value);
      Memory(XorAll(Filled(d.out, n), Slice(story.value, 0, n)), if |d.out| > n then [PastStatic] else [])
  }

  /** `ps` codes the change from `base` to `saved`; zeros at its end may be left out. */
  ghost predicate Codes(ps: seq<Piece>, saved: seq<Byte>, base: seq<Byte>) {
    Codable(ps) && |Expand(ps)| <= |saved| && Filled(Expand(ps), |saved|) == XorAll(saved, base)
  }

  lemma XorAllUndone(saved: seq<Byte>, base: seq<Byte>)
    requires |saved| == |base|
    ensures XorAll(XorAll(saved, base), base) == saved
  {
    forall k | 0 <= k < |saved|
      ensures XorAll(XorAll(saved, base), base)[k] == saved[k]
    {
      XorUndone(saved[k], base[k]);
    }
  }

  /** Every coding of a saved memory gives that memory back. */
  lemma CodingDecodes(ps: seq<Piece>, saved: seq<Byte>, story: seq<Byte>)
    requires Static(story) <= |story| && |saved| == Static(story)
    requires Codes(ps, saved, story[..Static(story)])
    ensures DecodeMemory(Coded(ps), Some(story)) == Memory(saved, [])
  {
    hide Xor, Static;
    DecodeCoded(ps);
    XorAllUndone(saved, story[..Static(story)]);
  }

  /** Conversely, what comes back without a problem is coded by the payload. */
  lemma DecodedCodes(payload: seq<Byte>, story: seq<Byte>)
    requires Static(story) <= |story|
    ensures var m := DecodeMemory(payload, Some(story));
      m.problems == [] ==>
        |m.bytes| == Static(story) && Codes(Pieces(payload), m.bytes, story[..Static(story)])
        && Coded(Pieces(payload)) == payload
  {
    hide Xor, Static;
    var m := DecodeMemory(payload, Some(story));
    if m.problems == [] {
      DecodedIsCoded(payload);
      XorAllUndone(Filled(Decode(payload).out, Static(story)), story[..Static(story)]);
    }
  }

  /** Dynamic memory of a story: as many bytes as the word at 14 says. */
  ghost predicate Dynamic(story: seq<Byte>, base: seq<Byte>) {
    |story| >= 16 && |base| == Two(story[14], story[15]) && base <= story
  }

  lemma DynamicIs(story: seq<Byte>, base: seq<Byte>)
    requires Dynamic(story, base)
    ensures Static(story) == |base| <= |story| && base == story[..|base|]
  {
    hide Be;
    BeSpelled(story, 14);
  }

  /** Every coding of a saved memory, against the dynamic memory of the story, gives
      that memory back and no problem. */
  lemma MemoryRoundTrip(ps: seq<Piece>, saved: seq<Byte>, story: seq<Byte>, base: seq<Byte>)
    requires Dynamic(story, base) && |saved| == |base| && Codes(ps, saved, base)
    ensures DecodeMemory(Coded(ps), Some(story)) == Memory(saved, [])
  {
    hide Codes, Static, DecodeMemory, Coded;
    DynamicIs(story, base);
    CodesCodable(ps, saved, base);
    CodingDecodes(ps, saved, story);
  }

  lemma CodesCodable(ps: seq<Piece>, saved: seq<Byte>, base: seq<Byte>)
    requires Codes(ps, saved, base)
    ensures Codable(ps)
  {
  }

  /** Conversely, memory that comes back without a problem is as long as dynamic
      memory and is coded by the payload. */
  lemma MemoryOnlyFromCoding(payload: seq<Byte>, story: seq<Byte>, base: seq<Byte>)
    requires Dynamic(story, base)
    ensures var m := DecodeMemory(payload, Some(story));
      m.problems == [] ==>
        |m.bytes| == |base| && exists ps :: Codes(ps, m.bytes, base) && Coded(ps) == payload
  {
    hide Codes, Static, DecodeMemory, Coded;
    DynamicIs(story, base);
    DecodedCodes(payload, story);
    var m := DecodeMemory(payload, Some(story));
    if m.problems == [] {
      CodesCodable(Pieces(payload), m.bytes, base);
      assert Codes(Pieces(payload), m.bytes, base);
    }
  }

  /** `payload` is the coding `ps`. */
  ghost predicate IsCoding(ps: seq<Piece>, payload: seq<Byte>) {
    Codable(ps) && Coded(ps) == payload
  }

  /** A payload is cut exactly if it is no coding at all. */
  lemma CutIff(payload: seq<Byte>)
    ensures Decode(payload).cut <==> !exists ps :: IsCoding(ps, payload)
  {
    hide Coded, Expand, Decode, Pieces;
    if !Decode(payload).cut {
      DecodedIsCoded(payload);
      assert IsCoding(Pieces(payload), payload);
    }
    if exists ps :: IsCoding(ps, payload) {
      var ps :| IsCoding(ps, payload);
      DecodeCoded(ps);
    }
  }

  /** The problem reported: the payload is no coding, or of more bytes than dynamic
      memory has; without a story only the first is looked at. */
  lemma MemoryProblems(payload: seq<Byte>, story: seq<Byte>, base: seq<Byte>)
    requires Dynamic(story, base)
    ensures DecodeMemory(payload, Some(story)).problems ==
      if !exists ps :: IsCoding(ps, payload) then [CutRun]
      else if exists ps :: IsCoding(ps, payload) && |Expand(ps)| > |base| then [PastStatic] else []
    ensures DecodeMemory(payload, None).problems == if !exists ps :: IsCoding(ps, payload) then [CutRun] else []
  {
    hide Coded, Expand, Decode, Static, Filled, XorAll, Slice, Dynamic;
    DynamicIs(story, base);
    CutIff(payload);
    forall ps | IsCoding(ps, payload)
      ensures Expand(ps) == Decode(payload).out
    {
      DecodeCoded(ps);
    }
  }

  // ----- the loop -----

  method DecodeCmem(payload: seq<Byte>, story: Option<seq<Byte>>) returns (bytes: seq<Byte>, problems: seq<Problem>)
    ensures Memory(bytes, problems) == DecodeMemory(payload, story)
  {
    hide Decode, After, DecodeMemory, Static, Xor, Filled, XorAll, Slice;
    var out: seq<Byte> := [];
    var i := 0;
    problems := [];
    DecodeStart(payload);
    while i < |payload|
      invariant 0 <= i <= |payload|
      invariant Decode(payload) == After(out, Decode(payload[i..]))
    {
      var b := payload[i];
      if b == 0 {
        if i + 1 >= |payload| {
          DecodeCut(payload, story, i, out);
          return out, [CutRun];
        }
        DecodeRun(payload, i, out);
        out := out + Zeros(RunLength(payload[i + 1]));
        i := i + 2;
      } else {
        DecodeLiteral(payload, i, out);
        out := out + [b];
        i := i + 1;
      }
    }
    DecodeEnd(payload, story, out);
    bytes := out;
    if story.Some? {
      var n := Static(story.value);
      if |out| > n {
        problems := problems + [PastStatic];
      }
      bytes := XorAll(Filled(out, n), Slice(story.value, 0, n));
    }
  }

  lemma DecodeStart(payload: seq<Byte>)
    ensures Decode(payload) == After([], Decode(payload[0..]))
  {
    hide Decode;
    assert payload[0..] == payload;
    assert [] + Decode(payload).out == Decode(payload).out;
  }

  lemma DecodeCut(payload: seq<Byte>, story: Option<seq<Byte>>, i: nat, out: seq<Byte>)
    requires i + 1 == |payload| && payload[i] == 0 && Decode(payload) == After(out, Decode(payload[i..]))
    ensures DecodeMemory(payload, story) == Memory(out, [CutRun])
  {
    hide Static, Filled, XorAll, Slice;
    assert payload[i..] == [0];
  }

  /** All bytes consumed: what is done with the difference. */
  lemma DecodeEnd(payload: seq<Byte>, story: Option<seq<Byte>>, out: seq<Byte>)
    requires Decode(payload) == After(out, Decode(payload[|payload|..]))
    ensures story.None? ==> DecodeMemory(payload, story) == Memory(out, [])
    ensures story.Some? ==>
      var n := Static(story.value);
      DecodeMemory(payload, story) ==
        Memory(XorAll(Filled(out, n), Slice(story.value, 0, n)), if |out| > n then [PastStatic] else [])
  {
    hide Static, Filled, XorAll, Slice;
    assert payload[|payload|..] == [];
    assert Decode([]) == Decoded([], false);
    assert out + [] == out;
  }

  lemma DecodeRun(payload: seq<Byte>, i: nat, out: seq<Byte>)
    requires i + 1 < |payload| && payload[i] == 0
    ensures After(out, Decode(payload[i..])) == After(out + Zeros(RunLength(payload[i + 1])), Decode(payload[i + 2..]))
  {
    assert payload[i..][2..] == payload[i + 2..];
  }

  lemma DecodeLiteral(payload: seq<Byte>, i: nat, out: seq<Byte>)
    requires i < |payload| && payload[i] != 0
    ensures After(out, Decode(payload[i..])) == After(out + [payload[i]], Decode(payload[i + 1..]))
  {
    assert payload[i..][1..] == payload[i + 1..];
  }
}
