/** The chunk walk over an IFF form: identifier, length, payload, padded to an
    even length. */
module QuetzalChunks {
  import opened Prelude
  import opened QuetzalBytes

  datatype Chunk = Chunk(id: seq<Byte>, body: seq<Byte>)

  datatype Problem = HeaderPastEnd(pos: nat) | BodyPastEnd(id: seq<Byte>, length: nat, left: int)

  datatype Walked = Walked(chunks: seq<Chunk>, problems: seq<Problem>)

  function First(c: Chunk, w: Walked): Walked {
    Walked([c] + w.chunks, w.problems)
  }

  /** Chunks from `pos` on, up to the first malformed one. */
  function Walk(data: seq<Byte>, pos: nat, end: nat): Walked
    decreases end - pos
  {
    if pos >= end then Walked([], [])
    else if pos + 8 > end then Walked([], [HeaderPastEnd(pos)])
    else
      var id := Slice(data, pos, pos + 4);
      var n := Be(data, pos + 4, 4);
      var body := pos + 8;
      if body + n > end then Walked([], [BodyPastEnd(id, n, end - body)])
      else First(Chunk(id, Slice(data, body, body + n)), Walk(data, body + n + n % 2, end))
  }

  method ParseChunks(data: seq<Byte>, start: nat, end: nat) returns (chunks: seq<Chunk>, problems: seq<Problem>)
    ensures Walked(chunks, problems) == Walk(data, start, end)
  {
    hide Slice, Be, Walk;
    chunks, problems := [], [];
    var pos := start;
    while pos < end
      invariant start <= pos
      invariant var w := Walk(data, pos, end); Walk(data, start, end) == Walked(chunks + w.chunks, w.problems)
      decreases end - pos
    {
      WalkStops(data, pos, end);
      if pos + 8 > end {
        return chunks, [HeaderPastEnd(pos)];
      }
      var id := Slice(data, pos, pos + 4);
      var n := Be(data, pos + 4, 4);
      var body := pos + 8;
      if body + n > end {
        return chunks, [BodyPastEnd(id, n, end - body)];
      }
      var c := Chunk(id, Slice(data, body, body + n));
      WalkOnce(data, pos, end, n);
      ghost var rest := Walk(data, body + n + n % 2, end);
      assert chunks + ([c] + rest.chunks) == chunks + [c] + rest.chunks;
      chunks := chunks + [c];
      pos := body + n + n % 2;
    }
    WalkEnd(data, pos, end);
  }

  /** Where the walk gives up. */
  lemma WalkStops(data: seq<Byte>, pos: nat, end: nat)
    requires pos < end
    ensures pos + 8 > end ==> Walk(data, pos, end) == Walked([], [HeaderPastEnd(pos)])
    ensures var n := Be(data, pos + 4, 4);
      pos + 8 <= end < pos + 8 + n ==>
        Walk(data, pos, end) == Walked([], [BodyPastEnd(Slice(data, pos, pos + 4), n, end - (pos + 8))])
  {
    hide Slice, Be, First;
  }

  // ----- files -----

  predicate Storable(c: Chunk) {
    |c.id| == 4 && |c.body| < 0x1_0000_0000
  }

  /** A chunk without its padding. */
  function Stored(c: Chunk): (s: seq<Byte>)
    requires Storable(c)
    ensures |s| == 8 + |c.body|
  {
    c.id + Bytes(|c.body|, 4) + c.body
  }

  /** An odd body is followed by one byte of any value. */
  function Padding(c: Chunk, pad: Byte): (s: seq<Byte>)
    ensures |s| == |c.body| % 2
  {
    if |c.body| % 2 == 1 then [pad] else []
  }

  predicate AllStorable(cs: seq<Chunk>) {
    forall k | 0 <= k < |cs| :: Storable(cs[k])
  }

  /** The chunks one after the other; `short` leaves out the padding of the last. */
  function Images(cs: seq<Chunk>, pads: seq<Byte>, short: bool): seq<Byte>
    requires |pads| == |cs| && AllStorable(cs)
  {
    if cs == [] then []
    else Stored(cs[0]) + (if short && |cs| == 1 then [] else Padding(cs[0], pads[0])) + Images(cs[1..], pads[1..], short)
  }

  /** What the walk reads off a stored chunk. */
  lemma HeaderRead(data: seq<Byte>, pos: nat, c: Chunk)
    requires Storable(c) && pos + 8 + |c.body| <= |data| && data[pos..pos + 8 + |c.body|] == Stored(c)
    ensures Slice(data, pos, pos + 4) == c.id && Be(data, pos + 4, 4) == |c.body|
    ensures Slice(data, pos + 8, pos + 8 + |c.body|) == c.body
  {
    hide Bytes, Value;
    var n := |c.body|;
    Sub(data, pos, pos + 8 + n, 0, 4);
    Sub(data, pos, pos + 8 + n, 4, 8);
    Sub(data, pos, pos + 8 + n, 8, 8 + n);
    assert Stored(c)[0..4] == c.id;
    assert Stored(c)[4..8] == Bytes(n, 4);
    assert Stored(c)[8..8 + n] == c.body;
    assert Pow256(4) == 0x1_0000_0000;
    ValueOfBytes(|c.body|, 4);
  }

  /** And the other way round. */
  lemma HeaderStored(data: seq<Byte>, pos: nat)
    requires pos + 8 + Be(data, pos + 4, 4) <= |data|
    ensures var n := Be(data, pos + 4, 4);
      var c := Chunk(Slice(data, pos, pos + 4), Slice(data, pos + 8, pos + 8 + n));
      Storable(c) && |c.body| == n && data[pos..pos + 8 + n] == Stored(c)
  {
    hide Bytes, Value;
    var n := Be(data, pos + 4, 4);
    assert Pow256(4) == 0x1_0000_0000;
    BytesOfValue(data[pos + 4..pos + 8]);
    assert data[pos..pos + 8 + n] == data[pos..pos + 4] + data[pos + 4..pos + 8] + data[pos + 8..pos + 8 + n];
  }

  /** One turn of the walk over a chunk that lies within the form. */
  lemma WalkOnce(data: seq<Byte>, pos: nat, end: nat, n: nat)
    requires pos + 8 + n <= end && n == Be(data, pos + 4, 4)
    ensures Walk(data, pos, end) ==
      First(Chunk(Slice(data, pos, pos + 4), Slice(data, pos + 8, pos + 8 + n)), Walk(data, pos + 8 + n + n % 2, end))
  {
    hide Slice, Be, First;
  }

  lemma WalkEnd(data: seq<Byte>, pos: nat, end: nat)
    requires pos >= end
    ensures Walk(data, pos, end) == Walked([], [])
  {
  }

  /** Walking any list of even-padded chunks returns exactly that list. */
  lemma {:induction false} WalkImages(data: seq<Byte>, pos: nat, end: nat, cs: seq<Chunk>, pads: seq<Byte>, short: bool)
    requires pos <= end <= |data| && |pads| == |cs| && AllStorable(cs)
    requires data[pos..end] == Images(cs, pads, short)
    ensures Walk(data, pos, end) == Walked(cs, [])
    decreases |cs|
  {
    hide Slice, Be, Stored, Padding, Walk;
    if cs == [] {
      WalkEnd(data, pos, end);
    } else {
      var c := cs[0];
      var n := |c.body|;
      var s := data[pos..end];
      var tail := Images(cs[1..], pads[1..], short);
      var pad := if short && |cs| == 1 then [] else Padding(c, pads[0]);
      assert s == Stored(c) + pad + tail;
      Sub(data, pos, end, 0, 8 + n);
      assert s[0..8 + n] == Stored(c);
      HeaderRead(data, pos, c);
      WalkOnce(data, pos, end, n);
      var next := pos + 8 + n + n % 2;
      if short && |cs| == 1 {
        assert |s| == 8 + n;
        WalkEnd(data, next, end);
      } else {
        Sub(data, pos, end, 8 + n + n % 2, |s|);
        assert s[8 + n + n % 2..|s|] == tail;
        WalkImages(data, next, end, cs[1..], pads[1..], short);
      }
      assert cs == [c] + cs[1..];
    }
  }

  /** A walk without problems has read such a list. */
  lemma {:induction false} WalkedIsImages(data: seq<Byte>, pos: nat, end: nat)
    requires pos <= end <= |data| && Walk(data, pos, end).problems == []
    ensures var cs := Walk(data, pos, end).chunks;
      AllStorable(cs) && exists pads, short :: |pads| == |cs| && data[pos..end] == Images(cs, pads, short)
    decreases end - pos
  {
    hide Slice, Be, Stored, Padding, Walk;
    var cs := Walk(data, pos, end).chunks;
    if pos == end {
      WalkEnd(data, pos, end);
      assert data[pos..end] == Images(cs, [], false);
    } else {
      var n := Be(data, pos + 4, 4);
      WalkStops(data, pos, end);
      WalkOnce(data, pos, end, n);
      HeaderStored(data, pos);
      var next := pos + 8 + n + n % 2;
      var rest := cs[1..];
      assert rest == Walk(data, next, end).chunks;
      if next > end {
        WalkEnd(data, next, end);
        assert rest == [];
        assert Images(cs, [0], true) == Stored(cs[0]) + [] + [];
        assert data[pos..end] == Images(cs, [0], true);
      } else {
        WalkedIsImages(data, next, end);
        var pads, short :| |pads| == |rest| && data[next..end] == Images(rest, pads, short);
        PaddedFront(data, pos, next, end, cs, pads, short);
      }
    }
  }

  /** A stored chunk, its padding and the images of the rest. */
  lemma PaddedFront(data: seq<Byte>, pos: nat, next: nat, end: nat, cs: seq<Chunk>, pads: seq<Byte>, short: bool)
    requires cs != [] && AllStorable(cs) && |pads| == |cs| - 1
    requires next == pos + 8 + |cs[0].body| + |cs[0].body| % 2 <= end <= |data|
    requires data[pos..pos + 8 + |cs[0].body|] == Stored(cs[0]) && data[next..end] == Images(cs[1..], pads, short)
    ensures exists ps, sh :: |ps| == |cs| && data[pos..end] == Images(cs, ps, sh)
  {
    hide Stored, Padding, Images;
    var gap := data[pos + 8 + |cs[0].body|..next];
    var pad: Byte := if gap == [] then 0 else gap[0];
    PaddingIs(cs[0], gap);
    assert data[pos..end] == Stored(cs[0]) + gap + Images(cs[1..], pads, short);
    ImagesFront(cs, pad, pads, short);
    assert data[pos..end] == Images(cs, [pad] + pads, short && cs[1..] != []);
  }

  /** A padded chunk in front of others. */
  lemma ImagesFront(cs: seq<Chunk>, pad: Byte, pads: seq<Byte>, short: bool)
    requires cs != [] && AllStorable(cs) && |pads| == |cs| - 1
    ensures Images(cs, [pad] + pads, short && cs[1..] != [])
      == Stored(cs[0]) + Padding(cs[0], pad) + Images(cs[1..], pads, short)
  {
    assert ([pad] + pads)[1..] == pads;
  }

  lemma PaddingIs(c: Chunk, gap: seq<Byte>)
    requires |gap| == |c.body| % 2
    ensures gap == Padding(c, if gap == [] then 0 else gap[0])
  {
  }

  // ----- where a walk gives up -----

  /** The malformed chunk at `q`: its header or its body does not fit. */
  ghost predicate Fails(data: seq<Byte>, q: nat, end: nat, p: Problem)
    requires q < end <= |data|
  {
    if q + 8 > end then p == HeaderPastEnd(q)
    else
      var n := 0x1_0000 * Two(data[q + 4], data[q + 5]) + Two(data[q + 6], data[q + 7]);
      q + 8 + n > end && p == BodyPastEnd(data[q..q + 4], n, end - q - 8)
  }

  /** `cs` are the complete chunks before `q`, where the walk fails. */
  ghost predicate FailsAfter(data: seq<Byte>, pos: nat, end: nat, cs: seq<Chunk>, pads: seq<Byte>, q: nat, p: Problem)
    requires pos <= end <= |data|
  {
    && pos <= q < end && AllStorable(cs) && |pads| == |cs|
    && data[pos..q] == Images(cs, pads, false) && Fails(data, q, end, p)
  }

  lemma FailsHere(data: seq<Byte>, pos: nat, end: nat)
    requires pos < end <= |data|
    ensures pos + 8 > end ==> Fails(data, pos, end, HeaderPastEnd(pos))
    ensures pos + 8 <= end && pos + 8 + Be(data, pos + 4, 4) > end ==>
      Fails(data, pos, end, BodyPastEnd(Slice(data, pos, pos + 4), Be(data, pos + 4, 4), end - (pos + 8)))
  {
    hide Be;
    BeSpelled(data, pos + 4);
  }

  /** A walk with a problem has exactly one, for the first chunk that does not fit;
      the chunks before it are returned. */
  lemma {:induction false} WalkFails(data: seq<Byte>, pos: nat, end: nat)
    requires pos <= end <= |data| && Walk(data, pos, end).problems != []
    ensures var w := Walk(data, pos, end);
      |w.problems| == 1 && exists pads, q: nat :: FailsAfter(data, pos, end, w.chunks, pads, q, w.problems[0])
    decreases end - pos
  {
    hide Slice, Be, Stored, Padding, Walk, Fails;
    if pos == end {
      WalkEnd(data, pos, end);
    } else {
      var w := Walk(data, pos, end);
      var n := Be(data, pos + 4, 4);
      WalkStops(data, pos, end);
      FailsHere(data, pos, end);
      if pos + 8 > end || pos + 8 + n > end {
        assert FailsAfter(data, pos, end, [], [], pos, w.problems[0]);
      } else {
        WalkOnce(data, pos, end, n);
        HeaderStored(data, pos);
        var next := pos + 8 + n + n % 2;
        if next > end { WalkEnd(data, next, end); }
        WalkFails(data, next, end);
        var rest := Walk(data, next, end);
        var pads, q: nat :| FailsAfter(data, next, end, rest.chunks, pads, q, rest.problems[0]);
        assert w.chunks[1..] == rest.chunks;
        var ps := FailsFront(data, pos, next, end, w.chunks, pads, q, rest.problems[0]);
      }
    }
  }

  lemma FailsFront(data: seq<Byte>, pos: nat, next: nat, end: nat, cs: seq<Chunk>, pads: seq<Byte>, q: nat, p: Problem)
    returns (ps: seq<Byte>)
    requires cs != [] && next == pos + 8 + |cs[0].body| + |cs[0].body| % 2 <= end <= |data| && Storable(cs[0])
    requires data[pos..pos + 8 + |cs[0].body|] == Stored(cs[0]) && FailsAfter(data, next, end, cs[1..], pads, q, p)
    ensures FailsAfter(data, pos, end, cs, ps, q, p)
  {
    hide Stored, Padding, Images, Fails;
    var gap := data[pos + 8 + |cs[0].body|..next];
    var pad: Byte := if gap == [] then 0 else gap[0];
    PaddingIs(cs[0], gap);
    assert forall k | 0 < k < |cs| :: cs[k] == cs[1..][k - 1];
    assert data[pos..q] == Stored(cs[0]) + gap + Images(cs[1..], pads, false);
    ImagesFront(cs, pad, pads, false);
    ps := [pad] + pads;
  }
}
