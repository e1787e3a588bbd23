/** The wire framing: a four-byte big-endian length, then that many bytes of body. */
module Framing {
  import opened Common

  const MAX_FRAME_BYTES: nat := 0x10_0000
  const LENGTH_PREFIX_BYTES: nat := 4

  newtype Byte = x: int | 0 <= x < 256

  type Bytes = seq<Byte>

  /** A marshalled JSON body is never empty: the shortest JSON text is one character. */
  type Body = b: Bytes | |b| > 0 witness [0]

  /** Bodies that `readFrame` accepts and `encodeFrame` produces. */
  predicate Framable(body: Bytes) {
    0 < |body| <= MAX_FRAME_BYTES
  }

  function BigEndian(n: nat): (r: Bytes)
    requires n < 0x1_0000_0000
    ensures |r| == LENGTH_PREFIX_BYTES
  {
    [(n / 0x100_0000) as Byte, (n / 0x1_0000 % 0x100) as Byte, (n / 0x100 % 0x100) as Byte, (n % 0x100) as Byte]
  }

  function FromBigEndian(p: Bytes): (n: nat)
    requires |p| == LENGTH_PREFIX_BYTES
    ensures n < 0x1_0000_0000
  {
    p[0] as int * 0x100_0000 + p[1] as int * 0x1_0000 + p[2] as int * 0x100 + p[3] as int
  }

  lemma PrefixRoundTrip(n: nat)
    requires n < 0x1_0000_0000
    ensures FromBigEndian(BigEndian(n)) == n
  {
    assert n / 0x1_0000 == n / 0x100_0000 * 0x100 + n / 0x1_0000 % 0x100;
    assert n / 0x100 == n / 0x1_0000 * 0x100 + n / 0x100 % 0x100;
  }

  /** The first byte in which two prefixes differ decides. */
  predicate Below(p: Bytes, q: Bytes)
    requires |p| == LENGTH_PREFIX_BYTES && |q| == LENGTH_PREFIX_BYTES
  {
    exists i :: 0 <= i < LENGTH_PREFIX_BYTES && p[i] < q[i] && forall k :: 0 <= k < i ==> p[k] == q[k]
  }

  /** Prefixes stand byte by byte in the order of the lengths they say: the most significant byte comes first. */
  lemma PrefixKeepsOrder(m: nat, n: nat)
    requires m < n < 0x1_0000_0000
    ensures Below(BigEndian(m), BigEndian(n)) && !Below(BigEndian(n), BigEndian(m))
  {
    var p, q := BigEndian(m), BigEndian(n);
    PrefixRoundTrip(m);
    PrefixRoundTrip(n);
    assert p != q;
    var i := if p[0] != q[0] then 0 else if p[1] != q[1] then 1 else if p[2] != q[2] then 2 else 3;
    assert p[i] < q[i];
  }

  lemma PrefixUnique(p: Bytes)
    requires |p| == LENGTH_PREFIX_BYTES
    ensures BigEndian(FromBigEndian(p)) == p
  {
    var n := FromBigEndian(p);
    assert n / 0x100_0000 == p[0] as int;
    assert n / 0x1_0000 == p[0] as int * 0x100 + p[1] as int;
    assert n / 0x100 == p[0] as int * 0x1_0000 + p[1] as int * 0x100 + p[2] as int;
  }

  /** One whole frame on the wire. */
  function Encoded(body: Bytes): (r: Bytes)
    requires Framable(body)
    ensures |r| == LENGTH_PREFIX_BYTES + |body|
  {
    BigEndian(|body|) + body
  }

  function EncodeAll(bodies: seq<Bytes>): Bytes
    requires forall b :: b in bodies ==> Framable(b)
  {
    if bodies == [] then []
    else EncodeAll(bodies[..|bodies| - 1]) + Encoded(bodies[|bodies| - 1])
  }

  /** What one read of a frame can come to. */
  datatype Read = Whole(body: Bytes) | TooLarge | ZeroLength | Short

  /** Reading one frame from the front of `s`, and how many bytes that consumed. */
  function ReadOne(s: Bytes): (r: (Read, nat))
    ensures r.1 <= |s|
    ensures r.0.Whole? ==> Framable(r.0.body) && s == Encoded(r.0.body) + s[r.1..]
  {
    if |s| < LENGTH_PREFIX_BYTES then (Short, |s|)
    else
      var size := FromBigEndian(s[..LENGTH_PREFIX_BYTES]);
      if size > MAX_FRAME_BYTES then (TooLarge, LENGTH_PREFIX_BYTES)
      else if size == 0 then (ZeroLength, LENGTH_PREFIX_BYTES)
      else if |s| < LENGTH_PREFIX_BYTES + size then (Short, |s|)
      else
        PrefixUnique(s[..LENGTH_PREFIX_BYTES]);
        (Whole(s[LENGTH_PREFIX_BYTES..LENGTH_PREFIX_BYTES + size]), LENGTH_PREFIX_BYTES + size)
  }

  /** A peer's whole session of reads: the bodies it got, and what was left unread when a read failed. */
  datatype Stream = Stream(bodies: seq<Bytes>, rest: Bytes)

  function ReadAll(s: Bytes): (r: Stream)
    ensures forall b :: b in r.bodies ==> Framable(b)
    decreases |s|
  {
    var (one, used) := ReadOne(s);
    if one.Whole? then
      var tail := ReadAll(s[used..]);
      Stream([one.body] + tail.bodies, tail.rest)
    else Stream([], s)
  }

  lemma {:induction false} EncodeAllConcat(a: seq<Bytes>, b: seq<Bytes>)
    requires forall x :: x in a || x in b ==> Framable(x)
    ensures forall x :: x in a + b ==> Framable(x)
    ensures EncodeAll(a + b) == EncodeAll(a) + EncodeAll(b)
  {
    if b == [] {
      assert a + b == a;
    } else {
      var front, last := b[..|b| - 1], b[|b| - 1];
      EncodeAllConcat(a, front);
      assert (a + b)[..|a + b| - 1] == a + front;
      ConcatAssociates(EncodeAll(a), EncodeAll(front), Encoded(last));
    }
  }

  /** Whatever follows an encoded frame, reading gives back its body and stops right after it. */
  lemma ReadOneEncoded(body: Bytes, tail: Bytes)
    requires Framable(body)
    ensures ReadOne(Encoded(body) + tail) == (Whole(body), LENGTH_PREFIX_BYTES + |body|)
    ensures (Encoded(body) + tail)[LENGTH_PREFIX_BYTES + |body|..] == tail
  {
    var s := Encoded(body) + tail;
    assert s[..LENGTH_PREFIX_BYTES] == BigEndian(|body|);
    PrefixRoundTrip(|body|);
    assert s[LENGTH_PREFIX_BYTES..LENGTH_PREFIX_BYTES + |body|] == body;
  }

  lemma EncodeAllHead(bodies: seq<Bytes>)
    requires bodies != [] && forall b :: b in bodies ==> Framable(b)
    ensures EncodeAll(bodies) == Encoded(bodies[0]) + EncodeAll(bodies[1..])
  {
    EncodeAllConcat([bodies[0]], bodies[1..]);
    assert [bodies[0]] + bodies[1..] == bodies;
    assert [bodies[0]][..0] == [];
    assert EncodeAll([bodies[0]]) == Encoded(bodies[0]);
  }

  lemma ReadAllHead(head: Bytes, after: Bytes)
    requires Framable(head)
    ensures ReadAll(Encoded(head) + after) == Stream([head] + ReadAll(after).bodies, ReadAll(after).rest)
  {
    ReadOneEncoded(head, after);
  }

  lemma ReadAllCons(head: Bytes, bodies: seq<Bytes>, s: Bytes, last: Stream)
    requires Framable(head) && ReadAll(s) == Stream(bodies + last.bodies, last.rest)
    ensures ReadAll(Encoded(head) + s) == Stream([head] + bodies + last.bodies, last.rest)
  {
    ReadAllHead(head, s);
    ConcatAssociates([head], bodies, last.bodies);
  }

  /** Self-delimiting: a stream of frames followed by anything reads as those bodies, then as the rest would. */
  lemma {:induction false} ReadAllEncodeAll(bodies: seq<Bytes>, tail: Bytes)
    requires forall b :: b in bodies ==> Framable(b)
    ensures ReadAll(EncodeAll(bodies) + tail) == Stream(bodies + ReadAll(tail).bodies, ReadAll(tail).rest)
    decreases |bodies|
  {
    if bodies == [] {
      assert EncodeAll(bodies) + tail == tail;
    } else {
      var head, rest := bodies[0], bodies[1..];
      EncodeAllHead(bodies);
      ConcatAssociates(Encoded(head), EncodeAll(rest), tail);
      ReadAllEncodeAll(rest, tail);
      ReadAllCons(head, rest, EncodeAll(rest) + tail, ReadAll(tail));
      assert [head] + rest == bodies;
    }
  }

  /** The converse: what was read, re-encoded, is exactly the bytes that were consumed. */
  lemma {:induction false} ReadAllExact(s: Bytes)
    ensures s == EncodeAll(ReadAll(s).bodies) + ReadAll(s).rest
    ensures !ReadOne(ReadAll(s).rest).0.Whole?
    decreases |s|
  {
    var (one, used) := ReadOne(s);
    if one.Whole? {
      var tail := ReadAll(s[used..]);
      ReadAllExact(s[used..]);
      EncodeAllHead([one.body] + tail.bodies);
      ConcatAssociates(Encoded(one.body), EncodeAll(tail.bodies), tail.rest);
    } else {
      assert EncodeAll([]) + s == s;
    }
  }

  /** A stream is read to its end, with nothing left over, exactly when it is a concatenation of frames. */
  lemma {:induction false} CleanStreamIffFrames(s: Bytes, bodies: seq<Bytes>)
    requires forall b :: b in bodies ==> Framable(b)
    ensures ReadAll(s) == Stream(bodies, []) <==> s == EncodeAll(bodies)
  {
    ReadAllExact(s);
    ReadAllEncodeAll(bodies, []);
    assert EncodeAll(bodies) + [] == EncodeAll(bodies);
    assert bodies + [] == bodies;
  }

  /** A frame cut short is never mistaken for a frame. */
  lemma {:induction false} TornFrameReadsNothing(body: Bytes, n: nat)
    requires Framable(body) && n < |Encoded(body)|
    ensures ReadAll(Encoded(body)[..n]) == Stream([], Encoded(body)[..n])
  {
    var s := Encoded(body)[..n];
    if n >= LENGTH_PREFIX_BYTES {
      assert s[..LENGTH_PREFIX_BYTES] == BigEndian(|body|);
      PrefixRoundTrip(|body|);
    }
  }

  /** Encoding into a fresh buffer; `None` is a payload that does not marshal. */
  method EncodeFrame(marshalled: Option<Body>) returns (out: Option<array<Byte>>)
    ensures out.Some? <==> marshalled.Some? && |marshalled.value| <= MAX_FRAME_BYTES
    ensures out.Some? ==> fresh(out.value) && out.value[..] == Encoded(marshalled.value)
  {
    if marshalled.None? {
      return None;
    }
    var body := marshalled.value;
    if |body| > MAX_FRAME_BYTES {
      return None;
    }
    var buf := new Byte[LENGTH_PREFIX_BYTES + |body|];
    buf[0], buf[1] := (|body| / 0x100_0000) as Byte, (|body| / 0x1_0000 % 0x100) as Byte;
    buf[2], buf[3] := (|body| / 0x100 % 0x100) as Byte, (|body| % 0x100) as Byte;
    for i := 0 to |body|
      invariant buf[..LENGTH_PREFIX_BYTES] == BigEndian(|body|)
      invariant buf[LENGTH_PREFIX_BYTES..LENGTH_PREFIX_BYTES + i] == body[..i]
    {
      buf[LENGTH_PREFIX_BYTES + i] := body[i];
    }
    assert buf[..] == buf[..LENGTH_PREFIX_BYTES] + buf[LENGTH_PREFIX_BYTES..];
    assert body[..|body|] == body;
    out := Some(buf);
  }

  /** A reader over bytes a peer has sent; a short read consumes what there was. */
  class Reader {
    const data: Bytes
    var pos: nat

    ghost predicate Valid()
      reads this
    {
      pos <= |data|
    }

    constructor (data: Bytes)
      ensures Valid() && this.data == data && pos == 0
    {
      this.data, pos := data, 0;
    }

    /** Reads exactly `n` bytes, or consumes everything and reports failure. */
    method ReadFull(n: nat) returns (ok: bool, chunk: Bytes)
      requires Valid()
      modifies `pos
      ensures Valid()
      ensures ok <==> old(pos) + n <= |data|
      ensures ok ==> pos == old(pos) + n && chunk == data[old(pos)..pos]
      ensures !ok ==> pos == |data|
    {
      if pos + n > |data| {
        ok, chunk, pos := false, data[pos..], |data|;
      } else {
        ok, chunk, pos := true, data[pos..pos + n], pos + n;
      }
    }

    method ReadFrame() returns (r: Read)
      requires Valid()
      modifies `pos
      ensures Valid()
      ensures (r, pos - old(pos)) == ReadOne(data[old(pos)..])
    {
      ghost var s := data[pos..];
      var start := pos;
      var ok, prefix := ReadFull(LENGTH_PREFIX_BYTES);
      if !ok {
        return Short;
      }
      assert prefix == s[..LENGTH_PREFIX_BYTES];
      var size := FromBigEndian(prefix);
      if size > MAX_FRAME_BYTES {
        return TooLarge;
      }
      if size == 0 {
        return ZeroLength;
      }
      var body;
      ok, body := ReadFull(size);
      if !ok {
        return Short;
      }
      assert body == s[LENGTH_PREFIX_BYTES..LENGTH_PREFIX_BYTES + size];
      return Whole(body);
    }
  }
}
