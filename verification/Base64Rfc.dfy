/** Base64 as section 4 of RFC 4648 defines it, and decoding as a stream of characters. */
module Base64Rfc {
  type byte = bv8

  const PAD: byte := 61
  const NEWLINE: byte := 10

  /** The alphabet. */
  function Char(v: byte): byte
    requires v < 64
  {
    if v < 26 then v + 65 else if v < 52 then v + 71 else if v < 62 then v - 4 else if v == 62 then 43 else 47
  }

  predicate IsBase64(c: byte) {
    65 <= c <= 90 || 97 <= c <= 122 || 48 <= c <= 57 || c == 43 || c == 47
  }

  function B64(c: byte): byte
    requires IsBase64(c)
  {
    if 65 <= c <= 90 then c - 65 else if 97 <= c <= 122 then c - 71 else if 48 <= c <= 57 then c + 4
    else if c == 43 then 62 else 63
  }

  lemma CharRoundTrip(v: byte)
    requires v < 64
    ensures IsBase64(Char(v)) && B64(Char(v)) == v && Char(v) != PAD && Char(v) != NEWLINE && Char(v) != 13 && Char(v) != 0
  {
  }

  /** Three bytes as a 24-bit group, and the k-th of its four 6-bit groups. */
  function Group(a: byte, b: byte, c: byte): bv32 {
    ((a as bv32) << 16) | ((b as bv32) << 8) | (c as bv32)
  }

  function Sextet(g: bv32, k: nat): (v: byte)
    requires k < 4
  {
    (match k case 0 => (g >> 18) & 0x3F case 1 => (g >> 12) & 0x3F case 2 => (g >> 6) & 0x3F case _ => g & 0x3F) as byte
  }

  lemma SextetSmall(g: bv32, k: nat)
    requires k < 4
    ensures Sextet(g, k) < 64
  {
  }

  /** One group of up to three bytes; zero bits are added on the right, then padding characters. */
  function EncodeGroup(m: seq<byte>): (s: seq<byte>)
    requires m != []
    ensures |s| == 4
  {
    var g := Group(m[0], if |m| > 1 then m[1] else 0, if |m| > 2 then m[2] else 0);
    SextetSmall(g, 0);
    SextetSmall(g, 1);
    SextetSmall(g, 2);
    SextetSmall(g, 3);
    [Char(Sextet(g, 0)), Char(Sextet(g, 1)),
     if |m| > 1 then Char(Sextet(g, 2)) else PAD, if |m| > 2 then Char(Sextet(g, 3)) else PAD]
  }

  function Encode(m: seq<byte>): (s: seq<byte>)
    ensures |s| == 4 * ((|m| + 2) / 3)
    decreases |m|
  {
    if m == [] then [] else EncodeGroup(m) + Encode(if |m| > 3 then m[3..] else [])
  }

  // ---------------------------------------------------------------- decoding one quadruple

  datatype Quad = Quad(ok: bool, out: seq<byte>)

  function First(a: byte, b: byte): byte { (a << 2) | (b >> 4) }
  function Second(b: byte, c: byte): byte { ((b << 4) & 0xF0) | (c >> 2) }
  function Third(c: byte, d: byte): byte { ((c << 6) & 0xC0) | d }

  /** What decoding the characters at the front of `s` yields; padding is accepted only if exactly
      four characters are at hand. A failed quadruple may still have produced bytes. */
  function Decode4(s: seq<byte>): Quad {
    if |s| < 2 || !IsBase64(s[0]) || !IsBase64(s[1]) then Quad(false, [])
    else
      var o0 := [First(B64(s[0]), B64(s[1]))];
      if |s| == 2 then Quad(false, o0)
      else if s[2] == PAD then Quad(|s| == 4 && s[3] == PAD, o0)
      else if !IsBase64(s[2]) then Quad(false, o0)
      else
        var o1 := o0 + [Second(B64(s[1]), B64(s[2]))];
        if |s| == 3 then Quad(false, o1)
        else if s[3] == PAD then Quad(|s| == 4, o1)
        else if !IsBase64(s[3]) then Quad(false, o1)
        else Quad(true, o1 + [Third(B64(s[2]), B64(s[3]))])
  }

  lemma GroupRoundTrip(a: byte, b: byte, c: byte)
    ensures var g := Group(a, b, c);
            && First(Sextet(g, 0), Sextet(g, 1)) == a
            && Second(Sextet(g, 1), Sextet(g, 2)) == b
            && Third(Sextet(g, 2), Sextet(g, 3)) == c
  {
  }

  /** A group of at most three bytes survives encoding and decoding. */
  lemma GroupDecodes(m: seq<byte>)
    requires 1 <= |m| <= 3
    ensures Decode4(EncodeGroup(m)) == Quad(true, m)
  {
    hide Group, Sextet, First, Second, Third, Char, B64, IsBase64;
    var b, c := if |m| > 1 then m[1] else 0, if |m| > 2 then m[2] else 0;
    var g := Group(m[0], b, c);
    GroupRoundTrip(m[0], b, c);
    forall k: nat | k < 4 ensures Sextet(g, k) < 64 { SextetSmall(g, k); }
    CharRoundTrip(Sextet(g, 0));
    CharRoundTrip(Sextet(g, 1));
    CharRoundTrip(Sextet(g, 2));
    CharRoundTrip(Sextet(g, 3));
  }

  // ---------------------------------------------------------------- decoding a stream

  /** `pending` is what is left when the characters ran out. */
  datatype Decoded = Decoded(ok: bool, out: seq<byte>, pending: seq<byte>)

  /** Quadruple after quadruple; the first bad one stops the decoding. */
  function Stream(s: seq<byte>): (d: Decoded)
    ensures d.ok ==> |d.pending| < 4
  {
    if |s| < 4 then Decoded(true, [], s)
    else
      var q := Decode4(s[..4]);
      if !q.ok then Decoded(false, q.out, [])
      else var d := Stream(s[4..]); d.(out := q.out + d.out)
  }

  lemma StreamUnfold(s: seq<byte>)
    ensures |s| < 4 ==> Stream(s) == Decoded(true, [], s)
    ensures |s| >= 4 && !Decode4(s[..4]).ok ==> Stream(s) == Decoded(false, Decode4(s[..4]).out, [])
    ensures |s| >= 4 && Decode4(s[..4]).ok ==>
              Stream(s) == Stream(s[4..]).(out := Decode4(s[..4]).out + Stream(s[4..]).out)
  {
  }

  lemma {:induction false} StreamDecodes(m: seq<byte>)
    ensures Stream(Encode(m)) == Decoded(true, m, [])
    decreases |m|
  {
    hide Decode4, EncodeGroup;
    if m != [] {
      var head, rest := if |m| > 3 then m[..3] else m, if |m| > 3 then m[3..] else [];
      EncodeGroupHead(m);
      GroupDecodes(head);
      StreamDecodes(rest);
      var s := Encode(m);
      assert s[..4] == EncodeGroup(m) && s[4..] == Encode(rest);
      assert m == head + rest;
    }
  }

  lemma EncodeGroupHead(m: seq<byte>)
    requires m != []
    ensures EncodeGroup(m) == EncodeGroup(if |m| > 3 then m[..3] else m)
  {
  }

  /** Decoding in two parts is decoding the whole, with the pending characters carried over. */
  lemma {:induction false} StreamSplit(a: seq<byte>, b: seq<byte>)
    requires Stream(a).ok
    ensures var d, e := Stream(a), Stream(Stream(a).pending + b);
            Stream(a + b) == e.(out := d.out + e.out)
  {
    hide Stream, Decode4;
    StreamUnfold(a);
    StreamUnfold(a + b);
    if |a| < 4 {
      assert [] + Stream(a + b).out == Stream(a + b).out;
    } else {
      StreamSplit(a[4..], b);
      assert (a + b)[..4] == a[..4] && (a + b)[4..] == a[4..] + b;
      var q, d, e := Decode4(a[..4]), Stream(a[4..]), Stream(Stream(a).pending + b);
      assert q.out + (d.out + e.out) == (q.out + d.out) + e.out;
    }
  }

  /** A stream that decodes with nothing left decodes up to every point. */
  lemma {:induction false} StreamPrefix(a: seq<byte>, b: seq<byte>)
    requires Stream(a + b).ok
    ensures Stream(a).ok && |Stream(a).pending| == |a| % 4
  {
    hide Decode4;
    if |a| >= 4 {
      assert (a + b)[..4] == a[..4] && (a + b)[4..] == a[4..] + b;
      StreamPrefix(a[4..], b);
    }
  }

  // ---------------------------------------------------------------- newlines

  function NoNewlines(s: seq<byte>): (r: seq<byte>)
    ensures |r| <= |s|
  {
    if s == [] then [] else if s[0] == NEWLINE then NoNewlines(s[1..]) else [s[0]] + NoNewlines(s[1..])
  }

  lemma {:induction false} NoNewlinesConcat(a: seq<byte>, b: seq<byte>)
    ensures NoNewlines(a + b) == NoNewlines(a) + NoNewlines(b)
  {
    if a == [] {
      assert a + b == b;
    } else {
      assert (a + b)[1..] == a[1..] + b;
      NoNewlinesConcat(a[1..], b);
    }
  }

  lemma {:induction false} NoNewlinesId(a: seq<byte>)
    requires NEWLINE !in a
    ensures NoNewlines(a) == a
  {
    if a != [] {
      assert forall c :: c in a[1..] ==> c in a;
      NoNewlinesId(a[1..]);
    }
  }

  // ---------------------------------------------------------------- feeding pieces

  /** What one call with a context does: an empty piece flushes, anything else is decoded after the
      characters kept from before. */
  function Call(pending: seq<byte>, piece: seq<byte>): (d: Decoded) {
    if piece == [] then
      if pending == [] then Decoded(true, [], []) else Decoded(false, Decode4(pending).out, pending)
    else Stream(pending + NoNewlines(piece))
  }

  datatype Feeding = Feeding(ok: bool, out: seq<byte>, pending: seq<byte>)

  /** Feeding pieces one after the other through one context, stopping at the first failure. */
  function Feed(pieces: seq<seq<byte>>): (f: Feeding) {
    if pieces == [] then Feeding(true, [], [])
    else
      var f := Feed(pieces[..|pieces|-1]);
      if !f.ok then f
      else
        var d := Call(f.pending, pieces[|pieces|-1]);
        Feeding(d.ok, f.out + d.out, d.pending)
  }

  function Join(pieces: seq<seq<byte>>): seq<byte> {
    if pieces == [] then [] else Join(pieces[..|pieces|-1]) + pieces[|pieces|-1]
  }

  /** An empty piece is an order to flush; it succeeds only between two quadruples. */
  ghost predicate FlushesOnBoundaries(pieces: seq<seq<byte>>) {
    forall i :: 0 <= i < |pieces| && pieces[i] == [] ==> |NoNewlines(Join(pieces[..i]))| % 4 == 0
  }

  lemma {:induction false} FeedIsStream(pieces: seq<seq<byte>>, rest: seq<byte>)
    requires Stream(NoNewlines(Join(pieces)) + rest).ok && FlushesOnBoundaries(pieces)
    ensures var d := Stream(NoNewlines(Join(pieces)));
            d.ok && Feed(pieces) == Feeding(true, d.out, d.pending)
  {
    hide Stream, Decode4, NoNewlines;
    if pieces == [] {
      NoNewlinesId([]);
      StreamPrefix([], rest);
      StreamNothing();
    } else {
      var front, last := pieces[..|pieces|-1], pieces[|pieces|-1];
      var a, b := NoNewlines(Join(front)), NoNewlines(last);
      NoNewlinesConcat(Join(front), last);
      assert (a + b) + rest == a + (b + rest);
      forall i | 0 <= i < |front| && front[i] == [] ensures |NoNewlines(Join(front[..i]))| % 4 == 0 {
        assert front[..i] == pieces[..i];
      }
      FeedIsStream(front, b + rest);
      StreamPrefix(a, b + rest);
      StreamPrefix(a + b, rest);
      StreamSplit(a, b);
      if last == [] {
        NoNewlinesId([]);
        assert front == pieces[..|pieces|-1];
        assert Stream(a).pending == [] && a + b == a;
        assert Stream(a).out + [] == Stream(a).out;
      }
    }
  }

  lemma StreamNothing()
    ensures Stream([]) == Decoded(true, [], [])
  {
  }

  /** Cut the encoding of any message, broken by newlines anywhere, into any pieces: feeding them
      through one context returns the message, and every call succeeds, exactly when the empty
      pieces fall between quadruples. */
  lemma {:induction false} PiecesDecode(m: seq<byte>, pieces: seq<seq<byte>>)
    requires NoNewlines(Join(pieces)) == Encode(m)
    ensures FlushesOnBoundaries(pieces) ==> Feed(pieces) == Feeding(true, m, [])
    ensures Feed(pieces).ok <==> FlushesOnBoundaries(pieces)
  {
    hide Stream, Encode, NoNewlines;
    StreamDecodes(m);
    assert Encode(m) + [] == Encode(m);
    if FlushesOnBoundaries(pieces) {
      FeedIsStream(pieces, []);
    } else {
      BadFlushFails(pieces, [], Encode(m));
    }
  }

  lemma {:induction false} BadFlushFails(pieces: seq<seq<byte>>, rest: seq<byte>, text: seq<byte>)
    requires NoNewlines(Join(pieces)) + rest == text && Stream(text).ok && !FlushesOnBoundaries(pieces)
    ensures !Feed(pieces).ok
  {
    hide Stream, Decode4, NoNewlines;
    var front, last := pieces[..|pieces|-1], pieces[|pieces|-1];
    var a, b := NoNewlines(Join(front)), NoNewlines(last);
    NoNewlinesConcat(Join(front), last);
    assert (a + b) + rest == a + (b + rest);
    if FlushesOnBoundaries(front) {
      FeedIsStream(front, b + rest);
      StreamPrefix(a, b + rest);
      assert forall i :: 0 <= i < |front| ==> front[i] == pieces[i] && front[..i] == pieces[..i];
      assert last == [] && |a| % 4 != 0;
    } else {
      BadFlushFails(front, b + rest, text);
    }
  }

  /** The encoding of three zero bytes, with an empty piece after its first character: the decoder fails. */
  lemma EmptyPieceInside()
    ensures var pieces: seq<seq<byte>> := [[65], [], [65, 65, 65]];
            NoNewlines(Join(pieces)) == Encode([0, 0, 0]) && !Feed(pieces).ok
  {
    hide Stream, Decode4;
    var pieces: seq<seq<byte>> := [[65], [], [65, 65, 65]];
    var all: seq<byte> := [65, 65, 65, 65];
    JoinStep([], [65]);
    JoinStep([[65]], []);
    JoinStep([[65], []], [65, 65, 65]);
    assert [[65], []] == [[65]] + [[]] && pieces == [[65], []] + [[65, 65, 65]];
    assert Join(pieces) == all;
    assert pieces[..1] == [] + [[65]];
    NoNewlinesId([65]);
    NoNewlinesId(all);
    var g := Group(0, 0, 0);
    assert Char(0) == 65 && Sextet(g, 0) == Sextet(g, 1) == Sextet(g, 2) == Sextet(g, 3) == 0;
    assert Encode([]) == [];
    assert Encode([0, 0, 0]) == all;
    assert !FlushesOnBoundaries(pieces) by {
      assert pieces[1] == [] && |NoNewlines(Join(pieces[..1]))| % 4 == 1;
    }
    PiecesDecode([0, 0, 0], pieces);
  }

  lemma JoinStep(front: seq<seq<byte>>, last: seq<byte>)
    ensures Join(front + [last]) == Join(front) + last
  {
    assert (front + [last])[..|front|] == front;
  }
}
