/** The decoders of base64.c: the resumable one, the room its caller allocates, and the older one. */
module Base64Decoder {
  import opened Base64Rfc
  import opened Base64

  // ---------------------------------------------------------------- specification

  /** Without a context the text is one unit: a quadruple is told how much is left, so padding is
      accepted at the very end only, and a newline is garbage. */
  function Plain(s: seq<byte>): (d: Decoded) {
    if |s| < 4 then Decoded(s == [], Decode4(s).out, [])
    else
      var q := Decode4(s);
      if !q.ok then Decoded(false, q.out, [])
      else var d := Plain(s[4..]); d.(out := q.out + d.out)
  }

  /** What is left to deliver, given the characters kept and the input not yet read. */
  function Left(hasContext: bool, flush: bool, pending: seq<byte>, s: seq<byte>): (d: Decoded) {
    if !hasContext then Plain(s)
    else if flush then Decoded(pending == [], Decode4(pending).out, pending)
    else Stream(pending + NoNewlines(s))
  }

  /** `all` is what is left after `text` has been delivered. */
  ghost predicate Ahead(all: Decoded, text: seq<byte>, left: Decoded) {
    all == left.(out := text + left.out)
  }

  lemma AheadAtStart(all: Decoded)
    ensures Ahead(all, [], all)
  {
    assert [] + all.out == all.out;
  }

  lemma AheadMeans(all: Decoded, text: seq<byte>, left: Decoded)
    requires Ahead(all, text, left)
    ensures all == left.(out := text + left.out)
  {
  }

  lemma AheadMore(all: Decoded, text: seq<byte>, left: Decoded, more: seq<byte>, left': Decoded)
    requires Ahead(all, text, left) && left == left'.(out := more + left'.out)
    ensures Ahead(all, text + more, left')
  {
    assert text + (more + left'.out) == (text + more) + left'.out;
  }

  lemma Decode4Short(s: seq<byte>)
    ensures |s| < 4 ==> !Decode4(s).ok
    ensures s == [] ==> Decode4(s).out == []
    ensures s != [] && s[0] == NEWLINE ==> Decode4(s) == Quad(false, [])
  {
  }

  lemma Decode4Front(s: seq<byte>)
    requires |s| >= 4
    ensures Decode4(s).ok ==> Decode4(s[..4]) == Decode4(s) && NEWLINE !in s[..4]
    ensures Decode4(s[..4]).ok && PAD !in s[..4] ==> Decode4(s) == Decode4(s[..4])
  {
  }

  lemma StreamQuad(q: seq<byte>, more: seq<byte>)
    requires |q| == 4
    ensures Stream(q + more) == if Decode4(q).ok then Stream(more).(out := Decode4(q).out + Stream(more).out)
                                else Decoded(false, Decode4(q).out, [])
  {
    hide Decode4;
    assert (q + more)[..4] == q && (q + more)[4..] == more;
  }

  /** A good quadruple at the front is what is delivered next, context or not. */
  lemma QuadIsNext(hasContext: bool, s: seq<byte>)
    requires Decode4(s).ok
    ensures |s| >= 4
    ensures var l := Left(hasContext, false, [], s[4..]);
            Left(hasContext, false, [], s) == l.(out := Decode4(s).out + l.out)
  {
    hide Decode4, Stream, NoNewlines;
    Decode4Short(s);
    Decode4Front(s);
    assert s == s[..4] + s[4..];
    NoNewlinesConcat(s[..4], s[4..]);
    NoNewlinesId(s[..4]);
    assert forall x: seq<byte> :: [] + x == x;
    StreamQuad(s[..4], NoNewlines(s[4..]));
  }

  lemma NewlineIsSkipped(pending: seq<byte>, s: seq<byte>)
    requires s != [] && s[0] == NEWLINE
    ensures Left(true, false, pending, s) == Left(true, false, pending, s[1..])
  {
  }

  // ---------------------------------------------------------------- decode_4

  method Decode4Into(s: seq<byte>, out: array<byte>, limit: nat, at: nat, ghost text: seq<byte>) returns (ok: bool, at': nat)
    requires limit <= out.Length && Written(out[..], limit, at, text)
    modifies out
    ensures ok == Decode4(s).ok
    ensures Written(out[..], limit, at', text + Decode4(s).out) && at <= at'
    ensures forall i :: limit <= i < out.Length ==> out[i] == old(out[i])
  {
    hide Written, First, Second, Third, B64;
    WrittenMeans(out[..], limit, at, text);
    at' := at;
    if |s| < 2 || !IsBase64(s[0]) || !IsBase64(s[1]) {
      assert text + [] == text;
      return false, at';
    }
    var o0 := First(B64(s[0]), B64(s[1]));
    at' := Put(out, limit, at', o0, text);
    if |s| == 2 { return false, at'; }
    if s[2] == PAD { return |s| == 4 && s[3] == PAD, at'; }
    if !IsBase64(s[2]) { return false, at'; }
    var o1 := Second(B64(s[1]), B64(s[2]));
    assert text + [o0] + [o1] == text + ([o0] + [o1]);
    at' := Put(out, limit, at', o1, text + [o0]);
    if |s| == 3 { return false, at'; }
    if s[3] == PAD { return |s| == 4, at'; }
    if !IsBase64(s[3]) { return false, at'; }
    var o2 := Third(B64(s[2]), B64(s[3]));
    assert text + [o0] + [o1] + [o2] == text + ([o0] + [o1] + [o2]);
    at' := Put(out, limit, at', o2, text + [o0] + [o1]);
    return true, at';
  }

  // ---------------------------------------------------------------- the decode context

  /** Up to four characters kept between calls; a full buffer has been decoded already. */
  class DecodeContext {
    var i: nat
    const buf: array<byte>

    ghost predicate Valid()
      reads this
    {
      buf.Length == 4 && i <= 4
    }

    ghost function Pending(): seq<byte>
      requires Valid()
      reads this, buf
    {
      if i == 4 then [] else buf[..i]
    }

    /** base64_decode_ctx_init */
    constructor ()
      ensures Valid() && Pending() == [] && fresh(buf)
    {
      i, buf := 0, new byte[4];
    }

    method Keep(c: byte)
      requires Valid() && i < 4
      modifies this, buf
      ensures Valid() && i == old(i) + 1 && buf[..i] == old(buf[..i]) + [c]
    {
      buf[i] := c;
      i := i + 1;
    }

    /** get_4: the next quadruple without newlines, or whatever there is of it. */
    method Get4(input: seq<byte>, pos: nat) returns (chunk: seq<byte>, pos': nat)
      requires Valid() && pos <= |input|
      modifies this, buf
      ensures Valid() && pos <= pos' <= |input|
      ensures chunk + NoNewlines(input[pos'..]) == old(Pending()) + NoNewlines(input[pos..])
      ensures |chunk| <= 4 && Pending() == (if |chunk| == 4 then [] else chunk)
      ensures |chunk| < 4 ==> pos' == |input|
      ensures |chunk| == 4 ==> pos < pos'
    {
      hide NoNewlines;
      if i == 4 { i := 0; }
      assert buf[..i] == old(Pending());
      if i == 0 && 4 <= |input| - pos && NEWLINE !in input[pos..pos+4] {
        chunk, pos' := input[pos..pos+4], pos + 4;
        CleanQuadruple(input, pos);
        return;
      }
      pos' := Collect(input, pos);
      chunk := buf[..i];
    }

    /** Copy characters that are no newlines until there are four. */
    method Collect(input: seq<byte>, pos: nat) returns (pos': nat)
      requires Valid() && i < 4 && pos <= |input|
      modifies this, buf
      ensures Valid() && pos <= pos' <= |input| && (i < 4 ==> pos' == |input|) && (i == 4 ==> pos < pos')
      ensures buf[..i] + NoNewlines(input[pos'..]) == old(buf[..i]) + NoNewlines(input[pos..])
    {
      hide NoNewlines;
      pos' := pos;
      ghost var goal := buf[..i] + NoNewlines(input[pos..]);
      while pos' < |input| && i < 4
        invariant pos <= pos' <= |input| && i <= 4 && buf.Length == 4 && (pos' == pos ==> i < 4)
        invariant buf[..i] + NoNewlines(input[pos'..]) == goal
        decreases |input| - pos'
      {
        var c := input[pos'];
        NoNewlinesStep(input, pos');
        pos' := pos' + 1;
        if c != NEWLINE {
          Assoc(buf[..i], [c], NoNewlines(input[pos'..]));
          Keep(c);
        } else {
          assert [] + NoNewlines(input[pos'..]) == NoNewlines(input[pos'..]);
        }
      }
    }
  }

  lemma CleanQuadruple(input: seq<byte>, pos: nat)
    requires pos + 4 <= |input| && NEWLINE !in input[pos..pos+4]
    ensures input[pos..pos+4] + NoNewlines(input[pos+4..]) == [] + NoNewlines(input[pos..])
  {
    hide NoNewlines;
    var chunk := input[pos..pos+4];
    assert input[pos..] == chunk + input[pos+4..];
    NoNewlinesConcat(chunk, input[pos+4..]);
    NoNewlinesId(chunk);
  }

  lemma NoNewlinesStep(s: seq<byte>, i: nat)
    requires i < |s|
    ensures NoNewlines(s[i..]) == (if s[i] == NEWLINE then [] else [s[i]]) + NoNewlines(s[i+1..])
  {
    assert s[i..][1..] == s[i+1..];
  }

  // ---------------------------------------------------------------- base64_decode_ctx

  /** The inner loop: quadruples until one fails. Nothing the failing one wrote counts yet. */
  method FastLoop(hasContext: bool, input: seq<byte>, pos: nat, out: array<byte>, limit: nat, at: nat,
                  ghost all: Decoded, ghost text: seq<byte>)
    returns (pos': nat, saved: nat, at': nat, ghost text': seq<byte>)
    requires pos <= |input| && limit <= out.Length && Written(out[..], limit, at, text)
    requires Ahead(all, text, Left(hasContext, false, [], input[pos..]))
    modifies out
    ensures pos <= pos' <= |input| && Written(out[..], limit, saved, text')
    ensures Ahead(all, text', Left(hasContext, false, [], input[pos'..]))
    ensures !Decode4(input[pos'..]).ok && Written(out[..], limit, at', text' + Decode4(input[pos'..]).out) && saved <= at'
    ensures forall i :: limit <= i < out.Length ==> out[i] == old(out[i])
  {
    hide Decode4, Stream, NoNewlines, Plain, Left, Ahead;
    pos', at', saved, text' := pos, at, at, text;
    var ok := true;
    while ok
      invariant pos <= pos' <= |input|
      invariant ok ==> at' == saved
      invariant Written(out[..], limit, saved, text') && saved <= at'
      invariant Ahead(all, text', Left(hasContext, false, [], input[pos'..]))
      invariant !ok ==> !Decode4(input[pos'..]).ok && Written(out[..], limit, at', text' + Decode4(input[pos'..]).out)
      invariant forall i :: limit <= i < out.Length ==> out[i] == old(out[i])
      decreases |input| - pos', ok
    {
      saved := at';
      ghost var rest := input[pos'..];
      ok, at' := Decode4Into(input[pos'..], out, limit, at', text');
      WrittenPrefix(out[..], limit, saved, text', at', text' + Decode4(rest).out);
      if ok {
        QuadIsNext(hasContext, rest);
        assert rest[4..] == input[pos'+4..];
        AheadMore(all, text', Left(hasContext, false, [], rest), Decode4(rest).out, Left(hasContext, false, [], rest[4..]));
        text' := text' + Decode4(rest).out;
        pos' := pos' + 4;
        saved := at';
      }
    }
  }

  lemma WrittenPrefix(out: seq<byte>, limit: nat, at: nat, text: seq<byte>, at': nat, text': seq<byte>)
    requires limit <= |out| && text <= text' && Written(out, limit, at', text')
    requires at == if |text| < limit then |text| else limit
    ensures Written(out, limit, at, text)
  {
    assert out[..at] == out[..at'][..at] == text'[..at] == text[..at];
  }

  /** A quadruple delivered through the context is the next thing a stream delivers; a bad one ends it. */
  lemma ChunkIsNext(chunk: seq<byte>, pending: seq<byte>, s: seq<byte>, rest: seq<byte>)
    requires chunk + NoNewlines(rest) == pending + NoNewlines(s)
    ensures |chunk| == 4 ==>
              var l, q := Left(true, false, [], rest), Decode4(chunk);
              Left(true, false, pending, s) == if q.ok then l.(out := q.out + l.out) else Decoded(false, q.out, [])
    ensures |chunk| < 4 && rest == [] ==> Left(true, false, pending, s) == Decoded(true, [], chunk)
  {
    hide Decode4, Stream, NoNewlines;
    assert [] + NoNewlines(rest) == NoNewlines(rest);
    if |chunk| == 4 {
      StreamQuad(chunk, NoNewlines(rest));
    } else if |chunk| < 4 && rest == [] {
      NoNewlinesId([]);
      assert chunk + [] == chunk;
      StreamShort(chunk);
    }
  }

  lemma StreamShort(s: seq<byte>)
    requires |s| < 4
    ensures Stream(s) == Decoded(true, [], s)
  {
  }

  /** The slow path: what it means for what is left that `chunk` is at hand and `rest'` is unread. */
  lemma SlowStep(hasContext: bool, flush: bool, pending: seq<byte>, rest: seq<byte>, chunk: seq<byte>, rest': seq<byte>)
    requires !hasContext ==> chunk == rest && pending == [] && !Decode4(rest).ok
    requires hasContext ==> chunk + NoNewlines(rest') == pending + NoNewlines(rest) && |chunk| <= 4
    requires hasContext && |chunk| < 4 ==> rest' == []
    requires if flush then hasContext && rest == rest' == [] && |pending| < 4 else rest != []
    ensures var l, q := Left(hasContext, flush, pending, rest), Decode4(chunk);
            if chunk == [] || (|chunk| < 4 && !flush && hasContext) then l == Decoded(true, [], chunk)
            else if !q.ok then !l.ok && l.out == q.out
            else var l' := Left(hasContext, flush, [], rest'); |chunk| == 4 && l == l'.(out := q.out + l'.out)
  {
    hide Decode4, Stream, NoNewlines;
    if flush {
      NoNewlinesId([]);
      assert chunk == chunk + [] == pending + [] == pending;
      Decode4Short(chunk);
    } else if hasContext {
      Decode4Short(chunk);
      ChunkIsNext(chunk, pending, rest, rest');
    } else {
      Decode4Short(rest);
    }
  }

  /** base64_decode_ctx: deliver as much as there is room for, and say whether all was well. */
  method DecodeCtx(ctx: DecodeContext?, input: seq<byte>, out: array<byte>, outlen: nat) returns (ok: bool, n: nat)
    requires outlen <= out.Length
    requires ctx != null ==> ctx.Valid() && ctx.buf != out
    modifies out, ctx, if ctx != null then {ctx.buf} else {}
    ensures ctx == null ==> ok == Plain(input).ok && Written(out[..], outlen, n, Plain(input).out)
    ensures ctx != null ==>
              var d := Call(old(ctx.Pending()), input);
              && ctx.Valid() && ok == d.ok && Written(out[..], outlen, n, d.out)
              && (ok ==> ctx.Pending() == d.pending)
    ensures forall i :: outlen <= i < out.Length ==> out[i] == old(out[i])
  {
    hide Decode4, Stream, NoNewlines, Plain, Left, Ahead, Written;
    var ignoreNewlines, flush, ctxI := ctx != null, false, 0;
    ghost var pending: seq<byte> := [];
    if ctx != null {
      ctxI := ctx.i;
      flush := input == [];
      pending := ctx.Pending();
    }
    var pos, inlen, at := 0, |input|, 0;
    ghost var text: seq<byte> := [];
    ghost var all := Left(ignoreNewlines, flush, pending, input);
    AheadAtStart(all);
    assert input[0..] == input;
    NothingWritten(out[..], outlen);
    CallIsLeft(pending, input);
    while true
      invariant 0 <= pos <= |input| && inlen == |input| - pos
      invariant flush ==> ctx != null && input == []
      invariant ctx == null ==> pending == [] && ctxI == 0
      invariant ctx != null ==> ctx.Valid() && pending == ctx.Pending()
      invariant ctxI == 0 ==> pending == []
      invariant Written(out[..], outlen, at, text)
      invariant Ahead(all, text, Left(ignoreNewlines, flush, pending, input[pos..]))
      invariant forall i :: outlen <= i < out.Length ==> out[i] == old(out[i])
      decreases |input| - pos
    {
      var saved := at;
      if ctxI == 0 && !flush {
        pos, saved, at, text := FastLoop(ignoreNewlines, input, pos, out, outlen, at, all, text);
        inlen := |input| - pos;
      }
      ghost var rest, left := input[pos..], Left(ignoreNewlines, flush, pending, input[pos..]);
      AheadMeans(all, text, left);
      assert text + [] == text;
      Decode4Short(rest);
      if inlen == 0 && !flush {
        NothingLeft(ignoreNewlines, pending);
        break;
      }
      if inlen > 0 && input[pos] == NEWLINE && ignoreNewlines {
        NewlineIsSkipped(pending, rest);
        assert rest[1..] == input[pos+1..];
        pos, inlen := pos + 1, inlen - 1;
        continue;
      }
      at := saved;
      var chunk, pos' := input[pos..], pos;
      if ctx != null {
        chunk, pos' := ctx.Get4(input, pos);
        inlen := |chunk|;
      }
      SlowStep(ignoreNewlines, flush, pending, rest, chunk, input[pos'..]);
      if inlen == 0 || (inlen < 4 && !flush && ignoreNewlines) {
        inlen := 0;
        break;
      }
      var good;
      good, at := Decode4Into(chunk, out, outlen, at, text);
      if !good { break; }
      AheadMore(all, text, left, Decode4(chunk).out, Left(ignoreNewlines, flush, [], input[pos'..]));
      text := text + Decode4(chunk).out;
      pos, pending := pos', [];
      inlen := |input| - pos;
    }
    n := at;
    ok := inlen == 0;
  }

  lemma NothingLeft(hasContext: bool, pending: seq<byte>)
    requires |pending| < 4 && (!hasContext ==> pending == [])
    ensures Left(hasContext, false, pending, []) == Decoded(true, [], pending)
  {
    assert pending + [] == pending;
  }

  lemma CallIsLeft(pending: seq<byte>, input: seq<byte>)
    ensures Plain(input) == Left(false, false, pending, input)
    ensures Call(pending, input) == Left(true, input == [], pending, input)
  {
    Decode4Short(pending);
  }

  /** Pieces go through one context one after the other, with room for the byte that the allocated buffer may lack. */
  method DecodePieces(pieces: seq<seq<byte>>) returns (ok: bool, text: seq<byte>, ctx: DecodeContext)
    ensures fresh(ctx) && ctx.Valid()
    ensures var f := Feed(pieces); ok == f.ok && text == f.out && (ok ==> ctx.Pending() == f.pending)
    ensures forall m :: NoNewlines(Join(pieces)) == Encode(m) ==>
              (ok <==> FlushesOnBoundaries(pieces)) && (ok ==> text == m && ctx.Pending() == [])
  {
    hide Call, Written;
    ctx := new DecodeContext();
    ok, text := true, [];
    var k := 0;
    assert pieces[..0] == [];
    while k < |pieces| && ok
      invariant 0 <= k <= |pieces| && fresh(ctx) && fresh(ctx.buf) && ctx.Valid()
      invariant Feed(pieces[..k]).ok == ok && Feed(pieces[..k]).out == text
      invariant ok ==> Feed(pieces[..k]).pending == ctx.Pending()
    {
      var piece := pieces[k];
      FeedStep(pieces, k);
      AtMostOneIsLost(ctx.Pending(), piece);
      var out := new byte[Room(|piece|) + 1];
      ghost var d := Call(ctx.Pending(), piece);
      var n;
      ok, n := DecodeCtx(ctx, piece, out, out.Length);
      AllWritten(out[..], n, d.out);
      text := text + out[..n];
      k := k + 1;
    }
    FeedStops(pieces, k);
    hide Feed, FlushesOnBoundaries, Encode, NoNewlines;
    forall m | NoNewlines(Join(pieces)) == Encode(m)
      ensures (ok <==> FlushesOnBoundaries(pieces)) && (ok ==> text == m && ctx.Pending() == [])
    {
      PiecesDecode(m, pieces);
    }
  }

  lemma FeedStep(pieces: seq<seq<byte>>, k: nat)
    requires k < |pieces|
    ensures var f, d := Feed(pieces[..k]), Call(Feed(pieces[..k]).pending, pieces[k]);
            Feed(pieces[..k+1]) == if f.ok then Feeding(d.ok, f.out + d.out, d.pending) else f
  {
    hide Call;
    assert pieces[..k+1][..k] == pieces[..k];
  }

  /** Pieces behind a failure change nothing. */
  lemma {:induction false} FeedStops(pieces: seq<seq<byte>>, k: nat)
    requires k <= |pieces| && (k == |pieces| || !Feed(pieces[..k]).ok)
    ensures Feed(pieces) == Feed(pieces[..k])
    decreases |pieces| - k
  {
    if k == |pieces| {
      assert pieces[..k] == pieces;
    } else {
      FeedStep(pieces, k);
      FeedStops(pieces, k + 1);
    }
  }

  lemma AllWritten(out: seq<byte>, n: nat, text: seq<byte>)
    requires Written(out, |out|, n, text) && |text| <= |out|
    ensures n == |text| && out[..n] == text
  {
    assert text[..|text|] == text;
  }

  // ---------------------------------------------------------------- the allocated buffer

  /** The room base64_decode_alloc_ctx gives the decoder. */
  function Room(inlen: nat): nat { 3 * (inlen / 4) + 2 }

  /** Number of padding characters. */
  function Pads(s: seq<byte>): nat {
    if s == [] then 0 else (if s[0] == PAD then 1 else 0) + Pads(s[1..])
  }

  lemma {:induction false} PadsConcat(a: seq<byte>, b: seq<byte>)
    ensures Pads(a + b) == Pads(a) + Pads(b)
  {
    if a == [] {
      assert a + b == b;
    } else {
      assert (a + b)[1..] == a[1..] + b;
      PadsConcat(a[1..], b);
    }
  }

  /** A good quadruple yields three bytes, less one for each padding character. */
  lemma Decode4Length(q: seq<byte>)
    ensures |Decode4(q).out| <= 3
    ensures |q| == 4 && Decode4(q).ok ==> |Decode4(q).out| + Pads(q) == 3
  {
    if |q| == 4 && Decode4(q).ok {
      assert q == [q[0]] + ([q[1]] + ([q[2]] + [q[3]]));
      PadsConcat([q[0]], [q[1]] + ([q[2]] + [q[3]]));
      PadsConcat([q[1]], [q[2]] + [q[3]]);
      PadsConcat([q[2]], [q[3]]);
    }
  }

  lemma {:induction false} StreamLength(s: seq<byte>)
    ensures |Stream(s).out| <= 3 * (|s| / 4)
    ensures Stream(s).ok ==> |Stream(s).out| + Pads(s[..|s| / 4 * 4]) == 3 * (|s| / 4)
  {
    hide Decode4, Pads;
    if |s| < 4 {
      assert s[..0] == [];
      NoPads();
    } else {
      Decode4Length(s[..4]);
      StreamLength(s[4..]);
      var t := s[4..];
      assert |t| / 4 + 1 == |s| / 4;
      assert s[..|s| / 4 * 4] == s[..4] + t[..|t| / 4 * 4];
      PadsConcat(s[..4], t[..|t| / 4 * 4]);
    }
  }

  lemma NoPads()
    ensures Pads([]) == 0
  {
  }

  /** The allocated buffer holds the whole output exactly when the quadruples that are completed, at three
      bytes each less one for each of their padding characters, are no more than it was made for. */
  lemma RoomSufficesIff(pending: seq<byte>, piece: seq<byte>)
    requires piece != [] && Call(pending, piece).ok
    ensures var s := pending + NoNewlines(piece);
            |Call(pending, piece).out| <= Room(|piece|) <==> 3 * (|s| / 4) <= Room(|piece|) + Pads(s[..|s| / 4 * 4])
  {
    StreamLength(pending + NoNewlines(piece));
  }

  /** No more than one byte is ever lost. */
  lemma AtMostOneIsLost(pending: seq<byte>, piece: seq<byte>)
    requires |pending| < 4
    ensures |Call(pending, piece).out| <= Room(|piece|) + 1
  {
    if piece == [] {
      ShortLength(pending);
    } else {
      var s := pending + NoNewlines(piece);
      StreamLength(s);
      Quarter(|s|, 3 + |piece|);
      assert (3 + |piece|) / 4 <= |piece| / 4 + 1;
    }
  }

  /** Three characters kept from before and one more: three bytes, and room for two. */
  lemma LastByteLost()
    ensures Call([], [65, 65, 65]).ok && Call([], [65, 65, 65]).pending == [65, 65, 65]
    ensures Call([65, 65, 65], [65]) == Decoded(true, [0, 0, 0], []) && Room(|[65 as byte]|) == 2
  {
    NoNewlinesId([65, 65, 65]);
    NoNewlinesId([65]);
    assert [65, 65, 65] + [65] == [65 as byte, 65, 65, 65];
    assert [] + [65, 65, 65] == [65 as byte, 65, 65];
    var q: seq<byte> := [65, 65, 65, 65];
    assert IsBase64(65) && B64(65) == 0;
    assert Decode4(q) == Quad(true, [0, 0, 0]);
    assert q[..4] == q && q[4..] == [];
    StreamUnfold(q);
    StreamUnfold([]);
    assert [0 as byte, 0, 0] + [] == [0, 0, 0];
  }

  /** With nothing kept from before, the buffer always suffices. */
  lemma RoomSufficesAfresh(piece: seq<byte>)
    ensures |Call([], piece).out| <= Room(|piece|)
  {
    assert [] + NoNewlines(piece) == NoNewlines(piece);
    StreamLength(NoNewlines(piece));
    Quarter(|NoNewlines(piece)|, |piece|);
  }

  lemma Quarter(a: nat, b: nat)
    requires a <= b
    ensures a / 4 <= b / 4
  {
  }

  /** Without a context it always suffices. */
  lemma {:induction false} RoomSufficesPlain(s: seq<byte>)
    ensures |Plain(s).out| <= Room(|s|)
  {
    hide Decode4;
    ShortLength(s);
    if |s| >= 4 {
      RoomSufficesPlain(s[4..]);
      assert |s[4..]| / 4 + 1 == |s| / 4;
    }
  }

  lemma ShortLength(s: seq<byte>)
    ensures |Decode4(s).out| <= if |s| < 4 then 2 else 3
  {
  }

  /** base64_decode_alloc_ctx: what does not fit is lost without a word. */
  method DecodeAlloc(ctx: DecodeContext?, input: seq<byte>) returns (ok: bool, out: seq<byte>)
    requires ctx != null ==> ctx.Valid()
    modifies ctx, if ctx != null then {ctx.buf} else {}
    ensures ctx == null ==> ok == Plain(input).ok && (ok ==> out == Plain(input).out)
    ensures ctx != null ==>
              var d := Call(old(ctx.Pending()), input);
              && ctx.Valid() && ok == d.ok && (ok ==> ctx.Pending() == d.pending)
              && (ok ==> out == if |d.out| <= 3 * (|input| / 4) + 2 then d.out else d.out[..3 * (|input| / 4) + 2])
  {
    hide Call, Written, Plain;
    RoomSufficesPlain(input);
    var needlen := 3 * (|input| / 4) + 2;
    var buffer := new byte[needlen];
    ghost var d := if ctx == null then Plain(input) else Call(ctx.Pending(), input);
    var n;
    ok, n := DecodeCtx(ctx, input, buffer, needlen);
    WrittenMeans(buffer[..], needlen, n, d.out);
    out := if ok then buffer[..n] else [];
  }

  // ---------------------------------------------------------------- unbroken text

  lemma FullGroup(m: seq<byte>)
    requires |m| >= 3
    ensures PAD !in EncodeGroup(m)
  {
    hide Group, Char, Sextet, IsBase64, B64;
    var g := Group(m[0], m[1], m[2]);
    forall k: nat | k < 4 ensures Sextet(g, k) < 64 && Char(Sextet(g, k)) != PAD {
      SextetSmall(g, k);
      CharRoundTrip(Sextet(g, k));
    }
  }

  /** Without a context the decoder inverts the encoder. */
  lemma {:induction false} PlainDecodes(m: seq<byte>)
    ensures Plain(Encode(m)) == Decoded(true, m, [])
    decreases |m|
  {
    hide Decode4, EncodeGroup;
    Decode4Short([]);
    if m != [] {
      var head, rest := if |m| > 3 then m[..3] else m, if |m| > 3 then m[3..] else [];
      var s := Encode(m);
      EncodeGroupHead(m);
      GroupDecodes(head);
      assert s[..4] == EncodeGroup(m) && s[4..] == Encode(rest);
      if |m| >= 3 {
        FullGroup(m);
        Decode4Front(s);
      } else {
        assert s == s[..4];
      }
      PlainDecodes(rest);
      assert m == head + rest;
    }
  }

  // ---------------------------------------------------------------- the older decoder

  /** Position of a character in the alphabet, behind which a zero stands; any other character counts as 0. */
  function Value(c: byte): byte { if IsBase64(c) then B64(c) else if c == 0 then 64 else 0 }

  function Trio(q: seq<byte>): (t: seq<byte>)
    requires |q| == 4
    ensures |t| == 3
  {
    var a, b, c, d := Value(q[0]), Value(q[1]), Value(q[2]), Value(q[3]);
    [(a << 2) | (b >> 4), (b << 4) | (c >> 2), (c << 6) | d]
  }

  /** A character outside the alphabet cuts a group short. */
  function GroupLength(q: seq<byte>): (n: nat)
    requires |q| == 4
    ensures 1 <= n <= 3
  {
    if !IsBase64(q[1]) || !IsBase64(q[2]) then 1 else if !IsBase64(q[3]) then 2 else 3
  }

  predicate IsBreak(c: byte) { c == 10 || c == 13 }

  function AfterBreaks(s: seq<byte>): (r: seq<byte>)
    ensures |r| <= |s|
  {
    if s != [] && IsBreak(s[0]) then AfterBreaks(s[1..]) else s
  }

  /** The group at the front of a text that a zero follows. */
  function FrontGroup(s: seq<byte>): (q: seq<byte>)
    requires |s| >= 3
    ensures |q| == 4
  {
    if |s| == 3 then s + [0] else s[..4]
  }

  datatype Text = Beyond | Text(out: seq<byte>)

  function Prefixed(a: seq<byte>, t: Text): Text { if t.Beyond? then t else Text(a + t.out) }

  /** Groups up to the first short one, breaks between them skipped, while `len`, which goes down by four a group, is
      not 0. `Beyond`: it reads behind the zero that ends the text. */
  function Old(s: seq<byte>, len: int): Text
    decreases |s|
  {
    if |s| < 3 then Beyond
    else
      var q := FrontGroup(s);
      var k := GroupLength(q);
      if k < 3 || |s| == 3 then Text(Trio(q)[..k])
      else if len == 4 then Text(Trio(q))
      else Prefixed(Trio(q), Old(AfterBreaks(s[4..]), len - 4))
  }

  /** UnBase64, on any text and with any length said to be its own; `ok` is false when it reads behind the end. */
  method UnBase64(dest: array<byte>, src: seq<byte>, len: int) returns (ok: bool, n: nat)
    requires 0 !in src && dest.Length > 3 * ((|src| + 1) / 4)
    modifies dest
    ensures src == [] ==> ok && n == 0 && dest[0] == 0
    ensures src != [] ==> ok == Old(src, len).Text?
    ensures src != [] && ok ==> n < dest.Length && dest[..n] == Old(src, len).out && dest[n] == 0
  {
    hide Trio, GroupLength, Old, AfterBreaks, FrontGroup, Prefixed;
    dest[0] := 0;
    if src == [] { return true, 0; }
    var p, at, srclen := 0, 0, len;
    assert src[0..] == src;
    ghost var all := Old(src, len);
    PrefixedNothing(all);
    assert dest[..0] == [];
    ghost var groups := 0;
    while true
      invariant 0 <= 4 * groups <= at <= |src| && p == 3 * groups
      invariant all == Prefixed(dest[..p], Old(src[at..], srclen))
      decreases |src| - at
    {
      ghost var done := dest[..p];
      OldAdvance(src, at, srclen, all, done);
      if |src| - at < 3 { return false, p; }
      var q := FrontGroup(src[at..]);
      var k := GroupLength(q);
      Roomy(groups, |src|);
      PutTrio(dest, p, Trio(q), k);
      p := p + k;
      assert dest[..p] == done + Trio(q)[..k];
      if k < 3 { break; }
      groups := groups + 1;
      ghost var from := at + 4;
      srclen := srclen - 4;
      at := SkipBreaks(src, at + 4);
      BreaksSkipped(src, from, at);
      if srclen == 0 { break; }
    }
    dest[p] := 0;
    ok, n := true, p;
  }

  /** One group further. */
  lemma OldAdvance(src: seq<byte>, at: nat, len: int, all: Text, done: seq<byte>)
    requires at <= |src| && all == Prefixed(done, Old(src[at..], len))
    ensures |src| - at < 3 ==> all.Beyond?
    ensures |src| - at >= 3 ==>
              var q := FrontGroup(src[at..]);
              var k := GroupLength(q);
              && (k < 3 || len == 4 ==> all == Text(done + Trio(q)[..k]))
              && (k == 3 ==> |src| - at >= 4)
              && (k == 3 && len != 4 ==>
                    all == Prefixed(done + Trio(q)[..k], Old(AfterBreaks(src[at+4..]), len - 4)))
  {
    hide Trio, GroupLength, Old, AfterBreaks, FrontGroup;
    OldStep(src, at, len);
    if |src| - at >= 3 {
      ZeroEnds(src, at);
      if |src| - at >= 4 {
        var q := FrontGroup(src[at..]);
        PrefixedTwice(done, Trio(q), Old(AfterBreaks(src[at+4..]), len - 4));
        assert Trio(q)[..3] == Trio(q);
      }
    }
  }

  lemma Roomy(groups: nat, n: nat)
    requires 4 * groups + 3 <= n
    ensures 3 * groups + 3 <= 3 * ((n + 1) / 4)
  {
  }

  lemma PrefixedNothing(t: Text)
    ensures Prefixed([], t) == t
  {
    if t.Text? { assert [] + t.out == t.out; }
  }

  lemma PrefixedTwice(a: seq<byte>, b: seq<byte>, t: Text)
    ensures Prefixed(a, Prefixed(b, t)) == Prefixed(a + b, t)
  {
    if t.Text? { assert a + (b + t.out) == (a + b) + t.out; }
  }

  lemma OldStep(s: seq<byte>, at: nat, len: int)
    requires at <= |s|
    ensures |s| - at < 3 ==> Old(s[at..], len) == Beyond
    ensures |s| - at >= 3 ==>
              var q := FrontGroup(s[at..]);
              var k := GroupLength(q);
              Old(s[at..], len) ==
              if k < 3 || |s| - at == 3 then Text(Trio(q)[..k])
              else if len == 4 then Text(Trio(q)[..k])
              else Prefixed(Trio(q), Old(AfterBreaks(s[at+4..]), len - 4))
  {
    hide Trio, GroupLength, AfterBreaks, FrontGroup;
    if |s| - at >= 4 {
      var q := FrontGroup(s[at..]);
      assert s[at..][4..] == s[at+4..] && (GroupLength(q) == 3 ==> Trio(q)[..3] == Trio(q));
    }
  }

  /** A group that the end of the text cuts off is short. */
  lemma ZeroEnds(s: seq<byte>, at: nat)
    requires at + 3 <= |s|
    ensures at + 3 == |s| ==> GroupLength(FrontGroup(s[at..])) < 3
  {
  }

  /** Three bytes are written, the first `k` of which count. */
  method PutTrio(dest: array<byte>, p: nat, t: seq<byte>, k: nat)
    requires |t| == 3 && p + 3 <= dest.Length && k <= 3
    modifies dest
    ensures dest[..p+k] == old(dest[..p]) + t[..k]
  {
    dest[p], dest[p+1], dest[p+2] := t[0], t[1], t[2];
    assert dest[..p+3] == old(dest[..p]) + t;
    assert dest[..p+k] == dest[..p+3][..p+k];
  }

  method SkipBreaks(s: seq<byte>, at: nat) returns (at': nat)
    requires at <= |s|
    ensures at <= at' <= |s| && (at' < |s| ==> !IsBreak(s[at']))
    ensures forall k :: at <= k < at' ==> IsBreak(s[k])
  {
    at' := at;
    while at' < |s| && (s[at'] == 13 || s[at'] == 10)
      invariant at <= at' <= |s|
      invariant forall k :: at <= k < at' ==> IsBreak(s[k])
    {
      at' := at' + 1;
    }
  }

  lemma {:induction false} BreaksSkipped(s: seq<byte>, from: nat, at: nat)
    requires from <= at <= |s| && (at < |s| ==> !IsBreak(s[at])) && forall k :: from <= k < at ==> IsBreak(s[k])
    ensures AfterBreaks(s[from..]) == s[at..]
    decreases at - from
  {
    if from < at {
      BreaksSkipped(s, from + 1, at);
      assert s[from..][1..] == s[from+1..];
    }
  }

  lemma GroupSurvives(m: seq<byte>)
    requires m != []
    ensures var q, n := EncodeGroup(m), if |m| < 3 then |m| else 3;
            GroupLength(q) == n && Trio(q)[..n] == m[..n] && !IsBreak(q[0])
  {
    hide Group, Sextet, Char, B64, IsBase64, First, Second, Third;
    var b, c := if |m| > 1 then m[1] else 0, if |m| > 2 then m[2] else 0;
    var g := Group(m[0], b, c);
    GroupRoundTrip(m[0], b, c);
    forall k: nat | k < 4 ensures Sextet(g, k) < 64 { SextetSmall(g, k); }
    CharRoundTrip(Sextet(g, 0));
    CharRoundTrip(Sextet(g, 1));
    CharRoundTrip(Sextet(g, 2));
    CharRoundTrip(Sextet(g, 3));
    PadIsNoDigit();
    MaskFree(Sextet(g, 0), Sextet(g, 1), Sextet(g, 2), Sextet(g, 3));
  }

  lemma PadIsNoDigit()
    ensures !IsBase64(PAD)
  {
  }

  lemma MaskFree(a: byte, b: byte, c: byte, d: byte)
    ensures (a << 2) | (b >> 4) == First(a, b)
    ensures (b << 4) | (c >> 2) == Second(b, c) && (c << 6) | d == Third(c, d)
  {
  }

  // ---------------------------------------------------------------- text in lines

  ghost predicate AllBreaks(bs: seq<seq<byte>>) {
    forall i, k :: 0 <= i < |bs| && 0 <= k < |bs[i]| ==> IsBreak(bs[i][k])
  }

  /** The encoding of a message, with line breaks behind each group. */
  function Lines(m: seq<byte>, bs: seq<seq<byte>>): seq<byte>
    requires |bs| == (|m| + 2) / 3
    decreases |m|
  {
    if m == [] then [] else EncodeGroup(m) + bs[0] + Lines(if |m| > 3 then m[3..] else [], bs[1..])
  }

  /** The older decoder inverts the encoder on text broken into lines exactly when there are no breaks after all or
      the text ends with padding; else it reads on behind the end. `e` is the number of breaks seen before. */
  lemma {:induction false} LinesDecodeFrom(m: seq<byte>, bs: seq<seq<byte>>, e: nat)
    requires m != [] && |bs| == (|m| + 2) / 3 && AllBreaks(bs)
    ensures Old(Lines(m, bs), |Lines(m, bs)| + e) ==
            if |m| % 3 != 0 || |Lines(m, bs)| + e == 4 * |bs| then Text(m) else Beyond
    ensures |Lines(m, bs)| >= 4 * |bs|
    decreases |m|
  {
    hide EncodeGroup, Trio, GroupLength, AfterBreaks, Old, Lines, AllBreaks;
    FirstBreaks(bs);
    LinesSplit(m, bs);
    if |m| <= 3 {
      NoLines(bs[1..]);
      LinesStep(m, bs[0], [], |Lines(m, bs)| + e);
      assert |m| == 3 ==> m[..3] == m;
    } else {
      var rest, tail := m[3..], bs[1..];
      LinesDecodeFrom(rest, tail, e + |bs[0]|);
      LinesStep(m, bs[0], Lines(rest, tail), |Lines(m, bs)| + e);
      assert m == m[..3] + rest;
    }
  }

  lemma FirstBreaks(bs: seq<seq<byte>>)
    requires bs != [] && AllBreaks(bs)
    ensures (forall k :: 0 <= k < |bs[0]| ==> IsBreak(bs[0][k])) && AllBreaks(bs[1..])
  {
    assert forall i :: 0 <= i < |bs[1..]| ==> bs[1..][i] == bs[i+1];
  }

  lemma LinesSplit(m: seq<byte>, bs: seq<seq<byte>>)
    requires m != [] && |bs| == (|m| + 2) / 3
    ensures var s := Lines(if |m| > 3 then m[3..] else [], bs[1..]);
            && Lines(m, bs) == EncodeGroup(m) + (bs[0] + s) && |Lines(m, bs)| == 4 + |bs[0]| + |s|
            && (s != [] ==> !IsBreak(s[0]))
  {
    hide EncodeGroup;
    LinesStart(if |m| > 3 then m[3..] else [], bs[1..]);
  }

  lemma NoLines(bs: seq<seq<byte>>)
    requires bs == []
    ensures Lines([], bs) == []
  {
  }

  /** What the older decoder makes of the first group of a message. */
  lemma LinesStep(m: seq<byte>, b: seq<byte>, s: seq<byte>, len: int)
    requires m != [] && (forall k :: 0 <= k < |b| ==> IsBreak(b[k])) && (s != [] ==> !IsBreak(s[0]))
    ensures Old(EncodeGroup(m) + (b + s), len) ==
            if |m| < 3 then Text(m) else if len == 4 then Text(m[..3]) else Prefixed(m[..3], Old(s, len - 4))
    ensures Old([], len - 4) == Beyond
  {
    hide EncodeGroup, Trio, GroupLength, AfterBreaks, Old;
    GroupSurvives(m);
    OldFront(EncodeGroup(m), b + s, len);
    SkipAll(b, s);
    OldBeyond(len - 4);
    assert |m| < 3 ==> m[..|m|] == m;
  }

  lemma OldFront(q: seq<byte>, s: seq<byte>, len: int)
    requires |q| == 4
    ensures Old(q + s, len) ==
            if GroupLength(q) < 3 then Text(Trio(q)[..GroupLength(q)])
            else if len == 4 then Text(Trio(q)[..3])
            else Prefixed(Trio(q)[..3], Old(AfterBreaks(s), len - 4))
  {
    hide Trio, GroupLength, AfterBreaks;
    assert (q + s)[..4] == q && (q + s)[4..] == s;
    assert Trio(q)[..3] == Trio(q);
  }

  lemma OldBeyond(len: int)
    ensures Old([], len) == Beyond
  {
  }

  lemma LinesStart(m: seq<byte>, bs: seq<seq<byte>>)
    requires |bs| == (|m| + 2) / 3
    ensures Lines(m, bs) == [] <==> m == []
    ensures m != [] ==> !IsBreak(Lines(m, bs)[0])
  {
    hide EncodeGroup;
    if m != [] { GroupSurvives(m); }
  }

  lemma {:induction false} SkipAll(b: seq<byte>, s: seq<byte>)
    requires (forall k :: 0 <= k < |b| ==> IsBreak(b[k])) && (s != [] ==> !IsBreak(s[0]))
    ensures AfterBreaks(b + s) == s
  {
    if b == [] {
      assert b + s == s;
    } else {
      assert (b + s)[1..] == b[1..] + s;
      SkipAll(b[1..], s);
    }
  }

  lemma LinesDecodeIff(m: seq<byte>, bs: seq<seq<byte>>)
    requires m != [] && |bs| == (|m| + 2) / 3 && AllBreaks(bs)
    ensures Old(Lines(m, bs), |Lines(m, bs)|) == Text(m) <==> |m| % 3 != 0 || |Lines(m, bs)| == 4 * |bs|
    ensures Old(Lines(m, bs), |Lines(m, bs)|).Beyond? <==> !(|m| % 3 != 0 || |Lines(m, bs)| == 4 * |bs|)
  {
    hide Old, Lines;
    LinesDecodeFrom(m, bs, 0);
  }

  /** Without breaks it always does. */
  lemma OldDecodes(m: seq<byte>)
    requires m != []
    ensures Old(Encode(m), |Encode(m)|) == Text(m)
  {
    hide Old;
    var bs := seq((|m| + 2) / 3, i => []);
    LinesDecodeIff(m, bs);
    Unbroken(m, bs);
  }

  lemma {:induction false} Unbroken(m: seq<byte>, bs: seq<seq<byte>>)
    requires |bs| == (|m| + 2) / 3 && forall i :: 0 <= i < |bs| ==> bs[i] == []
    ensures Lines(m, bs) == Encode(m)
    decreases |m|
  {
    hide EncodeGroup;
    if m != [] {
      Unbroken(if |m| > 3 then m[3..] else [], bs[1..]);
      assert EncodeGroup(m) + [] == EncodeGroup(m);
    }
  }

  /** Three bytes, encoded in four characters, and a line break: it reads behind the end. */
  lemma LastLineBreak(m: seq<byte>)
    requires |m| == 3
    ensures Old(EncodeGroup(m) + [10], 5) == Beyond
  {
    hide Old, EncodeGroup;
    assert EncodeGroup(m) + [10] + Lines([], []) == EncodeGroup(m) + [10];
    assert Lines(m, [[10]]) == EncodeGroup(m) + [10];
    LinesDecodeIff(m, [[10]]);
  }
}
