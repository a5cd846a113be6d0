/**
 The two callbacks that move bytes between cURL and the connector: the upload body handed out
 in pieces, and the response gathered in a buffer that grows by doubling.
 Source: rest_vol.c, H5_rest_curl_read_data_callback and H5_rest_curl_write_data_callback.
 */
module Buffers {
  import opened Texts

  // ----- Upload -----

  class Upload {
    const body: seq<char>
    var bytesSent: nat

    ghost predicate Valid()
      reads this
    {
      bytesSent <= |body|
    }

    constructor (body: seq<char>)
      ensures Valid() && this.body == body && bytesSent == 0
    {
      this.body := body;
      bytesSent := 0;
    }

    // Hands out what fits of what is left.
    method ReadCallback(maxSize: nat) returns (piece: seq<char>)
      requires Valid()
      modifies this
      ensures Valid() && bytesSent == SentAfter(|body|, old(bytesSent), maxSize)
      ensures piece == body[old(bytesSent)..bytesSent]
      ensures |piece| <= maxSize && (|piece| == maxSize || bytesSent == |body|)
    {
      if bytesSent >= |body| {
        return [];
      }
      var bytesLeft := |body| - bytesSent;
      var dataSize := if bytesLeft > maxSize then maxSize else bytesLeft;
      piece := body[bytesSent..bytesSent + dataSize];
      bytesSent := bytesSent + dataSize;
    }
  }

  function SentAfter(total: nat, sent: nat, room: nat): (r: nat)
    requires sent <= total
    ensures sent <= r <= total
  {
    if total - sent > room then sent + room else total
  }

  // What a run of calls hands out, one piece a call.
  function Pieces(body: seq<char>, sent: nat, rooms: seq<nat>): seq<seq<char>>
    requires sent <= |body|
    decreases |rooms|
  {
    if rooms == [] then []
    else
      var next := SentAfter(|body|, sent, rooms[0]);
      [body[sent..next]] + Pieces(body, next, rooms[1..])
  }

  function Sum(ns: seq<nat>): nat {
    if ns == [] then 0 else ns[0] + Sum(ns[1..])
  }

  // Whatever room each call has: the body goes out once and in order, as much of it as there
  // was room for in all.
  lemma {:induction false} UploadsOnceInOrder(body: seq<char>, sent: nat, rooms: seq<nat>)
    requires sent <= |body|
    ensures Joined(Pieces(body, sent, rooms)) == body[sent..SentAfter(|body|, sent, Sum(rooms))]
    decreases |rooms|
  {
    if rooms != [] {
      var next := SentAfter(|body|, sent, rooms[0]);
      var end := SentAfter(|body|, sent, Sum(rooms));
      UploadsOnceInOrder(body, next, rooms[1..]);
      assert end == SentAfter(|body|, next, Sum(rooms[1..]));
      assert Pieces(body, sent, rooms)[1..] == Pieces(body, next, rooms[1..]);
      assert body[sent..next] + body[next..end] == body[sent..end];
    }
  }

  // No piece is longer than the room its call has, all are as long if the body is long enough, and
  // together they are the first bytes of what was left, as many as there was room for.
  lemma {:induction false} PiecesFit(body: seq<char>, sent: nat, rooms: seq<nat>)
    requires sent <= |body|
    ensures var pieces, left := Pieces(body, sent, rooms), |body| - sent;
      && |pieces| == |rooms|
      && (forall k :: 0 <= k < |rooms| ==> |pieces[k]| <= rooms[k])
      && (Sum(rooms) <= left ==> forall k :: 0 <= k < |rooms| ==> |pieces[k]| == rooms[k])
      && Joined(pieces) == body[sent..sent + if Sum(rooms) <= left then Sum(rooms) else left]
    decreases |rooms|
  {
    UploadsOnceInOrder(body, sent, rooms);
    if rooms != [] {
      var next := SentAfter(|body|, sent, rooms[0]);
      PiecesFit(body, next, rooms[1..]);
      var pieces, rest := Pieces(body, sent, rooms), Pieces(body, next, rooms[1..]);
      forall k | 0 <= k < |rooms|
        ensures |pieces| == |rooms| && |pieces[k]| <= rooms[k]
        ensures Sum(rooms) <= |body| - sent ==> |pieces[k]| == rooms[k]
      {
        if k > 0 { assert pieces[k] == rest[k - 1] && rooms[k] == rooms[1..][k - 1]; }
      }
    }
  }

  // A call with room hands out nothing, which tells cURL that the upload is complete, exactly
  // when the whole body has gone out.
  lemma EmptyPieceEndsUpload(body: seq<char>, sent: nat, room: nat)
    requires sent <= |body| && room > 0
    ensures body[sent..SentAfter(|body|, sent, room)] == [] <==> sent == |body|
  {
  }

  // ----- Response -----

  const NUL: char := 0 as char

  // The size doubled until it reaches what is needed.
  function Fitted(size: nat, need: nat): (r: nat)
    requires size > 0
    ensures r >= size && r >= need
    ensures size < need ==> r < 2 * need
    decreases if need > size then need - size else 0
  {
    if size >= need then size else Fitted(2 * size, need)
  }

  // Growing twice is growing once to the larger of the two needs.
  lemma {:induction false} FittedTwice(size: nat, a: nat, b: nat)
    requires size > 0 && a <= b
    ensures Fitted(Fitted(size, a), b) == Fitted(size, b)
    decreases if a > size then a - size else 0
  {
    if size < a {
      FittedTwice(2 * size, a, b);
    }
  }

  function Doubled(size: nat, times: nat): nat
    decreases times
  {
    if times == 0 then size else Doubled(2 * size, times - 1)
  }

  // The size is the starting size doubled some number of times, and one time less would not
  // have been enough.
  lemma {:induction false} FittedIsDoubled(size: nat, need: nat) returns (times: nat)
    requires size > 0
    ensures Fitted(size, need) == Doubled(size, times)
    ensures times > 0 ==> Doubled(size, times - 1) < need
    decreases if need > size then need - size else 0
  {
    if size >= need {
      times := 0;
    } else {
      times := FittedIsDoubled(2 * size, need);
      times := times + 1;
    }
  }

  // The response so far and the size of the buffer it is in.
  datatype Response = Response(contents: seq<char>, size: nat)

  function Received(r: Response, data: seq<char>): Response
    requires r.size > 0
  {
    Response(r.contents + data, Fitted(r.size, |r.contents| + |data| + 1))
  }

  // After a run of pieces.
  function AllReceived(r: Response, pieces: seq<seq<char>>): Response
    requires r.size > 0
    decreases |pieces|
  {
    if pieces == [] then r else AllReceived(Received(r, pieces[0]), pieces[1..])
  }

  // However the response is cut into pieces: the buffer holds them one after the other, and its
  // size is the starting size, or the first doubling of it that holds all bytes and the closing
  // NUL, which is less than twice of what is needed.
  lemma {:induction false} ResponseIsWhole(r: Response, pieces: seq<seq<char>>)
    requires r.size > |r.contents|
    ensures var after := AllReceived(r, pieces);
      && after.contents == r.contents + Joined(pieces)
      && after.size == Fitted(r.size, |r.contents| + |Joined(pieces)| + 1)
    decreases |pieces|
  {
    if pieces == [] {
      assert r.contents + Joined(pieces) == r.contents;
    } else {
      var next := Received(r, pieces[0]);
      ResponseIsWhole(next, pieces[1..]);
      assert r.contents + pieces[0] + Joined(pieces[1..]) == r.contents + Joined(pieces);
      FittedTwice(r.size, |next.contents| + 1, |next.contents| + |Joined(pieces[1..])| + 1);
    }
  }

  class ResponseBuffer {
    var buffer: array<char>
    var curr: nat

    ghost predicate Valid()
      reads this, buffer
    {
      curr < buffer.Length && buffer[curr] == NUL
    }

    ghost function View(): Response
      requires Valid()
      reads this, buffer
    {
      Response(buffer[..curr], buffer.Length)
    }

    constructor (size: nat)
      requires size > 0
      ensures Valid() && View() == Response([], size) && fresh(buffer)
    {
      curr := 0;
      buffer := new char[size](_ => NUL);
    }

    // The buffer doubles until the new bytes and the closing NUL fit.
    method WriteCallback(data: seq<char>)
      requires Valid()
      modifies this, buffer
      ensures Valid() && View() == Received(old(View()), data)
      ensures buffer == old(buffer) || fresh(buffer)
    {
      var used := curr + |data|;
      ghost var contents := buffer[..curr];
      Grow(used + 1);
      forall k | 0 <= k < |data| {
        buffer[curr + k] := data[k];
      }
      assert buffer[..used] == contents + data;
      curr := used;
      buffer[curr] := NUL;
      assert buffer[..curr] == contents + data;
    }

    // The doubling loop.
    method Grow(need: nat)
      requires curr < buffer.Length
      modifies this`buffer
      ensures buffer == old(buffer) || fresh(buffer)
      ensures curr < buffer.Length == Fitted(old(buffer.Length), need)
      ensures buffer[..curr] == old(buffer[..curr])
    {
      while need > buffer.Length
        invariant curr < buffer.Length && buffer[..curr] == old(buffer[..curr])
        invariant Fitted(buffer.Length, need) == Fitted(old(buffer.Length), need)
        invariant buffer == old(buffer) || fresh(buffer)
        decreases need - buffer.Length
      {
        var larger := new char[2 * buffer.Length];
        forall k | 0 <= k < buffer.Length {
          larger[k] := buffer[k];
        }
        assert larger[..curr] == buffer[..curr];
        buffer := larger;
      }
    }
  }
}
