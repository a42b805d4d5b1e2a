/** A response body sent from memory (src/stringstream.cc) through `data_read_cb`
    (src/httpsession.cc): nghttp2 asks for DATA frames of at most some length until END_STREAM. */
module StringStreams {
  import opened Buffers

  type positive = n: nat | n > 0 witness 1

  /** A DATA frame and its END_STREAM flag. */
  datatype DataFrame = DataFrame(payload: string, endStream: bool)

  class StringStream {
    const data: string
    var last: nat

    ghost predicate Valid()
      reads this
    {
      last <= |data|
    }

    ghost function Rest(): string
      requires Valid()
      reads this
    {
      data[last..]
    }

    constructor (data: string)
      ensures Valid() && this.data == data && Rest() == data
    {
      this.data, last := data, 0;
    }

    /** The advertised content length. */
    function Length(): nat { |data| }

    /** `data_read_cb`: how much the next frame carries and whether it ends the stream. A string
        stream always closes after its last octet. */
    method DataRead(limit: positive) returns (nread: nat, eof: bool)
      requires Valid()
      ensures var f := NextFrame(Rest(), limit); nread == |f.payload| && eof == f.endStream
    {
      var left := |data| - last;
      nread := if left < limit then left else limit;
      eof := nread == 0 || left == nread;
    }

    method Send(wb: Buffer<char>, length: nat)
      requires Valid() && last + length <= |data|
      requires wb.Valid() && length <= wb.WLeft()
      modifies this, wb`last, wb`unread, wb.buf
      ensures Valid() && wb.Valid()
      ensures wb.unread == old(wb.unread) + old(Rest())[..length] && Rest() == old(Rest())[length..]
    {
      wb.WriteFull(data[last..last + length]);
      last := last + length;
    }
  }

  ghost function NextFrame(rest: string, limit: positive): DataFrame
  {
    if |rest| <= limit then DataFrame(rest, true) else DataFrame(rest[..limit], false)
  }

  /** The frames a body is sent in when nghttp2 asks with these limits. */
  ghost function Frames(rest: string, limits: seq<positive>): seq<DataFrame>
    decreases |limits|
  {
    if limits == [] then []
    else
      var f := NextFrame(rest, limits[0]);
      [f] + if f.endStream then [] else Frames(rest[|f.payload|..], limits[1..])
  }

  ghost function Payload(frames: seq<DataFrame>): string {
    if frames == [] then "" else frames[0].payload + Payload(frames[1..])
  }

  ghost function TotalLength(frames: seq<DataFrame>): nat {
    if frames == [] then 0 else |frames[0].payload| + TotalLength(frames[1..])
  }

  /** Whatever the limits: the payloads are the body, their lengths add up to the content length, and
      exactly the last frame ends the stream. Until then they are a prefix and no frame ends it. */
  lemma {:induction false} FramesCarryTheBody(body: string, limits: seq<positive>)
    ensures var fs := Frames(body, limits);
            && (forall i :: 0 <= i < |fs| - 1 ==> !fs[i].endStream && fs[i].payload != "")
            && Payload(fs) <= body && TotalLength(fs) == |Payload(fs)|
            && (fs != [] && fs[|fs| - 1].endStream <==> limits != [] && Payload(fs) == body)
            && (|limits| >= |body| && limits != [] ==> fs != [] && fs[|fs| - 1].endStream)
    decreases |limits|
  {
    if limits != [] {
      var f := NextFrame(body, limits[0]);
      if f.endStream {
        assert Frames(body, limits) == [f] && [f][1..] == [];
        assert Payload([f]) == f.payload + Payload([]) == body;
        assert TotalLength([f]) == |f.payload| + TotalLength([]);
      } else {
        var rest := body[|f.payload|..];
        FramesCarryTheBody(rest, limits[1..]);
        var more := Frames(rest, limits[1..]);
        PayloadStep(f, more);
        assert Frames(body, limits) == [f] + more;
        hide Frames, Payload, TotalLength;
        assert f.payload + rest == body;
        if limits[1..] == [] {
          assert more == [];
        }
      }
    }
  }

  /** No frame is longer than its limit, and every frame but the last one fills it. */
  lemma {:induction false} FramesKeepTheLimits(body: string, limits: seq<positive>)
    ensures var fs := Frames(body, limits);
            && |fs| <= |limits|
            && (forall i :: 0 <= i < |fs| ==> |fs[i].payload| <= limits[i])
            && (forall i :: 0 <= i < |fs| && !fs[i].endStream ==> |fs[i].payload| == limits[i])
    decreases |limits|
  {
    if limits != [] {
      var f := NextFrame(body, limits[0]);
      if !f.endStream {
        FramesKeepTheLimits(body[|f.payload|..], limits[1..]);
      }
    }
  }

  lemma PayloadStep(f: DataFrame, more: seq<DataFrame>)
    ensures Payload([f] + more) == f.payload + Payload(more)
    ensures TotalLength([f] + more) == |f.payload| + TotalLength(more)
  {
    assert ([f] + more)[1..] == more;
  }

  lemma EmptyBodyIsOneFrame(limits: seq<positive>)
    requires limits != []
    ensures Frames("", limits) == [DataFrame("", true)]
  {
  }
}
