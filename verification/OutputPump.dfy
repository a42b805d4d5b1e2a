/** The output pump of one HTTP/2 session (src/httpsession.cc): `write` drains a 64 KiB buffer into
    the TLS connection, flushes the slice left over from the last chunk, and asks nghttp2 for more,
    which re-enters `send_data_cb` and writes DATA frames straight into the same buffer.

    nghttp2 is the queue of frames it has ready to send, in order. OpenSSL accepts any non-empty
    prefix, reports would-block or fails. */
module OutputPump {
  import opened Sequences
  import opened Options
  import opened Buffers
  import opened Numerals

  const CAPACITY: nat := 64 * 1024
  const HEADER: nat := 9

  /** The nine octets of a frame header (section 4.1 of RFC 9113). */
  datatype Head = Head(length2: byte, length1: byte, length0: byte, kind: byte, flags: byte,
                       id3: byte, id2: byte, id1: byte, id0: byte)
  {
    function Octets(): (o: seq<byte>)
      ensures |o| == HEADER
    {
      [length2, length1, length0, kind, flags, id3, id2, id1, id0]
    }
  }

  type padlen = n: nat | n <= 256

  /** `Control` frames come back from `nghttp2_session_mem_send` as a chunk of memory, never empty.
      A `Data` frame is handed to `send_data_cb`; `pad` counts the Pad Length octet and the padding. */
  datatype Frame =
    | Control(first: byte, others: seq<byte>)
    | Data(head: Head, payload: seq<byte>, pad: padlen)
  {
    function Size(): nat {
      match this
      case Control(_, others) => 1 + |others|
      case Data(_, payload, pad) => HEADER + |payload| + pad
    }

    ghost predicate Oversize() {
      Data? && Size() > CAPACITY
    }
  }

  /** The octets of a frame: section 6.1 of RFC 9113 puts the Pad Length octet before the data
      and as many zero octets after it. */
  ghost function Wire(f: Frame): (w: seq<byte>)
    ensures |w| == f.Size()
  {
    match f
    case Control(first, others) => [first] + others
    case Data(head, payload, pad) => head.Octets() + PadLength(pad) + payload + Padding(pad)
  }

  /** Reading a DATA frame off the wire by section 6.1 of RFC 9113: nine octets of header, with padding one
      octet that says how many octets follow the data, the data, and that many zeros. */
  lemma DataReadsBack(f: Frame)
    requires f.Data?
    ensures var (w, n) := (Wire(f), |f.payload|);
            && w[..9] == [f.head.length2, f.head.length1, f.head.length0, f.head.kind, f.head.flags,
                          f.head.id3, f.head.id2, f.head.id1, f.head.id0]
            && (f.pad == 0 ==> w[9..] == f.payload)
            && (f.pad > 0 ==>
                  && w[9] as nat == f.pad - 1 && w[10..10 + n] == f.payload
                  && |w| == 10 + n + (f.pad - 1) && forall k :: 10 + n <= k < |w| ==> w[k] == 0)
  {
  }

  lemma WireLayout(before: seq<byte>, f: Frame)
    requires f.Data?
    ensures before + f.head.Octets() + PadLength(f.pad) + f.payload + Padding(f.pad) == before + Wire(f)
  {
  }

  ghost function PadLength(pad: padlen): seq<byte>
  {
    if pad == 0 then [] else [(pad - 1) as byte]
  }

  ghost function Padding(pad: padlen): seq<byte> {
    if pad == 0 then [] else seq(pad - 1, _ => 0 as byte)
  }

  ghost function WireAll(fs: seq<Frame>): seq<byte> {
    if fs == [] then [] else Wire(fs[0]) + WireAll(fs[1..])
  }

  lemma {:induction false} WireAllAppend(fs: seq<Frame>, gs: seq<Frame>)
    ensures WireAll(fs + gs) == WireAll(fs) + WireAll(gs)
  {
    if fs == [] {
      assert fs + gs == gs;
    } else {
      assert (fs + gs)[1..] == fs[1..] + gs;
      WireAllAppend(fs[1..], gs);
    }
  }

  lemma WireAllSnoc(fs: seq<Frame>, f: Frame)
    ensures WireAll(fs + [f]) == WireAll(fs) + Wire(f)
  {
    hide Wire;
    WireAllAppend(fs, [f]);
    assert WireAll([f]) == Wire(f) + WireAll([]);
  }

  lemma WireAllNil()
    ensures WireAll([]) == []
  {
  }

  lemma WireAllCons(f: Frame, fs: seq<Frame>)
    ensures WireAll([f] + fs) == Wire(f) + WireAll(fs)
  {
    assert ([f] + fs)[1..] == fs;
  }

  // ----- what one refill does -------------------------------------------------------------

  /** What one `nghttp2_session_mem_send` did: the octets `send_data_cb` wrote, the chunk returned
      (empty for 0), and the frames left. */
  datatype Sent = Sent(written: seq<byte>, chunk: seq<byte>, rest: seq<Frame>)

  ghost function MemSent(room: nat, queue: seq<Frame>): (s: Sent)
    ensures |s.written| <= room && |s.rest| <= |queue|
    ensures s.chunk != [] ==> |s.rest| < |queue|
    ensures s.chunk == [] ==> s.rest == [] || (s.rest[0].Data? && s.rest[0].Size() > room - |s.written|)
    decreases |queue|
  {
    if queue == [] then Sent([], [], [])
    else if queue[0].Control? then Sent([], Wire(queue[0]), queue[1..])
    else if queue[0].Size() > room then Sent([], [], queue)
    else
      var s := MemSent(room - queue[0].Size(), queue[1..]);
      Sent(Wire(queue[0]) + s.written, s.chunk, s.rest)
  }

  lemma MemSentUnfolds(room: nat, queue: seq<Frame>)
    ensures MemSent(room, queue) ==
      if queue == [] then Sent([], [], [])
      else if queue[0].Control? then Sent([], [queue[0].first] + queue[0].others, queue[1..])
      else if queue[0].Size() > room then Sent([], [], queue)
      else
        var s := MemSent(room - queue[0].Size(), queue[1..]);
        s.(written := Wire(queue[0]) + s.written)
  {
  }

  lemma {:induction false} MemSentConserves(room: nat, queue: seq<Frame>)
    ensures var s := MemSent(room, queue); s.written + s.chunk + WireAll(s.rest) == WireAll(queue)
    decreases |queue|
  {
    hide Wire;
    if queue != [] && queue[0].Data? && queue[0].Size() <= room {
      MemSentConserves(room - queue[0].Size(), queue[1..]);
      var s := MemSent(room - queue[0].Size(), queue[1..]);
      Associate(Wire(queue[0]), s.written, s.chunk, WireAll(s.rest));
    }
  }

  /** What one `fill_wb` did: the octets appended to the buffer, the slice left pending, the frames
      left. */
  datatype Refilled = Refilled(out: seq<byte>, pending: seq<byte>, queue: seq<Frame>)

  /** A refill never overruns the buffer, and comes back with free room only if no slice is pending
      and nothing is left that would fit. */
  ghost function Filled(room: nat, pending: seq<byte>, queue: seq<Frame>): (r: Refilled)
    ensures |r.out| <= room
    ensures r.pending != [] ==> |r.out| == room
    ensures r.pending == [] ==> r.queue == [] || (r.queue[0].Data? && r.queue[0].Size() > room - |r.out|)
    decreases |queue|
  {
    if |pending| > room then Refilled(pending[..room], pending[room..], queue)
    else
      var s := MemSent(room - |pending|, queue);
      if s.chunk == [] then Refilled(pending + s.written, [], s.rest)
      else
        var r := Filled(room - |pending| - |s.written|, s.chunk, s.rest);
        Refilled(pending + s.written + r.out, r.pending, r.queue)
  }

  ghost function Preceded(out: seq<byte>, r: Refilled): Refilled {
    r.(out := out + r.out)
  }

  lemma PrecededTwice(a: seq<byte>, b: seq<byte>, r: Refilled)
    ensures Preceded(a, Preceded(b, r)) == Preceded(a + b, r)
  {
    assert a + (b + r.out) == a + b + r.out;
  }

  lemma FilledUnfolds(room: nat, pending: seq<byte>, queue: seq<Frame>)
    ensures Filled(room, pending, queue) ==
      if |pending| > room then Refilled(pending[..room], pending[room..], queue)
      else
        var s := MemSent(room - |pending|, queue);
        if s.chunk == [] then Refilled(pending + s.written, [], s.rest)
        else Preceded(pending + s.written, Filled(room - |pending| - |s.written|, s.chunk, s.rest))
  {
  }

  /** A refill loses, repeats and reorders nothing. */
  lemma {:induction false} FilledConserves(room: nat, pending: seq<byte>, queue: seq<Frame>)
    ensures var r := Filled(room, pending, queue);
            r.out + r.pending + WireAll(r.queue) == pending + WireAll(queue)
    decreases |queue|
  {
    hide MemSent, WireAll, Filled;
    FilledUnfolds(room, pending, queue);
    if |pending| > room {
      assert pending[..room] + pending[room..] == pending;
    } else {
      var s := MemSent(room - |pending|, queue);
      MemSentConserves(room - |pending|, queue);
      if s.chunk == [] {
        assert pending + s.written + [] + WireAll(s.rest) == pending + (s.written + [] + WireAll(s.rest));
      } else {
        var r := Filled(room - |pending| - |s.written|, s.chunk, s.rest);
        FilledConserves(room - |pending| - |s.written|, s.chunk, s.rest);
        Regroup(pending, s.written, r.out, r.pending, WireAll(r.queue), s.chunk, WireAll(s.rest));
      }
    }
  }

  lemma Regroup(p: seq<byte>, w: seq<byte>, m: seq<byte>, p': seq<byte>, q': seq<byte>, c: seq<byte>, r: seq<byte>)
    requires m + p' + q' == c + r
    ensures p + w + m + p' + q' == p + (w + c + r)
  {
    assert p + w + m + p' + q' == p + w + (m + p' + q');
  }

  // ----- runs -----------------------------------------------------------------------------

  /** Octets OpenSSL accepted, unread buffer, pending slice, frames nghttp2 still holds. */
  datatype Pump = Pump(accepted: seq<byte>, unread: seq<byte>, pending: seq<byte>, queue: seq<Frame>)

  /** `Accept(n)`: SSL_write took n octets. `Refill`: the buffer was empty and `fill_wb` ran.
      `Submit`: the application gave nghttp2 another frame. A would-block changes none of these. */
  datatype Event = Accept(n: nat) | Refill | Submit(frame: Frame)

  ghost predicate Enabled(s: Pump, e: Event) {
    match e
    case Accept(n) => 1 <= n <= |s.unread|
    case Refill => s.unread == []
    case Submit(_) => true
  }

  ghost function Next(s: Pump, e: Event): Pump
    requires Enabled(s, e)
  {
    match e
    case Accept(n) => s.(accepted := s.accepted + s.unread[..n], unread := s.unread[n..])
    case Refill =>
      var r := Filled(CAPACITY, s.pending, s.queue);
      s.(unread := r.out, pending := r.pending, queue := r.queue)
    case Submit(frame) => s.(queue := s.queue + [frame])
  }

  ghost predicate IsRun(s: Pump, run: seq<Event>)
    decreases run
  {
    run == [] || (Enabled(s, run[0]) && IsRun(Next(s, run[0]), run[1..]))
  }

  ghost function After(s: Pump, run: seq<Event>): Pump
    requires IsRun(s, run)
    decreases run
  {
    if run == [] then s else After(Next(s, run[0]), run[1..])
  }

  ghost function Submissions(run: seq<Event>): seq<Frame> {
    if run == [] then []
    else (if run[0].Submit? then [run[0].frame] else []) + Submissions(run[1..])
  }

  /** Everything that was or will be on the wire, in order. */
  ghost function Stream(s: Pump): seq<byte> {
    s.accepted + s.unread + s.pending + WireAll(s.queue)
  }

  lemma AcceptConserves(s: Pump, n: nat)
    requires 1 <= n <= |s.unread|
    ensures Stream(Next(s, Accept(n))) == Stream(s)
  {
    assert s.accepted + s.unread[..n] + s.unread[n..] == s.accepted + s.unread;
  }

  lemma RefillConserves(s: Pump)
    requires s.unread == []
    ensures Stream(Next(s, Refill)) == Stream(s)
  {
    FilledConserves(CAPACITY, s.pending, s.queue);
    Associate(s.accepted, Next(s, Refill).unread, Next(s, Refill).pending, WireAll(Next(s, Refill).queue));
    Associate(s.accepted, s.unread, s.pending, WireAll(s.queue));
    assert s.unread + s.pending == s.pending;
  }

  lemma Associate(a: seq<byte>, u: seq<byte>, p: seq<byte>, q: seq<byte>)
    ensures a + u + p + q == a + (u + p + q)
  {
  }

  lemma SubmitConserves(s: Pump, f: Frame)
    ensures Stream(Next(s, Submit(f))) == Stream(s) + Wire(f)
  {
    WireAllAppend(s.queue, [f]);
    assert WireAll([f]) == Wire(f) + WireAll([f][1..]);
    assert WireAll([f]) == Wire(f);
    Associate(s.accepted + s.unread, s.pending, WireAll(s.queue), Wire(f));
  }

  lemma NextConserves(s: Pump, e: Event)
    requires Enabled(s, e)
    ensures Stream(Next(s, e)) == Stream(s) + if e.Submit? then Wire(e.frame) else []
    ensures s.accepted <= Next(s, e).accepted
  {
    match e
    case Accept(n) => AcceptConserves(s, n);
    case Refill => RefillConserves(s);
    case Submit(frame) => SubmitConserves(s, frame);
  }

  /** In every run the accepted octets, the buffer, the pending slice and the frames still held are
      together exactly the submitted frames in submission order. */
  lemma {:induction false} RunConserves(s: Pump, run: seq<Event>)
    requires IsRun(s, run)
    ensures Stream(After(s, run)) == Stream(s) + WireAll(Submissions(run))
    ensures s.accepted <= After(s, run).accepted
    decreases run
  {
    hide Stream, WireAll, Next;
    if run == [] {
      WireAllNil();
    } else {
      var e, rest := run[0], Submissions(run[1..]);
      NextConserves(s, e);
      RunConserves(Next(s, e), run[1..]);
      if e.Submit? {
        WireAllCons(e.frame, rest);
        Assoc(Stream(s), Wire(e.frame), WireAll(rest));
        assert Submissions(run) == [e.frame] + rest;
      } else {
        assert Submissions(run) == rest;
      }
    }
  }

  lemma {:induction false} RunSnoc(s: Pump, run: seq<Event>, e: Event)
    requires IsRun(s, run) && Enabled(After(s, run), e)
    ensures IsRun(s, run + [e]) && After(s, run + [e]) == Next(After(s, run), e)
    ensures Submissions(run + [e]) == Submissions(run) + if e.Submit? then [e.frame] else []
    decreases run
  {
    if run == [] {
      assert [] + [e] == [e];
    } else {
      RunSnoc(Next(s, run[0]), run[1..], e);
      assert (run + [e])[1..] == run[1..] + [e];
    }
  }

  const START := Pump([], [], [], [])

  /** How the connection fragments the output never shows: two runs with the same submissions have
      accepted streams of which one is a prefix of the other, and equal ones once both are drained. */
  lemma FragmentationIsInvisible(run: seq<Event>, run': seq<Event>)
    requires IsRun(START, run) && IsRun(START, run') && Submissions(run) == Submissions(run')
    ensures var (s, s') := (After(START, run), After(START, run'));
            && (s.accepted <= s'.accepted || s'.accepted <= s.accepted)
            && s.accepted <= WireAll(Submissions(run))
            && (Drained(s) && Drained(s') ==> s.accepted == s'.accepted == WireAll(Submissions(run)))
  {
    hide After, IsRun, Submissions, WireAll;
    FromStart(run);
    FromStart(run');
    PrefixesCompare(After(START, run).accepted, After(START, run').accepted, WireAll(Submissions(run)));
  }

  lemma FromStart(run: seq<Event>)
    requires IsRun(START, run)
    ensures After(START, run).accepted <= WireAll(Submissions(run))
    ensures Drained(After(START, run)) ==> After(START, run).accepted == WireAll(Submissions(run))
  {
    hide After, IsRun, Submissions, WireAll, Stream, Drained, START;
    RunConserves(START, run);
    AcceptedInStream(START);
    NothingAccepted();
    AcceptedInStream(After(START, run));
    assert [] + WireAll(Submissions(run)) == WireAll(Submissions(run));
  }

  lemma NothingAccepted()
    ensures Drained(START) && START.accepted == []
  {
  }

  lemma AcceptedInStream(s: Pump)
    ensures s.accepted <= Stream(s)
    ensures Drained(s) ==> Stream(s) == s.accepted
  {
    WireAllNil();
  }

  lemma PrefixesCompare(a: seq<byte>, b: seq<byte>, all: seq<byte>)
    requires a <= all && b <= all
    ensures a <= b || b <= a
  {
    if |a| <= |b| {
      assert a == all[..|a|] == b[..|a|];
    } else {
      assert b == all[..|b|] == a[..|b|];
    }
  }

  ghost predicate Drained(s: Pump) {
    s.unread == [] && s.pending == [] && s.queue == []
  }

  /** With nothing in the buffer a refill produces nothing exactly when nothing is pending and the
      source is empty or stuck on a frame larger than the whole buffer. */
  lemma RefillStopsExactlyWhen(s: Pump)
    requires s.unread == []
    ensures Next(s, Refill).unread == []
       <==> s.pending == [] && (s.queue == [] || s.queue[0].Oversize())
    ensures Next(s, Refill).unread == [] ==> Next(s, Refill) == s
  {
    var t := Next(s, Refill);
    FilledConserves(CAPACITY, s.pending, s.queue);
    if s.pending == [] && (s.queue == [] || s.queue[0].Oversize()) {
      assert Filled(CAPACITY, s.pending, s.queue) == Refilled([], [], s.queue);
    }
  }

  // ----- the code -------------------------------------------------------------------------

  /** The TLS connection. After a would-block OpenSSL demands the same call again: same address,
      same octets. The precondition of `Write` holds every caller to that. */
  class Tls {
    ghost var accepted: seq<byte>
    ghost var retry: Option<(nat, seq<byte>)>
    /** How many writes would have blocked, and whether one has failed. */
    ghost var blocks: nat
    ghost var failed: bool

    constructor ()
      ensures accepted == [] && retry == None && !failed
    {
      accepted, retry, blocks, failed := [], None, 0, false;
    }

    /** Positive: octets accepted. 0: would block. Negative: failed. */
    method Write(at: nat, data: seq<byte>) returns (rv: int)
      requires data != []
      requires retry.Some? ==> retry.value == (at, data)
      modifies this
      ensures -1 <= rv <= |data|
      ensures rv > 0 ==> accepted == old(accepted) + data[..rv] && retry == None
      ensures rv == 0 ==> accepted == old(accepted) && retry == Some((at, data))
      ensures rv < 0 ==> accepted == old(accepted) && retry == old(retry)
      ensures blocks == old(blocks) + if rv == 0 then 1 else 0
      ensures failed == (old(failed) || rv < 0)
    {
      rv :| -1 <= rv <= |data|;
      if rv > 0 {
        accepted := accepted + data[..rv];
        retry := None;
      } else if rv == 0 {
        retry, blocks := Some((at, data)), blocks + 1;
      } else {
        failed := true;
      }
    }
  }

  class HttpSession {
    const wbuf: Buffer<byte>
    const tls: Tls
    /** `data_pending_` and `data_pending_len_`: the unflushed part of the last chunk. */
    var pending: seq<byte>
    /** Frames nghttp2 holds. */
    var queue: seq<Frame>
    /** The write watcher is started. */
    var watching: bool
    /** Every frame ever submitted. */
    ghost var submitted: seq<Frame>
    /** `nghttp2_session_mem_send` has failed. */
    ghost var sourceFailed: bool
    /** nghttp2's last answers to whether it wants to read and to write. */
    ghost var wantsRead: bool
    ghost var wantsWrite: bool

    ghost function State(): Pump
      reads this, tls, wbuf
    {
      Pump(tls.accepted, wbuf.unread, pending, queue)
    }

    ghost predicate Valid()
      reads this, tls, wbuf, wbuf.buf
    {
      && wbuf.Valid() && wbuf.buf.Length == CAPACITY
      && Stream(State()) == WireAll(submitted)
      && (tls.retry.Some? ==> wbuf.unread != [] && tls.retry.value == (wbuf.pos, wbuf.unread))
      && !tls.failed && !sourceFailed
    }

    constructor ()
      ensures Valid() && fresh(wbuf) && fresh(wbuf.buf) && fresh(tls)
      ensures State() == START && submitted == []
    {
      wbuf := new Buffer(CAPACITY);
      tls := new Tls();
      pending, queue, watching, submitted, sourceFailed := [], [], false, [], false;
    }

    /** The application gives nghttp2 a frame and starts the write watcher. */
    method SubmitFrame(f: Frame)
      requires Valid()
      modifies this
      ensures Valid()
      ensures State() == Next(old(State()), Submit(f)) && submitted == old(submitted) + [f]
      ensures watching
    {
      hide Wire, WireAll, Buffer.Valid;
      NextConserves(State(), Submit(f));
      WireAllSnoc(submitted, f);
      queue, submitted, watching := queue + [f], submitted + [f], true;
    }

    /** `send_data_cb`: header, Pad Length, payload and padding go straight into the buffer, or
        nothing at all. */
    method SendData(f: Frame) returns (wouldBlock: bool)
      requires f.Data?
      requires wbuf.Valid()
      modifies wbuf`last, wbuf`unread, wbuf.buf
      ensures wbuf.Valid()
      ensures wouldBlock <==> f.Size() > old(wbuf.WLeft())
      ensures wbuf.unread == old(wbuf.unread) + if wouldBlock then [] else Wire(f)
      ensures wbuf.WLeft() == old(wbuf.WLeft()) - if wouldBlock then 0 else f.Size()
    {
      if wbuf.WLeft() < HEADER + |f.payload| + f.pad {
        return true;
      }
      ghost var before := wbuf.unread;
      WireLayout(before, f);
      wbuf.WriteFull(f.head.Octets());
      if f.pad != 0 {
        wbuf.WriteByte((f.pad - 1) as byte);
      }
      assert wbuf.unread == before + f.head.Octets() + PadLength(f.pad);
      wbuf.WriteFull(f.payload);
      if f.pad != 0 {
        wbuf.Fill(0, f.pad - 1);
      }
      wouldBlock := false;
    }

    /** `nghttp2_session_mem_send`: must not be called while a slice of its memory is pending. */
    method MemSend() returns (ok: bool, chunk: seq<byte>)
      requires wbuf.Valid() && pending == [] && !sourceFailed
      modifies this`queue, this`sourceFailed, wbuf`last, wbuf`unread, wbuf.buf
      decreases |queue|
      ensures wbuf.Valid()
      ensures ok <==> !sourceFailed
      ensures ok ==>
        var s := MemSent(old(wbuf.WLeft()), old(queue));
        && wbuf.unread == old(wbuf.unread) + s.written && chunk == s.chunk && queue == s.rest
        && wbuf.WLeft() == old(wbuf.WLeft()) - |s.written|
    {
      hide Buffer.Valid, MemSent, Wire;
      MemSentUnfolds(wbuf.WLeft(), queue);
      var failed: bool := *;
      if failed {
        sourceFailed := true;
        return false, [];
      }
      if queue == [] {
        return true, [];
      }
      var f := queue[0];
      if f.Control? {
        queue := queue[1..];
        return true, [f.first] + f.others;
      }
      ghost var before := wbuf.unread;
      var wouldBlock := SendData(f);
      if wouldBlock {
        return true, [];
      }
      queue := queue[1..];
      Assoc(before, Wire(f), MemSent(wbuf.WLeft(), queue).written);
      ok, chunk := MemSend();
    }

    method FillWb() returns (ok: bool)
      requires wbuf.Valid() && !sourceFailed
      modifies this`pending, this`queue, this`sourceFailed, wbuf`last, wbuf`unread, wbuf.buf
      ensures wbuf.Valid()
      ensures ok <==> !sourceFailed
      ensures ok ==>
        var r := Filled(old(wbuf.WLeft()), old(pending), old(queue));
        wbuf.unread == old(wbuf.unread) + r.out && pending == r.pending && queue == r.queue
    {
      hide Buffer.Valid, MemSent, Filled;
      ghost var out: seq<byte> := [];
      ghost var start := wbuf.unread;
      ghost var goal := Filled(wbuf.WLeft(), pending, queue);
      while true
        invariant wbuf.Valid() && !sourceFailed
        invariant wbuf.unread == start + out
        invariant goal == Preceded(out, Filled(wbuf.WLeft(), pending, queue))
        decreases |queue|
      {
        FilledUnfolds(wbuf.WLeft(), pending, queue);
        var sent, done, more := FillOnce();
        if !sent {
          return false;
        }
        Assoc(start, out, more);
        PrecededTwice(out, more, Filled(wbuf.WLeft(), pending, queue));
        out := out + more;
        if done {
          return true;
        }
      }
    }

    /** One iteration of `fill_wb`: flush, then ask nghttp2 for more; `more` is what it wrote. */
    method FillOnce() returns (sent: bool, done: bool, ghost more: seq<byte>)
      requires wbuf.Valid() && !sourceFailed
      modifies this`pending, this`queue, this`sourceFailed, wbuf`last, wbuf`unread, wbuf.buf
      ensures wbuf.Valid()
      ensures sent <==> !sourceFailed
      ensures sent ==> wbuf.unread == old(wbuf.unread) + more
      ensures sent ==> wbuf.WLeft() == old(wbuf.WLeft()) - |more|
      ensures sent && |old(pending)| > old(wbuf.WLeft()) ==>
        var room := old(wbuf.WLeft());
        done && more == old(pending)[..room] && pending == old(pending)[room..] && queue == old(queue)
      ensures sent && |old(pending)| <= old(wbuf.WLeft()) ==>
        var s := MemSent(old(wbuf.WLeft()) - |old(pending)|, old(queue));
        more == old(pending) + s.written && pending == s.chunk && queue == s.rest && done == (s.chunk == [])
    {
      hide Buffer.Valid, MemSent;
      ghost var (room, slice) := (wbuf.WLeft(), pending);
      var flushed := FlushPending();
      if !flushed {
        return true, true, slice[..room];
      }
      ghost var s := MemSent(room - |slice|, queue);
      var chunk;
      sent, chunk := MemSend();
      done, more := chunk == [], slice + s.written;
      if sent {
        Assoc(old(wbuf.unread), slice, s.written);
        pending := chunk;
      }
    }

    /** The flushing half of a `fill_wb` iteration: writes the pending slice, or as much as fits. */
    method FlushPending() returns (flushed: bool)
      requires wbuf.Valid()
      modifies this`pending, wbuf`last, wbuf`unread, wbuf.buf
      ensures wbuf.Valid()
      ensures flushed <==> |old(pending)| <= old(wbuf.WLeft())
      ensures flushed ==> pending == [] && wbuf.unread == old(wbuf.unread) + old(pending)
      ensures !flushed ==>
        var room := old(wbuf.WLeft());
        pending == old(pending)[room..] && wbuf.unread == old(wbuf.unread) + old(pending)[..room]
      ensures wbuf.WLeft() == if flushed then old(wbuf.WLeft()) - |old(pending)| else 0
    {
      if pending != [] {
        var n := wbuf.Write(pending);
        if n < |pending| {
          pending := pending[n..];
          return false;
        }
        pending := [];
      }
      flushed := true;
    }

    lemma AcceptedIsPrefix()
      requires Valid()
      ensures tls.accepted <= WireAll(submitted)
    {
      assert Stream(State())[..|tls.accepted|] == tls.accepted;
    }

    /** `ssl_write` on the unread part of the buffer, drained by what was accepted; a would-block
        starts the write watcher. */
    method SslWrite() returns (rv: int)
      requires Valid() && wbuf.unread != []
      modifies this`watching, tls, wbuf`pos, wbuf`unread
      ensures wbuf.Valid() && -1 <= rv
      ensures rv > 0 ==> rv <= old(wbuf.RLeft()) && State() == Next(old(State()), Accept(rv))
      ensures rv <= 0 ==> State() == old(State())
      ensures rv == 0 ==> watching && tls.retry == Some((wbuf.pos, wbuf.unread))
      ensures rv > 0 ==> watching == old(watching) && tls.retry == None
      ensures rv >= 0 ==> Valid()
      ensures tls.failed <==> rv < 0
      ensures tls.blocks == old(tls.blocks) + if rv == 0 then 1 else 0
    {
      rv := tls.Write(wbuf.pos, wbuf.buf[wbuf.pos..wbuf.last]);
      if rv == 0 {
        watching := true;
      } else if rv > 0 {
        NextConserves(old(State()), Accept(rv));
        var drained := wbuf.Drain(rv);
      }
    }

    method RefillBuffer() returns (ok: bool)
      requires Valid() && wbuf.unread == []
      modifies this`pending, this`queue, this`sourceFailed, wbuf, wbuf.buf
      ensures ok <==> !sourceFailed
      ensures ok ==> Valid() && State() == Next(old(State()), Refill)
      ensures ok && wbuf.unread == [] ==> pending == [] && (queue == [] || queue[0].Oversize())
    {
      hide Buffer.Valid, Filled, WireAll;
      RefillConserves(State());
      RefillStopsExactlyWhen(State());
      wbuf.Reset();
      ok := FillWb();
    }

    /** `write`. The result 0 means blocked with the watcher on, or stopped with the watcher off; -1
        means that TLS or nghttp2 failed, or that nothing is left and nghttp2 wants neither to read nor to
        write. `run` is the run of the specification it performed. */
    method Write() returns (rv: int, ghost run: seq<Event>)
      requires Valid()
      modifies this`pending, this`queue, this`watching, this`sourceFailed, this`wantsRead, this`wantsWrite
      modifies tls, wbuf, wbuf.buf
      ensures old(tls.accepted) <= tls.accepted <= WireAll(submitted)
      ensures rv == 0 || rv == -1
      ensures rv == -1 <==> tls.failed || sourceFailed || (wbuf.unread == [] && !wantsRead && !wantsWrite)
      ensures !tls.failed && !sourceFailed ==>
        && Valid() && Submissions(run) == []
        && IsRun(old(State()), run) && State() == After(old(State()), run)
      // blocked: a TLS write of this call would have blocked, and the same one will be retried
      ensures tls.blocks > old(tls.blocks) ==>
        rv == 0 && watching && wbuf.unread != [] && tls.retry == Some((wbuf.pos, wbuf.unread))
      // stopped: nothing is left but a frame that the whole buffer cannot hold
      ensures !tls.failed && !sourceFailed && tls.blocks == old(tls.blocks) ==>
        && !watching && wbuf.unread == [] && pending == []
        && (queue != [] ==> queue[0].Data? && 9 + |queue[0].payload| + queue[0].pad > 65536)
      ensures tls.blocks <= old(tls.blocks) + 1
    {
      hide Buffer.Valid, Filled, WireAll, IsRun, After, Submissions;
      var stopped;
      rv, run, stopped := Rounds();
      if !stopped {
        return;
      }
      var wantRead := WantRead();
      var wantWrite := WantWrite();
      if !wantRead && !wantWrite && wbuf.RLeft() == 0 {
        rv := -1;
      }
    }

    /** The loop. */
    method Rounds() returns (rv: int, ghost run: seq<Event>, stopped: bool)
      requires Valid()
      modifies this`pending, this`queue, this`watching, this`sourceFailed, tls, wbuf, wbuf.buf
      ensures old(tls.accepted) <= tls.accepted <= WireAll(submitted)
      ensures rv == 0 || rv == -1
      ensures rv == -1 <==> tls.failed || sourceFailed
      ensures rv == 0 ==>
        && Valid() && Submissions(run) == []
        && IsRun(old(State()), run) && State() == After(old(State()), run)
      ensures tls.blocks == old(tls.blocks) + if rv == 0 && !stopped then 1 else 0
      ensures rv == 0 && !stopped ==> watching && wbuf.unread != [] && tls.retry == Some((wbuf.pos, wbuf.unread))
      ensures stopped ==>
        && rv == 0 && !watching && wbuf.unread == [] && pending == []
        && (queue == [] || queue[0].Oversize())
    {
      hide Buffer.Valid, Filled, WireAll;
      run := [];
      stopped := false;
      ghost var s0 := State();
      AcceptedIsPrefix();
      while true
        invariant Valid() && tls.blocks == old(tls.blocks)
        invariant s0.accepted <= tls.accepted <= WireAll(submitted)
        invariant IsRun(s0, run) && State() == After(s0, run) && Submissions(run) == []
        decreases |WireAll(submitted)| - |tls.accepted|, if wbuf.unread == [] then 1 else 0
      {
        if wbuf.RLeft() > 0 {
          var n := SslWrite();
          if n <= 0 {
            return n, run, false;
          }
          RunSnoc(s0, run, Accept(n));
          AcceptedIsPrefix();
          run := run + [Accept(n)];
        } else {
          var ok := RefillBuffer();
          if !ok {
            return -1, run, false;
          }
          RunSnoc(s0, run, Refill);
          run := run + [Refill];
          if wbuf.RLeft() == 0 {
            watching := false;
            return 0, run, true;
          }
        }
      }
    }

    /** `nghttp2_session_want_read` and `nghttp2_session_want_write`. */
    method WantRead() returns (wants: bool)
      modifies this`wantsRead
      ensures wants == wantsRead
    {
      wants := *;
      wantsRead := wants;
    }

    method WantWrite() returns (wants: bool)
      modifies this`wantsWrite
      ensures wants == wantsWrite
    {
      wants := *;
      wantsWrite := wants;
    }
  }
}
