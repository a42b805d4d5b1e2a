/** Server-sent events over one HTTP/2 stream (src/eventstream.cc): events are serialised in pieces
    of whatever length nghttp2 asks for, and the stream is deferred while there is nothing to send. */
module EventStreams {
  import opened Sequences
  import opened Buffers

  datatype Event = Event(name: string, data: string)

  const S1 := "event: "
  const S2 := "data: "

  /** The text of an event up to its payload. */
  ghost function Prefix(ev: Event): (p: string)
    ensures |p| == |S1| + |ev.name| + |S2| + 1
  {
    S1 + ev.name + "\n" + S2
  }

  ghost function Text(ev: Event): (t: string)
    ensures |t| == |Prefix(ev)| + |ev.data| + 2
  {
    Prefix(ev) + ev.data + "\n\n"
  }

  ghost function TextAll(evs: seq<Event>): string {
    if evs == [] then "" else Text(evs[0]) + TextAll(evs[1..])
  }

  lemma {:induction false} TextAllSnoc(evs: seq<Event>, ev: Event)
    ensures TextAll(evs + [ev]) == TextAll(evs) + Text(ev)
  {
    if evs == [] {
      assert evs + [ev] == [ev];
      assert TextAll([ev]) == Text(ev) + TextAll([ev][1..]);
    } else {
      TextAllSnoc(evs[1..], ev);
      assert (evs + [ev])[1..] == evs[1..] + [ev];
    }
  }

  // ----- one piece ------------------------------------------------------------------------

  /** `send` slices the payload at `pos - |Prefix|` once the prefix is out: `std::string_view::substr`
      throws when that is negative or beyond the payload. So a piece of n octets from position p is
      written exactly when it reaches the end of the prefix and does not begin between the two final
      newlines. */
  predicate SafeCut(ev: Event, p: nat, n: nat) {
    var pre := |S1| + |ev.name| + |S2| + 1;
    p + n >= pre && p <= pre + |ev.data|
  }

  /** The position after the prefix part of a piece. */
  ghost function AfterPrefix(ev: Event, p: nat, n: nat): nat {
    var pre := |Prefix(ev)|;
    if p >= pre then p else if p + n < pre then p + n else pre
  }

  /** How far `send` gets: all the way, or to where the slice throws. */
  ghost function Reached(ev: Event, p: nat, n: nat): nat {
    if SafeCut(ev, p, n) then p + n else AfterPrefix(ev, p, n)
  }

  /** `std::string_view::substr` in range. */
  function Substr(s: string, p: nat, n: nat): (r: string)
    requires p <= |s|
    ensures |r| == if n <= |s| - p then n else |s| - p
  {
    if n <= |s| - p then s[p..p + n] else s[p..]
  }

  lemma TextParts(ev: Event)
    ensures var (t, pre) := (Text(ev), |Prefix(ev)|);
            && t[..pre] == Prefix(ev) && t[pre..pre + |ev.data|] == ev.data && t[pre + |ev.data|..] == "\n\n"
  {
  }

  /** A part of a concatenation. */
  lemma PartOf(a: string, b: string, c: string, p: nat, q: nat)
    requires |a| <= p <= q <= |a| + |b|
    ensures (a + b + c)[p..q] == b[p - |a|..q - |a|]
  {
  }

  lemma Glue(t: string, a: nat, b: nat, c: nat)
    requires a <= b <= c <= |t|
    ensures t[a..b] + t[b..c] == t[a..c]
  {
  }

  /** What one turn of the prefix loop writes: it never crosses from one part into the next. */
  function PrefixPiece(ev: Event, pos: nat, n: nat): (s: string)
    requires n > 0 && pos < |S1| + |ev.name| + |S2| + 1
    ensures 0 < |s| <= n && pos + |s| <= |S1| + |ev.name| + |S2| + 1
  {
    var (l1, nl) := (|S1|, |ev.name|);
    if pos < l1 then Substr(S1, pos, n)
    else if pos < l1 + nl then Substr(ev.name, pos - l1, n)
    else if pos == l1 + nl then "\n"
    else Substr(S2, pos - (l1 + nl + 1), n)
  }

  lemma PieceOfPrefix(ev: Event, pos: nat, n: nat)
    requires n > 0 && pos < |S1| + |ev.name| + |S2| + 1
    ensures var s := PrefixPiece(ev, pos, n); s == Prefix(ev)[pos..pos + |s|]
  {
    hide Prefix, Substr;
    var (l1, nl) := (|S1|, |ev.name|);
    PrefixForms(ev);
    if pos < l1 {
      PieceIn("", S1, ev.name + "\n" + S2, pos, n);
    } else if pos < l1 + nl {
      PieceIn(S1, ev.name, "\n" + S2, pos, n);
    } else if pos == l1 + nl {
      PartOf(S1 + ev.name, "\n", S2, pos, pos + 1);
    } else {
      PieceIn(S1 + ev.name + "\n", S2, "", pos, n);
    }
  }

  lemma PieceIn(a: string, b: string, c: string, pos: nat, n: nat)
    requires |a| <= pos <= |a| + |b|
    ensures var s := Substr(b, pos - |a|, n); s == (a + b + c)[pos..pos + |s|]
  {
    PartOf(a, b, c, pos, pos + |Substr(b, pos - |a|, n)|);
  }

  lemma PrefixForms(ev: Event)
    ensures Prefix(ev) == "" + S1 + (ev.name + "\n" + S2)
    ensures Prefix(ev) == S1 + ev.name + ("\n" + S2)
    ensures Prefix(ev) == S1 + ev.name + "\n" + S2 + ""
  {
  }

  lemma PieceOfText(ev: Event, pos: nat, n: nat)
    requires n > 0 && pos < |S1| + |ev.name| + |S2| + 1
    ensures var s := PrefixPiece(ev, pos, n); s == Text(ev)[pos..pos + |s|]
  {
    var s := PrefixPiece(ev, pos, n);
    PieceOfPrefix(ev, pos, n);
    PartOf("", Prefix(ev), ev.data + "\n\n", pos, pos + |s|);
    assert "" + Prefix(ev) + (ev.data + "\n\n") == Text(ev);
  }

  lemma TailOfText(ev: Event, pos: nat, n: nat)
    requires |Prefix(ev)| <= pos <= |Prefix(ev)| + |ev.data| && pos + n <= |Text(ev)|
    ensures var s := Substr(ev.data, pos - |Prefix(ev)|, n);
            s + seq(n - |s|, _ => '\n') == Text(ev)[pos..pos + n]
  {
    hide Prefix;
    var (t, s) := (Text(ev), Substr(ev.data, pos - |Prefix(ev)|, n));
    PieceIn(Prefix(ev), ev.data, "\n\n", pos, n);
    Glue(t, pos, pos + |s|, pos + n);
    TextParts(ev);
    var (head, tail) := (|Prefix(ev)| + |ev.data|, t[pos + |s|..pos + n]);
    forall k | 0 <= k < |tail|
      ensures tail[k] == '\n'
    {
      assert tail[k] == t[head..][pos + |s| + k - head];
    }
    assert tail == seq(n - |s|, _ => '\n');
  }

  /** Events queued, and the position in the first. */
  class EventStream {
    var queue: seq<Event>
    var pos: nat
    var paused: bool
    /** nghttp2's side: the stream is deferred; the length of the DATA frame it has been promised. */
    var deferred: bool
    var promised: nat
    var broken: bool

    ghost function State(): Stream
      reads this
    {
      Stream(queue, pos, paused, deferred, promised, broken)
    }

    constructor ()
      ensures State() == START
    {
      queue, pos, paused, deferred, promised, broken := [], 0, false, false, 0, false;
    }

    function Length(): nat
      reads this
    {
      if queue == [] then 0 else |queue[0].name| + |queue[0].data| + |S1| + |S2| + 3
    }

    method WritePrefix(wb: Buffer<char>, ev: Event)
      requires wb.Valid() && |Prefix(ev)| <= wb.WLeft()
      modifies wb`last, wb`unread, wb.buf
      ensures wb.Valid() && wb.unread == old(wb.unread) + Prefix(ev)
      ensures wb.WLeft() == old(wb.WLeft()) - |Prefix(ev)|
    {
      hide Buffer.Valid;
      wb.WriteFull(S1);
      wb.WriteFull(ev.name);
      wb.WriteFull("\n");
      wb.WriteFull(S2);
      Assoc(old(wb.unread), S1, ev.name);
      Assoc(old(wb.unread), S1 + ev.name, "\n");
      Assoc(old(wb.unread), S1 + ev.name + "\n", S2);
    }

    /** The prefix part of `send`: at once if it fits whole, else resumable at any octet. */
    method SendPrefix(wb: Buffer<char>, wlen: nat)
      requires wb.Valid() && wlen <= wb.WLeft()
      requires queue != [] && pos + wlen <= |Text(queue[0])|
      modifies this`pos, wb`last, wb`unread, wb.buf
      ensures wb.Valid() && wb.WLeft() == old(wb.WLeft()) - (pos - old(pos))
      ensures pos == AfterPrefix(queue[0], old(pos), wlen)
      ensures wb.unread == old(wb.unread) + Text(queue[0])[old(pos)..pos]
    {
      var ev := queue[0];
      var extPre := |S1| + |ev.name| + |S2| + 1;
      if pos == 0 && wlen >= extPre {
        WritePrefix(wb, ev);
        pos := pos + extPre;
        TextParts(ev);
      } else {
        WritePieces(wb, ev, extPre, wlen);
      }
    }

    method WritePieces(wb: Buffer<char>, ev: Event, extPre: nat, wlen: nat)
      requires wb.Valid() && wlen <= wb.WLeft()
      requires extPre == |Prefix(ev)| && pos + wlen <= |Text(ev)|
      modifies this`pos, wb`last, wb`unread, wb.buf
      ensures wb.Valid() && wb.WLeft() == old(wb.WLeft()) - (pos - old(pos))
      ensures pos == AfterPrefix(ev, old(pos), wlen)
      ensures wb.unread == old(wb.unread) + Text(ev)[old(pos)..pos]
    {
      hide Text, Prefix, PrefixPiece, Buffer.Valid;
      var toWrite: nat := wlen;
      while toWrite != 0 && pos < extPre
        invariant wb.Valid() && wb.WLeft() == old(wb.WLeft()) - (pos - old(pos))
        invariant toWrite == wlen - (pos - old(pos)) && old(pos) <= pos
        invariant old(pos) < extPre ==> pos <= extPre
        invariant old(pos) >= extPre ==> pos == old(pos)
        invariant wb.unread == old(wb.unread) + Text(ev)[old(pos)..pos]
        decreases toWrite
      {
        var s := PrefixPiece(ev, pos, toWrite);
        PieceOfText(ev, pos, toWrite);
        Glue(Text(ev), old(pos), pos, pos + |s|);
        Assoc(old(wb.unread), Text(ev)[old(pos)..pos], s);
        wb.WriteFull(s);
        pos := pos + |s|;
        toWrite := toWrite - |s|;
      }
    }

    /** `send`: prefix, payload slice, newlines. Returns false where the slice throws. */
    method Send(wb: Buffer<char>, wlen: nat) returns (ok: bool)
      requires wb.Valid() && wlen <= wb.WLeft() && !broken
      requires queue != [] && pos + wlen <= |Text(queue[0])|
      modifies this`queue, this`pos, this`broken, wb`last, wb`unread, wb.buf
      ensures wb.Valid()
      ensures ok == SafeCut(old(queue)[0], old(pos), wlen) == !broken
      ensures var ev := old(queue)[0];
              wb.unread == old(wb.unread) + Text(ev)[old(pos)..Reached(ev, old(pos), wlen)]
      ensures State().(promised := 0) == Sent(old(State()), wlen)
    {
      hide Text, Buffer.Valid;
      var p := pos;
      var ev := queue[0];
      var extPre := |S1| + |ev.name| + |S2| + 1;
      var len := extPre + |ev.data| + 2;
      SendPrefix(wb, wlen);
      var toWrite := wlen - (pos - p);
      if pos < extPre || pos - extPre > |ev.data| {
        broken := true;
        return false;
      }
      WriteTail(wb, ev, toWrite);
      Assoc(old(wb.unread), Text(ev)[p..AfterPrefix(ev, p, wlen)], Text(ev)[AfterPrefix(ev, p, wlen)..p + wlen]);
      Glue(Text(ev), p, AfterPrefix(ev, p, wlen), p + wlen);
      if pos >= len {
        queue := queue[1..];
        pos := 0;
      }
      ok := true;
    }

    /** The payload slice, and newlines for what is left over. */
    method WriteTail(wb: Buffer<char>, ev: Event, wlen: nat)
      requires wb.Valid() && wlen <= wb.WLeft()
      requires |Prefix(ev)| <= pos <= |Prefix(ev)| + |ev.data| && pos + wlen <= |Text(ev)|
      modifies this`pos, wb`last, wb`unread, wb.buf
      ensures wb.Valid() && pos == old(pos) + wlen
      ensures wb.unread == old(wb.unread) + Text(ev)[old(pos)..pos]
    {
      hide Text, Prefix, Buffer.Valid;
      var extPre := |S1| + |ev.name| + |S2| + 1;
      TailOfText(ev, pos, wlen);
      var s := Substr(ev.data, pos - extPre, wlen);
      wb.WriteFull(s);
      pos := pos + |s|;
      var toWrite: nat := wlen - |s|;
      ghost var n := toWrite;
      while toWrite != 0
        invariant toWrite <= n && pos == old(pos) + |s| + (n - toWrite)
        invariant wb.Valid() && wb.WLeft() >= toWrite
        invariant wb.unread == old(wb.unread) + s + seq(n - toWrite, _ => '\n')
        decreases toWrite
      {
        toWrite := toWrite - 1;
        wb.WriteByte('\n');
        pos := pos + 1;
      }
      Assoc(old(wb.unread), s, seq(n, _ => '\n'));
    }

    /** Both `submit` overloads: queue the event; if nghttp2 had deferred the stream, resume it. */
    method Submit(ev: Event)
      requires !broken
      modifies this
      ensures State() == Next(old(State()), Action.Submit(ev))
      ensures queue == old(queue) + [ev] && !paused && promised == old(promised)
      ensures pos == if old(paused) then 0 else old(pos)
      ensures deferred == (old(deferred) && !old(paused))
    {
      queue := queue + [ev];
      if paused {
        deferred := false;
        pos := 0;
        paused := false;
      }
    }

    /** `length` and `data_read_cb`: pause on an empty queue, else promise what fits. */
    method DataRead(limit: nat)
      requires Invariant(State()) && Enabled(State(), Ask(limit))
      modifies this
      ensures State() == Next(old(State()), Ask(limit))
      ensures queue == old(queue) && pos == old(pos)
      ensures queue == [] ==> paused && deferred && promised == 0
      ensures queue != [] ==>
        var left := 7 + |queue[0].name| + 1 + 6 + |queue[0].data| + 2 - pos;
        !paused && !deferred && promised == if left < limit then left else limit
    {
      if queue == [] {
        paused := true;
      }
      var left := Length() - pos;
      if left <= 0 {
        deferred := true;
      } else {
        promised := if left < limit then left else limit;
      }
    }

    /** `send_data_cb` with room for the promised frame. */
    method Give(wb: Buffer<char>)
      requires Invariant(State()) && Enabled(State(), Action.Give)
      requires wb.Valid() && promised <= wb.WLeft()
      modifies this, wb`last, wb`unread, wb.buf
      ensures wb.Valid() && Invariant(State())
      ensures State() == Next(old(State()), Action.Give)
      ensures wb.unread == old(wb.unread) + Output(old(State()), Action.Give)
      ensures !broken ==>
        && wb.unread == old(wb.unread) + Text(old(queue)[0])[old(pos)..old(pos) + old(promised)]
        && if old(pos) + old(promised) == |Text(old(queue)[0])|
           then queue == old(queue)[1..] && pos == 0
           else queue == old(queue) && pos == old(pos) + old(promised)
    {
      NextKeeps(State(), Action.Give);
      var ok := Send(wb, promised);
      promised := 0;
    }
  }

  // ----- the stream as a state machine ----------------------------------------------------

  /** nghttp2's view included: whether it has deferred the stream, and the length of the DATA frame
      it has been promised and not yet been given (0 for none). `broken`: the slice has thrown. */
  datatype Stream = Stream(queue: seq<Event>, pos: nat, paused: bool, deferred: bool, promised: nat, broken: bool)

  const START := Stream([], 0, false, false, 0, false)

  /** `Submit`: an event arrives. `Ask(limit)`: nghttp2 calls `data_read_cb` for at most `limit`
      octets. `Give`: `send_data_cb` runs `send` for the promised frame. A would-block is no step. */
  datatype Action = Submit(event: Event) | Ask(limit: nat) | Give

  /** The text still to be sent. */
  ghost function Rest(s: Stream): string {
    if s.queue == [] then ""
    else Text(s.queue[0])[if s.pos <= |Text(s.queue[0])| then s.pos else 0..] + TextAll(s.queue[1..])
  }

  ghost predicate Invariant(s: Stream) {
    && s.deferred == s.paused
    && (s.paused ==> s.queue == [] && s.pos == 0 && s.promised == 0)
    && (s.queue == [] ==> s.pos == 0 && s.promised == 0)
    && (s.queue != [] && !s.broken ==> s.pos < |Text(s.queue[0])|)
    && (s.queue != [] ==> s.pos + (if s.broken then 0 else s.promised) <= |Text(s.queue[0])|)
  }

  ghost predicate Enabled(s: Stream, a: Action) {
    && !s.broken
    && match a
       case Submit(_) => true
       case Ask(limit) => limit > 0 && !s.deferred && s.promised == 0
       case Give => s.promised > 0
  }

  ghost function Next(s: Stream, a: Action): Stream
    requires Enabled(s, a)
  {
    match a
    case Submit(event) =>
      if s.paused then s.(queue := s.queue + [event], pos := 0, paused := false, deferred := false)
      else s.(queue := s.queue + [event])
    case Ask(limit) =>
      if s.queue == [] then s.(paused := true, deferred := true)
      else
        var left := |Text(s.queue[0])| - s.pos;
        if left <= 0 then s.(deferred := true)
        else s.(promised := if left < limit then left else limit)
    case Give =>
      if s.queue == [] then s.(promised := 0)
      else Sent(s, s.promised)
  }

  /** `send` on a non-empty queue: an event written to its end is popped. */
  ghost function Sent(s: Stream, n: nat): Stream
    requires s.queue != []
  {
    var ev := s.queue[0];
    var p := Reached(ev, s.pos, n);
    if !SafeCut(ev, s.pos, n) then s.(pos := p, promised := 0, broken := true)
    else if p >= |Text(ev)| then s.(queue := s.queue[1..], pos := 0, promised := 0)
    else s.(pos := p, promised := 0)
  }

  /** What a step writes. */
  ghost function Output(s: Stream, a: Action): string
    requires Enabled(s, a)
  {
    if a.Give? && s.queue != [] && s.pos + s.promised <= |Text(s.queue[0])|
    then Text(s.queue[0])[s.pos..Reached(s.queue[0], s.pos, s.promised)] else ""
  }

  lemma NextKeeps(s: Stream, a: Action)
    requires Invariant(s) && Enabled(s, a)
    ensures Invariant(Next(s, a))
  {
    hide Text;
  }

  lemma SubmitConserves(s: Stream, ev: Event)
    requires Invariant(s) && Enabled(s, Submit(ev))
    ensures Rest(Next(s, Submit(ev))) == Rest(s) + Text(ev)
  {
    hide Text;
    if s.queue == [] {
      assert TextAll(([] + [ev])[1..]) == "";
    } else {
      TextAllSnoc(s.queue[1..], ev);
      assert (s.queue + [ev])[1..] == s.queue[1..] + [ev];
      Assoc(Text(s.queue[0])[s.pos..], TextAll(s.queue[1..]), Text(ev));
    }
  }

  lemma GiveConserves(s: Stream)
    requires Invariant(s) && Enabled(s, Give)
    ensures Output(s, Give) + Rest(Next(s, Give)) == Rest(s)
  {
    hide Text;
    var ev := s.queue[0];
    var p := Reached(ev, s.pos, s.promised);
    Assoc(Text(ev)[s.pos..p], Text(ev)[p..], TextAll(s.queue[1..]));
    assert Text(ev)[s.pos..p] + Text(ev)[p..] == Text(ev)[s.pos..];
    if p == |Text(ev)| && SafeCut(ev, s.pos, s.promised) {
      assert Text(ev)[p..] == "";
      var rest := s.queue[1..];
      if rest != [] {
        assert Text(rest[0])[0..] == Text(rest[0]);
      }
    }
  }

  lemma NextConserves(s: Stream, a: Action)
    requires Invariant(s) && Enabled(s, a)
    ensures Output(s, a) + Rest(Next(s, a)) == Rest(s) + if a.Submit? then Text(a.event) else ""
  {
    hide Text, TextAll;
    match a
    case Submit(ev) => SubmitConserves(s, ev);
    case Ask(_) =>
    case Give => GiveConserves(s);
  }

  ghost predicate IsRun(s: Stream, run: seq<Action>)
    decreases |run|
  {
    run == [] || (Enabled(s, run[0]) && IsRun(Next(s, run[0]), run[1..]))
  }

  ghost function After(s: Stream, run: seq<Action>): Stream
    requires IsRun(s, run)
    decreases |run|
  {
    if run == [] then s else After(Next(s, run[0]), run[1..])
  }

  ghost function Written(s: Stream, run: seq<Action>): string
    requires IsRun(s, run)
    decreases |run|
  {
    if run == [] then "" else Output(s, run[0]) + Written(Next(s, run[0]), run[1..])
  }

  ghost function Submitted(run: seq<Action>): seq<Event> {
    if run == [] then [] else (if run[0].Submit? then [run[0].event] else []) + Submitted(run[1..])
  }

  lemma {:induction false} RunConserves(s: Stream, run: seq<Action>)
    requires Invariant(s) && IsRun(s, run)
    ensures Invariant(After(s, run))
    ensures Written(s, run) + Rest(After(s, run)) == Rest(s) + TextAll(Submitted(run))
    decreases |run|
  {
    hide Text, Rest, Invariant, Next, Output;
    if run == [] {
      assert TextAll([]) == "";
    } else {
      var a, t, more := run[0], Next(s, run[0]), Submitted(run[1..]);
      NextKeeps(s, a);
      NextConserves(s, a);
      RunConserves(t, run[1..]);
      Assoc(Output(s, a), Written(t, run[1..]), Rest(After(t, run[1..])));
      Assoc(Output(s, a), Rest(t), TextAll(more));
      if a.Submit? {
        Assoc(Rest(s), Text(a.event), TextAll(more));
        assert ([a.event] + more)[1..] == more;
      } else {
        assert [] + more == more;
        assert Rest(s) + "" == Rest(s);
      }
    }
  }

  /** For every interleaving and every way nghttp2 cuts the stream: what is written is always a
      prefix of the submitted events in order, and all of them once the queue is empty; the stream is
      deferred exactly when it is paused, and then nothing waits; a promised length never reaches
      past the event at the front. */
  lemma EveryRun(run: seq<Action>)
    requires IsRun(START, run)
    ensures var (s, all) := (After(START, run), TextAll(Submitted(run)));
            && Written(START, run) <= all
            && (s.queue == [] ==> Written(START, run) == all)
            && s.deferred == s.paused
            && (s.deferred ==> s.queue == [] && s.pos == 0 && Written(START, run) == all)
            && (s.promised > 0 && !s.broken ==> s.queue != [] && s.pos + s.promised <= |Text(s.queue[0])|)
  {
    RunConserves(START, run);
    assert Written(START, run) + Rest(After(START, run)) == TextAll(Submitted(run));
  }

  /** The three-octet first piece of the keep-alive event ends inside the prefix, so `send` throws. */
  lemma ShortFirstPieceBreaks()
    ensures var run := [Submit(Event("ping", "Hello!")), Ask(3), Give];
            IsRun(START, run) && After(START, run).broken && Written(START, run) == "eve"
  {
    var e := Event("ping", "Hello!");
    var s1 := Next(START, Submit(e));
    var s2 := Next(s1, Ask(3));
    assert s2.promised == 3 && s2.queue == [e] && Enabled(s2, Give);
    var run := [Submit(e), Ask(3), Give];
    assert run[1..] == [Ask(3), Give] && run[1..][1..] == [Give] && [Give][1..] == [];
    assert Text(e)[0..3] == "eve";
    assert Output(s2, Give) == "eve";
    assert IsRun(s2, [Give]) && IsRun(s1, [Ask(3), Give]);
    assert Written(s2, [Give]) == "eve";
  }

  /** Pieces that take in a whole event never throw. */
  lemma WholeEventsAreSafe(s: Stream, limit: nat)
    requires Invariant(s) && !s.broken && s.queue != [] && s.pos == 0
    requires Enabled(s, Ask(limit)) && limit >= |Text(s.queue[0])|
    ensures var t := Next(s, Ask(limit));
            Enabled(t, Give) && !Next(t, Give).broken && Next(t, Give).queue == s.queue[1..]
  {
  }
}
