/** Which ways of cutting an event into pieces make `send` throw (src/eventstream.cc). */
module EventCuts {
  import opened EventStreams

  function Sum(pieces: seq<nat>): nat {
    if pieces == [] then 0 else pieces[0] + Sum(pieces[1..])
  }

  /** nghttp2 asks for an event in these pieces, and each is given. */
  ghost function AskedIn(pieces: seq<nat>): seq<Action> {
    if pieces == [] then [] else [Ask(pieces[0]), Give] + AskedIn(pieces[1..])
  }

  /** The pieces can all be sent. */
  ghost predicate Sendable(s: Stream, pieces: seq<nat>) {
    IsRun(s, AskedIn(pieces)) && !After(s, AskedIn(pieces)).broken
  }

  ghost predicate SafeFrom(ev: Event, p: nat, pieces: seq<nat>)
    decreases |pieces|
  {
    pieces == [] || (SafeCut(ev, p, pieces[0]) && SafeFrom(ev, p + pieces[0], pieces[1..]))
  }

  /** An event at its beginning, or between two pieces. */
  ghost predicate Sending(s: Stream) {
    Invariant(s) && !s.broken && s.queue != [] && s.promised == 0
  }

  lemma OnePiece(s: Stream, n: nat)
    requires Sending(s) && n > 0 && s.pos + n <= |Text(s.queue[0])|
    ensures Enabled(s, Ask(n)) && Enabled(Next(s, Ask(n)), Give)
    ensures var (ev, t) := (s.queue[0], Next(Next(s, Ask(n)), Give));
            && (t.broken <==> !SafeCut(ev, s.pos, n))
            && (!t.broken && s.pos + n < |Text(ev)| ==> t == s.(pos := s.pos + n) && Sending(t))
            && (!t.broken && s.pos + n == |Text(ev)| ==> t == s.(pos := 0, queue := s.queue[1..]))
  {
    hide Text;
    NextKeeps(s, Ask(n));
    NextKeeps(Next(s, Ask(n)), Give);
  }

  lemma TwoActions(s: Stream, n: nat, rest: seq<Action>)
    requires Enabled(s, Ask(n)) && Enabled(Next(s, Ask(n)), Give)
    ensures var t := Next(Next(s, Ask(n)), Give);
            && (IsRun(s, [Ask(n), Give] + rest) <==> IsRun(t, rest))
            && (IsRun(t, rest) ==> After(s, [Ask(n), Give] + rest) == After(t, rest))
  {
    hide Next, Enabled;
    var run := [Ask(n), Give] + rest;
    assert run[1..] == [Give] + rest && run[1..][1..] == rest;
  }

  lemma SendingIsInside(s: Stream)
    requires Sending(s)
    ensures s.queue != [] && s.pos < |Text(s.queue[0])| && !s.broken
  {
    hide Text;
  }

  lemma {:induction false} SendableStepByStep(s: Stream, pieces: seq<nat>)
    requires Sending(s) && (forall i :: 0 <= i < |pieces| ==> pieces[i] > 0)
    requires s.pos + Sum(pieces) <= |Text(s.queue[0])|
    ensures Sendable(s, pieces) <==> SafeFrom(s.queue[0], s.pos, pieces)
    ensures Sendable(s, pieces) && s.pos + Sum(pieces) == |Text(s.queue[0])| ==>
              After(s, AskedIn(pieces)) == s.(pos := 0, queue := s.queue[1..])
    decreases |pieces|
  {
    hide Text, SafeCut, Next, Enabled, Sending;
    SendingIsInside(s);
    if pieces != [] {
      var (n, more) := (pieces[0], pieces[1..]);
      OnePiece(s, n);
      var t := Next(Next(s, Ask(n)), Give);
      TwoActions(s, n, AskedIn(more));
      if !t.broken && s.pos + n < |Text(s.queue[0])| {
        SendableStepByStep(t, more);
      } else {
        Finished(t, more);
      }
    }
  }

  /** Nothing more is asked of a stream that has thrown, nor of an event that is complete. */
  lemma Finished(t: Stream, more: seq<nat>)
    ensures t.broken ==> !Sendable(t, more)
    ensures more == [] && !t.broken ==> Sendable(t, more) && After(t, AskedIn(more)) == t
  {
  }

  lemma {:induction false} SumOfPositives(pieces: seq<nat>, i: nat)
    requires i < |pieces| && forall k :: 0 <= k < |pieces| ==> pieces[k] > 0
    ensures Sum(pieces[..i]) + pieces[i] <= Sum(pieces)
  {
    if i > 0 {
      SumOfPositives(pieces[1..], i - 1);
      assert pieces[..i][1..] == pieces[1..][..i - 1];
    }
  }

  /** The cuts are those after the first piece. */
  lemma CutsAfterTheFirst(pieces: seq<nat>, bad: int)
    requires pieces != []
    ensures (forall i {:trigger pieces[..i]} :: 0 < i < |pieces| ==> Sum(pieces[..i]) != bad) <==>
            (forall j {:trigger pieces[1..][..j]} :: 0 <= j < |pieces| - 1 ==>
               pieces[0] + Sum(pieces[1..][..j]) != bad)
  {
    var more := pieces[1..];
    forall j {:trigger more[..j]} | 0 <= j < |more|
      ensures Sum(pieces[..j + 1]) == pieces[0] + Sum(more[..j])
    {
      assert pieces[..j + 1][1..] == more[..j];
    }
    forall i {:trigger pieces[..i]} | 0 < i < |pieces|
      ensures Sum(pieces[..i]) == pieces[0] + Sum(more[..i - 1])
    {
      assert pieces[..i][1..] == more[..i - 1];
    }
    if i :| 0 < i < |pieces| && Sum(pieces[..i]) == bad {
      assert pieces[0] + Sum(more[..i - 1]) == bad;
    }
    if j :| 0 <= j < |more| && pieces[0] + Sum(more[..j]) == bad {
      assert Sum(pieces[..j + 1]) == bad;
    }
  }

  /** Past the prefix only a cut between the two final newlines hurts. */
  lemma {:induction false} SafeFromThePayload(ev: Event, p: nat, pieces: seq<nat>)
    requires |Prefix(ev)| <= p && p + Sum(pieces) <= |Text(ev)|
    requires forall k :: 0 <= k < |pieces| ==> pieces[k] > 0
    ensures SafeFrom(ev, p, pieces)
       <==> forall i {:trigger pieces[..i]} :: 0 <= i < |pieces| ==> p + Sum(pieces[..i]) != |Text(ev)| - 1
    decreases |pieces|
  {
    hide Text;
    if pieces != [] {
      var (n, more) := (pieces[0], pieces[1..]);
      SafeFromThePayload(ev, p + n, more);
      SumOfPositives(pieces, 0);
      assert pieces[..0] == [];
      CutsAfterTheFirst(pieces, |Text(ev)| - 1 - p);
    }
  }

  /** An event is sent in given pieces without a throw exactly if the first piece reaches the end of the
      prefix and no cut falls between the two final newlines; sent whole, it leaves the queue. */
  lemma NeverThrowsExactlyWhen(s: Stream, pieces: seq<nat>)
    requires Sending(s) && s.pos == 0 && pieces != []
    requires Sum(pieces) <= |Text(s.queue[0])| && forall i :: 0 <= i < |pieces| ==> pieces[i] > 0
    ensures var ev := s.queue[0];
            && (Sendable(s, pieces) <==>
                && pieces[0] >= |Prefix(ev)|
                && forall i {:trigger pieces[..i]} :: 0 < i < |pieces| ==> Sum(pieces[..i]) != |Text(ev)| - 1)
            && (Sendable(s, pieces) && Sum(pieces) == |Text(ev)| ==>
                  After(s, AskedIn(pieces)) == s.(queue := s.queue[1..]))
  {
    hide Text, Sendable, Sending;
    SendingIsInside(s);
    var (ev, n, more) := (s.queue[0], pieces[0], pieces[1..]);
    SendableStepByStep(s, pieces);
    SumOfPositives(pieces, 0);
    if n >= |Prefix(ev)| {
      SafeFromThePayload(ev, n, more);
      CutsAfterTheFirst(pieces, |Text(ev)| - 1);
    }
  }
}
