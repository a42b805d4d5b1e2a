/** The registry of event streams by channel (src/eventdispatcher.cc). A removed stream leaves an empty
    slot behind, which the next subscription of the channel takes. */
module EventDispatchers {
  import opened Options
  import opened Sequences
  import EventStreams

  // ----- the slots of one channel ---------------------------------------------------------

  type Slots<T> = seq<Option<T>>

  /** The subscriptions of a channel: a stream may hold several. */
  ghost function Live<T>(slots: Slots<T>): multiset<T> {
    if slots == [] then multiset{} else Held(slots[0]) + Live(slots[1..])
  }

  function Held<T>(slot: Option<T>): multiset<T> {
    match slot case None => multiset{} case Some(es) => multiset{es}
  }

  function Placed<T>(slots: Slots<T>, es: T): Slots<T> {
    if slots == [] then [Some(es)]
    else if slots[0].None? then [Some(es)] + slots[1..]
    else [slots[0]] + Placed(slots[1..], es)
  }

  function Cleared<T(==)>(slots: Slots<T>, es: T): (r: Slots<T>)
    ensures |r| == |slots|
  {
    seq(|slots|, i requires 0 <= i < |slots| => if slots[i] == Some(es) then None else slots[i])
  }

  /** Slots grow only when all of them are taken. */
  lemma {:induction false} PlacedAddsOne<T>(slots: Slots<T>, es: T)
    ensures Live(Placed(slots, es)) == Live(slots) + multiset{es}
    ensures |Live(slots)| <= |slots|
    ensures |Placed(slots, es)| == if |Live(slots)| == |slots| then |slots| + 1 else |slots|
  {
    if slots == [] {
      assert [Some(es)][1..] == [];
    } else {
      PlacedAddsOne(slots[1..], es);
      if slots[0].None? {
        assert ([Some(es)] + slots[1..])[1..] == slots[1..];
      } else {
        assert ([slots[0]] + Placed(slots[1..], es))[1..] == Placed(slots[1..], es);
      }
    }
  }

  lemma WithoutOne<T>(m: multiset<T>, n: multiset<T>, es: T)
    ensures (m + n)[es := 0] == m[es := 0] + n[es := 0]
  {
  }

  lemma {:induction false} ClearedRemovesAll<T>(slots: Slots<T>, es: T)
    ensures Live(Cleared(slots, es)) == Live(slots)[es := 0]
  {
    hide Cleared, Held;
    if slots == [] {
      assert Cleared(slots, es) == [];
    } else {
      ClearedStep(slots, es);
      ClearedRemovesAll(slots[1..], es);
      WithoutOne(Held(slots[0]), Live(slots[1..]), es);
    }
  }

  lemma ClearedStep<T>(slots: Slots<T>, es: T)
    requires slots != []
    ensures var r := Cleared(slots, es);
            r[1..] == Cleared(slots[1..], es) && Held(r[0]) == Held(slots[0])[es := 0]
  {
  }

  lemma {:induction false} LiveSnoc<T>(slots: Slots<T>, slot: Option<T>)
    ensures Live(slots + [slot]) == Live(slots) + Held(slot)
  {
    hide Held;
    if slots == [] {
      assert [slot][1..] == [] && slots + [slot] == [slot];
    } else {
      LiveSnoc(slots[1..], slot);
      assert (slots + [slot])[1..] == slots[1..] + [slot];
    }
  }

  lemma {:induction false} LiveExactlyTheSlots<T>(slots: Slots<T>, es: T)
    ensures Some(es) in slots <==> es in Live(slots)
  {
    if slots != [] {
      LiveExactlyTheSlots(slots[1..], es);
    }
  }

  // ----- the registry ---------------------------------------------------------------------

  type Registry<T> = map<string, Slots<T>>

  ghost function Subscriptions<T>(registry: Registry<T>, channel: string): multiset<T> {
    if channel in registry then Live(registry[channel]) else multiset{}
  }

  ghost function Length<T>(registry: Registry<T>, channel: string): nat {
    if channel in registry then |registry[channel]| else 0
  }

  function Subscribed<T>(registry: Registry<T>, channel: string, es: T): Registry<T> {
    registry[channel := Placed(if channel in registry then registry[channel] else [], es)]
  }

  function Removed<T(==)>(registry: Registry<T>, es: T): Registry<T> {
    map channel | channel in registry :: Cleared(registry[channel], es)
  }

  datatype Change<T> = Subscribe(channel: string, es: T) | Remove(es: T)

  ghost function After<T>(run: seq<Change<T>>): Registry<T> {
    if run == [] then map[]
    else
      var before := After(run[..|run| - 1]);
      match run[|run| - 1]
      case Subscribe(channel, es) => Subscribed(before, channel, es)
      case Remove(es) => Removed(before, es)
  }

  /** What a client expects: the subscriptions made and not removed since. */
  ghost function Expected<T>(run: seq<Change<T>>, channel: string): multiset<T> {
    if run == [] then multiset{}
    else
      var before := Expected(run[..|run| - 1], channel);
      match run[|run| - 1]
      case Subscribe(c, es) => if c == channel then before + multiset{es} else before
      case Remove(es) => before[es := 0]
  }

  /** The greatest number of subscriptions a channel has had at once. */
  ghost function Peak<T>(run: seq<Change<T>>, channel: string): nat {
    if run == [] then 0
    else
      var before := Peak(run[..|run| - 1], channel);
      var now := |Expected(run, channel)|;
      if now > before then now else before
  }

  /** Over every run the registry holds the expected subscriptions with multiplicity, in as many slots as
      the channel ever needed at once. */
  lemma {:induction false} RunMeans<T>(run: seq<Change<T>>, channel: string)
    ensures Subscriptions(After(run), channel) == Expected(run, channel)
    ensures Length(After(run), channel) == Peak(run, channel)
  {
    hide Live, Placed, Cleared;
    LiveOfNothing<T>();
    if run != [] {
      var before := After(run[..|run| - 1]);
      RunMeans(run[..|run| - 1], channel);
      var slots := if channel in before then before[channel] else [];
      match run[|run| - 1]
      case Subscribe(c, es) =>
        PlacedAddsOne(slots, es);
      case Remove(es) =>
        PlacedAddsOne(slots, es);
        ClearedRemovesAll(slots, es);
        RemovingShrinks(Live(slots), es);
    }
  }

  lemma LiveOfNothing<T>()
    ensures Live<T>([]) == multiset{}
  {
  }

  lemma RemovingShrinks<T>(m: multiset<T>, es: T)
    ensures |m[es := 0]| <= |m|
  {
    assert m == m[es := 0] + multiset{}[es := m[es]];
  }

  /** A removed stream occurs nowhere until it subscribes again. */
  lemma {:induction false} RemovedIsNowhere<T>(run: seq<Change<T>>, more: seq<Change<T>>, es: T, channel: string)
    requires forall k :: 0 <= k < |more| ==> !(more[k].Subscribe? && more[k].es == es)
    ensures var registry := After(run + [Remove(es)] + more);
            channel in registry ==> Some(es) !in registry[channel]
  {
    var all := run + [Remove(es)] + more;
    RunMeans(all, channel);
    NotExpected(run, more, es, channel);
    if channel in After(all) {
      LiveExactlyTheSlots(After(all)[channel], es);
    }
  }

  lemma {:induction false} NotExpected<T>(run: seq<Change<T>>, more: seq<Change<T>>, es: T, channel: string)
    requires forall k :: 0 <= k < |more| ==> !(more[k].Subscribe? && more[k].es == es)
    ensures es !in Expected(run + [Remove(es)] + more, channel)
  {
    var all := run + [Remove(es)] + more;
    if more == [] {
      assert all[..|all| - 1] == run;
    } else {
      var most := more[..|more| - 1];
      NotExpected(run, most, es, channel);
      assert all[..|all| - 1] == run + [Remove(es)] + most;
    }
  }

  // ----- publishing -----------------------------------------------------------------------

  /** A stream after n submissions of an event. */
  ghost function Submitted(s: EventStreams.Stream, ev: EventStreams.Event, n: nat): (r: EventStreams.Stream)
    requires !s.broken
    ensures !r.broken
  {
    if n == 0 then s else EventStreams.Next(Submitted(s, ev, n - 1), EventStreams.Submit(ev))
  }

  /** The event is queued once per subscription, behind what was queued, and a reader that nghttp2 had
      deferred is resumed. */
  lemma {:induction false} SubmittedQueues(s: EventStreams.Stream, ev: EventStreams.Event, n: nat)
    requires !s.broken && EventStreams.Invariant(s)
    ensures var r := Submitted(s, ev, n);
            && r.queue == s.queue + seq(n, _ => ev)
            && EventStreams.Invariant(r)
            && (n > 0 ==> !r.paused && !r.deferred)
  {
    if n > 0 {
      SubmittedQueues(s, ev, n - 1);
      EventStreams.NextKeeps(Submitted(s, ev, n - 1), EventStreams.Submit(ev));
    }
  }

  /** The loop of `suscribe` over the slots of a known channel. */
  method Place<T>(slots: Slots<T>, es: T) returns (r: Slots<T>)
    ensures r == Placed(slots, es)
  {
    hide Placed;
    assert slots[0..] == slots;
    for i := 0 to |slots|
      invariant Placed(slots, es) == slots[..i] + Placed(slots[i..], es)
    {
      PlacedStep(slots, i, es);
      if slots[i].None? {
        return slots[i := Some(es)];
      }
      Assoc(slots[..i], [slots[i]], Placed(slots[i + 1..], es));
      assert slots[..i + 1] == slots[..i] + [slots[i]];
    }
    PlacedAtEnd(es);
    assert slots[|slots|..] == [];
    r := slots + [Some(es)];
  }

  lemma PlacedStep<T>(slots: Slots<T>, i: nat, es: T)
    requires i < |slots|
    ensures Placed(slots[i..], es) ==
            if slots[i].None? then [Some(es)] + slots[i + 1..] else [slots[i]] + Placed(slots[i + 1..], es)
  {
    assert slots[i..][1..] == slots[i + 1..];
  }

  lemma PlacedAtEnd<T>(es: T)
    ensures Placed([], es) == [Some(es)]
  {
  }

  class EventDispatcher {
    var registry: Registry<EventStreams.EventStream>

    constructor ()
      ensures registry == After([])
    {
      registry := map[];
    }

    /** `suscribe`. */
    method Subscribe(channel: string, es: EventStreams.EventStream)
      modifies this
      ensures registry == Subscribed(old(registry), channel, es)
    {
      if channel in registry {
        var slots := Place(registry[channel], es);
        registry := registry[channel := slots];
      } else {
        registry := registry[channel := [Some(es)]];
      }
    }

    method Remove(es: EventStreams.EventStream)
      modifies this
      ensures registry == Removed(old(registry), es)
    {
      var channels := registry.Keys;
      while channels != {}
        invariant channels <= registry.Keys == old(registry.Keys)
        invariant forall c :: c in registry ==>
          registry[c] == if c in channels then old(registry)[c] else Cleared(old(registry)[c], es)
      {
        var channel :| channel in channels;
        channels := channels - {channel};
        var slots := registry[channel];
        for i := 0 to |slots|
          invariant |slots| == |registry[channel]|
          invariant forall k :: 0 <= k < |slots| ==>
            slots[k] == if k < i then Cleared(registry[channel], es)[k] else registry[channel][k]
        {
          if slots[i] == Some(es) {
            slots := slots[i := None];
          }
        }
        assert slots == Cleared(registry[channel], es);
        registry := registry[channel := slots];
      }
    }

    /** Every subscription of the channel gets the event. */
    method Publish(channel: string, ev: EventStreams.Event)
      requires forall es :: es in Subscriptions(registry, channel) ==> !es.broken
      modifies set es | es in Subscriptions(registry, channel)
      ensures channel in registry ==>
                var slots := registry[channel];
                forall i :: 0 <= i < |slots| && slots[i].Some? ==>
                  var es := slots[i].value;
                  !old(es.broken) && es.State() == Submitted(old(es.State()), ev, Live(slots)[es])
    {
      if channel in registry {
        var slots := registry[channel];
        forall i | 0 <= i < |slots| && slots[i].Some?
          ensures slots[i].value in Live(slots) && !slots[i].value.broken
        {
          LiveExactlyTheSlots(slots, slots[i].value);
        }
        PublishTo(slots, ev);
      }
    }
  }

  /** The loop of `publish`. */
  method PublishTo(slots: Slots<EventStreams.EventStream>, ev: EventStreams.Event)
    requires forall i :: 0 <= i < |slots| && slots[i].Some? ==> !slots[i].value.broken
    modifies set i | 0 <= i < |slots| && slots[i].Some? :: slots[i].value
    ensures forall i :: 0 <= i < |slots| && slots[i].Some? ==>
              var es := slots[i].value;
              !old(es.broken) && es.State() == Submitted(old(es.State()), ev, Live(slots)[es])
  {
    LiveOfNothing<EventStreams.EventStream>();
    hide Live, EventStreams.Next;
    for i := 0 to |slots|
      invariant forall k :: 0 <= k < |slots| && slots[k].Some? ==>
        !old(slots[k].value.broken)
        && slots[k].value.State() == Submitted(old(slots[k].value.State()), ev, Live(slots[..i])[slots[k].value])
    {
      assert slots[..i + 1] == slots[..i] + [slots[i]];
      LiveSnoc(slots[..i], slots[i]);
      if slots[i].Some? {
        var es := slots[i].value;
        assert Live(slots[..i + 1])[es] == Live(slots[..i])[es] + 1;
        es.Submit(ev);
        assert es.State() == Submitted(old(es.State()), ev, Live(slots[..i + 1])[es]);
      }
    }
    assert slots[..|slots|] == slots;
  }
}
