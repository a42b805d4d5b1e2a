/** Stream serials and the set of live streams of one worker thread (src/worker.cc). */
module Workers {

  const WIDTH: nat := 0x1_0000_0000_0000_0000

  /** The serial of the n-th stream of a worker: a 64-bit counter. */
  function Serial(n: nat): nat {
    n % WIDTH
  }

  /** Two streams of a worker share a serial exactly when the counter wrapped between them. */
  lemma SerialReusedExactlyWhen(i: nat, j: nat)
    requires i <= j
    ensures Serial(i) == Serial(j) <==> (j - i) % 0x1_0000_0000_0000_0000 == 0
  {
    assert i == i / WIDTH * WIDTH + Serial(i) && j == j / WIDTH * WIDTH + Serial(j);
    if (j - i) % WIDTH == 0 {
      var k := (j - i) / WIDTH;
      assert j == i + k * WIDTH;
      assert (i + k * WIDTH) % WIDTH == i % WIDTH by {
        ModAdd(i, k);
      }
    }
    if Serial(i) == Serial(j) {
      var k := j / WIDTH - i / WIDTH;
      assert j - i == k * WIDTH;
      ModAdd(0, k);
    }
  }

  /** Fewer than 2^64 streams never share one. */
  lemma SerialsDiffer(i: nat, j: nat)
    requires i < j < 0x1_0000_0000_0000_0000
    ensures Serial(i) == i && Serial(j) == j && Serial(i) != Serial(j)
  {
  }

  lemma {:induction false} ModAdd(i: nat, k: int)
    requires k >= 0
    ensures (i + k * WIDTH) % WIDTH == i % WIDTH
    decreases k
  {
    if k > 0 {
      ModAdd(i, k - 1);
      assert i + k * WIDTH == (i + (k - 1) * WIDTH) + WIDTH;
    }
  }

  class Worker {
    var next: nat
    var alive: set<nat>
    /** Streams ever added, and the serials of those removed. */
    ghost var added: nat
    ghost var dead: set<nat>

    /** Until the counter wraps no serial is handed out twice, so a dead stream stays dead. */
    ghost predicate Valid()
      reads this
    {
      && next == Serial(added)
      && (added <= WIDTH ==> 
           && (forall s :: s in alive ==> s !in dead)
           && (forall s :: s in alive || s in dead ==> s < added)
           && (forall s: nat :: s < added ==> s in alive || s in dead))
    }

    constructor ()
      ensures Valid() && alive == {} && dead == {} && added == 0
    {
      next, alive, added, dead := 0, {}, 0, {};
    }

    function IsStreamAlive(serial: nat): bool
      reads this
    {
      serial in alive
    }

    method AddStream() returns (serial: nat)
      requires Valid()
      modifies this
      ensures Valid()
      ensures serial == Serial(old(added)) && added == old(added) + 1
      ensures alive == old(alive) + {serial} && dead == old(dead)
      ensures added <= 0x1_0000_0000_0000_0000 ==> serial !in old(alive) + dead
    {
      serial := next;
      next := (next + 1) % WIDTH;
      alive := alive + {serial};
      added := added + 1;
    }

    method RemoveStream(serial: nat)
      requires Valid()
      modifies this`alive, this`dead
      ensures Valid()
      ensures alive == old(alive) - {serial}
      ensures dead == old(dead) + if serial in old(alive) then {serial} else {}
    {
      if serial in alive {
        dead := dead + {serial};
      }
      alive := alive - {serial};
    }
  }
}
