/** A first-come-first-served lock with shared and exclusive holders, as tokio's RwLock and Mutex are:
    a waiter is admitted only from the head of the queue. */
module FairLock {
  import opened Prelude

  /** A party to the lock. */
  type Who = int

  datatype Waiter = Waiter(who: Who, exclusive: bool)

  datatype Lock = Lock(owner: Option<Who>, sharers: set<Who>, queue: seq<Waiter>)

  /** Where a party stands with a lock. */
  datatype Standing = Away | WaitsShared | WaitsExclusive | Shares | Owns
  {
    predicate Holds() { Shares? || Owns? }
    predicate Waits() { WaitsShared? || WaitsExclusive? }
  }

  const FREE: Lock := Lock(None, {}, [])

  function StandingOf(l: Lock, w: Who): Standing {
    if l.owner == Some(w) then Owns
    else if w in l.sharers then Shares
    else if Waiter(w, true) in l.queue then WaitsExclusive
    else if Waiter(w, false) in l.queue then WaitsShared
    else Away
  }

  /** Exclusion, and nobody is in two places at once. */
  ghost predicate Sound(l: Lock) {
    && (l.owner.Some? ==> l.sharers == {})
    && (forall i, j :: 0 <= i < j < |l.queue| ==> l.queue[i].who != l.queue[j].who)
    && (forall i :: 0 <= i < |l.queue| ==> l.owner != Some(l.queue[i].who) && l.queue[i].who !in l.sharers)
  }

  function Enter(l: Lock, w: Who, exclusive: bool): Lock {
    l.(queue := l.queue + [Waiter(w, exclusive)])
  }

  predicate Admits(l: Lock, exclusive: bool) {
    l.owner == None && (exclusive ==> l.sharers == {})
  }

  predicate CanAcquire(l: Lock, w: Who) {
    l.queue != [] && l.queue[0].who == w && Admits(l, l.queue[0].exclusive)
  }

  function Acquire(l: Lock, w: Who): Lock
    requires CanAcquire(l, w)
  {
    if l.queue[0].exclusive then Lock(Some(w), {}, l.queue[1..])
    else Lock(None, l.sharers + {w}, l.queue[1..])
  }

  function Release(l: Lock, w: Who): Lock {
    Lock(if l.owner == Some(w) then None else l.owner, l.sharers - {w}, l.queue)
  }

  /** Only w's standing differs between l and k, and there it is `standing`. */
  ghost predicate MovesOnly(l: Lock, k: Lock, w: Who, standing: Standing) {
    && Sound(k)
    && StandingOf(k, w) == standing
    && forall v :: v != w ==> StandingOf(k, v) == StandingOf(l, v)
  }

  lemma AwayIsAbsent(l: Lock, w: Who)
    requires StandingOf(l, w) == Away
    ensures forall i :: 0 <= i < |l.queue| ==> l.queue[i].who != w
  {
    forall i | 0 <= i < |l.queue| ensures l.queue[i].who != w {
      assert l.queue[i] == Waiter(l.queue[i].who, l.queue[i].exclusive);
      assert l.queue[i] in l.queue;
    }
  }

  lemma EnterMoves(l: Lock, w: Who, exclusive: bool)
    requires Sound(l) && StandingOf(l, w) == Away
    ensures MovesOnly(l, Enter(l, w, exclusive), w, if exclusive then WaitsExclusive else WaitsShared)
  {
    var k := Enter(l, w, exclusive);
    AwayIsAbsent(l, w);
    forall x: Waiter ensures x in k.queue <==> x in l.queue || x == Waiter(w, exclusive) {}
  }

  lemma AcquireMoves(l: Lock, w: Who)
    requires Sound(l) && CanAcquire(l, w)
    ensures StandingOf(l, w) == if l.queue[0].exclusive then WaitsExclusive else WaitsShared
    ensures MovesOnly(l, Acquire(l, w), w, if StandingOf(l, w) == WaitsExclusive then Owns else Shares)
  {
    var k, head := Acquire(l, w), l.queue[0];
    assert head in l.queue;
    forall x: Waiter ensures x in k.queue <==> x in l.queue && x != head {
      if x in l.queue {
        var i :| 0 <= i < |l.queue| && l.queue[i] == x;
        if i > 0 {
          assert k.queue[i - 1] == x;
        }
      }
    }
    assert Waiter(w, !head.exclusive) !in l.queue;
  }

  lemma ReleaseMoves(l: Lock, w: Who)
    requires Sound(l) && StandingOf(l, w).Holds()
    ensures MovesOnly(l, Release(l, w), w, Away)
  {
    forall i | 0 <= i < |l.queue|
      ensures l.queue[i] != Waiter(w, true) && l.queue[i] != Waiter(w, false)
    {}
  }

  /** An owner excludes every other holder. */
  lemma Exclusion(l: Lock, v: Who, w: Who)
    requires Sound(l) && v != w && StandingOf(l, w) == Owns
    ensures !StandingOf(l, v).Holds()
  {}

  /** A party waiting at the head of a lock that nobody holds is admitted. */
  lemma HeadEnters(l: Lock)
    requires l.queue != []
    requires forall w :: !StandingOf(l, w).Holds()
    ensures CanAcquire(l, l.queue[0].who) && StandingOf(l, l.queue[0].who).Waits()
  {
    assert l.owner.Some? ==> StandingOf(l, l.owner.value).Holds();
    forall w ensures w !in l.sharers {
      assert w in l.sharers ==> StandingOf(l, w).Holds();
    }
    assert l.queue[0] == Waiter(l.queue[0].who, l.queue[0].exclusive) && l.queue[0] in l.queue;
  }

  /** First come, first served: whoever waits at place i is not overtaken by what another party does. Arrivals go
      behind it, an admission brings it one place forward, and it is admitted at place 0 only, as soon as no holder
      excludes it. */
  lemma NobodyOvertakes(l: Lock, i: nat, v: Who, exclusive: bool)
    requires Sound(l) && i < |l.queue| && v != l.queue[i].who
    ensures i < |Enter(l, v, exclusive).queue| && Enter(l, v, exclusive).queue[i] == l.queue[i]
    ensures i < |Release(l, v).queue| && Release(l, v).queue[i] == l.queue[i]
    ensures CanAcquire(l, v) ==> 0 < i <= |Acquire(l, v).queue| && Acquire(l, v).queue[i - 1] == l.queue[i]
    ensures CanAcquire(l, l.queue[i].who) <==>
              i == 0 && forall u :: StandingOf(l, u) != Owns && (l.queue[i].exclusive ==> StandingOf(l, u) != Shares)
  {
    assert l.owner.Some? ==> StandingOf(l, l.owner.value) == Owns;
    forall u | u in l.sharers && l.owner.None? ensures StandingOf(l, u) == Shares {}
    if l.owner.None? && forall u :: StandingOf(l, u) != Shares {
      assert forall u :: u !in l.sharers;
    }
  }

  lemma WaiterQueues(l: Lock, w: Who)
    requires StandingOf(l, w).Waits()
    ensures l.queue != []
  {}
}
