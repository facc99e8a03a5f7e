/** The specification of a request run read target by target, send by send and event by event. */
module HaRun {
  import opened Prelude
  import opened Wire
  import opened HaRequest
  import Arithmetic
  import P = RequestPolicy

  predicate Increasing(idx: seq<int>, bound: int) {
    && (forall a, b :: 0 <= a < b < |idx| ==> idx[a] < idx[b])
    && (forall a :: 0 <= a < |idx| ==> 0 <= idx[a] < bound)
  }

  // ---------------------------------------------------------------- what is heard

  /** The time that the events from one to another take. */
  function Elapsed(events: seq<Event>, from: nat, to: nat): nat
    requires from <= to <= |events|
    decreases |events| - from
  {
    if from == to then 0 else TimeTaken(events[from]) + Elapsed(events, from + 1, to)
  }

  function TimeTaken(e: Event): nat {
    match e
    case Arrival(_, elapsed) => elapsed
    case Silence(_) => 0
  }

  lemma {:induction false} ElapsedGrows(events: seq<Event>, from: nat, mid: nat, to: nat)
    requires from <= mid <= to <= |events|
    ensures Elapsed(events, from, mid) <= Elapsed(events, from, to)
    decreases |events| - from
  {
    if from < mid {
      ElapsedGrows(events, from + 1, mid, to);
    }
  }

  /** A wait gets as far as event i: everything before it arrived, and the deadline was not over then. */
  predicate Reaches(run: Run, c: Cursor, deadline: nat, i: int) {
    && c.next <= i < |run.events|
    && (forall j :: c.next <= j < i ==> run.events[j].Arrival?)
    && c.now + Elapsed(run.events, c.next, i) < deadline
  }

  /** Event i is the arrival of a datagram that parses to a response of an allowed server. */
  predicate Answering(run: Run, i: int) {
    && 0 <= i < |run.events| && run.events[i].Arrival?
    && var parsed := ParseRateResponse(run.events[i].datagram.data, run.verifier.auth, run.verifier.cipher);
    && parsed.Ok? && (run.resolved.allowed == {} || parsed.value.serverId in run.resolved.allowed)
  }

  predicate HeardFrom(run: Run, c: Cursor, i: int, x: Answer) {
    && c.next <= i && Answering(run, i)
    && var d := run.events[i].datagram;
    && ParseRateResponse(d.data, run.verifier.auth, run.verifier.cipher) == Ok(x.result)
    && x.addr == d.addr && x.at == c.now + Elapsed(run.events, c.next, i + 1)
  }

  lemma AnsweringExactly(run: Run, i: int)
    requires 0 <= i < |run.events| && run.events[i].Arrival?
    ensures var verdict := run.Verdict(run.events[i].datagram);
      && (verdict.Some? <==> Answering(run, i))
      && (verdict.Some? ==> ParseRateResponse(run.events[i].datagram.data, run.verifier.auth, run.verifier.cipher) == Ok(verdict.value))
  {
    var d := run.events[i].datagram;
    var parsed := ParseRateResponse(d.data, run.verifier.auth, run.verifier.cipher);
    if run.Verdict(d).Some? {
      AcceptedExactly(d, run.resolved.allowed, run.verifier, run.Verdict(d).value);
    }
    if parsed.Ok? {
      AcceptedExactly(d, run.resolved.allowed, run.verifier, parsed.value);
    }
    hide Accepted, ParseRateResponse;
  }

  /** One arrival moves a wait on without changing which later events it gets to, or when. */
  lemma ReachesLater(run: Run, c: Cursor, deadline: nat, i: int)
    requires c.now < deadline && Arrives(run, c) && c.next < i
    ensures var next := Cursor(c.next + 1, c.now + run.events[c.next].elapsed);
      Reaches(run, c, deadline, i) <==> Reaches(run, next, deadline, i)
  {}

  lemma HeardLater(run: Run, c: Cursor, i: int, x: Answer)
    requires Arrives(run, c) && HeardFrom(run, Cursor(c.next + 1, c.now + run.events[c.next].elapsed), i, x)
    ensures HeardFrom(run, c, i, x)
  {
    hide ParseRateResponse;
  }

  /** The indices are those of the answering events that a wait gets to. */
  ghost predicate Covers(run: Run, c: Cursor, deadline: nat, idx: seq<int>) {
    forall i :: i in idx <==> Reaches(run, c, deadline, i) && Answering(run, i)
  }

  /** The answers are those of the events at the indices, one each. */
  ghost predicate Matches(run: Run, c: Cursor, idx: seq<int>, answers: seq<Answer>) {
    |idx| == |answers| && forall a :: 0 <= a < |idx| ==> HeardFrom(run, c, idx[a], answers[a])
  }

  /** The answers of a wait, in order, are exactly the accepted datagrams among the events that it gets to. */
  lemma {:induction false} HeardExactly(run: Run, c: Cursor, deadline: nat) returns (idx: seq<int>)
    ensures Increasing(idx, |run.events|)
    ensures Covers(run, c, deadline, idx) && Matches(run, c, idx, run.Answers(c, deadline))
    decreases |run.events| - c.next
  {
    hide Run.Verdict, Answering, ParseRateResponse, HeardFrom;
    if c.now >= deadline || !Arrives(run, c) {
      idx := [];
      forall i ensures !(Reaches(run, c, deadline, i) && Answering(run, i)) {
        NothingReached(run, c, deadline, i);
      }
    } else {
      var next := Cursor(c.next + 1, c.now + run.events[c.next].elapsed);
      var later := HeardExactly(run, next, deadline);
      CoversStep(run, c, deadline, later);
      MatchesStep(run, c, deadline, later);
      hide Covers, Matches, Run.Answers;
      idx := if Answering(run, c.next) then [c.next] + later else later;
    }
  }

  lemma NothingReached(run: Run, c: Cursor, deadline: nat, i: int)
    requires c.now >= deadline || !Arrives(run, c)
    ensures !(Reaches(run, c, deadline, i) && Answering(run, i))
  {
    hide ParseRateResponse;
  }

  lemma CoversStep(run: Run, c: Cursor, deadline: nat, later: seq<int>)
    requires c.now < deadline && Arrives(run, c) && Increasing(later, |run.events|)
    requires Covers(run, Cursor(c.next + 1, c.now + run.events[c.next].elapsed), deadline, later)
    ensures Covers(run, c, deadline, if Answering(run, c.next) then [c.next] + later else later)
    ensures Increasing([c.next] + later, |run.events|)
  {
    hide Answering;
    var next := Cursor(c.next + 1, c.now + run.events[c.next].elapsed);
    assert Reaches(run, c, deadline, c.next);
    var idx := if Answering(run, c.next) then [c.next] + later else later;
    forall i ensures i in idx <==> Reaches(run, c, deadline, i) && Answering(run, i) {
      if c.next < i {
        ReachesLater(run, c, deadline, i);
      }
      hide Elapsed;
    }
    forall a | 0 <= a < |later| ensures c.next < later[a] {
      assert later[a] in later;
      hide Elapsed;
    }
    hide Reaches, Covers;
  }

  lemma MatchesLater(run: Run, c: Cursor, later: seq<int>, tail: seq<Answer>)
    requires Arrives(run, c)
    requires Matches(run, Cursor(c.next + 1, c.now + run.events[c.next].elapsed), later, tail)
    ensures Matches(run, c, later, tail)
  {
    forall a | 0 <= a < |later| ensures HeardFrom(run, c, later[a], tail[a]) {
      HeardLater(run, c, later[a], tail[a]);
      hide HeardFrom;
    }
    hide HeardFrom;
  }

  lemma MatchesNext(run: Run, c: Cursor, i: int, x: Answer, later: seq<int>, tail: seq<Answer>)
    requires Matches(run, c, later, tail) && HeardFrom(run, c, i, x)
    ensures Matches(run, c, [i] + later, [x] + tail)
  {
    hide HeardFrom;
  }

  lemma AnswersHead(run: Run, c: Cursor, deadline: nat)
    requires c.now < deadline && Arrives(run, c)
    ensures var d := run.events[c.next].datagram; var at := c.now + run.events[c.next].elapsed;
      run.Answers(c, deadline) == FirstAnswer(run.Verdict(d), d.addr, at) + run.Answers(Cursor(c.next + 1, at), deadline)
  {
    hide Run.Verdict;
  }

  lemma FirstAnswerIs(verdict: Option<RateLimitResult>, addr: SocketAddr, at: nat)
    ensures verdict.None? ==> FirstAnswer(verdict, addr, at) == []
    ensures verdict.Some? ==> FirstAnswer(verdict, addr, at) == [Answer(verdict.value, addr, at)]
  {}

  lemma AnswersStep(run: Run, c: Cursor, deadline: nat) returns (first: seq<Answer>)
    requires c.now < deadline && Arrives(run, c)
    ensures run.Answers(c, deadline) == first + run.Answers(Cursor(c.next + 1, c.now + run.events[c.next].elapsed), deadline)
    ensures !Answering(run, c.next) ==> first == []
    ensures Answering(run, c.next) ==> |first| == 1 && HeardFrom(run, c, c.next, first[0])
  {
    var d, at := run.events[c.next].datagram, c.now + run.events[c.next].elapsed;
    AnsweringExactly(run, c.next);
    hide *;
    first := FirstAnswer(run.Verdict(d), d.addr, at);
    AnswersHead(run, c, deadline);
    FirstAnswerIs(run.Verdict(d), d.addr, at);
    if Answering(run, c.next) {
      HeardHere(run, c, first[0]);
    }
  }

  lemma MatchesStep(run: Run, c: Cursor, deadline: nat, later: seq<int>)
    requires c.now < deadline && Arrives(run, c)
    requires var next := Cursor(c.next + 1, c.now + run.events[c.next].elapsed);
             Matches(run, next, later, run.Answers(next, deadline))
    ensures Matches(run, c, if Answering(run, c.next) then [c.next] + later else later, run.Answers(c, deadline))
  {
    var tail := run.Answers(Cursor(c.next + 1, c.now + run.events[c.next].elapsed), deadline);
    hide *;
    MatchesLater(run, c, later, tail);
    var first := AnswersStep(run, c, deadline);
    if Answering(run, c.next) {
      MatchesNext(run, c, c.next, first[0], later, tail);
      assert first == [first[0]];
    } else {
      assert first + tail == tail;
    }
  }

  lemma HeardHere(run: Run, c: Cursor, x: Answer)
    requires Answering(run, c.next)
    requires var d := run.events[c.next].datagram;
      && ParseRateResponse(d.data, run.verifier.auth, run.verifier.cipher) == Ok(x.result)
      && x.addr == d.addr && x.at == c.now + run.events[c.next].elapsed
    ensures HeardFrom(run, c, c.next, x)
  {
    hide ParseRateResponse;
    assert Elapsed(run.events, c.next, c.next + 1) == run.events[c.next].elapsed;
  }

  /** A wait takes the arrivals up to the first one at or after the deadline; a channel that falls silent or runs
      dry before that ends it. */
  lemma {:induction false} WaitEndsAt(run: Run, c: Cursor, deadline: nat) returns (i: nat)
    requires c.next <= |run.events|
    ensures c.next <= i <= |run.events| && forall j :: c.next <= j < i ==> run.events[j].Arrival?
    ensures var w := run.WaitEnd(c, deadline); var t := c.now + Elapsed(run.events, c.next, i);
      || (t >= deadline && w == Cursor(i, t) && (i > c.next ==> c.now + Elapsed(run.events, c.next, i - 1) < deadline))
      || (t < deadline && i == |run.events| && w == Cursor(i, deadline))
      || (t < deadline && i < |run.events| && run.events[i].Silence? && w == Cursor(i + 1, deadline + run.events[i].late))
    decreases |run.events| - c.next
  {
    if c.now < deadline && Arrives(run, c) {
      i := WaitEndsAt(run, Cursor(c.next + 1, c.now + run.events[c.next].elapsed), deadline);
    } else {
      i := c.next;
    }
  }

  lemma ReachedBeforeEnd(run: Run, c: Cursor, deadline: nat, i: int)
    requires c.next <= |run.events| && Reaches(run, c, deadline, i) && Answering(run, i)
    ensures c.next <= i < run.WaitEnd(c, deadline).next
  {
    hide Run.WaitEnd, ParseRateResponse;
    var stop := WaitEndsAt(run, c, deadline);
    if i >= stop {
      ElapsedGrows(run.events, c.next, stop, i);
    }
  }

  lemma {:induction false} StartWithinEvents(run: Run, phase: nat)
    requires run.WellFormed()
    ensures run.PhaseStart(phase).next <= |run.events|
  {
    if phase > 0 {
      StartWithinEvents(run, phase - 1);
      var stop := WaitEndsAt(run, run.Opening(phase - 1), run.Deadline(phase - 1));
      hide Run.WaitEnd, Run.PhaseWindow;
    }
  }

  /** Every phase listens to its own stretch of the events, so no datagram is heard twice. */
  lemma PhaseHears(run: Run, phase: nat) returns (idx: seq<int>)
    requires run.WellFormed()
    ensures Increasing(idx, |run.events|)
    ensures Covers(run, run.Opening(phase), run.Deadline(phase), idx)
    ensures Matches(run, run.Opening(phase), idx, run.Heard(phase))
    ensures forall i :: i in idx ==> run.PhaseStart(phase).next <= i < run.PhaseStart(phase + 1).next
  {
    var c, deadline := run.Opening(phase), run.Deadline(phase);
    StartWithinEvents(run, phase);
    assert c.next == run.PhaseStart(phase).next;
    assert run.PhaseStart(phase + 1) == run.WaitEnd(c, deadline);
    hide Run.Opening, Run.PhaseStart, Run.Deadline, Reaches, Answering, Matches, Run.Answers, Run.WaitEnd;
    idx := HeardExactly(run, c, deadline);
    forall i | i in idx ensures c.next <= i < run.WaitEnd(c, deadline).next {
      ReachedBeforeEnd(run, c, deadline, i);
    }
  }

  lemma {:induction false} StartsFollow(run: Run, p: nat, q: nat)
    requires run.WellFormed() && p <= q
    ensures run.PhaseStart(p).next <= run.PhaseStart(q).next
    decreases q
  {
    if p < q {
      StartsFollow(run, p, q - 1);
      StartWithinEvents(run, q - 1);
      var stop := WaitEndsAt(run, run.Opening(q - 1), run.Deadline(q - 1));
      hide Run.WaitEnd, Run.PhaseWindow;
    }
  }

  // ---------------------------------------------------------------- what is sent

  /** The targets are the servers' addresses, server after server and in the order of their lookup. */
  lemma {:induction false} AddressesInOrder(a: seq<Endpoint>, s: Endpoint, b: seq<Endpoint>)
    ensures Addresses(a + [s] + b) == Addresses(a) + (if s.addresses == None then [] else s.addresses.value) + Addresses(b)
    decreases |b|
  {
    if b == [] {
      assert a + [s] + b == a + [s];
      LastAddresses(a, s);
    } else {
      var n := |b| - 1;
      AddressesInOrder(a, s, b[..n]);
      LastAddresses(a + [s] + b[..n], b[n]);
      LastAddresses(b[..n], b[n]);
      assert a + [s] + b == a + [s] + b[..n] + [b[n]] && b == b[..n] + [b[n]];
      hide Addresses;
    }
  }

  lemma LastAddresses(a: seq<Endpoint>, s: Endpoint)
    ensures Addresses(a + [s]) == Addresses(a) + (if s.addresses == None then [] else s.addresses.value)
  {
    assert (a + [s])[..|a|] == a;
  }

  /** Target k has not answered: its server where one is known, and its address otherwise. */
  predicate Owes(r: Resolved, k: int, ids: set<u64>, addrs: set<SocketAddr>)
    requires 0 <= k < |r.targets|
  {
    && (r.targets[k] in r.serverIds ==> r.serverIds[r.targets[k]] !in ids)
    && (r.targets[k] !in r.serverIds ==> r.targets[k] !in addrs)
  }

  /** Transmissions go to the owing targets in listing order, each as often as it is listed. */
  lemma {:induction false} MissingInOrder(r: Resolved, ids: set<u64>, addrs: set<SocketAddr>, n: nat) returns (idx: seq<int>)
    requires n <= |r.targets|
    ensures Increasing(idx, n) && |idx| == |r.Missing(ids, addrs, n)|
    ensures forall a :: 0 <= a < |idx| ==> r.Missing(ids, addrs, n)[a] == r.targets[idx[a]]
    ensures forall k :: 0 <= k < n ==> (k in idx <==> Owes(r, k, ids, addrs))
  {
    if n == 0 {
      idx := [];
    } else {
      idx := MissingInOrder(r, ids, addrs, n - 1);
      assert n - 1 !in idx;
      if Owes(r, n - 1, ids, addrs) {
        idx := idx + [n - 1];
      }
    }
  }

  /** The datagrams of the rounds come one round after the other, each in listing order. */
  lemma {:induction false} BroadcastAt(run: Run, packet: seq<byte>, rounds: nat, round: nat, k: nat)
    requires round < rounds && k < |run.resolved.targets|
    ensures 0 <= round * |run.resolved.targets| + k < |run.Broadcasts(packet, rounds)|
    ensures run.Broadcasts(packet, rounds)[round * |run.resolved.targets| + k] == Datagram(packet, run.resolved.targets[k])
    decreases rounds
  {
    var n := |run.resolved.targets|;
    Arithmetic.Distribute(rounds - 1, 1, n);
    Arithmetic.Distribute(round, 1, n);
    Arithmetic.MulMono(round + 1, rounds, n);
    assert |run.Broadcasts(packet, rounds - 1)| == (rounds - 1) * n;
    if round < rounds - 1 {
      Arithmetic.MulMono(round + 1, rounds - 1, n);
      BroadcastAt(run, packet, rounds - 1, round, k);
    }
    hide Arithmetic.Pow2;
  }

  // ---------------------------------------------------------------- what is booked

  /** The owing targets among the first n of a known server that a transmission does not reach. */
  ghost function Unreached(run: Run, tx: nat, ids: set<u64>, addrs: set<SocketAddr>, n: int, id: u64): set<int>
    requires n <= |run.resolved.targets|
  {
    set k | 0 <= k < n && run.resolved.targets[k] in run.resolved.serverIds
            && run.resolved.serverIds[run.resolved.targets[k]] == id
            && Owes(run.resolved, k, ids, addrs) && run.net.fault(tx, k).Some?
  }

  lemma UnreachedNext(run: Run, tx: nat, ids: set<u64>, addrs: set<SocketAddr>, n: int, id: u64)
    requires 0 <= n < |run.resolved.targets|
    ensures var t := run.resolved.targets[n]; var before := Unreached(run, tx, ids, addrs, n, id);
            var hit := t in run.resolved.serverIds && run.resolved.serverIds[t] == id
                       && Owes(run.resolved, n, ids, addrs) && run.net.fault(tx, n).Some?;
            && Unreached(run, tx, ids, addrs, n + 1, id) == (if hit then before + {n} else before)
            && |Unreached(run, tx, ids, addrs, n + 1, id)| == |before| + (if hit then 1 else 0)
  {
    var t := run.resolved.targets[n];
    var before := Unreached(run, tx, ids, addrs, n, id);
    var hit := t in run.resolved.serverIds && run.resolved.serverIds[t] == id
               && Owes(run.resolved, n, ids, addrs) && run.net.fault(tx, n).Some?;
    assert n !in before;
    assert Unreached(run, tx, ids, addrs, n + 1, id) == if hit then before + {n} else before;
  }

  lemma FailedNext(run: Run, tx: nat, ids: set<u64>, addrs: set<SocketAddr>, n: nat, id: u64)
    requires n < |run.resolved.targets|
    ensures var t := run.resolved.targets[n];
            var hit := t in run.resolved.serverIds && run.resolved.serverIds[t] == id
                       && Owes(run.resolved, n, ids, addrs) && run.net.fault(tx, n).Some?;
      Occurrences(run.FailedIds(tx, ids, addrs, n + 1), id)
      == Occurrences(run.FailedIds(tx, ids, addrs, n), id) + (if hit then 1 else 0)
  {
    var t := run.resolved.targets[n];
    var blamed := run.FailedIds(tx, ids, addrs, n);
    if t in run.resolved.serverIds && Owes(run.resolved, n, ids, addrs) && run.net.fault(tx, n).Some? {
      assert run.FailedIds(tx, ids, addrs, n + 1) == blamed + [run.resolved.serverIds[t]];
      hide Run.FailedIds;
      OccurrencesAppend(blamed, [run.resolved.serverIds[t]], id);
    } else {
      assert run.FailedIds(tx, ids, addrs, n + 1) == blamed;
    }
  }

  lemma {:induction false} FailedCount(run: Run, tx: nat, ids: set<u64>, addrs: set<SocketAddr>, n: nat, id: u64)
    requires n <= |run.resolved.targets|
    ensures Occurrences(run.FailedIds(tx, ids, addrs, n), id) == |Unreached(run, tx, ids, addrs, n, id)|
  {
    if n == 0 {
      assert Unreached(run, tx, ids, addrs, n, id) == {};
    } else {
      hide *;
      FailedCount(run, tx, ids, addrs, n - 1, id);
      UnreachedNext(run, tx, ids, addrs, n - 1, id);
      FailedNext(run, tx, ids, addrs, n - 1, id);
    }
  }

  lemma {:induction false} OccurrencesAppend(a: seq<u64>, b: seq<u64>, id: u64)
    ensures Occurrences(a + b, id) == Occurrences(a, id) + Occurrences(b, id)
  {
    if b == [] {
      assert a + b == a;
    } else {
      OccurrencesAppend(a, b[..|b| - 1], id);
      assert (a + b)[..|a + b| - 1] == a + b[..|b| - 1];
    }
  }

  /** How many sends to a server's targets failed in the first rounds. */
  ghost function RoundFailures(run: Run, rounds: nat, id: u64): nat {
    if rounds == 0 then 0
    else RoundFailures(run, rounds - 1, id) + |Unreached(run, rounds - 1, {}, {}, |run.resolved.targets|, id)|
  }

  lemma {:induction false} BlamedCount(run: Run, rounds: nat, id: u64)
    ensures Occurrences(run.Blamed(rounds), id) == RoundFailures(run, rounds, id)
  {
    if rounds > 0 {
      BlamedCount(run, rounds - 1, id);
      FailedCount(run, rounds - 1, {}, {}, |run.resolved.targets|, id);
      OccurrencesAppend(run.Blamed(rounds - 1), run.RoundBlame(rounds - 1), id);
    }
  }

  ghost function AnsweredBy(answers: seq<Answer>, id: u64): set<int> {
    set j | 0 <= j < |answers| && answers[j].result.serverId == id
  }

  lemma {:induction false} AnswerCount(answers: seq<Answer>, id: u64)
    ensures Occurrences(IdsOf(answers), id) == |AnsweredBy(answers, id)|
  {
    if answers != [] {
      var n := |answers| - 1;
      AnswerCount(answers[..n], id);
      assert IdsOf(answers)[..n] == IdsOf(answers[..n]);
      var before := AnsweredBy(answers[..n], id);
      assert AnsweredBy(answers, id) == if answers[n].result.serverId == id then before + {n} else before;
    }
  }

  /** The number of transmissions to every target that were booked: all up to the phase of the selection or
      the last round, but not the one that fails the request. */
  function BookedRounds(run: Run, t: Trace): nat {
    if t.outcome.Err? then t.phase else 1 + Min(t.phase, run.policy.replayCount)
  }

  /** What a completion adds: it goes out as one more transmission, and is booked only when it reaches somebody. */
  ghost function CompletionFailures(run: Run, t: Trace, id: u64): nat
    requires run.WellFormed() && t.n <= |run.Heard(t.phase)|
  {
    var tx := 1 + Min(t.phase, run.policy.replayCount);
    var ids := set x | x in run.Listened(t) :: x.result.serverId;
    var addrs := set x | x in run.Listened(t) :: x.addr;
    if exists k :: 0 <= k < |run.resolved.targets| && Owes(run.resolved, k, ids, addrs) && run.net.fault(tx, k).None?
    then |Unreached(run, tx, ids, addrs, |run.resolved.targets|, id)|
    else 0
  }

  lemma ListenedSets(heard: seq<Answer>)
    ensures SetOf(IdsOf(heard)) == (set x | x in heard :: x.result.serverId)
    ensures SetOf(AddrsOf(heard)) == (set x | x in heard :: x.addr)
  {
    InHeard(heard);
    hide IdsOf, AddrsOf, SetOf;
  }

  lemma {:induction false} SomebodyOwes(r: Resolved, ids: set<u64>, addrs: set<SocketAddr>, n: nat)
    requires n <= |r.targets|
    ensures r.Missing(ids, addrs, n) != [] <==> exists k :: 0 <= k < n && Owes(r, k, ids, addrs)
  {
    if n > 0 {
      SomebodyOwes(r, ids, addrs, n - 1);
      if Owes(r, n - 1, ids, addrs) {
        assert r.Missing(ids, addrs, n) != [];
      } else {
        assert r.Missing(ids, addrs, n) == r.Missing(ids, addrs, n - 1);
      }
    }
  }

  lemma NobodyUnreached(run: Run, tx: nat, ids: set<u64>, addrs: set<SocketAddr>, n: nat, id: u64)
    requires n <= |run.resolved.targets| && forall k :: 0 <= k < n ==> !Owes(run.resolved, k, ids, addrs)
    ensures Unreached(run, tx, ids, addrs, n, id) == {}
  {}

  /** A delivery to the owing targets is booked as it should be: not at all when it reaches nobody. */
  lemma DeliveryCount(run: Run, tx: nat, ids: set<u64>, addrs: set<SocketAddr>, id: u64)
    ensures var n := |run.resolved.targets|;
      Occurrences(if run.resolved.Missing(ids, addrs, n) != [] && run.NoneReached(tx, ids, addrs, n) then []
                  else run.FailedIds(tx, ids, addrs, n), id)
      == if exists k :: 0 <= k < n && Owes(run.resolved, k, ids, addrs) && run.net.fault(tx, k).None?
         then |Unreached(run, tx, ids, addrs, n, id)| else 0
  {
    var n := |run.resolved.targets|;
    FailedCount(run, tx, ids, addrs, n, id);
    SomebodyOwes(run.resolved, ids, addrs, n);
    hide Run.FailedIds, Resolved.Missing;
    assert Occurrences([], id) == 0;
    if forall k :: 0 <= k < n ==> !Owes(run.resolved, k, ids, addrs) {
      NobodyUnreached(run, tx, ids, addrs, n, id);
    }
    hide Unreached, Occurrences;
  }

  lemma CompletionCount(run: Run, t: Trace, id: u64)
    requires run.WellFormed() && t.n <= |run.Heard(t.phase)|
    ensures Occurrences(run.CompletionBlame(t), id) == CompletionFailures(run, t, id)
  {
    var heard := run.Listened(t);
    ListenedSets(heard);
    assert run.Transmissions(t.phase) == 1 + Min(t.phase, run.policy.replayCount);
    hide Run.Heard, Run.Listened, IdsOf, AddrsOf, SetOf, Run.FailedIds, Unreached, Run.NoneReached, Resolved.Missing,
      Occurrences, Owes, Run.Transmissions;
    DeliveryCount(run, 1 + Min(t.phase, run.policy.replayCount), SetOf(IdsOf(heard)), SetOf(AddrsOf(heard)), id);
  }

  /** The books of one server after a request: one answer for every answer of its that was listened to, and one
      failure for every send to one of its targets that failed, in the booked rounds and in a completion that
      reached somebody. */
  lemma ServerBooks(run: Run, books: Books, t: Trace, ttl: u32, id: u64)
    requires run.WellFormed() && run.Explains(t)
    ensures t.n <= |run.Heard(t.phase)|
    ensures StatsOf(run.BooksAfter(books, t, ttl), id).validResponses
         == StatsOf(books, id).validResponses + |AnsweredBy(run.Heard(t.phase)[..t.n], id)|
    ensures StatsOf(run.BooksAfter(books, t, ttl), id).sendFailures
         == StatsOf(books, id).sendFailures + RoundFailures(run, BookedRounds(run, t), id)
            + (if run.Completes(t, ttl) then CompletionFailures(run, t, id) else 0)
  {
    assert t.n <= |run.Heard(t.phase)| && run.Listened(t) == run.Heard(t.phase)[..t.n];
    assert BookedRounds(run, t) == run.Delivered(t.phase, t.outcome.Ok?);
    hide Run.Heard, Run.Explains, Run.BooksAfter, StatsOf, Run.Blamed, Run.CompletionBlame, CompletionFailures, Occurrences,
      RoundFailures, IdsOf, AnsweredBy, Run.Listened, Run.Completes;
    BooksBalance(run, books, t, ttl, id);
    AnswerCount(run.Listened(t), id);
    BlamedCount(run, BookedRounds(run, t), id);
    CompletionCount(run, t, id);
  }

  /** A server without an entry has no answers and no failures; an entry appears with the first of either. */
  lemma BookEntries(books: Books, ids: seq<u64>, id: u64)
    ensures id !in books ==> StatsOf(books, id) == ServerStats(0, 0)
    ensures id in books ==> StatsOf(books, id) == books[id]
    ensures id in Blame(books, ids) <==> id in books || id in ids
    ensures id in CreditAll(books, ids) <==> id in books || id in ids
  {}

  // ---------------------------------------------------------------- what is returned

  /** No send of a transmission to every target gets out. */
  ghost predicate AllFail(run: Run, tx: nat) {
    |run.resolved.targets| > 0 && forall k :: 0 <= k < |run.resolved.targets| ==> run.net.fault(tx, k) != None
  }

  /** No phase before this one hears an answer. */
  ghost predicate Unanswered(run: Run, phase: nat)
    requires run.WellFormed()
  {
    forall p: nat :: p < phase ==> |run.Heard(p)| == 0
  }

  lemma AllFailIs(run: Run)
    ensures forall tx: nat :: AllFail(run, tx) <==> run.NothingSent(tx)
  {}

  /** The first round that gets nothing out fails the request, unless an earlier phase heard an answer, with the
      error of its last send. */
  lemma ReturnsSendError(run: Run, t: Trace, steered: Option<RequestError>, p: nat)
    requires run.WellFormed() && run.Explains(t)
    requires p <= run.policy.replayCount && AllFail(run, p) && Unanswered(run, p)
    requires forall q: nat :: q < p ==> !AllFail(run, q)
    ensures t.Returned(steered) == Err(Io(run.net.fault(p, |run.resolved.targets| - 1).value))
  {
    AllFailIs(run);
    hide Run.Heard, Run.PhaseStart, Run.Opening, Run.NothingSent, IsOldest, Run.Chosen, AllFail;
    SendErrorsPrecedeAnswers(run, t);
    QuietAt(run, t.phase, p);
  }

  /** A request times out when every round gets something out and no phase hears an answer. */
  lemma ReturnsTimeout(run: Run, t: Trace, steered: Option<RequestError>)
    requires run.WellFormed() && run.Explains(t) && steered != Some(Timeout)
    ensures t.Returned(steered) == Err(Timeout) <==>
              && Unanswered(run, run.policy.replayCount + 2)
              && forall q: nat :: q <= run.policy.replayCount ==> !AllFail(run, q)
  {
    AllFailIs(run);
    hide Run.Heard, Run.PhaseStart, Run.Opening, Run.NothingSent, IsOldest, Run.Chosen, AllFail;
    NothingSelected(run, t);
    assert run.Quiet(run.Phases()) <==>
             && Unanswered(run, run.policy.replayCount + 2)
             && forall q: nat :: q <= run.policy.replayCount ==> !AllFail(run, q);
  }

  /** The first phase that hears an answer ends the request, if no round up to it fails: with the first answer in a
      later phase, and in round 0 with the first answer of the numerically smallest server id. A steering error
      replaces the answer. */
  lemma ReturnsAnswer(run: Run, t: Trace, steered: Option<RequestError>, p: nat) returns (k: nat)
    requires run.WellFormed() && run.Explains(t)
    requires p <= run.policy.replayCount + 1 && |run.Heard(p)| > 0 && Unanswered(run, p)
    requires forall q: nat :: q <= p && q <= run.policy.replayCount ==> !AllFail(run, q)
    ensures k < |run.Heard(p)| && t.phase == p
    ensures t.Returned(steered) == if steered == None then Ok(run.Heard(p)[k].result) else Err(steered.value)
    ensures p > 0 ==> k == 0
    ensures p == 0 ==>
      && (forall j :: 0 <= j < k ==> run.Heard(0)[k].result.serverId < run.Heard(0)[j].result.serverId)
      && (forall j :: k <= j < |run.Heard(0)| ==> run.Heard(0)[k].result.serverId <= run.Heard(0)[j].result.serverId)
  {
    AllFailIs(run);
    hide Run.Heard, Run.PhaseStart, Run.Opening, Run.NothingSent, IsOldest, Run.Chosen, AllFail;
    SelectsIn(run, t, p);
    if p > 0 {
      k := 0;
      LaterPhasesChooseFirst(run, t);
    } else {
      k := SmallestAnswer(run, t);
    }
    hide Run.Explains;
  }

  lemma SelectsIn(run: Run, t: Trace, p: nat)
    requires run.WellFormed() && run.Explains(t)
    requires p <= run.policy.replayCount + 1 && |run.Heard(p)| > 0 && Unanswered(run, p)
    requires forall q: nat :: q <= p && q <= run.policy.replayCount ==> !run.NothingSent(q)
    ensures t.phase == p && t.Selected()
  {
    hide Run.Heard, Run.PhaseStart, Run.Opening, Run.NothingSent, IsOldest, Run.Chosen;
    QuietAt(run, t.phase, p);
    if t.Selected() {
      SomethingHeard(run, t);
    }
  }

  lemma SmallestAnswer(run: Run, t: Trace) returns (k: nat)
    requires run.WellFormed() && run.Explains(t) && t.Selected() && t.phase == 0
    ensures k < |run.Heard(0)| && t.outcome.value.value == run.Heard(0)[k].result
    ensures forall j :: 0 <= j < k ==> run.Heard(0)[k].result.serverId < run.Heard(0)[j].result.serverId
    ensures forall j :: k <= j < |run.Heard(0)| ==> run.Heard(0)[k].result.serverId <= run.Heard(0)[j].result.serverId
  {
    var answers := run.Heard(0);
    hide Run.Heard, Run.PhaseStart, Run.Opening, Run.NothingSent, IsOldest;
    assert run.Chosen(answers, 0, t.oldest, t.n, t.outcome.value.value);
    k :| k < t.n && FirstOldest(answers, k) && answers[k].result == t.outcome.value.value;
    AgeIsNumeric();
    hide CompareAge;
  }

  /** Round 0 listens until the server that is numerically first among the allowed ones answers, and to the end
      of the window otherwise. */
  lemma RoundZeroListens(run: Run, t: Trace)
    requires run.WellFormed() && run.Explains(t) && t.Selected() && t.phase == 0
    ensures 1 <= t.n <= |run.Heard(0)|
    ensures forall j :: 0 <= j < t.n - 1 ==> !FirstAllowed(run, run.Heard(0)[j].result.serverId)
    ensures t.n == |run.Heard(0)| || FirstAllowed(run, run.Heard(0)[t.n - 1].result.serverId)
    ensures FirstAllowed(run, run.Heard(0)[t.n - 1].result.serverId) ==> t.now == run.Heard(0)[t.n - 1].at
    ensures !FirstAllowed(run, run.Heard(0)[t.n - 1].result.serverId) ==> t.now == run.PhaseStart(1).now
  {
    AgeIsNumeric();
    assert forall id: u64 :: t.oldest == Some(id) <==> FirstAllowed(run, id);
    SelectedAt(run, t);
    hide CompareAge, Run.Heard, Run.PhaseStart, Run.Opening, Run.NothingSent, IsOldest;
    assert run.Chosen(run.Heard(0), 0, t.oldest, t.n, t.outcome.value.value);
  }

  ghost predicate FirstAllowed(run: Run, id: u64) {
    id in run.resolved.allowed && forall other :: other in run.resolved.allowed ==> id <= other
  }

  /** The error of a transmission is that of the last owed send that failed. */
  lemma {:induction false} LastFaultIs(run: Run, tx: nat, ids: set<u64>, addrs: set<SocketAddr>, n: nat)
    requires n <= |run.resolved.targets|
    ensures run.LastFault(tx, ids, addrs, n).Some? <==>
              exists k :: 0 <= k < n && Owes(run.resolved, k, ids, addrs) && run.net.fault(tx, k).Some?
    ensures run.LastFault(tx, ids, addrs, n).Some? ==>
              exists k :: 0 <= k < n && Owes(run.resolved, k, ids, addrs) && run.net.fault(tx, k) == run.LastFault(tx, ids, addrs, n)
                          && forall j :: k < j < n && Owes(run.resolved, j, ids, addrs) ==> run.net.fault(tx, j).None?
  {
    if n > 0 {
      LastFaultIs(run, tx, ids, addrs, n - 1);
      if Owes(run.resolved, n - 1, ids, addrs) && run.net.fault(tx, n - 1).Some? {
      } else if run.LastFault(tx, ids, addrs, n - 1).Some? {
        var k :| 0 <= k < n - 1 && Owes(run.resolved, k, ids, addrs)
                 && run.net.fault(tx, k) == run.LastFault(tx, ids, addrs, n - 1)
                 && forall j :: k < j < n - 1 && Owes(run.resolved, j, ids, addrs) ==> run.net.fault(tx, j).None?;
        assert run.LastFault(tx, ids, addrs, n) == run.LastFault(tx, ids, addrs, n - 1);
      }
    }
  }
}
