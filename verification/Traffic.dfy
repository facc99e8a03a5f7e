/** Traffic counters: saturating additions by compare-and-swap, alone and under every interleaving of
    concurrent callers. */
module Traffic {
  import opened Prelude

  datatype Direction = Outgoing | Incoming

  /** The seven counters, three for each direction and one for failed sends. */
  type Counter = c: nat | c < 7

  function Datagrams(d: Direction): Counter {
    if d == Outgoing then 0 else 3
  }

  function PayloadBytes(d: Direction): Counter {
    if d == Outgoing then 1 else 4
  }

  function IpBytes(d: Direction): Counter {
    if d == Outgoing then 2 else 5
  }

  const SEND_FAILURES: Counter := 6

  /** The value of every counter. */
  type Counts = s: seq<u64> | |s| == 7 witness [0, 0, 0, 0, 0, 0, 0]

  const ZEROS: Counts := [0, 0, 0, 0, 0, 0, 0]

  datatype Add = Add(counter: Counter, value: u64)

  datatype Totals = Totals(counts: Counts, incomplete: bool)

  function Saturating(a: u64, b: u64): u64 {
    if a + b <= U64_MAX then a + b else U64_MAX
  }

  function Apply(t: Totals, a: Add): Totals {
    var previous := t.counts[a.counter];
    Totals(t.counts[a.counter := Saturating(previous, a.value)],
           t.incomplete || CheckedAdd(previous, a.value).None?)
  }

  /** A sequence of additions, one after the other. */
  function Replay(t: Totals, adds: seq<Add>): Totals {
    if adds == [] then t else Apply(Replay(t, adds[..|adds| - 1]), adds[|adds| - 1])
  }

  /** The unbounded sum of what was added to a counter. */
  function Sum(adds: seq<Add>, c: Counter): nat {
    if adds == [] then 0
    else
      var last := adds[|adds| - 1];
      Sum(adds[..|adds| - 1], c) + (if last.counter == c then last.value else 0)
  }

  lemma {:induction false} SumAppend(a: seq<Add>, b: seq<Add>, c: Counter)
    ensures Sum(a + b, c) == Sum(a, c) + Sum(b, c)
  {
    if b == [] {
      assert a + b == a;
    } else {
      SumAppend(a, b[..|b| - 1], c);
      assert (a + b)[..|a + b| - 1] == a + b[..|b| - 1];
    }
  }

  lemma {:induction false} ReplayAppend(t: Totals, a: seq<Add>, b: seq<Add>)
    ensures Replay(t, a + b) == Replay(Replay(t, a), b)
  {
    if b == [] {
      assert a + b == a;
    } else {
      ReplayAppend(t, a, b[..|b| - 1]);
      assert (a + b)[..|a + b| - 1] == a + b[..|b| - 1];
    }
  }

  lemma {:induction false} ReplayCounts(adds: seq<Add>, c: Counter)
    ensures Replay(Totals(ZEROS, false), adds).counts[c] == Min(U64_MAX, Sum(adds, c))
  {
    if adds != [] {
      ReplayCounts(adds[..|adds| - 1], c);
    }
  }

  lemma {:induction false} SumGrows(adds: seq<Add>, n: nat, c: Counter)
    requires n <= |adds|
    ensures Sum(adds[..n], c) <= Sum(adds, c)
  {
    SumAppend(adds[..n], adds[n..], c);
    assert adds == adds[..n] + adds[n..];
  }

  lemma {:induction false} ReplayIncomplete(adds: seq<Add>) returns (c: Counter)
    ensures Replay(Totals(ZEROS, false), adds).incomplete ==> Sum(adds, c) > U64_MAX
    ensures forall x: Counter :: Sum(adds, x) > U64_MAX ==> Replay(Totals(ZEROS, false), adds).incomplete
  {
    c := 0;
    if adds != [] {
      var front, last := adds[..|adds| - 1], adds[|adds| - 1];
      c := ReplayIncomplete(front);
      SumGrows(adds, |front|, c);
      ReplayCounts(front, last.counter);
      var t := Replay(Totals(ZEROS, false), front);
      assert Replay(Totals(ZEROS, false), adds) == Apply(t, last);
      assert forall x: Counter :: Sum(adds, x) == Sum(front, x) + (if last.counter == x then last.value else 0);
      hide Replay, Sum;
      if CheckedAdd(t.counts[last.counter], last.value).None? && !t.incomplete {
        c := last.counter;
      }
    }
  }

  /** Replayed from zero, every counter is the true sum cut off at the maximum, and the totals are marked
      incomplete exactly when some true sum does not fit. */
  lemma ReplayIsCappedSum(adds: seq<Add>)
    ensures forall c: Counter :: Replay(Totals(ZEROS, false), adds).counts[c] == Min(0xFFFF_FFFF_FFFF_FFFF, Sum(adds, c))
    ensures Replay(Totals(ZEROS, false), adds).incomplete <==> exists c: Counter :: Sum(adds, c) > 0xFFFF_FFFF_FFFF_FFFF
  {
    hide Replay, Sum;
    forall c: Counter ensures Replay(Totals(ZEROS, false), adds).counts[c] == Min(U64_MAX, Sum(adds, c)) {
      ReplayCounts(adds, c);
    }
    var c := ReplayIncomplete(adds);
  }

  // ---------------------------------------------------------------- what a datagram adds

  /** An IPv6 address of the form ::ffff:a.b.c.d. */
  predicate Ipv4Mapped(segments: Segments) {
    segments[5] == 0xFFFF && forall k :: 0 <= k < 5 ==> segments[k] == 0
  }

  function Headers(peer: SocketAddr): nat {
    match peer
    case V4(_, _) => 28
    case V6(segments, _, _, _) => if Ipv4Mapped(segments) then 28 else 48
  }

  /** Length plus headers as the code adds them, wrapping in 64 bits. */
  function IpLength(len: u64, peer: SocketAddr): u64 {
    (len + Headers(peer)) % 0x1_0000_0000_0000_0000
  }

  predicate Wraps(len: u64, peer: SocketAddr) {
    len + Headers(peer) > U64_MAX
  }

  lemma IpLengthWraps(len: u64, peer: SocketAddr)
    ensures IpLength(len, peer) + (if Wraps(len, peer) then 0x1_0000_0000_0000_0000 else 0) == len + Headers(peer)
  {
    assert Headers(peer) <= 48;
    hide Headers;
  }

  /** One socket operation: a send and how many bytes it accepted, or a datagram read. */
  datatype Operation = Sent(len: u64, peer: SocketAddr, accepted: Option<u64>) | Received(len: u64, peer: SocketAddr)
  {
    predicate CountedAs(d: Direction) {
      match this
      case Sent(len, _, accepted) => d == Outgoing && accepted == Some(len)
      case Received(_, _) => d == Incoming
    }

    predicate Fails() {
      Sent? && accepted != Some(len)
    }

    function Adds(): seq<Add> {
      if Fails() then [Add(SEND_FAILURES, 1)]
      else
        var d := if Sent? then Outgoing else Incoming;
        [Add(Datagrams(d), 1), Add(PayloadBytes(d), len), Add(IpBytes(d), IpLength(len, peer))]
    }
  }

  function AllAdds(ops: seq<Operation>): seq<Add> {
    if ops == [] then [] else AllAdds(ops[..|ops| - 1]) + ops[|ops| - 1].Adds()
  }

  /** An IPv4 peer, or one of the form ::ffff:a.b.c.d. */
  predicate IsIpv4(peer: SocketAddr) {
    match peer
    case V4(_, _) => true
    case V6(x, _, _, _) => x[0] == 0 && x[1] == 0 && x[2] == 0 && x[3] == 0 && x[4] == 0 && x[5] == 65535
  }

  /** A send that the socket accepted in full, or a datagram read. */
  predicate Goes(op: Operation, d: Direction) {
    || (d == Outgoing && op.Sent? && op.accepted.Some? && op.accepted.value == op.len)
    || (d == Incoming && op.Received?)
  }

  /** How many datagrams of a direction have an IPv4 peer, or have another one. */
  function Tally(ops: seq<Operation>, d: Direction, ipv4: bool): nat {
    if ops == [] then 0
    else
      var last := ops[|ops| - 1];
      Tally(ops[..|ops| - 1], d, ipv4) + (if Goes(last, d) && IsIpv4(last.peer) == ipv4 then 1 else 0)
  }

  /** The payload of a direction's datagrams. */
  function Payload(ops: seq<Operation>, d: Direction): nat {
    if ops == [] then 0
    else
      var last := ops[|ops| - 1];
      Payload(ops[..|ops| - 1], d) + (if Goes(last, d) then last.len else 0)
  }

  /** The datagrams of a direction that do not fit in 64 bits with their headers. */
  function OverlongCount(ops: seq<Operation>, d: Direction): nat {
    if ops == [] then 0
    else
      var last := ops[|ops| - 1];
      OverlongCount(ops[..|ops| - 1], d)
      + (if Goes(last, d) && last.len + (if IsIpv4(last.peer) then 28 else 48) >= 0x1_0000_0000_0000_0000 then 1 else 0)
  }

  /** The sends that failed, or that the socket cut short. */
  function Failures(ops: seq<Operation>): nat {
    if ops == [] then 0
    else
      var last := ops[|ops| - 1];
      Failures(ops[..|ops| - 1]) + (if last.Sent? && (last.accepted.None? || last.accepted.value != last.len) then 1 else 0)
  }

  lemma HeadersByKind(peer: SocketAddr)
    ensures Headers(peer) == if IsIpv4(peer) then 28 else 48
  {}

  lemma CountedByKind(op: Operation, d: Direction)
    ensures op.CountedAs(d) <==> Goes(op, d)
  {}

  /** What one operation adds to a direction, and how it counts there. */
  lemma SumOfOne(op: Operation, d: Direction)
    ensures Sum(op.Adds(), Datagrams(d)) == (if op.CountedAs(d) then 1 else 0)
    ensures Sum(op.Adds(), PayloadBytes(d)) == (if op.CountedAs(d) then op.len else 0)
    ensures Sum(op.Adds(), IpBytes(d)) == (if op.CountedAs(d) then IpLength(op.len, op.peer) else 0)
    ensures Sum(op.Adds(), SEND_FAILURES) == (if op.Fails() then 1 else 0)
  {
    hide Headers, IpLength, Wraps;
    var adds := op.Adds();
    if !op.Fails() {
      assert adds[..2] == [adds[0], adds[1]] && adds[..2][..1] == [adds[0]] && [adds[0]][..0] == [];
      assert forall c :: Sum([adds[0]], c) == if adds[0].counter == c then adds[0].value else 0;
      assert forall c :: Sum(adds[..2], c) == Sum([adds[0]], c) + (if adds[1].counter == c then adds[1].value else 0);
    } else {
      assert adds[..0] == [];
    }
  }

  /** The same by kind of peer. */
  lemma OperationAccounting(op: Operation, d: Direction)
    ensures var goes, headers := Goes(op, d), if IsIpv4(op.peer) then 28 else 48;
      && Sum(op.Adds(), Datagrams(d)) == (if goes then 1 else 0)
      && Sum(op.Adds(), PayloadBytes(d)) == (if goes then op.len else 0)
      && Sum(op.Adds(), IpBytes(d))
         + (if goes && op.len + headers >= 0x1_0000_0000_0000_0000 then 0x1_0000_0000_0000_0000 else 0)
         == (if goes then op.len + headers else 0)
      && Sum(op.Adds(), SEND_FAILURES)
         == (if op.Sent? && (op.accepted.None? || op.accepted.value != op.len) then 1 else 0)
  {
    SumOfOne(op, d);
    HeadersByKind(op.peer);
    CountedByKind(op, d);
    IpLengthWraps(op.len, op.peer);
    hide Sum, Operation.Adds, IsIpv4, Goes, Headers, Operation.CountedAs, IpLength;
  }

  lemma SumNext(ops: seq<Operation>, c: Counter)
    requires ops != []
    ensures Sum(AllAdds(ops), c) == Sum(AllAdds(ops[..|ops| - 1]), c) + Sum(ops[|ops| - 1].Adds(), c)
  {
    SumAppend(AllAdds(ops[..|ops| - 1]), ops[|ops| - 1].Adds(), c);
  }

  lemma TallyNext(ops: seq<Operation>, d: Direction)
    requires ops != []
    ensures var front, last := ops[..|ops| - 1], ops[|ops| - 1];
            var goes, ipv4 := Goes(last, d), IsIpv4(last.peer);
      && Tally(ops, d, true) == Tally(front, d, true) + (if goes && ipv4 then 1 else 0)
      && Tally(ops, d, false) == Tally(front, d, false) + (if goes && !ipv4 then 1 else 0)
      && Payload(ops, d) == Payload(front, d) + (if goes then last.len else 0)
      && OverlongCount(ops, d) == OverlongCount(front, d)
         + (if goes && last.len + (if ipv4 then 28 else 48) >= 0x1_0000_0000_0000_0000 then 1 else 0)
      && Failures(ops) == Failures(front)
         + (if last.Sent? && (last.accepted.None? || last.accepted.value != last.len) then 1 else 0)
  {
    hide Goes, IsIpv4;
  }

  /** The true sums of a direction: one per datagram, its payload, and per datagram 28 header bytes for an IPv4 or
      IPv4-mapped peer and 48 for any other, short of 2^64 for each datagram whose own sum wraps; failed sends
      add nothing else. */
  lemma {:induction false} HeaderAccounting(ops: seq<Operation>, d: Direction)
    ensures Sum(AllAdds(ops), Datagrams(d)) == Tally(ops, d, true) + Tally(ops, d, false)
    ensures Sum(AllAdds(ops), PayloadBytes(d)) == Payload(ops, d)
    ensures Sum(AllAdds(ops), IpBytes(d)) + 0x1_0000_0000_0000_0000 * OverlongCount(ops, d)
         == Payload(ops, d) + 28 * Tally(ops, d, true) + 48 * Tally(ops, d, false)
    ensures Sum(AllAdds(ops), SEND_FAILURES) == Failures(ops)
  {
    if ops == [] {
      hide Goes, IsIpv4;
    } else {
      hide *;
      HeaderAccounting(ops[..|ops| - 1], d);
      OperationAccounting(ops[|ops| - 1], d);
      TallyNext(ops, d);
      SumNext(ops, Datagrams(d));
      SumNext(ops, PayloadBytes(d));
      SumNext(ops, IpBytes(d));
      SumNext(ops, SEND_FAILURES);
    }
  }

  // ---------------------------------------------------------------- one caller

  class TrafficCounters {
    var counts: Counts
    var incomplete: bool

    constructor ()
      ensures counts == ZEROS && !incomplete
    {
      counts, incomplete := ZEROS, false;
    }

    function Snapshot(): Totals
      reads this
    {
      Totals(counts, incomplete)
    }

    /** A weak compare-and-swap, which may fail although the value is the expected one. */
    method CompareExchangeWeak(c: Counter, expected: u64, value: u64, spurious: bool) returns (r: Result<u64, u64>)
      modifies this`counts
      ensures r.Ok? <==> old(counts)[c] == expected && !spurious
      ensures r.Ok? ==> counts == old(counts)[c := value]
      ensures r.Err? ==> counts == old(counts) && r.error == old(counts)[c]
    {
      if counts[c] == expected && !spurious {
        counts := counts[c := value];
        r := Ok(expected);
      } else {
        r := Err(counts[c]);
      }
    }

    /** The retry loop, with any number of spurious failures. */
    method AddTo(c: Counter, value: u64, spuriousFailures: nat)
      modifies this
      ensures Snapshot() == Apply(old(Snapshot()), Add(c, value))
    {
      var previous := counts[c];
      var left := spuriousFailures;
      while true
        invariant previous == counts[c] && counts == old(counts) && incomplete == old(incomplete)
        decreases left
      {
        var next := Saturating(previous, value);
        var exchange := CompareExchangeWeak(c, previous, next, left > 0);
        match exchange {
          case Ok(_) =>
            if CheckedAdd(previous, value).None? {
              incomplete := true;
            }
            return;
          case Err(actual) =>
            previous := actual;
            left := left - 1;
        }
      }
    }

    method Record(d: Direction, len: u64, peer: SocketAddr, spurious: nat -> nat)
      modifies this
      ensures Snapshot() == Replay(old(Snapshot()), [Add(Datagrams(d), 1), Add(PayloadBytes(d), len),
                                                     Add(IpBytes(d), IpLength(len, peer))])
    {
      ghost var adds := [Add(Datagrams(d), 1), Add(PayloadBytes(d), len), Add(IpBytes(d), IpLength(len, peer))];
      ThreeAdds(Snapshot(), adds);
      hide Apply, Replay;
      AddTo(Datagrams(d), 1, spurious(0));
      AddTo(PayloadBytes(d), len, spurious(1));
      AddTo(IpBytes(d), IpLength(len, peer), spurious(2));
    }

    method CountSent(len: u64, peer: SocketAddr, accepted: Option<u64>, spurious: nat -> nat)
      modifies this
      ensures Snapshot() == Replay(old(Snapshot()), Sent(len, peer, accepted).Adds())
    {
      if accepted == Some(len) {
        Record(Outgoing, len, peer, spurious);
      } else {
        ghost var adds := [Add(SEND_FAILURES, 1)];
        assert adds[..0] == [] && Sent(len, peer, accepted).Adds() == adds;
        AddTo(SEND_FAILURES, 1, spurious(0));
      }
    }

    method CountReceived(len: u64, peer: SocketAddr, spurious: nat -> nat)
      modifies this
      ensures Snapshot() == Replay(old(Snapshot()), Received(len, peer).Adds())
    {
      Record(Incoming, len, peer, spurious);
    }
  }

  lemma ThreeAdds(t: Totals, adds: seq<Add>)
    requires |adds| == 3
    ensures Replay(t, adds) == Apply(Apply(Apply(t, adds[0]), adds[1]), adds[2])
  {
    hide Apply;
    assert adds[..2][..1] == adds[..1] && adds[..1][..0] == [];
    assert Replay(t, adds[..1]) == Apply(t, adds[0]);
    assert Replay(t, adds[..2]) == Apply(Replay(t, adds[..1]), adds[1]);
  }

  // ---------------------------------------------------------------- many callers

  /** Where a caller is in `add`: about to load, holding the value it last saw, or past its successful
      exchange with the incomplete mark still to set. */
  datatype Pc = Start | Holding(previous: u64) | Marking

  /** A caller and the additions it has not finished; the first one is in progress. */
  datatype Caller = Caller(todo: seq<Add>, pc: Pc)

  /** The shared counters, the callers, and as history the additions in the order of their successful
      exchanges. */
  datatype State = State(totals: Totals, callers: seq<Caller>, log: seq<Add>)

  datatype Step = Load | ExchangeFails | ExchangeSucceeds | Mark

  predicate Enabled(s: State, i: nat, step: Step) {
    && i < |s.callers|
    && s.callers[i].todo != []
    && var a := s.callers[i].todo[0];
       match step
       case Load => s.callers[i].pc.Start?
       case ExchangeFails => s.callers[i].pc.Holding?
       case ExchangeSucceeds => s.callers[i].pc == Holding(s.totals.counts[a.counter])
       case Mark => s.callers[i].pc.Marking?
  }

  function Move(s: State, i: nat, c: Caller): State
    requires i < |s.callers|
  {
    s.(callers := s.callers[i := c])
  }

  function Next(s: State, i: nat, step: Step): State
    requires Enabled(s, i, step)
  {
    var caller := s.callers[i];
    var a := caller.todo[0];
    var current := s.totals.counts[a.counter];
    match step
    case Load => Move(s, i, caller.(pc := Holding(current)))
    case ExchangeFails => Move(s, i, caller.(pc := Holding(current)))
    case ExchangeSucceeds =>
      var exchanged := s.(totals := s.totals.(counts := s.totals.counts[a.counter := Saturating(current, a.value)]),
                          log := s.log + [a]);
      Move(exchanged, i, if CheckedAdd(current, a.value).None? then caller.(pc := Marking) else Caller(caller.todo[1..], Start))
    case Mark =>
      Move(s.(totals := s.totals.(incomplete := true)), i, Caller(caller.todo[1..], Start))
  }

  predicate Initial(s: State) {
    && s.totals == Totals(ZEROS, false) && s.log == []
    && forall i :: 0 <= i < |s.callers| ==> s.callers[i].pc.Start?
  }

  predicate SomeMarking(s: State) {
    exists i :: 0 <= i < |s.callers| && s.callers[i].pc.Marking?
  }

  /** The counters are those of the additions replayed in the order of their successful exchanges, and so is
      the mark, counting those callers about to set it. */
  ghost predicate Inv(s: State) {
    var replayed := Replay(Totals(ZEROS, false), s.log);
    && s.totals.counts == replayed.counts
    && (s.totals.incomplete || SomeMarking(s) <==> replayed.incomplete)
    && (forall i :: 0 <= i < |s.callers| && !s.callers[i].pc.Start? ==> s.callers[i].todo != [])
  }

  lemma ReplayOneMore(log: seq<Add>, a: Add)
    ensures Replay(Totals(ZEROS, false), log + [a]) == Apply(Replay(Totals(ZEROS, false), log), a)
  {
    assert (log + [a])[..|log|] == log;
  }

  lemma StepKeepsInv(s: State, i: nat, step: Step)
    requires Inv(s) && Enabled(s, i, step)
    ensures Inv(Next(s, i, step))
  {
    var a := s.callers[i].todo[0];
    ReplayOneMore(s.log, a);
    var t := Next(s, i, step);
    assert forall j :: 0 <= j < |s.callers| && j != i ==> t.callers[j] == s.callers[j];
    hide Replay;
    match step
    case Load =>
      SameMarking(s, t, i);
    case ExchangeFails =>
      SameMarking(s, t, i);
    case ExchangeSucceeds =>
      if CheckedAdd(s.totals.counts[a.counter], a.value).None? {
        assert t.callers[i].pc.Marking?;
      } else {
        SameMarking(s, t, i);
      }
    case Mark =>
      assert s.callers[i].pc.Marking?;
  }

  lemma SameMarking(s: State, t: State, i: nat)
    requires |s.callers| == |t.callers| && i < |s.callers|
    requires !s.callers[i].pc.Marking? && !t.callers[i].pc.Marking?
    requires forall j :: 0 <= j < |s.callers| && j != i ==> t.callers[j] == s.callers[j]
    ensures SomeMarking(s) <==> SomeMarking(t)
  {
    if SomeMarking(s) {
      var j :| 0 <= j < |s.callers| && s.callers[j].pc.Marking?;
      assert t.callers[j].pc.Marking?;
    }
  }

  // ---------------------------------------------------------------- nothing is lost

  /** What a caller still has to add: its first addition only until its exchange has succeeded. */
  function Pending(c: Caller): seq<Add> {
    if c.pc.Marking? && c.todo != [] then c.todo[1..] else c.todo
  }

  function PendingSum(callers: seq<Caller>, c: Counter): nat {
    if callers == [] then 0 else PendingSum(callers[..|callers| - 1], c) + Sum(Pending(callers[|callers| - 1]), c)
  }

  lemma {:induction false} PendingSumUpdate(callers: seq<Caller>, i: nat, x: Caller, c: Counter)
    requires i < |callers|
    ensures PendingSum(callers[i := x], c) + Sum(Pending(callers[i]), c) == PendingSum(callers, c) + Sum(Pending(x), c)
  {
    hide Sum, Pending;
    var n := |callers| - 1;
    if i < n {
      PendingSumUpdate(callers[..n], i, x, c);
      assert callers[i := x][..n] == callers[..n][i := x];
    } else {
      assert callers[i := x][..n] == callers[..n];
    }
  }

  lemma SumHead(adds: seq<Add>, c: Counter)
    requires adds != []
    ensures Sum(adds, c) == (if adds[0].counter == c then adds[0].value else 0) + Sum(adds[1..], c)
  {
    SumAppend([adds[0]], adds[1..], c);
    assert adds == [adds[0]] + adds[1..];
    assert [adds[0]][..0] == [];
  }

  /** Every step keeps the sum of what has been added and what is still to add, counter by counter. */
  lemma StepConserves(s: State, i: nat, step: Step, c: Counter)
    requires Enabled(s, i, step)
    ensures var t := Next(s, i, step);
      Sum(t.log, c) + PendingSum(t.callers, c) == Sum(s.log, c) + PendingSum(s.callers, c)
  {
    var t := Next(s, i, step);
    PendingSumUpdate(s.callers, i, t.callers[i], c);
    SumHead(s.callers[i].todo, c);
    var a := s.callers[i].todo[0];
    assert (s.log + [a])[..|s.log|] == s.log;
    assert t.callers == s.callers[i := t.callers[i]];
    hide PendingSum;
  }

  /** A run: who takes which step, in any order. */
  datatype Action = Action(caller: nat, step: Step)

  ghost predicate Runs(s: State, run: seq<Action>, t: State)
    decreases |run|
  {
    if run == [] then s == t
    else Enabled(s, run[0].caller, run[0].step) && Runs(Next(s, run[0].caller, run[0].step), run[1..], t)
  }

  lemma {:induction false} RunKeepsInv(s: State, run: seq<Action>, t: State, c: Counter)
    requires Inv(s) && Runs(s, run, t)
    ensures Inv(t)
    ensures Sum(t.log, c) + PendingSum(t.callers, c) == Sum(s.log, c) + PendingSum(s.callers, c)
    decreases |run|
  {
    if run != [] {
      StepKeepsInv(s, run[0].caller, run[0].step);
      StepConserves(s, run[0].caller, run[0].step, c);
      hide Inv, Sum, PendingSum;
      RunKeepsInv(Next(s, run[0].caller, run[0].step), run[1..], t, c);
    }
  }

  predicate Finished(s: State) {
    forall i :: 0 <= i < |s.callers| ==> s.callers[i].todo == []
  }

  lemma {:induction false} NothingPending(callers: seq<Caller>, c: Counter)
    requires forall i :: 0 <= i < |callers| ==> callers[i].todo == []
    ensures PendingSum(callers, c) == 0
  {
    if callers != [] {
      NothingPending(callers[..|callers| - 1], c);
    }
  }

  /** In every reachable state each counter is the capped sum of its successful exchanges. */
  lemma CountersAreCappedSums(s: State, run: seq<Action>, t: State, c: Counter)
    requires Initial(s) && Runs(s, run, t)
    ensures t.totals.counts[c] == Min(U64_MAX, Sum(t.log, c))
    ensures t.totals.incomplete ==> exists c: Counter :: Sum(t.log, c) > U64_MAX
  {
    StartsSound(s);
    RunKeepsInv(s, run, t, c);
    ReplayIsCappedSum(t.log);
    hide Replay, Sum, Runs;
  }

  /** Once all calls have finished, whatever the interleaving: each counter is the capped sum of everything
      the callers set out to add, the totals are those of one caller making the additions one after the
      other, and they are marked incomplete exactly when some true sum does not fit. */
  lemma NoUpdateIsLost(s: State, run: seq<Action>, t: State)
    requires Initial(s) && Runs(s, run, t) && Finished(t)
    ensures forall c: Counter :: t.totals.counts[c] == Min(U64_MAX, PendingSum(s.callers, c))
    ensures t.totals.incomplete <==> exists c: Counter :: PendingSum(s.callers, c) > U64_MAX
    ensures t.totals == Replay(Totals(ZEROS, false), t.log)
  {
    StartsSound(s);
    RunKeepsInv(s, run, t, SEND_FAILURES);
    forall c: Counter ensures Sum(t.log, c) == PendingSum(s.callers, c) {
      RunKeepsInv(s, run, t, c);
      NothingPending(t.callers, c);
      hide Inv, Runs, Replay;
    }
    ReplayIsCappedSum(t.log);
    assert !SomeMarking(t);
    hide Replay, Runs, Sum, PendingSum;
    if c: Counter :| PendingSum(s.callers, c) > U64_MAX {
      assert Sum(t.log, c) > U64_MAX;
    }
    if t.totals.incomplete {
      var c: Counter :| Sum(t.log, c) > U64_MAX;
      assert PendingSum(s.callers, c) > U64_MAX;
    }
  }

  lemma StartsSound(s: State)
    requires Initial(s)
    ensures Inv(s) && forall c: Counter :: Sum(s.log, c) == 0
  {}

  function TallyAll(work: seq<seq<Operation>>, d: Direction, ipv4: bool): nat {
    if work == [] then 0 else TallyAll(work[..|work| - 1], d, ipv4) + Tally(work[|work| - 1], d, ipv4)
  }

  function PayloadAll(work: seq<seq<Operation>>, d: Direction): nat {
    if work == [] then 0 else PayloadAll(work[..|work| - 1], d) + Payload(work[|work| - 1], d)
  }

  function OverlongAll(work: seq<seq<Operation>>, d: Direction): nat {
    if work == [] then 0 else OverlongAll(work[..|work| - 1], d) + OverlongCount(work[|work| - 1], d)
  }

  function FailuresAll(work: seq<seq<Operation>>): nat {
    if work == [] then 0 else FailuresAll(work[..|work| - 1]) + Failures(work[|work| - 1])
  }

  /** Every caller sets out to count its own list of socket operations. */
  predicate CountsWork(s: State, work: seq<seq<Operation>>) {
    Initial(s) && |s.callers| == |work| && forall i :: 0 <= i < |work| ==> s.callers[i].todo == AllAdds(work[i])
  }

  lemma {:induction false} WorkAccounting(callers: seq<Caller>, work: seq<seq<Operation>>, d: Direction)
    requires |callers| == |work|
    requires forall i :: 0 <= i < |work| ==> callers[i].pc.Start? && callers[i].todo == AllAdds(work[i])
    ensures PendingSum(callers, Datagrams(d)) == TallyAll(work, d, true) + TallyAll(work, d, false)
    ensures PendingSum(callers, PayloadBytes(d)) == PayloadAll(work, d)
    ensures PendingSum(callers, IpBytes(d)) + 0x1_0000_0000_0000_0000 * OverlongAll(work, d)
         == PayloadAll(work, d) + 28 * TallyAll(work, d, true) + 48 * TallyAll(work, d, false)
    ensures PendingSum(callers, SEND_FAILURES) == FailuresAll(work)
  {
    var n := |work| - 1;
    if n >= 0 {
      WorkAccounting(callers[..n], work[..n], d);
      HeaderAccounting(work[n], d);
      hide Sum, AllAdds, Tally, Payload, Failures, OverlongCount;
    }
  }

  /** While no addition has overflowed, every counter and what is still to come for it make up what its
      callers set out to add, in every reachable state. */
  lemma CountsAndPending(s: State, run: seq<Action>, t: State, c: Counter)
    requires Initial(s) && Runs(s, run, t) && !t.totals.incomplete && !SomeMarking(t)
    ensures t.totals.counts[c] + PendingSum(t.callers, c) == PendingSum(s.callers, c)
  {
    StartsSound(s);
    RunKeepsInv(s, run, t, c);
    ReplayIsCappedSum(t.log);
    hide Replay, Runs, Sum, PendingSum;
    assert !(Sum(t.log, c) > U64_MAX);
  }

  /** So, in every reachable state without an overflow and whatever the interleaving: each direction's
      datagrams are those of its IPv4 or IPv4-mapped and of its other peers, its payload bytes are theirs, and its IP
      bytes are these plus 28 for each of the former and 48 for each of the latter, once what is still to come is added
      on both sides. */
  lemma TotalsInEveryState(s: State, run: seq<Action>, t: State, work: seq<seq<Operation>>, d: Direction)
    requires CountsWork(s, work) && Runs(s, run, t) && !t.totals.incomplete && !SomeMarking(t)
    ensures var counts, left := t.totals.counts, t.callers;
      && counts[Datagrams(d)] + PendingSum(left, Datagrams(d)) == TallyAll(work, d, true) + TallyAll(work, d, false)
      && counts[PayloadBytes(d)] + PendingSum(left, PayloadBytes(d)) == PayloadAll(work, d)
      && counts[IpBytes(d)] + PendingSum(left, IpBytes(d)) + 0x1_0000_0000_0000_0000 * OverlongAll(work, d)
         == PayloadAll(work, d) + 28 * TallyAll(work, d, true) + 48 * TallyAll(work, d, false)
      && counts[SEND_FAILURES] + PendingSum(left, SEND_FAILURES) == FailuresAll(work)
  {
    CountsAndPending(s, run, t, Datagrams(d));
    CountsAndPending(s, run, t, IpBytes(d));
    CountsAndPending(s, run, t, PayloadBytes(d));
    CountsAndPending(s, run, t, SEND_FAILURES);
    WorkAccounting(s.callers, work, d);
    hide Runs, PendingSum, TallyAll, PayloadAll, FailuresAll, OverlongAll, SomeMarking;
  }

  /** Once the callers have finished and while the totals are complete: IP bytes are payload bytes plus 28 or
      48 per datagram by kind of peer, exactly when no datagram was so long that its own sum wrapped. */
  lemma CompleteTotalsBalance(s: State, run: seq<Action>, t: State, work: seq<seq<Operation>>, d: Direction)
    requires CountsWork(s, work) && Runs(s, run, t) && Finished(t) && !t.totals.incomplete
    ensures var counts := t.totals.counts;
      && counts[Datagrams(d)] == TallyAll(work, d, true) + TallyAll(work, d, false)
      && counts[PayloadBytes(d)] == PayloadAll(work, d)
      && (counts[IpBytes(d)] == counts[PayloadBytes(d)] + 28 * TallyAll(work, d, true) + 48 * TallyAll(work, d, false)
          <==> OverlongAll(work, d) == 0)
      && counts[SEND_FAILURES] == FailuresAll(work)
  {
    FinishedIsNotMarking(s, run, t);
    TotalsInEveryState(s, run, t, work, d);
    NothingPending(t.callers, Datagrams(d));
    NothingPending(t.callers, IpBytes(d));
    NothingPending(t.callers, PayloadBytes(d));
    NothingPending(t.callers, SEND_FAILURES);
    hide Runs, PendingSum, TallyAll, PayloadAll, FailuresAll, OverlongAll, CountsWork, Finished;
  }

  lemma FinishedIsNotMarking(s: State, run: seq<Action>, t: State)
    requires Initial(s) && Runs(s, run, t) && Finished(t)
    ensures !SomeMarking(t)
  {
    StartsSound(s);
    RunKeepsInv(s, run, t, SEND_FAILURES);
    hide Runs, Replay;
  }
}
