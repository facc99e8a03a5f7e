/** The search for the next source port: a walk round the dynamic port range that goes on where the last
    successful search stopped. */
module SteeringPorts {
  import opened Prelude

  const PORT_MIN: nat := 49_152
  const PORT_COUNT: nat := 16_384

  predicate InRange(port: nat) {
    PORT_MIN <= port < PORT_MIN + PORT_COUNT
  }

  function NextPort(port: u16): (next: u16)
    ensures InRange(next)
  {
    if !(PORT_MIN <= port < U16_MAX) then PORT_MIN else port + 1
  }

  /** The k-th port tried by a search that starts at a port. */
  function Candidate(start: u16, k: nat): u16 {
    if k == 0 then start else NextPort(Candidate(start, k - 1))
  }

  lemma {:induction false} CandidateOffset(start: u16, k: nat)
    requires InRange(start)
    ensures Candidate(start, k) == PORT_MIN + (start - PORT_MIN + k) % PORT_COUNT
  {
    if k > 0 {
      CandidateOffset(start, k - 1);
    }
  }

  /** How many steps of the cycle lead from one port to another. */
  function Distance(start: u16, port: u16): (k: nat)
    requires InRange(start) && InRange(port)
    ensures k < PORT_COUNT
  {
    if start <= port then port - start else port - start + PORT_COUNT
  }

  lemma Wrap(offset: nat, k: nat)
    requires offset < PORT_COUNT && k < PORT_COUNT
    ensures (offset + k) % PORT_COUNT == if offset + k < PORT_COUNT then offset + k else offset + k - PORT_COUNT
  {}

  lemma CandidateWraps(start: u16, k: nat)
    requires InRange(start) && k < PORT_COUNT
    ensures Candidate(start, k) == if start + k <= U16_MAX then start + k else start + k - PORT_COUNT
  {
    CandidateOffset(start, k);
    Wrap(start - PORT_MIN, k);
    hide Candidate;
  }

  lemma FullTurn(offset: nat, steps: nat)
    requires offset < PORT_COUNT && 0 < steps && (offset + steps) % PORT_COUNT == offset
    ensures steps >= PORT_COUNT
  {}

  /** One search tries every port of the range exactly once, wherever in the range it starts. */
  lemma SingleCycle(start: u16, port: u16)
    requires InRange(start) && InRange(port)
    ensures Candidate(start, Distance(start, port)) == port
    ensures forall j: nat :: j < PORT_COUNT && Candidate(start, j) == port ==> j == Distance(start, port)
  {
    CandidateWraps(start, Distance(start, port));
    hide Candidate;
    forall j: nat | j < PORT_COUNT && Candidate(start, j) == port ensures j == Distance(start, port) {
      CandidateWraps(start, j);
    }
  }

  // ---------------------------------------------------------------- binding both families

  datatype BindError = AddrInUse | Other(code: int)

  /** A socket pair; a family the host lacks has none. */
  datatype FamilySockets = FamilySockets(port: u16, v4: bool, v6: bool)

  /** Binds one port for both families, given how each single bind ends. */
  function BindFamilies(port: u16, v4: Option<BindError>, v6: Option<BindError>): Result<FamilySockets, BindError> {
    if v4 == Some(AddrInUse) || v6 == Some(AddrInUse) then Err(AddrInUse)
    else if v4.Some? && v6.Some? then Err(v4.value)
    else Ok(FamilySockets(port, v4.None?, v6.None?))
  }

  /** A port taken in either family is taken; otherwise every family that can be bound is, and one is enough. */
  lemma BoundFamilies(port: u16, v4: Option<BindError>, v6: Option<BindError>)
    ensures var r := BindFamilies(port, v4, v6);
      && (r.Ok? <==> (v4.None? || v6.None?) && !(v4.Some? && v4.value.AddrInUse?) && !(v6.Some? && v6.value.AddrInUse?))
      && (r == Err(AddrInUse) <==> (v4.Some? && v4.value.AddrInUse?) || (v6.Some? && v6.value.AddrInUse?))
      && (r.Ok? ==> r.value.port == port && (r.value.v4 <==> v4.None?) && (r.value.v6 <==> v6.None?))
      && (r.Err? && r.error.Other? ==> v4 == Some(r.error) && v6.Some? && v6.value.Other?)
  {}

  /** How a search ends: with sockets and where the next search starts, or with an error. */
  datatype Search = Bound(sockets: FamilySockets, nextPort: u16) | Failed(error: BindError)

  /** How the binds of the k-th try of a search end, by port: IPv4 first. */
  type Host = (nat, u16) -> (Option<BindError>, Option<BindError>)

  function Try(host: Host, start: u16, k: nat): Result<FamilySockets, BindError> {
    var port := Candidate(start, k);
    BindFamilies(port, host(k, port).0, host(k, port).1)
  }

  function SearchStart(nextPort: u16, currentPort: u16): u16 {
    if nextPort == 0 then NextPort(currentPort) else nextPort
  }

  /** The first search starts behind the port in use, at the bottom of the range when that port is the last one
      or outside of it; a later search starts where the one before it said. */
  lemma SearchStartsAt(nextPort: u16, currentPort: u16)
    ensures InRange(nextPort) ==> SearchStart(nextPort, currentPort) == nextPort
    ensures nextPort == 0 && 49_152 <= currentPort <= 65_534 ==> SearchStart(nextPort, currentPort) == currentPort + 1
    ensures nextPort == 0 && (currentPort < 49_152 || currentPort == 65_535) ==> SearchStart(nextPort, currentPort) == 49_152
  {}

  /** The first n tries all find the port taken. */
  ghost predicate AllTaken(host: Host, start: u16, n: nat) {
    forall k: nat :: k < n ==> Try(host, start, k) == Err(AddrInUse)
  }

  /** The search ends with its k-th try, which is the first not to find the port taken. */
  ghost predicate EndsAt(host: Host, start: u16, k: nat) {
    k < PORT_COUNT && AllTaken(host, start, k) && Try(host, start, k) != Err(AddrInUse)
  }

  /** The first try from a given one on that does not find its port taken, or the end of the range. */
  function Stop(host: Host, start: u16, from: nat): (k: nat)
    requires from <= PORT_COUNT
    ensures from <= k <= PORT_COUNT
    decreases PORT_COUNT - from
  {
    if from == PORT_COUNT || Try(host, start, from) != Err(AddrInUse) then from else Stop(host, start, from + 1)
  }

  /** Every try before the one the search stops at finds its port taken, and that one does not. */
  lemma {:induction false} StopIsFirst(host: Host, start: u16, from: nat)
    requires from <= PORT_COUNT && AllTaken(host, start, from)
    ensures AllTaken(host, start, Stop(host, start, from))
    ensures Stop(host, start, from) < PORT_COUNT ==> EndsAt(host, start, Stop(host, start, from))
    decreases PORT_COUNT - from
  {
    hide Try;
    if from < PORT_COUNT && Try(host, start, from) == Err(AddrInUse) {
      StopIsFirst(host, start, from + 1);
    }
  }

  /** What the search returns: the outcome of the try it stops at, with the next port of the cycle as the
      start of the next search, or that every port was taken. */
  function SearchResult(host: Host, start: u16): Search {
    var k := Stop(host, start, 0);
    if k == PORT_COUNT then Failed(AddrInUse)
    else
      match Try(host, start, k)
      case Err(error) => Failed(error)
      case Ok(sockets) => Bound(sockets, NextPort(Candidate(start, k)))
  }

  method BindNextSteeringSocket(nextPort: u16, currentPort: u16, host: Host)
    returns (r: Search)
    ensures r == SearchResult(host, SearchStart(nextPort, currentPort))
  {
    hide Candidate, BindFamilies, Stop, Try;
    var start := SearchStart(nextPort, currentPort);
    var candidate := start;
    StartsAt(start);
    var lastError: Option<BindError> := None;
    for k := 0 to PORT_COUNT
      invariant candidate == Candidate(start, k) && Stop(host, start, 0) == Stop(host, start, k)
      invariant lastError == if k == 0 then None else Some(AddrInUse)
    {
      NextCandidate(start, k);
      StopAt(host, start, k);
      var families := host(k, candidate);
      match BindFamilies(candidate, families.0, families.1) {
        case Ok(sockets) =>
          return Bound(sockets, NextPort(candidate));
        case Err(error) =>
          if error != AddrInUse {
            return Failed(error);
          }
          lastError := Some(error);
          candidate := NextPort(candidate);
      }
    }
    r := Failed(lastError.value);
  }

  lemma StopAt(host: Host, start: u16, k: nat)
    requires k < PORT_COUNT
    ensures var port := Candidate(start, k);
      Try(host, start, k) == BindFamilies(port, host(k, port).0, host(k, port).1)
    ensures Stop(host, start, k) == if Try(host, start, k) == Err(AddrInUse) then Stop(host, start, k + 1) else k
  {
    hide BindFamilies, Candidate;
  }

  lemma StartsAt(start: u16)
    ensures Candidate(start, 0) == start
  {}

  lemma NextCandidate(start: u16, k: nat)
    ensures Candidate(start, k + 1) == NextPort(Candidate(start, k))
  {}

  /** The search fails for want of a port only when every port of the range is taken: with one free and no
      other failure among the tries, it succeeds. */
  lemma FreePortIsFound(host: Host, start: u16, port: u16)
    requires InRange(start) && InRange(port)
    requires forall k: nat :: k < PORT_COUNT && Candidate(start, k) == port ==> Try(host, start, k).Ok?
    ensures !AllTaken(host, start, PORT_COUNT)
    ensures SearchResult(host, start) != Failed(AddrInUse)
    ensures (forall k: nat :: k < PORT_COUNT ==> Try(host, start, k).Ok? || Try(host, start, k) == Err(AddrInUse)) ==>
              SearchResult(host, start).Bound?
  {
    SingleCycle(start, port);
    var k := Distance(start, port);
    hide Candidate;
    assert Try(host, start, k).Ok?;
    StopIsFirst(host, start, 0);
    assert EndsAt(host, start, Stop(host, start, 0));
  }

  // ---------------------------------------------------------------- successive searches

  /** Consecutive ports of the cycle. */
  ghost predicate Walk(ports: seq<u16>) {
    && (forall i :: 0 <= i < |ports| ==> InRange(ports[i]))
    && (forall i :: 0 < i < |ports| ==> ports[i] == NextPort(ports[i - 1]))
  }

  lemma {:induction false} WalkIsCandidates(ports: seq<u16>, i: nat, k: nat)
    requires Walk(ports) && i + k < |ports|
    ensures ports[i + k] == Candidate(ports[i], k)
  {
    if k > 0 {
      WalkIsCandidates(ports, i, k - 1);
      assert ports[i + k] == NextPort(ports[i + k - 1]);
    }
  }

  /** A walk comes back to a port only after it has been at every port of the range. */
  lemma NoEarlyReturn(ports: seq<u16>, i: nat, j: nat, port: u16)
    requires Walk(ports) && i < j < |ports| && ports[i] == ports[j] && InRange(port)
    ensures j - i >= PORT_COUNT
    ensures port in ports[i..j]
  {
    var start := ports[i];
    assert InRange(start);
    WalkIsCandidates(ports, i, j - i);
    CandidateOffset(start, j - i);
    FullTurn(start - PORT_MIN, j - i);
    SingleCycle(start, port);
    var k := Distance(start, port);
    WalkIsCandidates(ports, i, k);
    assert ports[i..j][k] == ports[i + k];
  }

  /** Where the next search starts, and as history every port that the successful searches tried. */
  datatype Progress = Progress(nextPort: u16, tried: seq<u16>)

  /** One steering attempt: the port in use and how binds end. */
  datatype Call = Call(currentPort: u16, host: Host)

  function ResultOf(p: Progress, call: Call): Search {
    SearchResult(call.host, SearchStart(p.nextPort, call.currentPort))
  }

  /** A failed attempt changes nothing, a successful one extends the walk by the ports it tried. */
  function After(p: Progress, call: Call): Progress {
    var start, r := SearchStart(p.nextPort, call.currentPort), ResultOf(p, call);
    if r.Bound? then Progress(r.nextPort, p.tried + Candidates(start, Stop(call.host, start, 0) + 1)) else p
  }

  function AfterAll(calls: seq<Call>): Progress {
    if calls == [] then Progress(0, []) else After(AfterAll(calls[..|calls| - 1]), calls[|calls| - 1])
  }

  /** The port that call k of a series binds, if it succeeds. */
  function BoundBy(calls: seq<Call>, k: nat): Option<u16>
    requires k < |calls|
  {
    match ResultOf(AfterAll(calls[..k]), calls[k])
    case Bound(sockets, _) => Some(sockets.port)
    case Failed(_) => None
  }

  /** The ports that the successful ones of the first k attempts tried. */
  function TriedBy(calls: seq<Call>, k: nat): seq<u16>
    requires k <= |calls|
  {
    AfterAll(calls[..k]).tried
  }

  /** What steering keeps: the ports tried are a walk that goes on where it stopped. */
  ghost predicate OnWalk(p: Progress) {
    Walk(p.tried) && p.nextPort == (if p.tried == [] then 0 else NextPort(p.tried[|p.tried| - 1]))
  }

  class PortSteering {
    var nextPort: u16
    ghost var tried: seq<u16>

    ghost function Current(): Progress
      reads this
    {
      Progress(nextPort, tried)
    }

    constructor ()
      ensures Current() == AfterAll([])
    {
      nextPort, tried := 0, [];
    }

    /** One steering attempt on whatever came before. */
    method Steer(currentPort: u16, host: Host) returns (r: Result<FamilySockets, BindError>)
      modifies this
      ensures Current() == After(old(Current()), Call(currentPort, host))
      ensures r == match ResultOf(old(Current()), Call(currentPort, host))
                   case Bound(sockets, _) => Ok(sockets)
                   case Failed(error) => Err(error)
    {
      hide Candidates, SearchResult, Stop, SearchStart;
      ghost var start := SearchStart(nextPort, currentPort);
      var search := BindNextSteeringSocket(nextPort, currentPort, host);
      if search.Failed? {
        return Err(search.error);
      }
      nextPort, tried := search.nextPort, tried + Candidates(start, Stop(host, start, 0) + 1);
      r := Ok(search.sockets);
    }
  }

  lemma StepStaysOnWalk(p: Progress, call: Call)
    requires OnWalk(p)
    ensures OnWalk(After(p, call)) && p.tried <= After(p, call).tried
    ensures ResultOf(p, call).Bound? ==>
              var q := After(p, call);
              |p.tried| < |q.tried| && q.tried[|q.tried| - 1] == ResultOf(p, call).sockets.port
  {
    var start := SearchStart(p.nextPort, call.currentPort);
    assert InRange(start);
    SearchExtendsWalk(p.tried, start, call.host);
    hide SearchResult, Stop, Walk, Candidates, NextPort;
  }

  lemma {:induction false} SeriesStaysOnWalk(calls: seq<Call>)
    ensures OnWalk(AfterAll(calls))
  {
    if calls == [] {
      assert Walk([]);
    } else {
      var n := |calls| - 1;
      SeriesStaysOnWalk(calls[..n]);
      StepStaysOnWalk(AfterAll(calls[..n]), calls[n]);
      hide OnWalk, After;
    }
  }

  lemma StepOfSeries(calls: seq<Call>)
    requires calls != []
    ensures AfterAll(calls[..|calls| - 1]).tried <= AfterAll(calls).tried
  {
    var n := |calls| - 1;
    SeriesStaysOnWalk(calls[..n]);
    StepStaysOnWalk(AfterAll(calls[..n]), calls[n]);
    hide OnWalk, After;
  }

  lemma PrefixTransitive(x: seq<u16>, y: seq<u16>, z: seq<u16>)
    requires x <= y <= z
    ensures x <= z
  {}

  lemma {:induction false} SeriesGrows(calls: seq<Call>, k: nat)
    requires k <= |calls|
    ensures AfterAll(calls[..k]).tried <= AfterAll(calls).tried
    decreases |calls|
  {
    hide *;
    if k == |calls| {
      assert calls[..k] == calls;
    } else {
      var n := |calls| - 1;
      SeriesGrows(calls[..n], k);
      StepOfSeries(calls);
      assert calls[..n][..k] == calls[..k];
      PrefixTransitive(AfterAll(calls[..k]).tried, AfterAll(calls[..n]).tried, AfterAll(calls).tried);
    }
  }

  lemma BoundIsLastTried(calls: seq<Call>, k: nat, port: u16)
    requires k < |calls| && BoundBy(calls, k) == Some(port)
    ensures |TriedBy(calls, k)| < |TriedBy(calls, k + 1)|
    ensures TriedBy(calls, k + 1)[|TriedBy(calls, k + 1)| - 1] == port
  {
    var front := calls[..k];
    SeriesStaysOnWalk(front);
    StepStaysOnWalk(AfterAll(front), calls[k]);
    assert calls[..k + 1][..k] == front;
    hide OnWalk, After, ResultOf;
  }

  lemma SeriesBetween(calls: seq<Call>, a: nat, b: nat)
    requires a <= b <= |calls|
    ensures TriedBy(calls, a) <= TriedBy(calls, b) && Walk(TriedBy(calls, b))
  {
    hide AfterAll, Walk;
    SeriesGrows(calls[..b], a);
    SeriesStaysOnWalk(calls[..b]);
    assert calls[..b][..a] == calls[..a];
  }

  /** In any series of steering attempts, whatever ports are in use and however binds end, and with any failed
      attempts in between: an attempt binds a port that an earlier one had bound only after every port of the
      range has been tried since. */
  lemma BoundAgainAfterFullRound(calls: seq<Call>, a: nat, b: nat)
    requires a < b < |calls| && BoundBy(calls, a).Some? && BoundBy(calls, b) == BoundBy(calls, a)
    ensures FullRound(TriedBy(calls, a + 1), TriedBy(calls, b + 1))
  {
    hide *;
    BoundIsLastTried(calls, a, BoundBy(calls, a).value);
    BoundIsLastTried(calls, b, BoundBy(calls, a).value);
    SeriesBetween(calls, a + 1, b);
    SeriesBetween(calls, b, b + 1);
    LastReturns(TriedBy(calls, a + 1), TriedBy(calls, b), TriedBy(calls, b + 1));
  }

  /** The later history goes on from the earlier one by at least a full round, through every port. */
  ghost predicate FullRound(earlier: seq<u16>, later: seq<u16>) {
    && earlier <= later && |later| - |earlier| >= PORT_COUNT
    && forall port: nat :: InRange(port) ==> port in later[|earlier|..]
  }

  lemma LastReturns(earlier: seq<u16>, between: seq<u16>, later: seq<u16>)
    requires Walk(later) && |earlier| > 0 && earlier <= between <= later && |between| < |later|
    requires earlier[|earlier| - 1] == later[|later| - 1]
    ensures FullRound(earlier, later)
  {
    hide Walk;
    PrefixTransitive(earlier, between, later);
    var i, j := |earlier| - 1, |later| - 1;
    forall port: nat | InRange(port) ensures j - i >= PORT_COUNT && port in later[|earlier|..] {
      NoEarlyReturn(later, i, j, port);
      LastPortAgain(later, i, port);
    }
    assert InRange(PORT_MIN);
  }

  lemma LastPortAgain(ports: seq<u16>, i: nat, port: nat)
    requires i < |ports| - 1 && ports[i] == ports[|ports| - 1] && port in ports[i..|ports| - 1]
    ensures port in ports[i + 1..]
  {
    var n := |ports| - 1;
    var k :| 0 <= k < n - i && ports[i..n][k] == port;
    assert ports[i + k] == port;
    if k == 0 {
      assert ports[i + 1..][n - i - 1] == port;
    } else {
      assert ports[i + 1..][k - 1] == port;
    }
  }

  function Candidates(start: u16, n: nat): (ports: seq<u16>)
    ensures |ports| == n
  {
    if n == 0 then [] else Candidates(start, n - 1) + [Candidate(start, n - 1)]
  }

  /** A successful search extends the walk by the ports it tried, the last of which it bound. */
  lemma SearchExtendsWalk(tried: seq<u16>, start: u16, host: Host)
    requires Walk(tried) && InRange(start)
    requires tried != [] ==> start == NextPort(tried[|tried| - 1])
    ensures var k, r := Stop(host, start, 0), SearchResult(host, start);
      var ports := tried + Candidates(start, k + 1);
      && Walk(ports)
      && (r.Bound? ==> ports[|ports| - 1] == r.sockets.port && r.nextPort == NextPort(ports[|ports| - 1]))
  {
    var k := Stop(host, start, 0);
    FoundPort(host, start);
    CandidatesExtendWalk(tried, start, k + 1);
    NextCandidate(start, k);
    hide *;
  }

  lemma FoundPort(host: Host, start: u16)
    ensures var k, r := Stop(host, start, 0), SearchResult(host, start);
      && (r.Bound? ==> EndsAt(host, start, k) && r.sockets.port == Candidate(start, k) && r.nextPort == Candidate(start, k + 1))
      && (r == Failed(AddrInUse) ==> AllTaken(host, start, PORT_COUNT))
  {
    NextCandidate(start, Stop(host, start, 0));
    StopIsFirst(host, start, 0);
    hide Candidate, AllTaken;
  }

  lemma {:induction false} CandidatesExtendWalk(tried: seq<u16>, start: u16, n: nat)
    requires Walk(tried) && InRange(start) && (tried != [] ==> start == NextPort(tried[|tried| - 1]))
    ensures Walk(tried + Candidates(start, n))
    ensures n > 0 ==> (tried + Candidates(start, n))[|tried| + n - 1] == Candidate(start, n - 1)
    decreases n
  {
    if n == 0 {
      assert tried + Candidates(start, 0) == tried;
    } else {
      CandidatesExtendWalk(tried, start, n - 1);
      if n > 1 {
        NextCandidate(start, n - 2);
      } else {
        StartsAt(start);
      }
      CandidateOffset(start, n - 1);
      hide Candidate, NextPort;
      WalkNext(tried + Candidates(start, n - 1), Candidate(start, n - 1));
      assert tried + Candidates(start, n) == tried + Candidates(start, n - 1) + [Candidate(start, n - 1)];
    }
  }

  lemma WalkNext(ports: seq<u16>, port: u16)
    requires Walk(ports) && InRange(port) && (ports != [] ==> port == NextPort(ports[|ports| - 1]))
    ensures Walk(ports + [port])
  {}
}
