/** The high-availability request: transmission rounds, the choice among the servers' answers, and the
    books kept on who answered and who could not be reached. */
module HaRequest {
  import opened Prelude
  import opened Wire
  import Arithmetic
  import P = RequestPolicy
  import Keys = ApiKeyCodec

  const NANOS_PER_MS: nat := 1_000_000
  const SERVER_ID_EPOCH_S_2025: nat := 1_735_689_600

  /** A datagram received from, or sent to, an address. */
  datatype Datagram = Datagram(data: seq<byte>, addr: SocketAddr)

  datatype RequestError =
    | Config(policy: P.ConfigurationError) | NoServers | WindowTooLarge | Protocol(wire: WireError)
    | Io(code: int) | Timeout | Steering(code: int)

  // ---------------------------------------------------------------- the age of a server

  datatype Ordering = Less | Equal | Greater

  function Compare(left: nat, right: nat): Ordering {
    if left < right then Less else if left == right then Equal else Greater
  }

  function StartSeconds(serverId: u64): nat {
    SERVER_ID_EPOCH_S_2025 + serverId / 0x80_0000
  }

  /** The start second first, then the whole id. */
  function CompareAge(left: u64, right: u64): Ordering {
    match Compare(StartSeconds(left), StartSeconds(right))
    case Equal => Compare(left, right)
    case other => other
  }

  /** Older means numerically smaller: the start time is the id's leading bits. */
  lemma AgeIsNumericOrder(left: u64, right: u64)
    ensures CompareAge(left, right) == Compare(left, right)
  {
    Arithmetic.DivMod(left, 0x80_0000);
    Arithmetic.DivMod(right, 0x80_0000);
  }

  /** The oldest of the allowed servers, if any are named. */
  ghost predicate IsOldest(oldest: Option<u64>, allowed: set<u64>) {
    match oldest
    case None => allowed == {}
    case Some(id) => id in allowed && forall other :: other in allowed ==> CompareAge(other, id) != Less
  }

  lemma AgeIsNumeric()
    ensures forall left: u64, right: u64 :: CompareAge(left, right) == Compare(left, right)
  {
    forall left: u64, right: u64 ensures CompareAge(left, right) == Compare(left, right) {
      AgeIsNumericOrder(left, right);
    }
  }

  method OldestServer(allowed: set<u64>) returns (oldest: Option<u64>)
    ensures IsOldest(oldest, allowed)
  {
    AgeIsNumeric();
    hide CompareAge;
    oldest := None;
    var rest := allowed;
    while rest != {}
      invariant rest <= allowed && IsOldest(oldest, allowed - rest)
    {
      var id :| id in rest;
      if oldest == None || CompareAge(id, oldest.value) == Less {
        oldest := Some(id);
      }
      assert allowed - (rest - {id}) == allowed - rest + {id};
      rest := rest - {id};
    }
  }

  // ---------------------------------------------------------------- targets

  /** The resolved servers: every address in listing order, the server id of an address where it is
      known, and the ids an answer may carry. */
  datatype Resolved = Resolved(targets: seq<SocketAddr>, serverIds: map<SocketAddr, u64>, allowed: set<u64>)
  {
    predicate Responded(target: SocketAddr, ids: set<u64>, addrs: set<SocketAddr>) {
      if target in serverIds then serverIds[target] in ids else target in addrs
    }

    /** The addresses among the first n that still owe an answer, in listing order. */
    function Missing(ids: set<u64>, addrs: set<SocketAddr>, n: nat): (missing: seq<SocketAddr>)
      requires n <= |targets|
    {
      if n == 0 then []
      else Missing(ids, addrs, n - 1) + (if Responded(targets[n - 1], ids, addrs) then [] else [targets[n - 1]])
    }
  }

  lemma {:induction false} MissingMembers(r: Resolved, ids: set<u64>, addrs: set<SocketAddr>, n: nat, t: SocketAddr)
    requires n <= |r.targets|
    ensures t in r.Missing(ids, addrs, n) <==> t in r.targets[..n] && !r.Responded(t, ids, addrs)
  {
    if n > 0 {
      MissingMembers(r, ids, addrs, n - 1, t);
      assert r.targets[..n] == r.targets[..n - 1] + [r.targets[n - 1]];
    }
  }

  /** Before anybody has answered, everybody is owed a transmission. */
  lemma {:induction false} NobodyResponded(r: Resolved, n: nat)
    requires n <= |r.targets|
    ensures r.Missing({}, {}, n) == r.targets[..n]
  {
    if n > 0 {
      NobodyResponded(r, n - 1);
    }
  }

  /** A configured server, with what its host name resolves to, or nothing when the lookup fails. */
  datatype Endpoint = Endpoint(addresses: Option<seq<SocketAddr>>, serverId: Option<u64>)

  function Addresses(servers: seq<Endpoint>): seq<SocketAddr> {
    if servers == [] then []
    else
      var last := servers[|servers| - 1];
      Addresses(servers[..|servers| - 1]) + (if last.addresses.Some? then last.addresses.value else [])
  }

  /** Server k has a known id and the address a. */
  predicate Lists(server: Endpoint, a: SocketAddr) {
    server.serverId.Some? && server.addresses.Some? && a in server.addresses.value
  }

  /** The last server that lists the address has the id. */
  ghost predicate LastListed(servers: seq<Endpoint>, a: SocketAddr, id: u64) {
    exists k :: 0 <= k < |servers| && Lists(servers[k], a) && servers[k].serverId == Some(id)
                && forall j :: k < j < |servers| ==> !Lists(servers[j], a)
  }

  /** A server with at least one address has the id. */
  ghost predicate Reachable(servers: seq<Endpoint>, id: u64) {
    exists k :: 0 <= k < |servers| && servers[k].serverId == Some(id) && servers[k].addresses.Some?
                && servers[k].addresses.value != []
  }

  /** The targets are all addresses in order; exactly the reachable servers' ids may answer; and an address
      stands for the last server that lists it. */
  ghost predicate Resolves(servers: seq<Endpoint>, r: Resolved) {
    && r.targets == Addresses(servers)
    && (forall id :: id in r.allowed <==> Reachable(servers, id))
    && (forall a :: a in r.serverIds <==> exists k :: 0 <= k < |servers| && Lists(servers[k], a))
    && (forall a :: a in r.serverIds ==> LastListed(servers, a, r.serverIds[a]))
  }

  lemma LastListedNext(servers: seq<Endpoint>, s: Endpoint, a: SocketAddr, id: u64)
    ensures Lists(s, a) && s.serverId == Some(id) ==> LastListed(servers + [s], a, id)
    ensures !Lists(s, a) && LastListed(servers, a, id) ==> LastListed(servers + [s], a, id)
  {
    hide Lists;
    var all := servers + [s];
    assert all[|servers|] == s;
    if !Lists(s, a) && LastListed(servers, a, id) {
      var k :| 0 <= k < |servers| && Lists(servers[k], a) && servers[k].serverId == Some(id)
               && forall j :: k < j < |servers| ==> !Lists(servers[j], a);
      assert Lists(all[k], a);
    }
  }

  lemma ReachableNext(servers: seq<Endpoint>, s: Endpoint, id: u64)
    ensures Reachable(servers + [s], id) <==>
              Reachable(servers, id) || (s.serverId == Some(id) && s.addresses.Some? && s.addresses.value != [])
  {
    var all := servers + [s];
    assert all[|servers|] == s;
    if Reachable(servers, id) {
      var k :| 0 <= k < |servers| && servers[k].serverId == Some(id) && servers[k].addresses.Some?
               && servers[k].addresses.value != [];
      assert all[k] == servers[k];
    }
  }

  lemma ListedNext(servers: seq<Endpoint>, s: Endpoint, a: SocketAddr)
    ensures (exists k :: 0 <= k < |servers + [s]| && Lists((servers + [s])[k], a)) <==>
              (exists k :: 0 <= k < |servers| && Lists(servers[k], a)) || Lists(s, a)
  {
    var all := servers + [s];
    assert all[|servers|] == s;
    if k :| 0 <= k < |servers| && Lists(servers[k], a) {
      assert Lists(all[k], a);
    }
  }

  lemma ResolvesNext(servers: seq<Endpoint>, r: Resolved, s: Endpoint, r': Resolved)
    requires Resolves(servers, r) && s.addresses.Some?
    requires r'.targets == r.targets + s.addresses.value
    requires r'.allowed == r.allowed + (if s.serverId.Some? && s.addresses.value != [] then {s.serverId.value} else {})
    requires r'.serverIds.Keys == r.serverIds.Keys + (set a | a in s.addresses.value && s.serverId.Some?)
    requires forall a :: a in r'.serverIds ==> r'.serverIds[a] == if Lists(s, a) then s.serverId.value else r.serverIds[a]
    ensures Resolves(servers + [s], r')
  {
    assert (servers + [s])[..|servers|] == servers;
    forall a ensures a in r'.serverIds <==> exists k :: 0 <= k < |servers + [s]| && Lists((servers + [s])[k], a) {
      ListedNext(servers, s, a);
      hide Reachable, LastListed, Addresses;
    }
    forall a | a in r'.serverIds ensures LastListed(servers + [s], a, r'.serverIds[a]) {
      LastListedNext(servers, s, a, r'.serverIds[a]);
      hide Reachable, LastListed, Addresses;
    }
    forall id ensures id in r'.allowed <==> Reachable(servers + [s], id) {
      ReachableNext(servers, s, id);
      hide Reachable, LastListed, Addresses;
    }
  }

  method CurrentTargets(servers: seq<Endpoint>) returns (r: Option<Resolved>)
    ensures r.None? <==> exists s :: s in servers && s.addresses.None?
    ensures r.Some? ==> Resolves(servers, r.value)
  {
    var targets: seq<SocketAddr> := [];
    var serverIds: map<SocketAddr, u64> := map[];
    var allowed: set<u64> := {};
    for k := 0 to |servers|
      invariant Resolves(servers[..k], Resolved(targets, serverIds, allowed))
      invariant forall s :: s in servers[..k] ==> s.addresses.Some?
    {
      hide Resolves, Addresses;
      var server := servers[k];
      assert servers[..k + 1] == servers[..k] + [server];
      if server.addresses.None? {
        return None;
      }
      ghost var before := Resolved(targets, serverIds, allowed);
      var addresses := server.addresses.value;
      for i := 0 to |addresses|
        invariant targets == before.targets + addresses[..i]
        invariant allowed == before.allowed + (if server.serverId.Some? && i > 0 then {server.serverId.value} else {})
        invariant serverIds.Keys == before.serverIds.Keys + (set a | a in addresses[..i] && server.serverId.Some?)
        invariant forall a :: a in serverIds ==>
                    serverIds[a] == if server.serverId.Some? && a in addresses[..i] then server.serverId.value
                                    else before.serverIds[a]
      {
        assert addresses[..i + 1] == addresses[..i] + [addresses[i]];
        targets := targets + [addresses[i]];
        if server.serverId.Some? {
          allowed := allowed + {server.serverId.value};
          serverIds := serverIds[addresses[i] := server.serverId.value];
        }
      }
      assert addresses[..|addresses|] == addresses;
      ResolvesNext(servers[..k], before, server, Resolved(targets, serverIds, allowed));
    }
    assert servers[..|servers|] == servers;
    r := Some(Resolved(targets, serverIds, allowed));
  }

  // ---------------------------------------------------------------- the books

  datatype ServerStats = ServerStats(validResponses: nat, sendFailures: nat)

  type Books = map<u64, ServerStats>

  function StatsOf(books: Books, id: u64): ServerStats {
    if id in books then books[id] else ServerStats(0, 0)
  }

  function Credit(books: Books, id: u64): Books {
    var s := StatsOf(books, id);
    books[id := s.(validResponses := s.validResponses + 1)]
  }

  function CreditAll(books: Books, ids: seq<u64>): Books {
    if ids == [] then books else Credit(CreditAll(books, ids[..|ids| - 1]), ids[|ids| - 1])
  }

  function BlameOne(books: Books, id: u64): Books {
    var s := StatsOf(books, id);
    books[id := s.(sendFailures := s.sendFailures + 1)]
  }

  function Blame(books: Books, ids: seq<u64>): Books {
    if ids == [] then books else BlameOne(Blame(books, ids[..|ids| - 1]), ids[|ids| - 1])
  }

  function Occurrences(ids: seq<u64>, id: u64): nat {
    if ids == [] then 0 else Occurrences(ids[..|ids| - 1], id) + (if ids[|ids| - 1] == id then 1 else 0)
  }

  /** Blaming adds one failure per mention and touches nothing else; crediting adds one answer. */
  lemma {:induction false} BlameCounts(books: Books, ids: seq<u64>, id: u64)
    ensures StatsOf(Blame(books, ids), id)
         == ServerStats(StatsOf(books, id).validResponses, StatsOf(books, id).sendFailures + Occurrences(ids, id))
  {
    if ids != [] {
      BlameCounts(books, ids[..|ids| - 1], id);
    }
  }

  lemma {:induction false} CreditCounts(books: Books, ids: seq<u64>, id: u64)
    ensures StatsOf(CreditAll(books, ids), id)
         == ServerStats(StatsOf(books, id).validResponses + Occurrences(ids, id), StatsOf(books, id).sendFailures)
  {
    if ids != [] {
      CreditCounts(books, ids[..|ids| - 1], id);
    }
  }

  lemma BlameNobody(books: Books)
    ensures Blame(books, []) == books
  {}

  lemma {:induction false} BlameAppend(books: Books, a: seq<u64>, b: seq<u64>)
    ensures Blame(books, a + b) == Blame(Blame(books, a), b)
  {
    if b == [] {
      assert a + b == a;
    } else {
      BlameAppend(books, a, b[..|b| - 1]);
      assert (a + b)[..|a + b| - 1] == a + b[..|b| - 1];
    }
  }

  // ---------------------------------------------------------------- the environment of one request

  /** How one wait on the response channel ends: a datagram after some time, which may end past the
      deadline, or nothing until some time after the deadline. */
  datatype Event = Arrival(datagram: Datagram, elapsed: nat) | Silence(late: nat)

  /** Which sends fail, by transmission and target, and how long a transmission takes. */
  datatype Network = Network(fault: (nat, nat) -> Option<int>, sendTime: nat -> nat)

  /** How many events have been used up, and the time in nanoseconds. */
  datatype Cursor = Cursor(next: nat, now: nat)

  datatype Verifier = Verifier(auth: AuthMethod, cipher: Cipher)

  /** An accepted answer, where it came from and when it was received. */
  datatype Answer = Answer(result: RateLimitResult, addr: SocketAddr, at: nat)

  /** A datagram is an answer when its header names an allowed server and the whole of it parses. */
  function Accepted(d: Datagram, allowed: set<u64>, v: Verifier): Option<RateLimitResult> {
    match PeekServerId(d.data)
    case None => None
    case Some(id) =>
      if allowed != {} && id !in allowed then None
      else
        match ParseRateResponse(d.data, v.auth, v.cipher)
        case Err(_) => None
        case Ok(result) => Some(result)
  }

  lemma AcceptedIsAllowed(d: Datagram, allowed: set<u64>, v: Verifier)
    requires Accepted(d, allowed, v).Some?
    ensures allowed == {} || Accepted(d, allowed, v).value.serverId in allowed
  {
    ResponseNamesPeekedServer(d.data, v.auth, v.cipher);
    hide ParseRateResponse, PeekServerId;
  }

  /** A datagram is accepted exactly when the whole of it parses to a response of an allowed server, whatever the
      response says. */
  lemma AcceptedExactly(d: Datagram, allowed: set<u64>, v: Verifier, x: RateLimitResult)
    ensures Accepted(d, allowed, v) == Some(x) <==>
              ParseRateResponse(d.data, v.auth, v.cipher) == Ok(x) && (allowed == {} || x.serverId in allowed)
  {
    if ParseRateResponse(d.data, v.auth, v.cipher).Ok? {
      ResponseNamesPeekedServer(d.data, v.auth, v.cipher);
    }
    hide ParseRateResponse, PeekServerId;
  }

  /** The framed response of an allowed server is accepted, denials included, and reports its blocks. */
  lemma FramedResponseAccepted(h: TenantHeader, nonce: Nonce, guards: seq<GuardBlock>, resources: seq<ResourceBlock>,
                               tlvs: seq<byte>, word: u32, addr: SocketAddr, allowed: set<u64>, v: Verifier)
    requires ClientHeader(h) && Lawful(v.cipher) && (allowed == {} || h.keyId in allowed)
    requires Pdu(PDU_RATE_RESPONSE, word, Body(guards, resources, tlvs)).Ok?
    ensures var pdu := Pdu(PDU_RATE_RESPONSE, word, Body(guards, resources, tlvs)).value;
            var accepted := Accepted(Datagram(Packet(h, v.auth, pdu, nonce, v.cipher), addr), allowed, v);
            accepted.Some? && Reports(accepted.value, guards, resources, h.keyId, h.steeringFeedback != 0)
  {
    var pdu := Pdu(PDU_RATE_RESPONSE, word, Body(guards, resources, tlvs)).value;
    hide Accepted, Packet, Pdu, Body, ParseRateResponse, Lawful;
    assert pdu + [] == pdu;
    ResponsePacketRoundTrip(h, v.auth, nonce, v.cipher, guards, resources, tlvs, word, []);
    var parsed := ParseRateResponse(Packet(h, v.auth, pdu, nonce, v.cipher), v.auth, v.cipher);
    ReportedServer(parsed.value, guards, resources, h.keyId, h.steeringFeedback != 0);
    hide Reports;
    AcceptedExactly(Datagram(Packet(h, v.auth, pdu, nonce, v.cipher), addr), allowed, v, parsed.value);
  }

  lemma ReportedServer(x: RateLimitResult, guards: seq<GuardBlock>, resources: seq<ResourceBlock>, id: u64, steering: bool)
    requires Reports(x, guards, resources, id, steering)
    ensures x.serverId == id
  {}

  function IdsOf(answers: seq<Answer>): (ids: seq<u64>)
    ensures |ids| == |answers|
  {
    seq(|answers|, i requires 0 <= i < |answers| => answers[i].result.serverId)
  }

  function AddrsOf(answers: seq<Answer>): (addrs: seq<SocketAddr>) {
    seq(|answers|, i requires 0 <= i < |answers| => answers[i].addr)
  }

  /** The answer at k is the oldest server's, and the first among equally old ones. */
  ghost predicate FirstOldest(answers: seq<Answer>, k: nat) {
    && k < |answers|
    && (forall j :: 0 <= j < k ==> CompareAge(answers[k].result.serverId, answers[j].result.serverId) == Less)
    && (forall j :: k <= j < |answers| ==> CompareAge(answers[j].result.serverId, answers[k].result.serverId) != Less)
  }

  /** How a run went: the phase it ended in, how many of its answers were listened to, which server was the
      oldest allowed one, what came of it, and when. */
  datatype Trace = Trace(
    phase: nat, n: nat, oldest: Option<u64>, outcome: Result<Option<RateLimitResult>, RequestError>, now: nat)
  {
    predicate Selected() {
      outcome.Ok? && outcome.value.Some?
    }

    /** What the caller gets: steering errors come after the selection. */
    function Returned(steered: Option<RequestError>): Result<RateLimitResult, RequestError> {
      match outcome
      case Err(e) => Err(e)
      case Ok(None) => Err(Timeout)
      case Ok(Some(result)) => if steered.Some? then Err(steered.value) else Ok(result)
    }
  }

  datatype Run = Run(
    policy: P.RequestPolicy, resolved: Resolved, events: seq<Event>, net: Network, startedAt: nat, verifier: Verifier)
  {
    function Verdict(d: Datagram): Option<RateLimitResult> {
      Accepted(d, resolved.allowed, verifier)
    }

    /** The answers that waiting from c until the deadline brings, if nothing ends the wait early. */
    function Answers(c: Cursor, deadline: nat): seq<Answer>
      decreases |events| - c.next
    {
      if c.now >= deadline || c.next >= |events| then []
      else
        match events[c.next]
        case Silence(_) => []
        case Arrival(d, elapsed) =>
          var later := Answers(Cursor(c.next + 1, c.now + elapsed), deadline);
          match Verdict(d)
          case None => later
          case Some(result) => [Answer(result, d.addr, c.now + elapsed)] + later
    }

    /** Where the clock and the channel are after that wait. */
    function WaitEnd(c: Cursor, deadline: nat): Cursor
      decreases |events| - c.next
    {
      if c.now >= deadline then c
      else if c.next >= |events| then Cursor(c.next, deadline)
      else
        match events[c.next]
        case Silence(late) => Cursor(c.next + 1, deadline + late)
        case Arrival(_, elapsed) => WaitEnd(Cursor(c.next + 1, c.now + elapsed), deadline)
    }

    predicate WellFormed() {
      policy.replayGap.WellFormed()
    }

    /** Phases 0 to N are the transmission rounds, phase N + 1 only receives. */
    function Phases(): nat {
      policy.replayCount + 2
    }

    predicate Transmits(phase: nat) {
      phase <= policy.replayCount
    }

    function PhaseWindow(phase: nat): nat
      requires WellFormed()
    {
      (if Transmits(phase) then P.Window(policy, phase) else P.FinalWindow(policy)) * NANOS_PER_MS
    }

    /** Where a phase starts when every earlier one went by in silence. */
    function PhaseStart(phase: nat): Cursor
      requires WellFormed()
      decreases phase, 0
    {
      if phase == 0 then Cursor(0, startedAt)
      else WaitEnd(Opening(phase - 1), Opening(phase - 1).now + PhaseWindow(phase - 1))
    }

    /** Where a phase starts to wait. */
    function Opening(phase: nat): Cursor
      requires WellFormed()
      decreases phase, 1
    {
      var c := PhaseStart(phase);
      if Transmits(phase) then Cursor(c.next, c.now + net.sendTime(phase)) else c
    }

    function Deadline(phase: nat): nat
      requires WellFormed()
    {
      Opening(phase).now + PhaseWindow(phase)
    }

    /** What a phase hears when every earlier one went by in silence. */
    function Heard(phase: nat): seq<Answer>
      requires WellFormed()
    {
      Answers(Opening(phase), Deadline(phase))
    }

    predicate NothingSent(tx: nat) {
      resolved.targets != [] && forall k :: 0 <= k < |resolved.targets| ==> net.fault(tx, k).Some?
    }

    /** Every phase before this one transmitted and heard nothing. */
    ghost predicate Quiet(phase: nat)
      requires WellFormed()
    {
      forall p: nat :: p < phase ==> Heard(p) == [] && (Transmits(p) ==> !NothingSent(p))
    }

    /** The documented rule for the answers of one phase, of which the first n are listened to: in round 0
        the oldest server's answer, for which the whole window is waited unless the oldest allowed server
        answers; in every later phase the first answer. */
    ghost predicate Chosen(answers: seq<Answer>, phase: nat, oldest: Option<u64>, n: nat, result: RateLimitResult) {
      && 1 <= n <= |answers|
      && if phase > 0 then n == 1 && result == answers[0].result
         else
           && (exists k: nat :: k < n && FirstOldest(answers, k) && answers[k].result == result)
           && (forall j :: 0 <= j < n - 1 ==> oldest != Some(answers[j].result.serverId))
           && (n == |answers| || oldest == Some(answers[n - 1].result.serverId))
    }

    /** When the selection of a phase is made: with the last answer listened to, except that a round 0 which
        the oldest allowed server leaves unanswered waits its window out. */
    function SelectionTime(answers: seq<Answer>, phase: nat, oldest: Option<u64>, n: nat, windowEnd: nat): nat
      requires 1 <= n <= |answers|
    {
      if phase > 0 || oldest == Some(answers[n - 1].result.serverId) then answers[n - 1].at else windowEnd
    }

    /** How the phases of a request may end. */
    ghost predicate Ends(phase: nat, n: nat, oldest: Option<u64>, outcome: Result<Option<RateLimitResult>, RequestError>)
      requires WellFormed()
    {
      && phase <= Phases()
      && Quiet(phase)
      && match outcome
         case Err(e) => n == 0 && Transmits(phase) && NothingSent(phase)
                        && e == Io(net.fault(phase, |resolved.targets| - 1).value)
         case Ok(None) => n == 0 && phase == Phases()
         case Ok(Some(result)) =>
           1 <= n && phase < Phases() && (Transmits(phase) ==> !NothingSent(phase))
           && Chosen(Heard(phase), phase, oldest, n, result)
    }

    // -------------------------------------------------------------- transmissions

    function LastFault(tx: nat, ids: set<u64>, addrs: set<SocketAddr>, n: nat): Option<int>
      requires n <= |resolved.targets|
    {
      if n == 0 then None
      else if !resolved.Responded(resolved.targets[n - 1], ids, addrs) && net.fault(tx, n - 1).Some? then net.fault(tx, n - 1)
      else LastFault(tx, ids, addrs, n - 1)
    }

    /** The known servers among the first n targets that a transmission could not reach. */
    function FailedIds(tx: nat, ids: set<u64>, addrs: set<SocketAddr>, n: nat): seq<u64>
      requires n <= |resolved.targets|
    {
      if n == 0 then []
      else
        var t := resolved.targets[n - 1];
        FailedIds(tx, ids, addrs, n - 1)
        + (if !resolved.Responded(t, ids, addrs) && net.fault(tx, n - 1).Some? && t in resolved.serverIds
           then [resolved.serverIds[t]] else [])
    }

    /** No owed transmission to the first n targets gets out. */
    predicate NoneReached(tx: nat, ids: set<u64>, addrs: set<SocketAddr>, n: nat)
      requires n <= |resolved.targets|
    {
      forall k :: 0 <= k < n && !resolved.Responded(resolved.targets[k], ids, addrs) ==> net.fault(tx, k).Some?
    }

    predicate AllReached(tx: nat, ids: set<u64>, addrs: set<SocketAddr>, n: nat)
      requires n <= |resolved.targets|
    {
      forall k :: 0 <= k < n && !resolved.Responded(resolved.targets[k], ids, addrs) ==> net.fault(tx, k).None?
    }

    /** The servers a transmission to every target could not reach. */
    function RoundBlame(round: nat): seq<u64> {
      FailedIds(round, {}, {}, |resolved.targets|)
    }

    function Blamed(rounds: nat): seq<u64> {
      if rounds == 0 then [] else Blamed(rounds - 1) + RoundBlame(rounds - 1)
    }

    /** How many transmissions a request makes that ends in a phase. */
    function Transmissions(phase: nat): nat {
      if Transmits(phase) then phase + 1 else policy.replayCount + 1
    }

    /** How many of them got out: all but the one that ended the request. */
    function Delivered(phase: nat, ok: bool): nat {
      if ok then Transmissions(phase) else phase
    }

    /** The datagrams of the first `rounds` transmissions, each to every target. */
    function Broadcasts(packet: seq<byte>, rounds: nat): (sent: seq<Datagram>)
      ensures |sent| == rounds * |resolved.targets|
    {
      if rounds == 0 then []
      else
        Arithmetic.Distribute(rounds - 1, 1, |resolved.targets|);
        Broadcasts(packet, rounds - 1) + ToEach(packet, resolved.targets)
    }

    // -------------------------------------------------------------- a whole request

    /** What is true of a finished run: it ended as the rule says, at the time the environment fixes. */
    ghost predicate Explains(t: Trace)
      requires WellFormed()
    {
      && IsOldest(t.oldest, resolved.allowed)
      && Ends(t.phase, t.n, t.oldest, t.outcome)
      && t.n <= |Heard(t.phase)|
      && t.now == EndTime(t)
    }

    /** When a finished run is over: after the sends that failed, with the selection, or at the end of the last
        wait. */
    function EndTime(t: Trace): nat
      requires WellFormed() && t.n <= |Heard(t.phase)| && (t.Selected() ==> t.n >= 1)
    {
      match t.outcome
      case Err(_) => Opening(t.phase).now
      case Ok(None) => PhaseStart(t.phase).now
      case Ok(Some(_)) => SelectionTime(Heard(t.phase), t.phase, t.oldest, t.n, PhaseStart(t.phase + 1).now)
    }

    /** The answers listened to. */
    function Listened(t: Trace): seq<Answer>
      requires WellFormed() && t.n <= |Heard(t.phase)|
    {
      Heard(t.phase)[..t.n]
    }

    /** Who still owes an answer when the selection is made. */
    function Owing(t: Trace): seq<SocketAddr>
      requires WellFormed() && t.n <= |Heard(t.phase)|
    {
      resolved.Missing(SetOf(IdsOf(Listened(t))), SetOf(AddrsOf(Listened(t))), |resolved.targets|)
    }

    /** Completion delivery happens for a selection made within the deduplication lifetime. */
    predicate Completes(t: Trace, ttlMs: u32) {
      t.Selected() && policy.completionDelivery && t.now < startedAt + ttlMs * NANOS_PER_MS
    }

    function SentBy(packet: seq<byte>, t: Trace, ttlMs: u32): seq<Datagram>
      requires WellFormed() && t.n <= |Heard(t.phase)|
    {
      Broadcasts(packet, Transmissions(t.phase)) + (if Completes(t, ttlMs) then ToEach(packet, Owing(t)) else [])
    }

    /** Completion delivery blames like every transmission: only when something got out. */
    function CompletionBlame(t: Trace): seq<u64>
      requires WellFormed() && t.n <= |Heard(t.phase)|
    {
      var ids, addrs, n := SetOf(IdsOf(Listened(t))), SetOf(AddrsOf(Listened(t))), |resolved.targets|;
      if Owing(t) != [] && NoneReached(Transmissions(t.phase), ids, addrs, n) then []
      else FailedIds(Transmissions(t.phase), ids, addrs, n)
    }

    function BooksAfter(books: Books, t: Trace, ttlMs: u32): Books
      requires WellFormed() && t.n <= |Heard(t.phase)|
    {
      var settled := CreditAll(Blame(books, Blamed(Delivered(t.phase, t.outcome.Ok?))), IdsOf(Listened(t)));
      if Completes(t, ttlMs) then Blame(settled, CompletionBlame(t)) else settled
    }
  }

  function ToEach(packet: seq<byte>, targets: seq<SocketAddr>): (sent: seq<Datagram>)
    ensures |sent| == |targets|
  {
    seq(|targets|, i requires 0 <= i < |targets| => Datagram(packet, targets[i]))
  }

  function SetOf<T(==)>(s: seq<T>): set<T> {
    set x | x in s
  }

  lemma SetOfAppend<T>(s: seq<T>, x: T)
    ensures SetOf(s + [x]) == SetOf(s) + {x}
  {}

  /** A wait never ends before its deadline. */
  lemma {:induction false} WaitReachesDeadline(run: Run, c: Cursor, deadline: nat)
    ensures run.WaitEnd(c, deadline).now >= deadline && run.WaitEnd(c, deadline).now >= c.now
    decreases |run.events| - c.next
  {
    if c.now < deadline && c.next < |run.events| && run.events[c.next].Arrival? {
      WaitReachesDeadline(run, Cursor(c.next + 1, c.now + run.events[c.next].elapsed), deadline);
    }
  }

  lemma VerdictIsAllowed(run: Run, d: Datagram)
    ensures run.Verdict(d).Some? && run.resolved.allowed != {} ==>
              run.Verdict(d).value.serverId in run.resolved.allowed
  {
    hide Accepted;
    if run.Verdict(d).Some? {
      AcceptedIsAllowed(d, run.resolved.allowed, run.verifier);
    }
  }

  /** How one wait moves the clock and the channel on. */
  function NextCursor(run: Run, c: Cursor, deadline: nat): Cursor {
    if c.next >= |run.events| then Cursor(c.next, deadline)
    else
      match run.events[c.next]
      case Silence(late) => Cursor(c.next + 1, deadline + late)
      case Arrival(_, elapsed) => Cursor(c.next + 1, c.now + elapsed)
  }

  predicate Arrives(run: Run, c: Cursor) {
    c.next < |run.events| && run.events[c.next].Arrival?
  }

  function FirstAnswer(verdict: Option<RateLimitResult>, addr: SocketAddr, at: nat): seq<Answer> {
    match verdict
    case None => []
    case Some(result) => [Answer(result, addr, at)]
  }

  lemma OneWait(run: Run, c: Cursor, deadline: nat)
    requires c.now < deadline
    ensures var next := NextCursor(run, c, deadline);
      && run.WaitEnd(c, deadline) == run.WaitEnd(next, deadline)
      && c.now <= next.now <= run.WaitEnd(next, deadline).now
      && (Arrives(run, c) ==>
            var d := run.events[c.next].datagram;
            run.Answers(c, deadline)
            == FirstAnswer(Accepted(d, run.resolved.allowed, run.verifier), d.addr, next.now)
               + run.Answers(next, deadline))
      && (!Arrives(run, c) ==> run.Answers(c, deadline) == [] && next.now >= deadline)
  {
    hide Accepted;
    WaitReachesDeadline(run, NextCursor(run, c, deadline), deadline);
  }

  lemma WaitOver(run: Run, c: Cursor, deadline: nat)
    requires c.now >= deadline
    ensures run.WaitEnd(c, deadline) == c && run.Answers(c, deadline) == []
  {}

  ghost predicate AllFrom(answers: seq<Answer>, allowed: set<u64>) {
    allowed != {} ==> forall j :: 0 <= j < |answers| ==> answers[j].result.serverId in allowed
  }

  lemma {:induction false} AnswersAllowed(run: Run, c: Cursor, deadline: nat)
    ensures AllFrom(run.Answers(c, deadline), run.resolved.allowed)
    decreases |run.events| - c.next
  {
    hide Run.Verdict;
    if c.now < deadline && c.next < |run.events| && run.events[c.next].Arrival? {
      var d := run.events[c.next].datagram;
      var rest := Cursor(c.next + 1, c.now + run.events[c.next].elapsed);
      AnswersAllowed(run, rest, deadline);
      VerdictIsAllowed(run, d);
      var later := run.Answers(rest, deadline);
      assert run.Answers(c, deadline)
          == FirstAnswer(run.Verdict(d), d.addr, rest.now) + later;
      hide Run.Answers;
    }
  }

  /** Listening to one more answer keeps or replaces the oldest one so far. */
  lemma NextOldest(heard: seq<Answer>, k: nat, x: Answer)
    requires FirstOldest(heard, k)
    ensures CompareAge(x.result.serverId, heard[k].result.serverId) == Less ==> FirstOldest(heard + [x], |heard|)
    ensures CompareAge(x.result.serverId, heard[k].result.serverId) != Less ==> FirstOldest(heard + [x], k)
  {
    AgeIsNumeric();
    hide CompareAge;
  }

  /** The oldest allowed server's answer is the oldest of all that could still come. */
  lemma OldestEndsSearch(heard: seq<Answer>, later: seq<Answer>, oldest: u64, allowed: set<u64>)
    requires IsOldest(Some(oldest), allowed) && heard != []
    requires heard[|heard| - 1].result.serverId == oldest
    requires forall j :: 0 <= j < |heard| - 1 ==> heard[j].result.serverId != oldest
    requires AllFrom(heard + later, allowed)
    ensures FirstOldest(heard + later, |heard| - 1)
  {
    AgeIsNumeric();
    hide CompareAge;
  }

  class HaClient {
    const keyId: u64
    const steeringFeedback: bool
    const verifier: Verifier
    const limits: Keys.ApiKeyLimits
    const policy: P.RequestPolicy
    var books: Books
    /** Every datagram handed to the socket, in order. */
    var sent: seq<Datagram>

    constructor (keyId: u64, steeringFeedback: bool, verifier: Verifier, limits: Keys.ApiKeyLimits,
                 policy: P.RequestPolicy)
      ensures this.keyId == keyId && this.steeringFeedback == steeringFeedback
      ensures this.verifier == verifier && this.limits == limits && this.policy == policy
      ensures books == map[] && sent == []
    {
      this.keyId, this.steeringFeedback := keyId, steeringFeedback;
      this.verifier, this.limits, this.policy := verifier, limits, policy;
      books, sent := map[], [];
    }

    method RecordSendFailures(ids: seq<u64>)
      modifies this`books
      ensures books == Blame(old(books), ids)
    {
      for k := 0 to |ids|
        invariant books == Blame(old(books), ids[..k])
      {
        assert ids[..k + 1][..k] == ids[..k];
        books := BlameOne(books, ids[k]);
      }
      assert ids[..|ids|] == ids;
    }

    /** One transmission to every target that has not answered; it fails only when nothing at all gets
        out, and books the failures of a partial delivery. */
    method SendToMissing(packet: seq<byte>, run: Run, tx: nat, ids: set<u64>, addrs: set<SocketAddr>)
      returns (r: Result<(), RequestError>)
      modifies this`sent, this`books
      ensures var n := |run.resolved.targets|;
        && sent == old(sent) + ToEach(packet, run.resolved.Missing(ids, addrs, n))
        && (r.Err? <==> run.resolved.Missing(ids, addrs, n) != [] && run.NoneReached(tx, ids, addrs, n))
        && (r.Err? ==> r.error.Io? && run.LastFault(tx, ids, addrs, n) == Some(r.error.code))
        && books == if r.Ok? then Blame(old(books), run.FailedIds(tx, ids, addrs, n)) else old(books)
    {
      var attempted, delivered := 0, 0;
      var lastError: Option<int> := None;
      var failed: seq<u64> := [];
      var resolved := run.resolved;
      for k := 0 to |resolved.targets|
        invariant books == old(books)
        invariant sent == old(sent) + ToEach(packet, resolved.Missing(ids, addrs, k))
        invariant attempted == |resolved.Missing(ids, addrs, k)| && delivered <= attempted
        invariant delivered == 0 <==> run.NoneReached(tx, ids, addrs, k)
        invariant delivered == attempted <==> run.AllReached(tx, ids, addrs, k)
        invariant delivered == attempted <==> lastError == None
        invariant lastError == run.LastFault(tx, ids, addrs, k)
        invariant failed == run.FailedIds(tx, ids, addrs, k)
        invariant delivered == attempted ==> failed == []
      {
        var target := resolved.targets[k];
        if resolved.Responded(target, ids, addrs) {
          continue;
        }
        attempted := attempted + 1;
        sent := sent + [Datagram(packet, target)];
        match run.net.fault(tx, k)
        case None =>
          delivered := delivered + 1;
        case Some(code) =>
          if target in resolved.serverIds {
            failed := failed + [resolved.serverIds[target]];
          }
          lastError := Some(code);
      }
      if delivered == 0 {
        if lastError.Some? {
          return Err(Io(lastError.value));
        }
      } else if delivered < attempted {
        RecordSendFailures(failed);
      }
      r := Ok(());
    }

    method AcceptPolicyResponse(d: Datagram, allowed: set<u64>, ids: set<u64>, addrs: set<SocketAddr>)
      returns (r: Option<RateLimitResult>, ids': set<u64>, addrs': set<SocketAddr>)
      modifies this`books
      ensures r == Accepted(d, allowed, verifier)
      ensures var parsed := ParseRateResponse(d.data, verifier.auth, verifier.cipher);
        r == if parsed.Ok? && (allowed == {} || parsed.value.serverId in allowed) then Some(parsed.value) else None
      ensures r.Some? ==> ids' == ids + {r.value.serverId} && addrs' == addrs + {d.addr}
                          && books == Credit(old(books), r.value.serverId)
      ensures r.None? ==> ids' == ids && addrs' == addrs && books == old(books)
    {
      r, ids', addrs' := None, ids, addrs;
      if ParseRateResponse(d.data, verifier.auth, verifier.cipher).Ok? {
        ResponseNamesPeekedServer(d.data, verifier.auth, verifier.cipher);
      }
      hide ParseRateResponse, PeekServerId;
      var peeked := PeekServerId(d.data);
      if peeked.None? || (allowed != {} && peeked.value !in allowed) {
        return;
      }
      var parsed := ParseRateResponse(d.data, verifier.auth, verifier.cipher);
      if parsed.Ok? {
        r := Some(parsed.value);
        ids' := ids + {parsed.value.serverId};
        addrs' := addrs + {d.addr};
        books := Credit(books, parsed.value.serverId);
      }
    }

    /** The receive loop of one transmission round. */
    method ReceiveRound(run: Run, c0: Cursor, deadline: nat, round: nat, oldest: Option<u64>,
                        ids0: set<u64>, addrs0: set<SocketAddr>)
      returns (best: Option<RateLimitResult>, ids: set<u64>, addrs: set<SocketAddr>, c: Cursor, ghost n: nat)
      requires run.verifier == verifier && IsOldest(oldest, run.resolved.allowed)
      modifies this`books
      ensures var answers := run.Answers(c0, deadline);
        && n <= |answers|
        && (best.None? ==> answers == [] && n == 0 && c == run.WaitEnd(c0, deadline))
        && (best.Some? ==> n >= 1 && run.Chosen(answers, round, oldest, n, best.value))
        && (best.Some? ==> c.now == run.SelectionTime(answers, round, oldest, n, run.WaitEnd(c0, deadline).now))
        && Noted(answers[..n], ids0, addrs0, old(books), ids, addrs, books)
    {
      hide Accepted, ParseRateResponse, Credit, CompareAge, IsOldest, SoFar, Run.Chosen, Run.SelectionTime, Noted, Run.Answers, Run.WaitEnd;
      NothingHeard(oldest, ids0, addrs0, books);
      best, ids, addrs, c := None, ids0, addrs0, c0;
      ghost var answers := run.Answers(c0, deadline);
      ghost var heard: seq<Answer> := [];
      ghost var k: nat := 0;
      while c.now < deadline
        invariant answers == heard + run.Answers(c, deadline)
        invariant run.WaitEnd(c, deadline) == run.WaitEnd(c0, deadline)
        invariant Noted(heard, ids0, addrs0, old(books), ids, addrs, books)
        invariant SoFar(heard, k, oldest, best)
        invariant round > 0 ==> heard == []
        decreases |run.events| - c.next
      {
        OneWait(run, c, deadline);
        if c.next >= |run.events| {
          c := Cursor(c.next, deadline);
          break;
        }
        match run.events[c.next]
        case Silence(late) =>
          c := Cursor(c.next + 1, deadline + late);
          break;
        case Arrival(d, elapsed) =>
          c := Cursor(c.next + 1, c.now + elapsed);
          ghost var prior := (ids, addrs, books);
          var result;
          result, ids, addrs := AcceptPolicyResponse(d, run.resolved.allowed, ids, addrs);
          if result.Some? {
            ghost var answer := Answer(result.value, d.addr, c.now);
            ghost var later := run.Answers(c, deadline);
            NoteNext(heard, answer, ids0, addrs0, old(books), prior.0, prior.1, prior.2);
            AnswersAllowed(run, c0, deadline);
            k := NextBest(run, heard, k, oldest, best, answer, later, round);
            if best.None? || CompareAge(result.value.serverId, best.value.serverId) == Less {
              best := result;
            }
            heard := heard + [answer];
            assert answers == heard + later;
            if oldest == Some(result.value.serverId) || round > 0 {
              n := |heard|;
              assert answers[..n] == heard;
              SelectedWithLast(run, answers, round, oldest, n, run.WaitEnd(c0, deadline).now);
              return;
            }
          }
      }
      n := |heard|;
      WaitOver(run, c, deadline);
      assert answers[..n] == heard == answers;
      ChosenAtEnd(run, heard, k, oldest, best, c.now);
    }

    /** The receive loop of the last phase, which ends with the first answer. */
    method ReceiveFinal(run: Run, c0: Cursor, deadline: nat, ids0: set<u64>, addrs0: set<SocketAddr>)
      returns (best: Option<RateLimitResult>, ids: set<u64>, addrs: set<SocketAddr>, c: Cursor, ghost n: nat)
      requires run.verifier == verifier
      modifies this`books
      ensures var answers := run.Answers(c0, deadline);
        && n <= |answers|
        && (best.None? ==> answers == [] && n == 0 && c == run.WaitEnd(c0, deadline))
        && (best.Some? ==> n == 1 && best.value == answers[0].result && c.now == answers[0].at)
        && Noted(answers[..n], ids0, addrs0, old(books), ids, addrs, books)
    {
      hide Accepted, Credit, Noted, Run.Answers, Run.WaitEnd;
      NothingHeard(None, ids0, addrs0, books);
      best, ids, addrs, c := None, ids0, addrs0, c0;
      ghost var answers := run.Answers(c0, deadline);
      while c.now < deadline
        invariant answers == run.Answers(c, deadline)
        invariant run.WaitEnd(c, deadline) == run.WaitEnd(c0, deadline)
        invariant ids == ids0 && addrs == addrs0 && books == old(books)
        invariant best.None?
        decreases |run.events| - c.next
      {
        OneWait(run, c, deadline);
        if c.next >= |run.events| {
          c := Cursor(c.next, deadline);
          break;
        }
        match run.events[c.next]
        case Silence(late) =>
          c := Cursor(c.next + 1, deadline + late);
          break;
        case Arrival(d, elapsed) =>
          c := Cursor(c.next + 1, c.now + elapsed);
          best, ids, addrs := AcceptPolicyResponse(d, run.resolved.allowed, ids, addrs);
          if best.Some? {
            ghost var answer := Answer(best.value, d.addr, c.now);
            NoteNext([], answer, ids0, addrs0, old(books), ids0, addrs0, old(books));
            n := 1;
            assert answers[..1] == [answer] == [] + [answer];
            return;
          }
      }
      n := 0;
      WaitOver(run, c, deadline);
      assert answers[..0] == [];
    }

    /** One transmission round, from the sends to the end of its receive window. */
    method Round(packet: seq<byte>, run: Run, round: nat, c0: Cursor, oldest: Option<u64>)
      returns (outcome: Result<Option<RateLimitResult>, RequestError>, ids: set<u64>, addrs: set<SocketAddr>, c: Cursor,
               ghost n: nat)
      requires run.WellFormed() && run.verifier == verifier && IsOldest(oldest, run.resolved.allowed)
      requires run.Transmits(round) && c0 == run.PhaseStart(round)
      modifies this`sent, this`books
      ensures sent == old(sent) + ToEach(packet, run.resolved.targets)
      ensures outcome.Err? <==> run.NothingSent(round)
      ensures outcome.Err? ==> outcome.error == Io(run.net.fault(round, |run.resolved.targets| - 1).value)
                               && n == 0 && ids == {} && addrs == {} && books == old(books)
      ensures outcome.Err? ==> c.now == run.Opening(round).now
      ensures outcome.Ok? ==>
        && n <= |run.Heard(round)|
        && Noted(run.Heard(round)[..n], {}, {}, Blame(old(books), run.RoundBlame(round)), ids, addrs, books)
      ensures outcome.Ok? && outcome.value.None? ==> run.Heard(round) == [] && n == 0 && c == run.PhaseStart(round + 1)
      ensures outcome.Ok? && outcome.value.Some? ==>
        && run.Chosen(run.Heard(round), round, oldest, n, outcome.value.value) && 1 <= n
        && c.now == run.SelectionTime(run.Heard(round), round, oldest, n, run.PhaseStart(round + 1).now)
    {
      hide Noted, Run.Chosen, Run.SelectionTime, IsOldest, Run.Answers, Run.WaitEnd, Run.NoneReached, Run.FailedIds,
        Run.LastFault, Run.NothingSent, Blame;
      RoundReachesAll(run, round);
      ids, addrs := {}, {};
      var delivery := SendToMissing(packet, run, round, ids, addrs);
      c := Cursor(c0.next, c0.now + run.net.sendTime(round));
      if delivery.Err? {
        outcome, n := Err(delivery.error), 0;
        return;
      }
      var units := P.ComputeUnits(run.policy.replayGap, round);
      if units.Err? {
        assert false;
      }
      var deadline := c.now + P.SaturatingMul(units.value, run.policy.unitMs) * NANOS_PER_MS;
      assert c == run.Opening(round) && deadline == run.Deadline(round);
      hide Run.Opening, Run.Deadline;
      var best;
      best, ids, addrs, c, n := ReceiveRound(run, c, deadline, round, oldest, ids, addrs);
      outcome := Ok(best);
    }

    /** The receive-only phase, if the policy has one. */
    method FinalReceive(run: Run, c0: Cursor, oldest: Option<u64>)
      returns (best: Option<RateLimitResult>, ids: set<u64>, addrs: set<SocketAddr>, c: Cursor, ghost n: nat)
      requires run.WellFormed() && run.verifier == verifier && c0 == run.PhaseStart(run.policy.replayCount + 1)
      modifies this`books
      ensures var phase := run.policy.replayCount + 1;
        && n <= |run.Heard(phase)|
        && Noted(run.Heard(phase)[..n], {}, {}, old(books), ids, addrs, books)
        && (best.None? ==> run.Heard(phase) == [] && n == 0 && c == run.PhaseStart(phase + 1))
        && (best.Some? ==> run.Chosen(run.Heard(phase), phase, oldest, n, best.value)
                           && n == 1 && c.now == run.Heard(phase)[0].at)
    {
      hide Noted, Run.Answers, Run.WaitEnd;
      ghost var phase := run.policy.replayCount + 1;
      best, ids, addrs, c, n := None, {}, {}, c0, 0;
      LastPhase(run);
      if run.policy.finalReceiveUnits > 0 {
        var deadline := c.now + P.SaturatingMul(run.policy.finalReceiveUnits, run.policy.unitMs) * NANOS_PER_MS;
        hide P.SaturatingMul, Run.Heard, Run.PhaseStart, Run.Opening;
        best, ids, addrs, c, n := ReceiveFinal(run, c, deadline, {}, {});
      } else {
        NothingNoted(run.Heard(phase), books);
        NoFinalWindow(run);
      }
    }

    /** The whole request loop: transmission rounds, then the receive-only phase. */
    method Select(packet: seq<byte>, run: Run, oldest: Option<u64>)
      returns (outcome: Result<Option<RateLimitResult>, RequestError>, ids: set<u64>, addrs: set<SocketAddr>, now: nat,
               phase: nat, ghost n: nat)
      requires run.WellFormed() && run.verifier == verifier && IsOldest(oldest, run.resolved.allowed)
      modifies this`sent, this`books
      ensures run.Ends(phase, n, oldest, outcome) && n <= |run.Heard(phase)|
      ensures sent == old(sent) + run.Broadcasts(packet, run.Transmissions(phase))
      ensures Noted(run.Heard(phase)[..n], {}, {}, Blame(old(books), run.Blamed(run.Delivered(phase, outcome.Ok?))),
                    ids, addrs, books)
      ensures now == run.EndTime(Trace(phase, n, oldest, outcome, now))
    {
      hide Noted, Run.Chosen, IsOldest, Run.NothingSent, Run.Heard, Run.PhaseStart, Run.Opening, Blame, ToEach,
        Run.RoundBlame;
      ids, addrs := {}, {};
      var c := Cursor(0, run.startedAt);
      StartOfRun(run, books);
      for round := 0 to run.policy.replayCount + 1
        invariant ids == {} && addrs == {}
        invariant c == run.PhaseStart(round) && run.Quiet(round)
        invariant sent == old(sent) + run.Broadcasts(packet, round)
        invariant books == Blame(old(books), run.Blamed(round))
      {
        BlameAppend(old(books), run.Blamed(round), run.RoundBlame(round));
        var result;
        result, ids, addrs, c, n := Round(packet, run, round, c, oldest);
        if result.Err? {
          outcome, now, phase := result, c.now, round;
          NothingNoted(run.Heard(phase), books);
          return;
        }
        if result.value.Some? {
          outcome, now, phase := result, c.now, round;
          return;
        }
        NotedNothing(run.Heard(round)[..n], Blame(old(books), run.Blamed(round + 1)), ids, addrs, books);
      }
      phase := run.policy.replayCount + 1;
      var best;
      best, ids, addrs, c, n := FinalReceive(run, c, oldest);
      if best.Some? {
        outcome, now := Ok(best), c.now;
        return;
      }
      NotedNothing(run.Heard(phase)[..n], Blame(old(books), run.Blamed(phase)), ids, addrs, books);
      phase := run.Phases();
      outcome, now, n := Ok(None), c.now, 0;
      NothingNoted(run.Heard(phase), books);
    }

    // -------------------------------------------------------------- the public operation

    function Header(requestId: Id, millis: u64): TenantHeader {
      TenantHeader(TLV_TENANT, TENANT_TLV_LEN, keyId, requestId, millis, if steeringFeedback then 1 else 0, 0, [0, 0])
    }

    /** The requests that are settled before anything is sent. */
    function LocalOutcome(guards: seq<GuardBlock>, resources: seq<ResourceBlock>, resolved: Resolved)
      : Option<Result<RateLimitResult, RequestError>>
    {
      if exists r :: r in resources && r.windowSizeMs > limits.rateWindowSizeMsMax then Some(Err(WindowTooLarge))
      else if resources == [] && guards == [] then Some(Ok(RateLimitResult(true, [], [], 0, false)))
      else
        match P.HorizonOf(policy, limits.dedupTtlMsMax)
        case Err(e) => Some(Err(Config(e)))
        case Ok(_) => if resolved.targets == [] then Some(Err(NoServers)) else None
    }

    /** Nothing is sent for a request with a window beyond the quota, for an empty one, which succeeds with no
        results, for a policy without an acceptable horizon, and without targets; in that order. */
    lemma LocalOutcomes(guards: seq<GuardBlock>, resources: seq<ResourceBlock>, resolved: Resolved)
      ensures var local := LocalOutcome(guards, resources, resolved);
              var horizon := P.HorizonOf(policy, limits.dedupTtlMsMax);
              var wide := exists k :: 0 <= k < |resources| && resources[k].windowSizeMs > limits.rateWindowSizeMsMax;
              var empty := |guards| == 0 && |resources| == 0;
        && (wide ==> local == Some(Err(WindowTooLarge)))
        && (empty ==>
              && local.Some? && local.value.Ok? && local.value.value.success
              && local.value.value.guardResults == [] && local.value.value.resourceResults == []
              && local.value.value.serverId == 0 && !local.value.value.steeringFeedback)
        && (!wide && !empty ==>
              && (horizon.Err? ==> local == Some(Err(Config(horizon.error))))
              && (horizon.Ok? && |resolved.targets| == 0 ==> local == Some(Err(NoServers)))
              && (horizon.Ok? && |resolved.targets| > 0 ==> local == None))
    {
      hide P.HorizonOf;
      if r :| r in resources && r.windowSizeMs > limits.rateWindowSizeMsMax {
        var k :| 0 <= k < |resources| && resources[k] == r;
      }
    }

    /** What every receiver of a datagram of this client finds in its header, which is in the clear. */
    ghost predicate Announces(data: seq<byte>, requestId: Id, millis: u64) {
      var parsed := ParseTenantHeader(data);
      && parsed.Ok? && parsed.value.1 == 40
      && parsed.value.0.keyId == keyId && parsed.value.0.uniqueId == requestId && parsed.value.0.timeStamp == millis
      && parsed.value.0.steeringFeedback == (if steeringFeedback then 1 else 0)
      && parsed.value.0.tenantMgmtFlag == 0 && parsed.value.0.padding == [0, 0]
    }

    lemma PacketAnnounces(q: RateRequest, requestId: Id, millis: u64, nonce: Nonce)
      requires RequestPacket(q, Header(requestId, millis), verifier.auth, nonce, verifier.cipher).Ok?
      ensures Announces(RequestPacket(q, Header(requestId, millis), verifier.auth, nonce, verifier.cipher).value, requestId, millis)
    {
      PacketNamesHeader(Header(requestId, millis), verifier.auth, RequestPdu(q).value, nonce, verifier.cipher);
      hide RequestPdu, Packet, ParseTenantHeader;
    }

    method ValidateRateWindows(resources: seq<ResourceBlock>) returns (ok: bool)
      ensures ok <==> !exists r :: r in resources && r.windowSizeMs > limits.rateWindowSizeMsMax
    {
      for k := 0 to |resources|
        invariant forall j :: 0 <= j < k ==> resources[j].windowSizeMs <= limits.rateWindowSizeMsMax
      {
        if resources[k].windowSizeMs > limits.rateWindowSizeMsMax {
          assert resources[k] in resources;
          return false;
        }
      }
      ok := true;
    }

    /** Selection and completion delivery of a packet that is ready to go. */
    method Perform(packet: seq<byte>, run: Run, ttl: u32, steered: Option<RequestError>)
      returns (r: Result<RateLimitResult, RequestError>, ghost t: Trace)
      requires run.WellFormed() && run.verifier == verifier
      modifies this`sent, this`books
      ensures run.Explains(t)
      ensures r == t.Returned(steered)
      ensures sent == old(sent) + run.SentBy(packet, t, ttl)
      ensures books == run.BooksAfter(old(books), t, ttl)
    {
      hide Run.Explains, Run.Ends, Run.Heard, Run.Blamed, Run.Broadcasts, Blame, CreditAll, Run.FailedIds, Run.NoneReached,
        ToEach, IdsOf, AddrsOf, SetOf, Run.Opening, Run.PhaseStart, IsOldest;
      var oldest := OldestServer(run.resolved.allowed);
      var outcome, ids, addrs, now, phase;
      ghost var n;
      outcome, ids, addrs, now, phase, n := Select(packet, run, oldest);
      t := Trace(phase, n, oldest, outcome, now);
      RunExplained(run, t);
      if outcome.Err? {
        return Err(outcome.error), t;
      }
      if outcome.value.None? {
        return Err(Timeout), t;
      }
      assert ids == SetOf(IdsOf(run.Listened(t))) && addrs == SetOf(AddrsOf(run.Listened(t)));
      if run.policy.completionDelivery && now < run.startedAt + ttl * NANOS_PER_MS {
        BlameNobody(books);
        var ignored := SendToMissing(packet, run, run.Transmissions(phase), ids, addrs);
      }
      if steered.Some? {
        return Err(steered.value), t;
      }
      r := Ok(outcome.value.value);
    }

    /** One rate-limit request. `steered` is how applying the selected answer's steering advice ends. */
    method CheckRateLimit(guards: seq<GuardBlock>, resources: seq<ResourceBlock>, text: Option<seq<byte>>,
                          requestId: Id, millis: u64, nonce: Nonce, resolved: Resolved, events: seq<Event>, net: Network,
                          startedAt: nat, steered: Option<RequestError>)
      returns (r: Result<RateLimitResult, RequestError>, ghost t: Trace)
      modifies this`sent, this`books
      ensures LocalOutcome(guards, resources, resolved).Some? ==>
        r == LocalOutcome(guards, resources, resolved).value && sent == old(sent) && books == old(books)
      ensures LocalOutcome(guards, resources, resolved).None? ==>
        var ttl := P.HorizonOf(policy, limits.dedupTtlMsMax).value;
        var packet := RequestPacket(RateRequest(guards, resources, text, ttl), Header(requestId, millis), verifier.auth, nonce,
                                    verifier.cipher);
        var run := Run(policy, resolved, events, net, startedAt, verifier);
        match packet
        case Err(e) => r == Err(Protocol(e)) && sent == old(sent) && books == old(books)
        case Ok(bytes) =>
          && run.Explains(t)
          && r == t.Returned(steered)
          && sent == old(sent) + run.SentBy(bytes, t, ttl)
          && books == run.BooksAfter(old(books), t, ttl)
      ensures |sent| >= |old(sent)|
      ensures forall d :: d in sent[|old(sent)|..] ==> Announces(d.data, requestId, millis)
    {
      hide Announces, RequestPacket, Run.Explains, Run.Heard, Run.SentBy, Run.BooksAfter, P.HorizonUnits;
      t := Trace(0, 0, None, Ok(None), startedAt);
      var windowsFit := ValidateRateWindows(resources);
      if !windowsFit {
        return Err(WindowTooLarge), t;
      }
      if resources == [] && guards == [] {
        return Ok(RateLimitResult(true, [], [], 0, false)), t;
      }
      var horizon := P.ComputeHorizonMs(policy, limits.dedupTtlMsMax);
      if horizon.Err? {
        return Err(Config(horizon.error)), t;
      }
      var ttl := horizon.value;
      if resolved.targets == [] {
        return Err(NoServers), t;
      }
      var packet := BuildPacket(RateRequest(guards, resources, text, ttl), Header(requestId, millis), verifier.auth, nonce,
                                verifier.cipher);
      if packet.Err? {
        return Err(Protocol(packet.error)), t;
      }
      var run := Run(policy, resolved, events, net, startedAt, verifier);
      r, t := Perform(packet.value, run, ttl, steered);
      PacketAnnounces(RateRequest(guards, resources, text, ttl), requestId, millis, nonce);
      SentTail(run, t, packet.value, ttl, old(sent), sent);
    }
  }

  lemma RunExplained(run: Run, t: Trace)
    requires run.WellFormed() && IsOldest(t.oldest, run.resolved.allowed)
    requires run.Ends(t.phase, t.n, t.oldest, t.outcome) && t.n <= |run.Heard(t.phase)|
    requires t.now == run.EndTime(t)
    ensures run.Explains(t)
  {}

  lemma StartOfRun(run: Run, books: Books)
    requires run.WellFormed()
    ensures run.PhaseStart(0) == Cursor(0, run.startedAt) && Blame(books, []) == books
  {}

  lemma LastPhase(run: Run)
    requires run.WellFormed()
    ensures var phase := run.policy.replayCount + 1; var c := run.PhaseStart(phase);
      var deadline := c.now + P.FinalWindow(run.policy) * NANOS_PER_MS;
      && run.Opening(phase) == c && run.Heard(phase) == run.Answers(c, deadline)
      && run.PhaseStart(phase + 1) == run.WaitEnd(c, deadline)
  {
    hide P.FinalWindow, Run.Answers, Run.WaitEnd;
    var phase := run.policy.replayCount + 1;
    assert !run.Transmits(phase) && run.Opening(phase) == run.PhaseStart(phase);
  }

  lemma NothingNoted(heard: seq<Answer>, books: Books)
    ensures Noted(heard[..0], {}, {}, books, {}, {}, books)
  {
    assert heard[..0] == [];
    NothingHeard(None, {}, {}, books);
  }

  /** With nobody known to have answered, a transmission is owed to every target. */
  lemma RoundReachesAll(run: Run, tx: nat)
    ensures var n := |run.resolved.targets|;
      && run.resolved.Missing({}, {}, n) == run.resolved.targets
      && (run.resolved.targets != [] && run.NoneReached(tx, {}, {}, n) <==> run.NothingSent(tx))
      && (run.NothingSent(tx) ==> run.LastFault(tx, {}, {}, n) == run.net.fault(tx, n - 1))
  {
    NobodyResponded(run.resolved, |run.resolved.targets|);
    assert run.resolved.targets[..|run.resolved.targets|] == run.resolved.targets;
    assert forall t :: !run.resolved.Responded(t, {}, {});
  }

  lemma NotedNothing(heard: seq<Answer>, books0: Books, ids: set<u64>, addrs: set<SocketAddr>, books: Books)
    requires heard == [] && Noted(heard, {}, {}, books0, ids, addrs, books)
    ensures ids == {} && addrs == {} && books == books0
  {}

  lemma NoFinalWindow(run: Run)
    requires run.WellFormed() && run.policy.finalReceiveUnits == 0
    ensures var phase := run.policy.replayCount + 1;
      run.Heard(phase) == [] && run.PhaseStart(phase + 1) == run.PhaseStart(phase)
  {}

  /** What the receive loop of round 0 knows: the oldest answer so far, none of them the oldest allowed
      server's. */
  ghost predicate SoFar(heard: seq<Answer>, k: nat, oldest: Option<u64>, best: Option<RateLimitResult>) {
    && (best.None? <==> heard == [])
    && (best.Some? ==> FirstOldest(heard, k) && k < |heard| && best.value == heard[k].result)
    && (forall j :: 0 <= j < |heard| ==> oldest != Some(heard[j].result.serverId))
  }

  lemma ChosenAtEnd(run: Run, heard: seq<Answer>, k: nat, oldest: Option<u64>, best: Option<RateLimitResult>,
                    windowEnd: nat)
    requires SoFar(heard, k, oldest, best)
    ensures best.None? <==> heard == []
    ensures best.Some? ==> run.Chosen(heard, 0, oldest, |heard|, best.value)
                           && run.SelectionTime(heard, 0, oldest, |heard|, windowEnd) == windowEnd
  {
    hide FirstOldest;
  }

  lemma SelectedWithLast(run: Run, answers: seq<Answer>, phase: nat, oldest: Option<u64>, n: nat, windowEnd: nat)
    requires 1 <= n <= |answers| && (phase > 0 || oldest == Some(answers[n - 1].result.serverId))
    ensures run.SelectionTime(answers, phase, oldest, n, windowEnd) == answers[n - 1].at
  {}

  function Better(best: Option<RateLimitResult>, x: RateLimitResult): RateLimitResult {
    if best.None? || CompareAge(x.serverId, best.value.serverId) == Less then x else best.value
  }

  /** One more answer in the receive loop: either the search ends with the rule's choice, or the loop goes
      on knowing the oldest so far. */
  lemma NextBest(run: Run, heard: seq<Answer>, k: nat, oldest: Option<u64>, best: Option<RateLimitResult>, x: Answer,
                 later: seq<Answer>, round: nat) returns (k': nat)
    requires SoFar(heard, k, oldest, best) && IsOldest(oldest, run.resolved.allowed)
    requires AllFrom(heard + ([x] + later), run.resolved.allowed)
    requires round > 0 ==> heard == []
    ensures round == 0 && oldest != Some(x.result.serverId) ==>
              SoFar(heard + [x], k', oldest, Some(Better(best, x.result)))
    ensures round > 0 || oldest == Some(x.result.serverId) ==>
              run.Chosen(heard + [x] + later, round, oldest, |heard| + 1, Better(best, x.result))
  {
    hide CompareAge;
    k' := if best.None? || CompareAge(x.result.serverId, best.value.serverId) == Less then |heard| else k;
    if round > 0 {
    } else if oldest == Some(x.result.serverId) {
      assert heard + [x] + later == heard + ([x] + later);
      OldestIsLess(heard, x, later, oldest.value, run.resolved.allowed, best, k);
      OldestEndsSearch(heard + [x], later, oldest.value, run.resolved.allowed);
    } else if best.None? {
      AloneIsOldest(x);
      assert heard + [x] == [x];
    } else {
      NextOldest(heard, k, x);
      hide FirstOldest;
    }
  }

  lemma OldestIsLess(heard: seq<Answer>, x: Answer, later: seq<Answer>, oldest: u64, allowed: set<u64>, best: Option<RateLimitResult>, k: nat)
    requires SoFar(heard, k, Some(oldest), best) && IsOldest(Some(oldest), allowed)
    requires x.result.serverId == oldest
    requires AllFrom(heard + ([x] + later), allowed)
    ensures Better(best, x.result) == x.result
  {
    AgeIsNumeric();
    hide CompareAge;
    if best.Some? {
      assert (heard + ([x] + later))[k] == heard[k];
    }
  }

  /** Who is known to have answered, by id and by address, and the credit given for it. */
  ghost predicate Noted(heard: seq<Answer>, ids0: set<u64>, addrs0: set<SocketAddr>, books0: Books,
                        ids: set<u64>, addrs: set<SocketAddr>, books: Books)
  {
    && ids == ids0 + SetOf(IdsOf(heard))
    && addrs == addrs0 + SetOf(AddrsOf(heard))
    && books == CreditAll(books0, IdsOf(heard))
  }

  lemma NothingHeard(oldest: Option<u64>, ids: set<u64>, addrs: set<SocketAddr>, books: Books)
    ensures Noted([], ids, addrs, books, ids, addrs, books) && SoFar([], 0, oldest, None)
  {}

  lemma NoteNext(heard: seq<Answer>, x: Answer, ids0: set<u64>, addrs0: set<SocketAddr>, books0: Books,
                 ids: set<u64>, addrs: set<SocketAddr>, books: Books)
    requires Noted(heard, ids0, addrs0, books0, ids, addrs, books)
    ensures Noted(heard + [x], ids0, addrs0, books0, ids + {x.result.serverId}, addrs + {x.addr},
                  Credit(books, x.result.serverId))
  {
    hide Credit;
    assert IdsOf(heard + [x]) == IdsOf(heard) + [x.result.serverId];
    assert AddrsOf(heard + [x]) == AddrsOf(heard) + [x.addr];
    SetOfAppend(IdsOf(heard), x.result.serverId);
    SetOfAppend(AddrsOf(heard), x.addr);
    assert IdsOf(heard + [x])[..|heard|] == IdsOf(heard);
  }

  lemma AloneIsOldest(x: Answer)
    ensures FirstOldest([x], 0)
  {
    AgeIsNumeric();
  }

  // ---------------------------------------------------------------- what the rule means

  /** In round 0 the chosen answer has the numerically smallest server id of every answer of the whole
      window, heard or not; and when the oldest allowed server is among them, it is that server's. */
  lemma RoundZeroChoosesSmallestId(run: Run, t: Trace, j: nat)
    requires run.WellFormed() && run.Explains(t) && t.Selected() && t.phase == 0 && j < |run.Heard(0)|
    ensures t.outcome.value.value.serverId <= run.Heard(0)[j].result.serverId
    ensures t.oldest == Some(run.Heard(0)[j].result.serverId) ==> t.outcome.value.value.serverId == t.oldest.value
  {
    var answers, chosen := run.Heard(0), t.outcome.value.value.serverId;
    assert run.Chosen(answers, 0, t.oldest, t.n, t.outcome.value.value);
    var k: nat :| k < t.n && FirstOldest(answers, k) && answers[k].result == t.outcome.value.value;
    AgeIsNumeric();
    AnswersAllowed(run, run.Opening(0), run.Deadline(0));
    hide CompareAge, Run.Answers, Run.Opening, Run.Deadline;
    if t.oldest == Some(answers[j].result.serverId) {
      assert chosen in run.resolved.allowed;
    }
  }

  lemma OldestUnique(a: Option<u64>, b: Option<u64>, allowed: set<u64>)
    requires IsOldest(a, allowed) && IsOldest(b, allowed)
    ensures a == b
  {
    AgeIsNumeric();
    hide CompareAge;
  }

  lemma FirstOldestUnique(answers: seq<Answer>, a: nat, b: nat)
    requires FirstOldest(answers, a) && FirstOldest(answers, b)
    ensures a == b
  {
    FirstOldestNotAfter(answers, a, b);
    FirstOldestNotAfter(answers, b, a);
  }

  lemma FirstOldestNotAfter(answers: seq<Answer>, a: nat, b: nat)
    requires FirstOldest(answers, a) && FirstOldest(answers, b)
    ensures b <= a
  {
    hide CompareAge;
    var ida, idb := answers[a].result.serverId, answers[b].result.serverId;
    assert a < b ==> CompareAge(idb, ida) == Less && CompareAge(idb, ida) != Less;
  }

  lemma ChosenUnique(run: Run, answers: seq<Answer>, phase: nat, oldest: Option<u64>, n1: nat, r1: RateLimitResult, n2: nat,
                     r2: RateLimitResult)
    requires run.Chosen(answers, phase, oldest, n1, r1) && run.Chosen(answers, phase, oldest, n2, r2)
    ensures n1 == n2 && r1 == r2
  {
    if phase == 0 {
      var k1: nat :| k1 < n1 && FirstOldest(answers, k1) && answers[k1].result == r1;
      var k2: nat :| k2 < n2 && FirstOldest(answers, k2) && answers[k2].result == r2;
      FirstOldestUnique(answers, k1, k2);
    }
  }

  /** The rule leaves no freedom: the environment decides the phase, the answers listened to, the outcome and
      its time, and with them every datagram sent and every entry of the books. */
  lemma RuleDecides(run: Run, t1: Trace, t2: Trace)
    requires run.WellFormed() && run.Explains(t1) && run.Explains(t2)
    ensures t1 == t2
  {
    OldestUnique(t1.oldest, t2.oldest, run.resolved.allowed);
    hide Run.Heard, Run.Opening, Run.PhaseStart, Run.Chosen, IsOldest, Run.NothingSent, Run.SelectionTime;
    EndsUnique(run, t1, t2);
    EndsUnique(run, t2, t1);
    if t1.Selected() {
      ChosenUnique(run, run.Heard(t1.phase), t1.phase, t1.oldest, t1.n, t1.outcome.value.value, t2.n, t2.outcome.value.value);
    }
  }

  lemma QuietAt(run: Run, phase: nat, p: nat)
    requires run.WellFormed() && run.Quiet(phase)
    ensures p < phase ==> run.Heard(p) == [] && (run.Transmits(p) ==> !run.NothingSent(p))
  {}

  lemma EndsUnique(run: Run, t1: Trace, t2: Trace)
    requires run.WellFormed() && run.Explains(t1) && run.Explains(t2)
    ensures t1.phase <= t2.phase
    ensures t1.phase == t2.phase ==> (t1.outcome.Err? <==> t2.outcome.Err?) && (t1.Selected() <==> t2.Selected())
  {
    hide Run.Heard, Run.Opening, Run.PhaseStart, IsOldest, Run.NothingSent;
    QuietAt(run, t1.phase, t2.phase);
  }

  /** A request selects nothing without failing exactly when every transmission got out and no phase
      heard an answer. */
  lemma NothingSelected(run: Run, t: Trace)
    requires run.WellFormed() && run.Explains(t)
    ensures t.outcome == Ok(None) <==> run.Quiet(run.Phases())
  {
    hide Run.Heard, Run.Opening, Run.PhaseStart, IsOldest, Run.NothingSent;
    if run.Quiet(run.Phases()) {
      QuietAt(run, run.Phases(), t.phase);
    }
  }

  /** A corollary for the later phases: the first answer of the first phase that hears one is chosen, nothing
      else is listened to, and the selection is made when it arrives. */
  lemma LaterPhasesChooseFirst(run: Run, t: Trace)
    requires run.WellFormed() && run.Explains(t) && t.Selected() && t.phase > 0
    ensures run.Heard(t.phase) != [] && t.outcome.value.value == run.Heard(t.phase)[0].result && t.n == 1
    ensures t.now == run.Heard(t.phase)[0].at
    ensures forall p: nat :: p < t.phase ==> run.Heard(p) == []
  {
    hide Run.Heard, Run.Opening, Run.PhaseStart, IsOldest, Run.NothingSent;
    SelectedAt(run, t);
  }

  /** A corollary for failed sends, the converse of `Select` included: a request fails exactly when some round
      gets nothing out that no phase before heard an answer, and no earlier round failed. */
  lemma SendErrorsPrecedeAnswers(run: Run, t: Trace)
    requires run.WellFormed() && run.Explains(t)
    ensures t.outcome.Err? <==>
              exists p: nat :: run.Transmits(p) && run.NothingSent(p) && forall q: nat :: q < p ==> run.Heard(q) == []
    ensures t.outcome.Err? ==>
              run.NothingSent(t.phase) && forall q: nat :: q < t.phase ==> run.Heard(q) == [] && !run.NothingSent(q)
  {
    hide Run.Heard, Run.Opening, Run.PhaseStart, IsOldest, Run.NothingSent, Run.Chosen;
    if p: nat :| run.Transmits(p) && run.NothingSent(p) && forall q: nat :: q < p ==> run.Heard(q) == [] {
      QuietAt(run, t.phase, p);
      if t.Selected() {
        SomethingHeard(run, t);
      }
    }
  }

  lemma SomethingHeard(run: Run, t: Trace)
    requires run.WellFormed() && run.Explains(t) && t.Selected()
    ensures run.Heard(t.phase) != [] && (run.Transmits(t.phase) ==> !run.NothingSent(t.phase))
  {
    hide Run.Heard, Run.NothingSent;
  }

  // ---------------------------------------------------------------- accounting

  /** A request that ends in phase r makes r + 1 transmissions to every target, the receive-only phase adding
      none, and then one to each target that owes an answer if the selection completes. */
  lemma TransmissionCount(run: Run, packet: seq<byte>, t: Trace, ttl: u32)
    requires run.WellFormed() && run.Explains(t)
    ensures |run.SentBy(packet, t, ttl)|
         == (1 + Min(t.phase, run.policy.replayCount)) * |run.resolved.targets|
            + (if run.Completes(t, ttl) then |run.Owing(t)| else 0)
    ensures forall d :: d in run.SentBy(packet, t, ttl) ==> d.data == packet && d.addr in run.resolved.targets
  {
    SentToTargets(run, packet, run.Transmissions(t.phase));
    forall a | a in run.Owing(t) ensures a in run.resolved.targets {
      OwingTargets(run, t, a);
    }
  }

  lemma {:induction false} SentToTargets(run: Run, packet: seq<byte>, rounds: nat)
    ensures forall d :: d in run.Broadcasts(packet, rounds) ==> d.data == packet && d.addr in run.resolved.targets
  {
    if rounds > 0 {
      SentToTargets(run, packet, rounds - 1);
    }
  }

  lemma SentTail(run: Run, t: Trace, packet: seq<byte>, ttl: u32, before: seq<Datagram>, after: seq<Datagram>)
    requires run.WellFormed() && run.Explains(t) && after == before + run.SentBy(packet, t, ttl)
    ensures |after| >= |before| && forall d :: d in after[|before|..] ==> d.data == packet
  {
    TransmissionCount(run, packet, t, ttl);
    assert after[|before|..] == run.SentBy(packet, t, ttl);
    hide Run.SentBy, Run.Explains;
  }

  /** Completion goes to exactly the targets whose server, or whose address where no server is known, is
      not among the answers listened to. */
  lemma OwingTargets(run: Run, t: Trace, a: SocketAddr)
    requires run.WellFormed() && t.n <= |run.Heard(t.phase)|
    ensures a in run.Owing(t) <==>
              a in run.resolved.targets
              && (if a in run.resolved.serverIds
                  then forall x :: x in run.Listened(t) ==> x.result.serverId != run.resolved.serverIds[a]
                  else forall x :: x in run.Listened(t) ==> x.addr != a)
  {
    var heard := run.Listened(t);
    MissingMembers(run.resolved, SetOf(IdsOf(heard)), SetOf(AddrsOf(heard)), |run.resolved.targets|, a);
    assert run.resolved.targets[..|run.resolved.targets|] == run.resolved.targets;
    InHeard(heard);
    hide Run.Heard;
  }

  lemma InHeard(heard: seq<Answer>)
    ensures forall id :: id in SetOf(IdsOf(heard)) <==> exists x :: x in heard && x.result.serverId == id
    ensures forall a :: a in SetOf(AddrsOf(heard)) <==> exists x :: x in heard && x.addr == a
  {
    forall j | 0 <= j < |heard|
      ensures heard[j].result.serverId in IdsOf(heard) && heard[j].addr in AddrsOf(heard)
    {
      assert IdsOf(heard)[j] == heard[j].result.serverId && AddrsOf(heard)[j] == heard[j].addr;
    }
  }

  /** Exactly the answers listened to are credited, one each; and only failed sends of a delivery that
      partly got out are blamed. */
  lemma BooksBalance(run: Run, books: Books, t: Trace, ttl: u32, id: u64)
    requires run.WellFormed() && run.Explains(t)
    ensures StatsOf(run.BooksAfter(books, t, ttl), id).validResponses
         == StatsOf(books, id).validResponses + Occurrences(IdsOf(run.Listened(t)), id)
    ensures StatsOf(run.BooksAfter(books, t, ttl), id).sendFailures
         == StatsOf(books, id).sendFailures + Occurrences(run.Blamed(run.Delivered(t.phase, t.outcome.Ok?)), id)
            + (if run.Completes(t, ttl) then Occurrences(run.CompletionBlame(t), id) else 0)
  {
    var blamed := run.Blamed(run.Delivered(t.phase, t.outcome.Ok?));
    BlameCounts(books, blamed, id);
    CreditCounts(Blame(books, blamed), IdsOf(run.Listened(t)), id);
    BlameCounts(CreditAll(Blame(books, blamed), IdsOf(run.Listened(t))), run.CompletionBlame(t), id);
  }

  // ---------------------------------------------------------------- time

  /** A phase never starts before the windows of the earlier phases have passed in full. */
  lemma {:induction false} PhasesTakeTheirWindows(run: Run, phase: nat)
    requires run.WellFormed() && phase <= run.policy.replayCount + 1
    ensures run.PhaseStart(phase).now >= run.startedAt + P.RoundWindows(run.policy, phase) * NANOS_PER_MS
  {
    if phase > 0 {
      PhasesTakeTheirWindows(run, phase - 1);
      WaitReachesDeadline(run, run.Opening(phase - 1), run.Deadline(phase - 1));
      hide Run.WaitEnd, P.Window;
    }
  }

  lemma LastPhaseTakesItsWindow(run: Run)
    requires run.WellFormed()
    ensures run.PhaseStart(run.policy.replayCount + 2).now
         >= run.PhaseStart(run.policy.replayCount + 1).now + P.FinalWindow(run.policy) * NANOS_PER_MS
  {
    LastPhase(run);
    hide P.FinalWindow, Run.Answers, Run.WaitEnd, Run.PhaseStart, Run.Opening, Run.Heard;
    var c := run.PhaseStart(run.policy.replayCount + 1);
    WaitReachesDeadline(run, c, c.now + P.FinalWindow(run.policy) * NANOS_PER_MS);
  }

  /** A request gives up only after the whole horizon it announced as its deduplication lifetime. */
  lemma TimeoutNotBeforeHorizon(run: Run, t: Trace, limit: u32)
    requires P.HorizonOf(run.policy, limit).Ok? && run.WellFormed() && run.Explains(t) && t.outcome == Ok(None)
    ensures t.now >= run.startedAt + P.HorizonOf(run.policy, limit).value * NANOS_PER_MS
  {
    hide P.HorizonOf, P.RoundWindows, P.FinalWindow, Run.PhaseStart, Run.Explains, P.Schedule.WellFormed;
    PhasesTakeTheirWindows(run, run.policy.replayCount + 1);
    LastPhaseTakesItsWindow(run);
    P.WindowsSumToHorizon(run.policy, limit);
    SilentEnd(run, t);
  }

  lemma SilentEnd(run: Run, t: Trace)
    requires run.WellFormed() && run.Explains(t) && t.outcome == Ok(None)
    ensures t.now == run.PhaseStart(run.Phases()).now
  {
    hide Run.PhaseStart, Run.Opening, Run.Heard, Run.Chosen;
  }

  function SendTimes(net: Network, rounds: nat): nat {
    if rounds == 0 then 0 else SendTimes(net, rounds - 1) + net.sendTime(rounds - 1)
  }

  /** With nothing received, every phase starts exactly when the sends and the windows before it are over. */
  lemma {:induction false} SilentPhases(run: Run, phase: nat)
    requires run.WellFormed() && phase <= run.policy.replayCount + 1 && run.events == []
    ensures run.PhaseStart(phase)
         == Cursor(0, run.startedAt + P.RoundWindows(run.policy, phase) * NANOS_PER_MS + SendTimes(run.net, phase))
  {
    if phase > 0 {
      SilentPhases(run, phase - 1);
      hide P.Window;
    }
  }

  /** A silent request waits exactly the horizon it announced, besides the time of its N + 1 transmissions. */
  lemma SilentRequestLastsHorizon(run: Run, t: Trace, limit: u32)
    requires P.HorizonOf(run.policy, limit).Ok? && run.WellFormed() && run.Explains(t) && t.outcome == Ok(None)
    requires run.events == []
    ensures t.now == run.startedAt + P.HorizonOf(run.policy, limit).value * 1_000_000
                     + SendTimes(run.net, run.policy.replayCount + 1)
  {
    var last := run.policy.replayCount + 1;
    SilentPhases(run, last);
    P.WindowsSumToHorizon(run.policy, limit);
    LastPhase(run);
    SilentEnd(run, t);
    hide P.HorizonOf, P.RoundWindows, P.FinalWindow, P.SaturatingMul, SendTimes, Run.PhaseStart, Run.Opening, Run.Heard, Run.Ends,
      Run.Explains;
    SilentWindow(run);
    Arithmetic.Distribute(P.RoundWindows(run.policy, last), P.FinalWindow(run.policy), 1_000_000);
  }

  lemma SilentWindow(run: Run)
    requires run.WellFormed() && run.events == []
    ensures var last := run.policy.replayCount + 1;
      run.PhaseStart(last).next == 0 ==>
        run.PhaseStart(run.Phases()).now == run.PhaseStart(last).now + P.FinalWindow(run.policy) * 1_000_000
  {
    LastPhase(run);
    hide P.FinalWindow;
  }

  // ---------------------------------------------------------------- completion within the lifetime

  lemma {:induction false} AnswersInsideWait(run: Run, c: Cursor, deadline: nat)
    ensures forall j :: 0 <= j < |run.Answers(c, deadline)| ==>
              c.now <= run.Answers(c, deadline)[j].at <= run.WaitEnd(c, deadline).now
    decreases |run.events| - c.next
  {
    if c.now < deadline {
      OneWait(run, c, deadline);
      var next := NextCursor(run, c, deadline);
      if Arrives(run, c) {
        AnswersInsideWait(run, next, deadline);
        hide Accepted, Run.Answers, Run.WaitEnd;
      }
    }
  }

  lemma SelectedAt(run: Run, t: Trace)
    requires run.WellFormed() && run.Explains(t) && t.Selected()
    ensures 1 <= t.n <= |run.Heard(t.phase)|
    ensures t.now == if t.phase > 0 || t.oldest == Some(run.Heard(t.phase)[t.n - 1].result.serverId)
                     then run.Heard(t.phase)[t.n - 1].at else run.PhaseStart(1).now
  {
    hide Run.Heard, Run.PhaseStart, Run.Opening, IsOldest, Run.Quiet, Run.Chosen, Run.NothingSent;
  }

  lemma PhaseInside(run: Run, phase: nat, j: nat)
    requires run.WellFormed() && j < |run.Heard(phase)|
    ensures run.Opening(phase).now <= run.Heard(phase)[j].at <= run.PhaseStart(phase + 1).now
  {
    AnswersInsideWait(run, run.Opening(phase), run.Deadline(phase));
    hide Run.Answers, Run.WaitEnd, Run.Opening;
  }

  /** A selection is made between the end of its phase's sends and the end of its phase. */
  lemma SelectionInsidePhase(run: Run, t: Trace)
    requires run.WellFormed() && run.Explains(t) && t.Selected()
    ensures run.Opening(t.phase).now <= t.now <= run.PhaseStart(t.phase + 1).now
  {
    hide Run.Explains, Run.Heard, Run.PhaseStart, Run.Opening, Run.WellFormed;
    SelectedAt(run, t);
    PhaseInside(run, t.phase, t.n - 1);
  }

  /** Completion delivery starts exactly for a policy that asks for it and a selection before the end of the
      deduplication lifetime; the time that counts is the arrival of the answer that ends the listening, or the
      end of round 0's window when the oldest allowed server left it unanswered. */
  lemma CompletionWithinLifetime(run: Run, t: Trace, ttl: u32)
    requires run.WellFormed() && run.Explains(t) && t.Selected()
    ensures t.n <= |run.Heard(t.phase)| && t.n >= 1
    ensures var last := run.Heard(t.phase)[t.n - 1]; var end := run.startedAt + ttl * 1_000_000;
      run.Completes(t, ttl) <==>
        && run.policy.completionDelivery
        && if t.phase > 0 || t.oldest == Some(last.result.serverId) then last.at < end
           else run.PhaseStart(1).now < end
  {
    hide Run.Explains, Run.Heard, Run.PhaseStart, Run.Opening, Run.WellFormed;
    SelectedAt(run, t);
  }

  /** An environment without delays: sends take no time, answers come before their deadline, and every wait
      ends at its deadline. */
  ghost predicate OnTime(run: Run)
    requires run.WellFormed()
  {
    forall p: nat :: p < run.Phases() ==> PhaseOnTime(run, p)
  }

  ghost predicate PhaseOnTime(run: Run, p: nat)
    requires run.WellFormed()
  {
    && run.Opening(p).now == run.PhaseStart(p).now
    && run.PhaseStart(p + 1).now == run.Deadline(p)
    && forall j :: 0 <= j < |run.Heard(p)| ==> run.Heard(p)[j].at < run.Deadline(p)
  }

  lemma {:induction false} OnTimePhases(run: Run, phase: nat)
    requires run.WellFormed() && OnTime(run) && phase <= run.policy.replayCount + 1
    ensures run.PhaseStart(phase).now == run.startedAt + P.RoundWindows(run.policy, phase) * NANOS_PER_MS
  {
    if phase > 0 {
      OnTimePhases(run, phase - 1);
      assert PhaseOnTime(run, phase - 1);
      hide Run.Opening, Run.Heard, P.Window;
      assert run.PhaseStart(phase).now == run.Deadline(phase - 1);
    }
  }

  lemma OnTimeDeadline(run: Run, phase: nat, limit: u32)
    requires P.HorizonOf(run.policy, limit).Ok? && run.WellFormed() && OnTime(run) && phase < run.Phases()
    ensures run.Deadline(phase) <= run.startedAt + P.HorizonOf(run.policy, limit).value * NANOS_PER_MS
  {
    var n := run.policy.replayCount;
    OnTimePhases(run, phase);
    assert PhaseOnTime(run, phase);
    P.WindowsSumToHorizon(run.policy, limit);
    if run.Transmits(phase) {
      P.RoundWindowsGrow(run.policy, limit, phase + 1, n + 1);
    }
    hide Run.Opening, Run.PhaseStart, Run.Heard, P.HorizonOf, P.Window, P.FinalWindow;
  }

  /** Without delays, a policy that asks for completion gets it for every selection but one kind: when the
      policy has neither a replay nor a receive-only phase, and the oldest allowed server left the only window
      unanswered, the lifetime is over when the selection is made. */
  lemma PromptSelectionCompletes(run: Run, t: Trace, limit: u32)
    requires P.HorizonOf(run.policy, limit).Ok? && run.WellFormed() && OnTime(run)
    requires run.Explains(t) && t.Selected()
    ensures run.Completes(t, P.HorizonOf(run.policy, limit).value) <==>
              && run.policy.completionDelivery
              && (|| t.phase > 0
                  || t.oldest == Some(run.Heard(0)[t.n - 1].result.serverId)
                  || run.policy.replayCount > 0
                  || run.policy.finalReceiveUnits > 0)
  {
    var horizon := P.HorizonOf(run.policy, limit).value;
    CompletionWithinLifetime(run, t, horizon);
    OnTimeDeadline(run, t.phase, limit);
    assert PhaseOnTime(run, t.phase);
    OnTimePhases(run, 1);
    P.FirstWindowBelowHorizon(run.policy, limit);
    hide Run.Opening, Run.PhaseStart, Run.Heard, Run.Deadline, Run.Completes, P.HorizonOf, P.RoundWindows, IsOldest, Run.Quiet;
  }
}
