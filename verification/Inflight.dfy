/** Routing of received datagrams to the requests waiting for them, by request id. */
module Inflight {
  import opened Prelude
  import opened Wire
  import opened HaRequest

  /** The datagrams of a history that carry a request id, in order. */
  function Addressed(history: seq<Datagram>, id: Id): seq<Datagram> {
    if history == [] then []
    else
      var last := history[|history| - 1];
      Addressed(history[..|history| - 1], id) + (if PeekRequestId(last.data) == Some(id) then [last] else [])
  }

  /** The map from request ids to response channels. */
  class InflightMap {
    var channels: map<Id, seq<Datagram>>
    /** Every datagram the router has read; where in that history each request was registered; and what the
        request has taken from its channel. */
    ghost var history: seq<Datagram>
    ghost var since: map<Id, nat>
    ghost var taken: map<Id, seq<Datagram>>

    /** Each channel has delivered, and still holds, exactly the datagrams with its request's id that were
        read since the request was registered, in order. */
    ghost predicate Valid()
      reads this
    {
      && since.Keys == taken.Keys == channels.Keys
      && forall id :: id in channels ==>
           since[id] <= |history| && taken[id] + channels[id] == Addressed(history[since[id]..], id)
    }

    constructor ()
      ensures Valid() && channels == map[] && history == []
    {
      channels, history, since, taken := map[], [], map[], map[];
    }

    method Register(id: Id)
      requires Valid()
      modifies this
      ensures Valid() && channels == old(channels)[id := []] && history == old(history)
      ensures since == old(since)[id := |history|] && taken == old(taken)[id := []]
    {
      assert history[|history|..] == [];
      channels, since, taken := channels[id := []], since[id := |history|], taken[id := []];
    }

    /** Drop of the registration. */
    method Deregister(id: Id)
      requires Valid()
      modifies this
      ensures Valid() && channels == old(channels) - {id} && history == old(history)
      ensures since == old(since) - {id} && taken == old(taken) - {id}
    {
      hide Addressed;
      channels, since, taken := channels - {id}, since - {id}, taken - {id};
    }

    /** One datagram read by the router. */
    method Route(d: Datagram)
      requires Valid()
      modifies this
      ensures Valid() && history == old(history) + [d] && since == old(since) && taken == old(taken)
      ensures channels.Keys == old(channels).Keys
      ensures forall id :: id in channels ==>
                channels[id] == old(channels)[id] + (if PeekRequestId(d.data) == Some(id) then [d] else [])
    {
      hide PeekRequestId, Addressed;
      ghost var before := channels;
      var id := PeekRequestId(d.data);
      if id.Some? && id.value in channels {
        channels := channels[id.value := channels[id.value] + [d]];
      }
      forall id | id in channels
        ensures since[id] <= |history| + 1
        ensures taken[id] + channels[id] == Addressed((history + [d])[since[id]..], id)
      {
        AddressedNext(history, since[id], d, id);
        assert taken[id] + before[id] == Addressed(history[since[id]..], id);
      }
      history := history + [d];
    }

    /** A request takes the next datagram from its channel. */
    method Take(id: Id) returns (d: Option<Datagram>)
      requires Valid() && id in channels
      modifies this
      ensures Valid() && history == old(history) && since == old(since) && channels.Keys == old(channels).Keys
      ensures d.None? <==> old(channels)[id] == []
      ensures d.None? ==> channels == old(channels) && taken == old(taken)
      ensures d.Some? ==> [d.value] + channels[id] == old(channels)[id] && taken[id] == old(taken)[id] + [d.value]
      ensures forall other :: other in channels && other != id ==>
                channels[other] == old(channels)[other] && taken[other] == old(taken)[other]
    {
      hide Addressed;
      if channels[id] == [] {
        return None;
      }
      var first := channels[id][0];
      assert channels[id] == [first] + channels[id][1..];
      assert taken[id] + channels[id] == (taken[id] + [first]) + channels[id][1..];
      channels, taken := channels[id := channels[id][1..]], taken[id := taken[id] + [first]];
      d := Some(first);
    }
  }

  lemma AddressedNext(history: seq<Datagram>, from: nat, d: Datagram, id: Id)
    requires from <= |history|
    ensures Addressed((history + [d])[from..], id)
         == Addressed(history[from..], id) + (if PeekRequestId(d.data) == Some(id) then [d] else [])
  {
    assert (history + [d])[from..] == history[from..] + [d];
    assert (history[from..] + [d])[..|history[from..]|] == history[from..];
  }

  /** Whatever a channel gives a request was read by the router and carries that request's id in a header
      that parses; so no datagram reaches two requests. */
  lemma {:induction false} OnlyOwnDatagrams(history: seq<Datagram>, id: Id, d: Datagram)
    ensures d in Addressed(history, id) <==>
              d in history && ParseTenantHeader(d.data).Ok? && ParseTenantHeader(d.data).value.0.uniqueId == id
  {
    PeekAgrees(d.data);
    hide PeekRequestId, ParseTenantHeader;
    if history != [] {
      OnlyOwnDatagrams(history[..|history| - 1], id, d);
      assert history == history[..|history| - 1] + [history[|history| - 1]];
    }
  }

  /** Every answer of a wait comes from a datagram that arrived. */
  lemma {:induction false} AnswerArrived(run: Run, c: Cursor, deadline: nat, j: nat) returns (i: nat)
    requires j < |run.Answers(c, deadline)|
    ensures i < |run.events| && run.events[i].Arrival?
    ensures Accepted(run.events[i].datagram, run.resolved.allowed, run.verifier) == Some(run.Answers(c, deadline)[j].result)
    decreases |run.events| - c.next
  {
    hide Accepted;
    var rest := Cursor(c.next + 1, c.now + run.events[c.next].elapsed);
    var first := FirstAnswer(run.Verdict(run.events[c.next].datagram), run.events[c.next].datagram.addr, rest.now);
    assert run.Answers(c, deadline) == first + run.Answers(rest, deadline);
    if j < |first| {
      i := c.next;
    } else {
      i := AnswerArrived(run, rest, deadline, j - |first|);
    }
  }

  lemma ChosenIsHeard(run: Run, t: Trace) returns (j: nat)
    requires run.WellFormed() && run.Explains(t) && t.Selected()
    ensures j < |run.Heard(t.phase)| && run.Heard(t.phase)[j].result == t.outcome.value.value
  {
    var answers := run.Heard(t.phase);
    assert run.Chosen(answers, t.phase, t.oldest, t.n, t.outcome.value.value);
    hide Run.Heard, Run.Explains, FirstOldest;
    if t.phase > 0 {
      j := 0;
    } else {
      j :| j < t.n && FirstOldest(answers, j) && answers[j].result == t.outcome.value.value;
    }
  }

  lemma AcceptedParses(d: Datagram, allowed: set<u64>, v: Verifier)
    requires Accepted(d, allowed, v).Some? && ParseTenantHeader(d.data).Ok?
    ensures ParseRateResponse(d.data, v.auth, v.cipher) == Ok(Accepted(d, allowed, v).value)
    ensures var server := ParseTenantHeader(d.data).value.0.keyId;
      server == Accepted(d, allowed, v).value.serverId && (allowed == {} || server in allowed)
  {
    PeekAgrees(d.data);
    ResponseNamesPeekedServer(d.data, v.auth, v.cipher);
    hide ParseRateResponse, PeekServerId, ParseTenantHeader;
  }

  /** Routing and selection together: when all that a run hears was taken from the channel of a request id, the
      selected result was read from a datagram that the router received after the request was registered, and
      whose own header carries that id and names an allowed server. */
  lemma SelectionIsOwn(m: InflightMap, id: Id, run: Run, t: Trace) returns (d: Datagram)
    requires m.Valid() && id in m.channels
    requires run.WellFormed() && run.Explains(t) && t.Selected()
    requires forall i :: 0 <= i < |run.events| && run.events[i].Arrival? ==> run.events[i].datagram in m.taken[id]
    ensures d in m.history[m.since[id]..] && ParseTenantHeader(d.data).Ok?
    ensures var header := ParseTenantHeader(d.data).value.0;
      && header.uniqueId == id && header.keyId == t.outcome.value.value.serverId
      && (run.resolved.allowed == {} || header.keyId in run.resolved.allowed)
    ensures ParseRateResponse(d.data, run.verifier.auth, run.verifier.cipher) == Ok(t.outcome.value.value)
  {
    var j := ChosenIsHeard(run, t);
    var i := AnswerArrived(run, run.Opening(t.phase), run.Deadline(t.phase), j);
    d := run.events[i].datagram;
    var since := m.history[m.since[id]..];
    assert m.taken[id] <= Addressed(since, id);
    hide Run.Explains, Run.Answers, Addressed, Accepted, ParseTenantHeader, ParseRateResponse;
    assert d in m.taken[id];
    PrefixMember(m.taken[id], Addressed(since, id), d);
    OnlyOwnDatagrams(since, id, d);
    AcceptedParses(d, run.resolved.allowed, run.verifier);
  }

  lemma PrefixMember(a: seq<Datagram>, b: seq<Datagram>, d: Datagram)
    requires a <= b && d in a
    ensures d in b
  {}
}
