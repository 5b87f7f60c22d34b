/** Who is in the list of a server after any run. */
module ServerMembership {
  import opened Messages
  import opened ServerBroadcasts
  import opened ServerRuns
  import B = Broadcast
  import WQ = WriteQueue

  predicate IsClosed(links: seq<WQ.Link<Message>>, k: nat) {
    k < |links| && links[k].closed
  }

  /** The sessions of `ks` that are open. */
  function OpenOnes(links: seq<WQ.Link<Message>>, ks: seq<nat>): seq<nat> {
    if ks == [] then []
    else (if IsClosed(links, ks[0]) then [] else [ks[0]]) + OpenOnes(links, ks[1..])
  }

  /** The sessions that have connected, in order, if the next one to be accepted is `next`. */
  function Connected(es: seq<Event>, next: nat): seq<nat> {
    if es == [] then []
    else if es[0].Accepted? then (if es[0].ok then [next] else []) + Connected(es[1..], next + 1)
    else Connected(es[1..], next)
  }

  lemma {:induction false} OpenOnesConcat(links: seq<WQ.Link<Message>>, a: seq<nat>, b: seq<nat>)
    ensures OpenOnes(links, a + b) == OpenOnes(links, a) + OpenOnes(links, b)
    decreases |a|
  {
    hide IsClosed;
    if a == [] {
      assert a + b == b;
    } else {
      var head := if IsClosed(links, a[0]) then [] else [a[0]];
      OpenOnesConcat(links, a[1..], b);
      assert (a + b)[0] == a[0] && (a + b)[1..] == a[1..] + b;
      assert OpenOnes(links, a + b) == head + (OpenOnes(links, a[1..]) + OpenOnes(links, b));
    }
  }

  /** Sessions only ever close, and none is forgotten. */
  predicate Closes(before: seq<WQ.Link<Message>>, after: seq<WQ.Link<Message>>) {
    |before| <= |after| && forall k :: 0 <= k < |before| && before[k].closed ==> after[k].closed
  }

  /** What is open later is what is open later of what was open before. */
  lemma {:induction false} OpenOnesTwice(before: seq<WQ.Link<Message>>, after: seq<WQ.Link<Message>>, ks: seq<nat>)
    requires Closes(before, after)
    ensures OpenOnes(after, OpenOnes(before, ks)) == OpenOnes(after, ks)
    decreases |ks|
  {
    if ks != [] {
      var k, rest := ks[0], OpenOnes(before, ks[1..]);
      OpenOnesTwice(before, after, ks[1..]);
      if IsClosed(before, k) {
        assert OpenOnes(before, ks) == rest && after[k].closed;
      } else {
        assert OpenOnes(before, ks) == [k] + rest;
        assert ([k] + rest)[1..] == rest;
      }
    }
  }

  lemma {:induction false} OpensAreOpenOnes(s: State, i: nat)
    requires s.Listed() && i <= |s.list|
    ensures B.Opens(s.Entries()[i..]) == OpenOnes(s.links, s.list[i..])
    decreases |s.list| - i
  {
    if i < |s.list| {
      OpensAreOpenOnes(s, i + 1);
      assert s.Entries()[i..][1..] == s.Entries()[i + 1..] && s.list[i..][1..] == s.list[i + 1..];
    }
  }

  lemma {:induction false} SameFlags(before: seq<WQ.Link<Message>>, after: seq<WQ.Link<Message>>, ks: seq<nat>)
    requires |before| == |after| && forall k :: 0 <= k < |before| ==> before[k].closed == after[k].closed
    ensures OpenOnes(before, ks) == OpenOnes(after, ks)
    decreases |ks|
  {
    if ks != [] {
      SameFlags(before, after, ks[1..]);
    }
  }

  /** The open sessions in the list are the open ones of `ks`. */
  ghost predicate Tracks(s: State, ks: seq<nat>) {
    && Valid(s) && (forall i :: 0 <= i < |ks| ==> ks[i] < |s.links| - 1)
    && s.Listed() && OpenOnes(s.links, s.list) == OpenOnes(s.links, ks)
  }

  lemma BroadcastTracks(s: State, m: Message, ks: seq<nat>)
    requires Tracks(s, ks) && CanHappen(s, Broadcast(m))
    ensures Tracks(Step(s, Broadcast(m)), ks)
  {
    var es, t := s.Entries(), Step(s, Broadcast(m));
    StepKeepsValid(s, Broadcast(m));
    BroadcastPosts(s, m);
    BroadcastLeavesSurvivors(s, m);
    B.BroadcastHalvesGaps(es);
    OpensAreOpenOnes(s, 0);
    OpensAreOpenOnes(t, 0);
    assert es[0..] == es && t.Entries()[0..] == t.Entries() && s.list[0..] == s.list && t.list[0..] == t.list;
    SameFlags(s.links, t.links, ks);
  }

  /** The session that joins the list with an event, if one does. */
  function Joins(s: State, e: Event): seq<nat>
    requires s.links != []
  {
    if e == Accepted(true) then [|s.links| - 1] else []
  }

  lemma OtherTracks(s: State, e: Event, ks: seq<nat>)
    requires Tracks(s, ks) && CanHappen(s, e) && !e.Broadcast?
    ensures Tracks(Step(s, e), ks + Joins(s, e))
  {
    var t, more := Step(s, e), Joins(s, e);
    StepKeepsValid(s, e);
    assert t.list == s.list + more;
    OpenOnesConcat(t.links, s.list, more);
    OpenOnesConcat(t.links, ks, more);
    OpenOnesTwice(s.links, t.links, s.list);
    OpenOnesTwice(s.links, t.links, ks);
  }

  lemma StepTracks(s: State, e: Event, ks: seq<nat>)
    requires Tracks(s, ks) && CanHappen(s, e)
    ensures Tracks(Step(s, e), ks + Joins(s, e))
    ensures |Step(s, e).links| == |s.links| + if e.Accepted? then 1 else 0
  {
    if e.Broadcast? {
      BroadcastTracks(s, e.msg, ks);
      assert ks + [] == ks;
    } else {
      OtherTracks(s, e, ks);
    }
  }

  lemma {:induction false} RunTracks(s: State, es: seq<Event>, ks: seq<nat>)
    requires s.links != [] && Tracks(s, ks) && Legal(s, es)
    ensures Tracks(Run(s, es), ks + Connected(es, |s.links| - 1))
    decreases |es|
  {
    hide Tracks, Step, CanHappen;
    if es == [] {
      assert ks + [] == ks;
    } else {
      var t, more := Step(s, es[0]), Joins(s, es[0]);
      StepTracks(s, es[0], ks);
      RunTracks(t, es[1..], ks + more);
      var later := Connected(es[1..], |t.links| - 1);
      assert Connected(es, |s.links| - 1) == more + later;
      assert ks + more + later == ks + (more + later);
    }
  }

  /** The connected sessions none of whose writes has failed in the run `es`. */
  function Unfailed(es: seq<Event>, ks: seq<nat>): seq<nat> {
    if ks == [] then []
    else (if Completed(ks[0], false) in es then [] else [ks[0]]) + Unfailed(es, ks[1..])
  }

  lemma {:induction false} OpenIsUnfailed(es: seq<Event>, ks: seq<nat>)
    requires Legal(INITIAL, es) && forall i :: 0 <= i < |ks| ==> ks[i] < |Run(INITIAL, es).links|
    ensures OpenOnes(Run(INITIAL, es).links, ks) == Unfailed(es, ks)
    decreases |ks|
  {
    if ks != [] {
      ClosedIffWriteFailed(es, ks[0]);
      hide Run, Legal, Step;
      OpenIsUnfailed(es, ks[1..]);
    }
  }

  /** MEMBERSHIP. After any run the open sessions in the list are exactly the sessions that have
      connected and none of whose writes has failed, in the order in which they connected: no
      broadcast, however it skips and erases, loses one of them. */
  lemma OpenSessionsAreTheUnfailed(es: seq<Event>)
    requires Legal(INITIAL, es)
    ensures Run(INITIAL, es).Listed()
    ensures B.Opens(Run(INITIAL, es).Entries()) == Unfailed(es, Connected(es, 0))
  {
    RunTracks(INITIAL, es, []);
    var t, ks := Run(INITIAL, es), Connected(es, 0);
    assert [] + ks == ks;
    OpensAreOpenOnes(t, 0);
    assert t.Entries()[0..] == t.Entries() && t.list[0..] == t.list;
    OpenIsUnfailed(es, ks);
  }
}
