/** The class `Tcp_server`: the session list, the broadcast over it, and the accept handler. */
module TcpServers {
  import opened Messages
  import opened Sequences
  import opened TcpSessions
  import B = Broadcast
  import SR = ServerRuns
  import WQ = WriteQueue

  class TcpServer {
    var list: seq<TcpSession>
    /** `Tcp_session_it`, as an index into `list`. */
    var it: nat
    /** The session the one outstanding accept will fill. */
    var accepting: TcpSession

    // History: all sessions in order of creation, and the numbers of those in the list.
    ghost var sessions: seq<TcpSession>
    ghost var numbers: seq<nat>

    /** The server as its state machine sees it. */
    ghost function View(): SR.State
      reads this, sessions
    {
      SR.State(StatesOf(sessions), numbers)
    }

    ghost predicate Valid()
      reads this, sessions
    {
      && Distinct(sessions) && SR.Valid(View())
      && accepting == sessions[|sessions| - 1]
      && list == B.NamesOf(numbers, sessions)
    }

    /** The sessions of a list are distinct, and the deque of each agrees with its socket. */
    static ghost predicate Sound(list: seq<TcpSession>)
      reads list
    {
      Distinct(list) && forall i :: 0 <= i < |list| ==> list[i].Valid()
    }

    /** The list with the flags the broadcast reads. */
    ghost function Entries(): (es: seq<B.Entry<TcpSession>>)
      reads this, list
    {
      EntriesOf(list)
    }

    static ghost function EntriesOf(ss: seq<TcpSession>): (es: seq<B.Entry<TcpSession>>)
      reads ss
    {
      seq(|ss|, i requires 0 <= i < |ss| reads ss => B.Entry(ss[i], ss[i].closed))
    }

    constructor ()
      ensures Valid() && View() == SR.INITIAL
      ensures list == [] && fresh(accepting)
    {
      list, it, sessions, numbers := [], 0, [], [];
      accepting := new TcpSession();
      new;
      StartAccept();
    }

    method StartAccept()
      modifies this`accepting, this`sessions
      ensures fresh(accepting) && accepting.View() == WQ.Fresh()
      ensures sessions == old(sessions) + [accepting]
    {
      var session := new TcpSession();
      session.closed := false;
      accepting, sessions := session, sessions + [session];
    }

    /** The accept completed: a session that connected joins the list at the end, open and with
        an empty deque; one that failed is dropped. Either way the next accept is armed. */
    method HandleAccept(session: TcpSession, error: bool)
      requires Valid() && session == accepting
      modifies this
      ensures Valid() && View() == SR.Step(old(View()), SR.Accepted(!error))
      ensures list == if error then old(list) else old(list) + [session]
      ensures !error ==> session.View() == WQ.Fresh()
      ensures fresh(accepting)
    {
      ghost var before := View();
      if !error {
        list, numbers := list + [session], numbers + [|sessions| - 1];
      }
      StartAccept();
      SR.StepKeepsValid(before, SR.Accepted(!error));
      assert View().links == before.links + [WQ.Fresh()];
    }

    lemma SessionIsValid(k: nat)
      requires Valid() && k < |sessions|
      ensures sessions[k].Valid() && View().links != []
    {
      assert WQ.Agrees(View().links[k]);
    }

    /** The service runs the handler of a write that completed on session number `k`. */
    method CompleteWrite(session: TcpSession, ghost k: nat, error: bool)
      requires Valid() && k < |sessions| && session == sessions[k] && session.pending > 0
      modifies session
      ensures Valid() && View() == SR.Step(old(View()), SR.Completed(k, !error))
    {
      hide SR.Valid, B.NamesOf, WQ.Step, WQ.Agrees;
      ghost var before := View();
      SessionIsValid(k);
      session.HandleWrite(error);
      SR.StepKeepsValid(before, SR.Completed(k, !error));
      assert View().links == SR.Step(before, SR.Completed(k, !error)).links;
    }

    /** The sessions `ss` are in the states `views`. */
    static ghost predicate InStates(ss: seq<TcpSession>, views: seq<WQ.Link<Message>>)
      reads ss
    {
      |views| == |ss| && forall i :: 0 <= i < |ss| ==> ss[i].View() == views[i]
    }

    static ghost function StatesOf(ss: seq<TcpSession>): (views: seq<WQ.Link<Message>>)
      reads ss
      ensures InStates(ss, views)
      ensures var es := EntriesOf(ss);
              |es| == |ss| && forall i :: 0 <= i < |ss| ==> es[i].closed == views[i].closed
      ensures Sound(ss) ==> forall i :: 0 <= i < |ss| ==> WQ.Agrees(views[i])
    {
      var views := seq(|ss|, i requires 0 <= i < |ss| reads ss => ss[i].View());
      assert forall i :: 0 <= i < |ss| ==> views[i] == ss[i].View();
      views
    }

    /** The states `after` are the states `before` with `m` posted to the sessions `served`. */
    static ghost predicate PostedTo(ss: seq<TcpSession>, m: Message, served: seq<TcpSession>,
                                    before: seq<WQ.Link<Message>>, after: seq<WQ.Link<Message>>) {
      && |ss| == |before| == |after|
      && forall i :: 0 <= i < |ss| ==>
           after[i] == if ss[i] in served then WQ.Step(before[i], WQ.Post(m)) else before[i]
    }

    /** The walk over the list before its first round. */
    ghost function StartWalk(): (w: B.Walk<TcpSession>)
      requires Sound(list) && B.WalkDefined(Entries())
      reads this, list
      ensures w.Valid() && w.ts == w.list == list && w.es == Entries() && |w.es| == |list|
      ensures w.kept == [] && w.served == [] && (list == [] ==> w.AtEnd())
    {
      B.Start(list, Entries())
    }

    static lemma PostedToNone(ss: seq<TcpSession>, m: Message, states: seq<WQ.Link<Message>>)
      requires |states| == |ss|
      ensures PostedTo(ss, m, [], states, states)
    {
    }

    static lemma PostedToNext(ss: seq<TcpSession>, m: Message, served: seq<TcpSession>, j: nat,
                              before: seq<WQ.Link<Message>>, after: seq<WQ.Link<Message>>)
      requires PostedTo(ss, m, served, before, after) && Distinct(ss)
      requires j < |ss| && ss[j] !in served
      ensures |before| == |after| == |ss| && after[j] == before[j]
      ensures PostedTo(ss, m, served + [ss[j]], before, after[j := WQ.Step(after[j], WQ.Post(m))])
    {
    }

    static lemma PostedToAgree(ss: seq<TcpSession>, m: Message, served: seq<TcpSession>,
                               before: seq<WQ.Link<Message>>, after: seq<WQ.Link<Message>>)
      requires PostedTo(ss, m, served, before, after)
      requires forall i :: 0 <= i < |ss| ==> WQ.Agrees(before[i])
      ensures |after| == |ss| && forall i :: 0 <= i < |ss| ==> WQ.Agrees(after[i])
    {
    }

    /** One round of the loop of `Post`, increment included: erase the session under the
        iterator, or post to it. */
    method Round(m: Message)
      requires it < |list|
      modifies this`list, this`it, list[it]
      ensures it == old(it) + 1
      ensures list == if old(list[it].closed) then B.Erased(old(list), old(it)) else old(list)
      ensures old(list[it]).View()
           == if old(list[it].closed) then old(list[it].View()) else WQ.Step(old(list[it].View()), WQ.Post(m))
    {
      var session := list[it];
      if session.closed {
        list := B.Erased(list, it);
      } else {
        session.Post(m);
      }
      it := it + 1;
    }

    /** The loop of `Post`: a walk `w` over the list, whose sessions are in the states `before`;
        results: the walk at its end, and the states of the same sessions afterwards. */
    method Loop(m: Message, ghost w0: B.Walk<TcpSession>, ghost before: seq<WQ.Link<Message>>)
      returns (ghost w: B.Walk<TcpSession>, ghost after: seq<WQ.Link<Message>>)
      requires w0.Valid() && w0.ts == w0.list == list && w0.kept == [] && w0.served == []
      requires InStates(list, before) && |w0.es| == |list|
      requires forall i :: 0 <= i < |list| ==> w0.es[i].closed == before[i].closed
      modifies this`list, this`it, set s | s in list
      ensures w.Valid() && w.AtEnd() && w.ts == old(list) && w.es == w0.es && w.list == list
      ensures InStates(old(list), after) && PostedTo(old(list), m, w.served, before, after)
    {
      hide B.Walk.Valid, B.Walk.Next, Distinct, PostedTo, WQ.Step;
      PostedToNone(list, m, before);
      w, after := w0, before;
      it := 0;
      while it != |list|
        invariant w.Valid() && w.ts == old(list) && w.es == w0.es && w.list == list && |w.kept| == it
        invariant InStates(old(list), after) && PostedTo(old(list), m, w.served, before, after)
        decreases |w.ts| - w.j
      {
        w.NextIsValid();
        PostedToNext(old(list), m, w.served, w.j, before, after);
        Round(m);
        if !w.es[w.j].closed {
          after := after[w.j := WQ.Step(after[w.j], WQ.Post(m))];
        }
        w := w.Next();
      }
    }

    /** The walk of `Post` over the whole list. */
    method WalkList(m: Message)
      requires Sound(list) && B.WalkDefined(Entries())
      modifies this`list, this`it, set s | s in list
      ensures Sound(list)
      ensures list == B.Whos(B.Survivors(old(Entries())))
      ensures forall i :: 0 <= i < |old(list)| ==>
                var s := old(list)[i];
                s.View() == if s in B.Recipients(old(Entries())) then WQ.Step(old(s.View()), WQ.Post(m))
                            else old(s.View())
    {
      hide B.Walk.Valid, Distinct, B.Whos, B.WalkDefined, B.Survivors, B.Recipients,
           WQ.Agrees, StatesOf, EntriesOf, StartWalk;
      ghost var all, before := list, StatesOf(list);
      ghost var w, after := StartWalk(), before;
      if list != [] {
        w, after := Loop(m, w, before);
      }
      PostedToAgree(all, m, w.served, before, after);
      w.EndIsSurvivors();
      forall k | 0 <= k < |list|
        ensures list[k].Valid()
      {
        var i :| 0 <= i < |all| && all[i] == list[k];
        assert WQ.Agrees(after[i]);
      }
    }

    /** The sessions in the list, each with its number. */
    lemma ListIsNamed()
      requires Valid()
      ensures Sound(list)
      ensures View().Listed() && B.Within(View().Entries(), sessions)
      ensures View().list == B.Whos(View().Entries()) && list == B.Whos(Entries())
      ensures Entries() == B.Named(View().Entries(), sessions)
      ensures B.WalkDefined(Entries()) <==> B.WalkDefined(View().Entries())
    {
      forall i | 0 <= i < |list|
        ensures list[i].Valid()
      {
        SessionIsValid(numbers[i]);
      }
      var es := View().Entries();
      assert Entries() == B.Named(es, sessions);
      B.NamedWalk(es, sessions);
    }

    static lemma RecipientIsListed(ss: seq<TcpSession>, es: seq<B.Entry<TcpSession>>, session: TcpSession)
      requires B.WalkDefined(es) && ss == B.Whos(es)
      ensures session in B.Recipients(es) ==> session in ss
    {
      SR.RecipientsAreListed(es);
    }

    /** Posting to the recipients among the sessions `ss` is the broadcast step of the machine. */
    static lemma BroadcastByName(ss: seq<TcpSession>, m: Message, before: SR.State, links: seq<WQ.Link<Message>>)
      requires SR.Valid(before) && |before.links| == |ss| && Distinct(ss) && B.Within(before.Entries(), ss)
      requires B.WalkDefined(before.Entries()) && B.WalkDefined(B.Named(before.Entries(), ss))
      requires PostedTo(ss, m, B.Recipients(B.Named(before.Entries(), ss)), before.links, links)
      ensures SR.CanHappen(before, SR.Broadcast(m))
      ensures var es, after := before.Entries(), SR.Step(before, SR.Broadcast(m));
              && SR.State(links, B.Whos(B.Survivors(es))) == after && SR.Valid(after)
              && B.Within(B.Survivors(es), ss)
              && B.Whos(B.Survivors(B.Named(es, ss))) == B.NamesOf(after.list, ss)
    {
      hide B.WalkDefined, B.Survivors, B.Recipients, B.Whos, B.Named, B.NamesOf, Distinct, SR.Step, WQ.Step;
      B.NamedSessions(before.Entries(), ss);
      SR.BroadcastPosts(before, m);
      SR.StepKeepsValid(before, SR.Broadcast(m));
      assert links == SR.Step(before, SR.Broadcast(m)).links;
    }

    /** One broadcast. The C++ loop is defined only if it does not increment the iterator past
        the end, which is `WalkDefined`. The list becomes the survivors of the walk; `Post` is
        called once on each recipient, and no other session changes. */
    method Post(m: Message)
      requires Valid() && B.WalkDefined(Entries())
      modifies this`list, this`it, this`numbers, set s | s in list
      ensures Valid()
      ensures SR.CanHappen(old(View()), SR.Broadcast(m)) && View() == SR.Step(old(View()), SR.Broadcast(m))
      ensures list == B.Whos(B.Survivors(old(Entries())))
      ensures forall i :: 0 <= i < |old(list)| ==>
                var s := old(list)[i];
                s.View() == if s in B.Recipients(old(Entries())) then WQ.Step(old(s.View()), WQ.Post(m))
                            else old(s.View())
    {
      hide B.WalkDefined, B.Survivors, B.Recipients, B.Whos, B.Named, B.NamesOf, B.Within, Distinct,
           SR.Step, SR.Valid, SR.State.Entries, SR.State.Listed, Sound, EntriesOf, WQ.Step, WQ.Agrees, TcpSession.Valid;
      ListIsNamed();
      ghost var before := View();
      WalkList(m);
      numbers := B.Whos(B.Survivors(before.Entries()));
      forall k | 0 <= k < |sessions|
        ensures sessions[k].View() == if sessions[k] in B.Recipients(old(Entries()))
                                      then WQ.Step(before.links[k], WQ.Post(m)) else before.links[k]
      {
        RecipientIsListed(old(list), old(Entries()), sessions[k]);
        if sessions[k] in old(list) {
          var i :| 0 <= i < |old(list)| && old(list)[i] == sessions[k];
        }
      }
      BroadcastByName(sessions, m, before, View().links);
    }
  }
}
