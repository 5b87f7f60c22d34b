/**
 One broadcast of `Tcp_server::Post`, as a walk over the session list.

 The loop erases a closed session, which moves the iterator to the next element, and then still
 increments it: the element after an erased one is never looked at. The lemmas describe the
 effect through the GAPS of a list: the number of closed sessions before each open session, and
 after the last one.
 */
module Broadcast {
  import opened Sequences

  /** A list element: a session and its `closed` flag. */
  datatype Entry<T> = Entry(who: T, closed: bool)

  /** The walk never increments an iterator that is already at the end (undefined in C++). */
  predicate WalkDefined<T>(es: seq<Entry<T>>) {
    if es == [] then true
    else if es[0].closed then |es| > 1 && WalkDefined(es[2..])
    else WalkDefined(es[1..])
  }

  /** The list after the walk. */
  function Survivors<T>(es: seq<Entry<T>>): seq<Entry<T>>
    requires WalkDefined(es)
  {
    if es == [] then []
    else if es[0].closed then [es[1]] + Survivors(es[2..])
    else [es[0]] + Survivors(es[1..])
  }

  /** The sessions whose `Post` the walk calls, in order. */
  function Recipients<T>(es: seq<Entry<T>>): seq<T>
    requires WalkDefined(es)
  {
    if es == [] then []
    else if es[0].closed then Recipients(es[2..])
    else [es[0].who] + Recipients(es[1..])
  }

  function Whos<T>(es: seq<Entry<T>>): seq<T> {
    seq(|es|, i requires 0 <= i < |es| => es[i].who)
  }

  /** `list.erase` at an iterator. */
  function Erased<T>(list: seq<T>, i: nat): seq<T>
    requires i < |list|
  {
    list[..i] + list[i + 1..]
  }

  lemma WhosSnoc<T>(es: seq<Entry<T>>, e: Entry<T>)
    ensures Whos(es + [e]) == Whos(es) + [e.who]
  {
  }

  /** A list made of the sessions `left` and the rest of `ts` from `j` on. */
  lemma EraseAndSkip<T>(left: seq<T>, ts: seq<T>, j: nat)
    requires j < |ts|
    ensures var list := left + ts[j..];
            && list == left + [ts[j]] + ts[j + 1..]
            && (j + 1 < |ts| ==> Erased(list, |left|) == left + [ts[j + 1]] + ts[j + 2..])
  {
  }

  /** A broadcast neither adds an entry to the list nor duplicates a session. */
  lemma {:induction false} SurvivorsStayDistinct<T>(es: seq<Entry<T>>)
    requires WalkDefined(es) && Distinct(Whos(es))
    ensures forall e :: e in Survivors(es) ==> e in es
    ensures Distinct(Whos(Survivors(es)))
    decreases |es|
  {
    if es != [] {
      var n := if es[0].closed then 2 else 1;
      var rest := es[n..];
      assert Whos(rest) == Whos(es)[n..];
      SurvivorsStayDistinct(rest);
      var kept := Survivors(rest);
      forall k | 0 <= k < |kept|
        ensures kept[k].who != es[n - 1].who
      {
        assert kept[k] in rest;
        var i :| 0 <= i < |rest| && rest[i] == kept[k];
        assert Whos(es)[n + i] == kept[k].who && Whos(es)[n - 1] == es[n - 1].who;
      }
      assert Whos(Survivors(es)) == [es[n - 1].who] + Whos(kept);
    }
  }

  lemma SurvivingSessions<T>(ts: seq<T>, es: seq<Entry<T>>)
    requires ts == Whos(es) && WalkDefined(es) && Distinct(ts)
    ensures Distinct(Whos(Survivors(es)))
    ensures forall t :: t in Whos(Survivors(es)) ==> t in ts
  {
    var survivors := Survivors(es);
    SurvivorsStayDistinct(es);
    forall t | t in Whos(survivors)
      ensures t in ts
    {
      var i :| 0 <= i < |survivors| && survivors[i].who == t;
      assert survivors[i] in survivors;
      var k :| 0 <= k < |es| && es[k] == survivors[i];
      assert ts[k] == t;
    }
  }

  /** The state of the walk over the sessions `ts`, whose entries were `es`, at position `j` of
      them: `list` is the list as it is now, the iterator stands behind the entries `kept`, and
      `Post` has been called on `served`. */
  datatype Walk<T> = Walk(ts: seq<T>, es: seq<Entry<T>>, j: nat,
                          list: seq<T>, kept: seq<Entry<T>>, served: seq<T>)
  {
    ghost predicate Valid() {
      && ts == Whos(es) && Distinct(ts) && j <= |es| && WalkDefined(es) && WalkDefined(es[j..])
      && list == Whos(kept) + ts[j..]
      && kept + Survivors(es[j..]) == Survivors(es)
      && served + Recipients(es[j..]) == Recipients(es)
      && forall t :: t in served ==> t in ts[..j]
    }

    ghost predicate AtEnd() {
      |kept| == |list|
    }

    /** One round: erase the element under the iterator and step over its successor, or call
        `Post` on it and step over it. */
    ghost function Next(): (w: Walk<T>)
      requires Valid() && !AtEnd()
      ensures j < w.j && |w.kept| == |kept| + 1
      ensures j < |ts| && |kept| < |list| && list[|kept|] == ts[j]
      ensures w.ts == ts && w.es == es
      ensures w.list == if es[j].closed then Erased(list, |kept|) else list
      ensures w.served == if es[j].closed then served else served + [ts[j]]
    {
      assert ts[j..] == [ts[j]] + ts[j + 1..];
      if es[j].closed then
        Walk(ts, es, j + 2, Erased(list, |kept|), kept + [es[j + 1]], served)
      else
        Walk(ts, es, j + 1, list, kept + [es[j]], served + [ts[j]])
    }

    lemma NextKeepsList()
      requires Valid() && !AtEnd()
      ensures Next().list == Whos(Next().kept) + ts[Next().j..]
    {
      if es[j].closed {
        EraseAndSkip(Whos(kept), ts, j);
        WhosSnoc(kept, es[j + 1]);
      } else {
        EraseAndSkip(Whos(kept), ts, j);
        WhosSnoc(kept, es[j]);
      }
    }

    lemma NextKeepsSpec()
      requires Valid() && !AtEnd()
      ensures var w := Next();
              && w.j <= |es| && WalkDefined(es[w.j..])
              && w.kept + Survivors(es[w.j..]) == Survivors(es)
              && w.served + Recipients(es[w.j..]) == Recipients(es)
    {
      assert es[j..][1..] == es[j + 1..];
      if es[j].closed {
        var e := es[j + 1];
        assert es[j..][2..] == es[j + 2..];
        assert kept + ([e] + Survivors(es[j + 2..])) == kept + [e] + Survivors(es[j + 2..]);
      } else {
        var e := es[j];
        assert kept + ([e] + Survivors(es[j + 1..])) == kept + [e] + Survivors(es[j + 1..]);
        assert served + ([ts[j]] + Recipients(es[j + 1..])) == served + [ts[j]] + Recipients(es[j + 1..]);
      }
    }

    lemma NextKeepsServed()
      requires Valid() && !AtEnd()
      ensures ts[j] !in served
      ensures forall t :: t in Next().served ==> t in ts[..Next().j]
      ensures forall i :: 0 <= i < |ts| && i != j ==> ts[i] != ts[j]
    {
      var w := Next();
      assert forall t :: t in ts[..j] ==> exists i :: 0 <= i < j && t == ts[i];
      forall t | t in w.served
        ensures t in ts[..w.j]
      {
        if t in served {
          var i :| 0 <= i < j && ts[i] == t;
          assert ts[..w.j][i] == t;
        } else {
          assert ts[..w.j][j] == t;
        }
      }
    }

    lemma NextIsValid()
      requires Valid() && !AtEnd()
      ensures Next().Valid() && Next().j <= |ts|
      ensures ts[j] !in served
      ensures Distinct(ts) && forall i :: 0 <= i < |ts| && i != j ==> ts[i] != ts[j]
    {
      hide Survivors, Recipients, WalkDefined;
      NextKeepsList();
      NextKeepsSpec();
      NextKeepsServed();
    }

    lemma EndIsSurvivors()
      requires Valid() && AtEnd()
      ensures list == Whos(Survivors(es)) && served == Recipients(es)
      ensures Distinct(list) && forall k :: 0 <= k < |list| ==> list[k] in ts
    {
      assert j == |es| && es[j..] == [];
      SurvivingSessions(ts, es);
    }
  }

  /** The walk before its first round. */
  ghost function Start<T>(ts: seq<T>, es: seq<Entry<T>>): (w: Walk<T>)
    requires ts == Whos(es) && Distinct(ts) && WalkDefined(es)
    ensures w.Valid() && w.ts == w.list == ts && w.es == es && w.j == 0 && w.kept == [] && w.served == []
  {
    assert es[0..] == es;
    Walk(ts, es, 0, ts, [], [])
  }

  // ---------------------------------------------------------------- the reference: gaps

  /** The open sessions of a list, in order. */
  function Opens<T>(es: seq<Entry<T>>): seq<T> {
    if es == [] then [] else (if es[0].closed then [] else [es[0].who]) + Opens(es[1..])
  }

  /** The lengths of the maximal runs of closed sessions: before each open session, and at the
      end of the list. */
  function Gaps<T>(es: seq<Entry<T>>): (g: seq<nat>)
    ensures |g| == |Opens(es)| + 1
  {
    if es == [] then [0]
    else
      var g := Gaps(es[1..]);
      if es[0].closed then [g[0] + 1] + g[1..] else [0] + g
  }

  function Last(g: seq<nat>): nat
    requires g != []
  {
    g[|g| - 1]
  }

  function Halves(g: seq<nat>): seq<nat> {
    seq(|g|, i requires 0 <= i < |g| => g[i] / 2)
  }

  /** The open sessions that stand behind a gap of even length. */
  function BehindEvenGaps<T>(opens: seq<T>, gaps: seq<nat>): seq<T>
    requires |gaps| == |opens| + 1
  {
    if opens == [] then []
    else (if gaps[0] % 2 == 0 then [opens[0]] else []) + BehindEvenGaps(opens[1..], gaps[1..])
  }

  lemma GapsOfCons<T>(e: Entry<T>, es: seq<Entry<T>>)
    ensures var g := Gaps(es);
            Gaps([e] + es) == if e.closed then [g[0] + 1] + g[1..] else [0] + g
    ensures Opens([e] + es) == (if e.closed then [] else [e.who]) + Opens(es)
  {
    assert ([e] + es)[1..] == es;
  }

  /** The gaps of a list whose first session is closed: the walk looks at its elements in pairs,
      an erased one and the one stepped over. */
  lemma GapsOfPair<T>(e: Entry<T>, f: Entry<T>, es: seq<Entry<T>>)
    requires e.closed
    ensures var g := Gaps(es);
            if f.closed then
              Gaps([e, f] + es) == [g[0] + 2] + g[1..] && Opens([e, f] + es) == Opens(es)
            else
              Gaps([e, f] + es) == [1] + g && Opens([e, f] + es) == [f.who] + Opens(es)
  {
    GapsOfCons(f, es);
    GapsOfCons(e, [f] + es);
    assert [e, f] + es == [e] + ([f] + es);
    hide Gaps, Opens;
    if !f.closed {
      assert ([0] + Gaps(es))[1..] == Gaps(es);
    }
  }

  /** How the walk takes a list apart. */
  lemma WalkOfCons<T>(e: Entry<T>, es: seq<Entry<T>>)
    requires !e.closed
    ensures WalkDefined([e] + es) <==> WalkDefined(es)
    ensures WalkDefined(es) ==>
              && Survivors([e] + es) == [e] + Survivors(es)
              && Recipients([e] + es) == [e.who] + Recipients(es)
  {
    assert ([e] + es)[1..] == es;
  }

  lemma WalkOfPair<T>(e: Entry<T>, f: Entry<T>, es: seq<Entry<T>>)
    requires e.closed
    ensures WalkDefined([e, f] + es) <==> WalkDefined(es)
    ensures WalkDefined(es) ==>
              && Survivors([e, f] + es) == [f] + Survivors(es)
              && Recipients([e, f] + es) == Recipients(es)
  {
    assert ([e, f] + es)[2..] == es;
  }

  lemma OfEmptyList<T>()
    ensures WalkDefined<T>([]) && Survivors<T>([]) == [] && Recipients<T>([]) == []
    ensures Opens<T>([]) == [] && Gaps<T>([]) == [0]
  {
  }

  lemma OfLoneClosed<T>(e: Entry<T>)
    requires e.closed
    ensures !WalkDefined([e]) && Gaps([e]) == [1]
  {
  }

  lemma LastOfCons(g: seq<nat>)
    requires g != []
    ensures Last([0] + g) == Last([1] + g) == Last(g)
    ensures Last([g[0] + 2] + g[1..]) % 2 == Last(g) % 2
  {
  }

  /** WELL-DEFINED EXACTLY WHEN. The walk stays inside the list if and only if the closed
      sessions at its end are even in number; in particular when the last session is open. */
  lemma {:induction false} WalkDefinedIffEvenTail<T>(es: seq<Entry<T>>)
    ensures WalkDefined(es) <==> Last(Gaps(es)) % 2 == 0
    decreases |es|
  {
    hide WalkDefined, Gaps, Opens, Last;
    if es == [] {
      OfEmptyList<T>();
      assert Last([0]) == 0 by { LastOfSingle(0); }
    } else if !es[0].closed {
      var e, rest := es[0], es[1..];
      assert es == [e] + rest;
      WalkDefinedIffEvenTail(rest);
      GapsOfCons(e, rest);
      WalkOfCons(e, rest);
      LastOfCons(Gaps(rest));
    } else if |es| == 1 {
      assert es == [es[0]];
      OfLoneClosed(es[0]);
      LastOfSingle(1);
    } else {
      var e, f, rest := es[0], es[1], es[2..];
      assert es == [e, f] + rest;
      WalkDefinedIffEvenTail(rest);
      GapsOfPair(e, f, rest);
      WalkOfPair(e, f, rest);
      LastOfCons(Gaps(rest));
    }
  }

  lemma LastOfSingle(x: nat)
    ensures Last([x]) == x
  {
  }

  lemma HalvesOfCons(x: nat, g: seq<nat>)
    ensures Halves([x] + g) == [x / 2] + Halves(g)
  {
  }

  lemma HalvesOfPair(g: seq<nat>)
    requires g != []
    ensures Halves([g[0] + 2] + g[1..]) == [Halves(g)[0] + 1] + Halves(g)[1..]
    ensures Halves([1] + g) == [0] + Halves(g)
  {
  }

  /** HALVING. One broadcast keeps every open session, in order, and halves every gap. */
  lemma {:induction false} BroadcastHalvesGaps<T>(es: seq<Entry<T>>)
    requires WalkDefined(es)
    ensures Opens(Survivors(es)) == Opens(es)
    ensures Gaps(Survivors(es)) == Halves(Gaps(es))
    decreases |es|
  {
    hide WalkDefined, Gaps, Opens, Survivors, Halves;
    if es == [] {
      OfEmptyList<T>();
      HalvesOfEmpty();
    } else if !es[0].closed {
      var e, rest := es[0], es[1..];
      assert es == [e] + rest;
      WalkOfCons(e, rest);
      BroadcastHalvesGaps(rest);
      GapsOfCons(e, rest);
      GapsOfCons(e, Survivors(rest));
      HalvesOfCons(0, Gaps(rest));
    } else if |es| == 1 {
      assert es == [es[0]];
      OfLoneClosed(es[0]);
      assert false;
    } else {
      var e, f, rest := es[0], es[1], es[2..];
      assert es == [e, f] + rest;
      WalkOfPair(e, f, rest);
      BroadcastHalvesGaps(rest);
      GapsOfPair(e, f, rest);
      GapsOfCons(f, Survivors(rest));
      HalvesOfPair(Gaps(rest));
    }
  }

  lemma HalvesOfEmpty()
    ensures Halves([0]) == [0]
  {
  }

  lemma BehindGapsOfCons<T>(x: nat, y: nat, g: seq<nat>, opens: seq<T>)
    requires x % 2 == y % 2 && |g| == |opens|
    ensures BehindEvenGaps(opens, [x] + g) == BehindEvenGaps(opens, [y] + g)
  {
    assert ([x] + g)[1..] == g && ([y] + g)[1..] == g;
  }

  lemma BehindGapsOfOpen<T>(x: nat, g: seq<nat>, t: T, opens: seq<T>)
    requires |g| == |opens| + 1
    ensures BehindEvenGaps([t] + opens, [x] + g) == (if x % 2 == 0 then [t] else []) + BehindEvenGaps(opens, g)
  {
    assert ([x] + g)[1..] == g && ([t] + opens)[1..] == opens;
  }

  /** DELIVERY. A broadcast reaches exactly the open sessions behind a gap of even length, each
      once and in list order; never one behind an odd gap, and never a closed one. */
  lemma {:induction false} DeliveryBehindEvenGaps<T>(es: seq<Entry<T>>)
    requires WalkDefined(es)
    ensures Recipients(es) == BehindEvenGaps(Opens(es), Gaps(es))
    decreases |es|
  {
    hide WalkDefined, Gaps, Opens, Recipients;
    if es == [] {
      OfEmptyList<T>();
    } else if !es[0].closed {
      var e, rest := es[0], es[1..];
      assert es == [e] + rest;
      WalkOfCons(e, rest);
      DeliveryBehindEvenGaps(rest);
      GapsOfCons(e, rest);
      BehindGapsOfOpen(0, Gaps(rest), e.who, Opens(rest));
    } else if |es| == 1 {
      assert es == [es[0]];
      OfLoneClosed(es[0]);
      assert false;
    } else {
      var e, f, rest := es[0], es[1], es[2..];
      assert es == [e, f] + rest;
      WalkOfPair(e, f, rest);
      DeliveryBehindEvenGaps(rest);
      GapsOfPair(e, f, rest);
      var g := Gaps(rest);
      if f.closed {
        assert g == [g[0]] + g[1..];
        BehindGapsOfCons(g[0] + 2, g[0], g[1..], Opens(rest));
      } else {
        BehindGapsOfOpen(1, g, f.who, Opens(rest));
      }
    }
  }

  // ---------------------------------------------------------------- sessions by number

  predicate Within<T>(es: seq<Entry<nat>>, names: seq<T>) {
    forall i :: 0 <= i < |es| ==> es[i].who < |names|
  }

  /** The same list with session number k called `names[k]`. */
  function Named<T>(es: seq<Entry<nat>>, names: seq<T>): seq<Entry<T>>
    requires Within(es, names)
  {
    seq(|es|, i requires 0 <= i < |es| => Entry(names[es[i].who], es[i].closed))
  }

  /** The names of the sessions `ks`. */
  function NamesOf<T>(ks: seq<nat>, names: seq<T>): seq<T>
    requires forall i :: 0 <= i < |ks| ==> ks[i] < |names|
  {
    seq(|ks|, i requires 0 <= i < |ks| => names[ks[i]])
  }

  lemma NamedMember<T>(ks: seq<nat>, names: seq<T>, k: nat)
    requires (forall i :: 0 <= i < |ks| ==> ks[i] < |names|) && k < |names| && Distinct(names)
    ensures k in ks <==> names[k] in NamesOf(ks, names)
  {
    if k in ks {
      var i :| 0 <= i < |ks| && ks[i] == k;
      assert NamesOf(ks, names)[i] == names[k];
    }
  }

  lemma NamedOfCons<T>(e: Entry<nat>, es: seq<Entry<nat>>, names: seq<T>)
    requires e.who < |names| && Within(es, names)
    ensures Within([e] + es, names)
    ensures Named([e] + es, names) == [Entry(names[e.who], e.closed)] + Named(es, names)
  {
  }

  lemma NamesOfCons<T>(k: nat, ks: seq<nat>, names: seq<T>)
    requires k < |names| && forall i :: 0 <= i < |ks| ==> ks[i] < |names|
    ensures NamesOf([k] + ks, names) == [names[k]] + NamesOf(ks, names)
  {
  }

  lemma NamedOfNone<T>(names: seq<T>)
    ensures Named([], names) == [] && NamesOf([], names) == []
  {
  }

  /** The walk does not depend on what the sessions are called. */
  lemma {:induction false} NamedWalk<T>(es: seq<Entry<nat>>, names: seq<T>)
    requires Within(es, names)
    ensures WalkDefined(Named(es, names)) <==> WalkDefined(es)
    ensures WalkDefined(es) ==>
              && Within(Survivors(es), names)
              && Survivors(Named(es, names)) == Named(Survivors(es), names)
              && (forall i :: 0 <= i < |Recipients(es)| ==> Recipients(es)[i] < |names|)
              && Recipients(Named(es, names)) == NamesOf(Recipients(es), names)
    decreases |es|
  {
    hide WalkDefined, Survivors, Recipients, Named, NamesOf;
    OfEmptyList<nat>();
    OfEmptyList<T>();
    NamedOfNone(names);
    if es == [] {
    } else if !es[0].closed {
      var e, rest := es[0], es[1..];
      assert es == [e] + rest;
      NamedWalk(rest, names);
      NamedOfCons(e, rest, names);
      WalkOfCons(e, rest);
      WalkOfCons(Entry(names[e.who], false), Named(rest, names));
      if WalkDefined(rest) {
        NamedOfCons(e, Survivors(rest), names);
        NamesOfCons(e.who, Recipients(rest), names);
      }
    } else if |es| == 1 {
      var e := es[0];
      assert es == [e] && [e] + [] == [e];
      NamedOfCons(e, [], names);
      OfLoneClosed(e);
      OfLoneClosed(Entry(names[e.who], true));
      assert [Entry(names[e.who], true)] + [] == [Entry(names[e.who], true)];
    } else {
      var e, f, rest := es[0], es[1], es[2..];
      var e1, f1 := Entry(names[e.who], true), Entry(names[f.who], f.closed);
      assert es == [e, f] + rest && [e, f] + rest == [e] + ([f] + rest);
      NamedWalk(rest, names);
      NamedOfCons(f, rest, names);
      NamedOfCons(e, [f] + rest, names);
      assert [e1] + ([f1] + Named(rest, names)) == [e1, f1] + Named(rest, names);
      WalkOfPair(e, f, rest);
      WalkOfPair(e1, f1, Named(rest, names));
      if WalkDefined(rest) {
        NamedOfCons(f, Survivors(rest), names);
      }
    }
  }

  /** A walk over named sessions stays with the numbers it would have without the names. */
  lemma NamedSessions<T>(es: seq<Entry<nat>>, names: seq<T>)
    requires Within(es, names) && WalkDefined(es) && Distinct(names)
    ensures WalkDefined(Named(es, names)) && Within(Survivors(es), names)
    ensures Whos(Survivors(Named(es, names))) == NamesOf(Whos(Survivors(es)), names)
    ensures Whos(Named(es, names)) == NamesOf(Whos(es), names)
    ensures forall k :: 0 <= k < |names| ==>
              && (k in Whos(es) <==> names[k] in Whos(Named(es, names)))
              && (k in Recipients(es) <==> names[k] in Recipients(Named(es, names)))
  {
    hide WalkDefined, Survivors, Recipients, Distinct;
    NamedWalk(es, names);
    assert Whos(Named(es, names)) == NamesOf(Whos(es), names);
    forall k | 0 <= k < |names|
      ensures k in Whos(es) <==> names[k] in Whos(Named(es, names))
      ensures k in Recipients(es) <==> names[k] in Recipients(Named(es, names))
    {
      NamedMember(Whos(es), names, k);
      NamedMember(Recipients(es), names, k);
    }
  }
}
