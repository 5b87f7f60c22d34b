/**
 A capture does not depend on how the byte stream is cut into reads, up to the one thing that
 does: where after the declared size the next cut happens to be.
 */
module Chunking {
  import opened Messages
  import opened Capture
  import opened CaptureAccounts
  import opened Reassembly
  import opened CaptureBounds

  function Flat(chunks: seq<seq<byte>>): seq<byte> {
    if chunks == [] then [] else chunks[0] + Flat(chunks[1..])
  }

  /** The chunks a run reads, in handler order. */
  function ChunksOf(es: seq<Event>): seq<seq<byte>> {
    if es == [] then [] else (if es[0].ReadOk? then [es[0].data] else []) + ChunksOf(es[1..])
  }

  /** The first `k` chunks behind the opening packet make a picture: it is longer than declared,
      and with fewer chunks it was not, although at least one chunk must follow the packet. */
  ghost predicate ShortestOver(head: seq<byte>, n: nat, chunks: seq<seq<byte>>, k: nat) {
    && 0 < k <= |chunks|
    && |head + Flat(chunks[..k])| > n
    && forall j :: 0 < j < k ==> |head + Flat(chunks[..j])| <= n
  }

  lemma {:induction false} FlatConcat(a: seq<seq<byte>>, b: seq<seq<byte>>)
    ensures Flat(a + b) == Flat(a) + Flat(b)
    decreases |a|
  {
    if a == [] {
      assert a + b == b;
    } else {
      assert (a + b)[1..] == a[1..] + b;
      FlatConcat(a[1..], b);
    }
  }

  lemma FlatTake(c: seq<byte>, chunks: seq<seq<byte>>, k: nat)
    requires 0 < k <= |chunks| + 1
    ensures Flat(([c] + chunks)[..k]) == c + Flat(chunks[..k - 1])
  {
    assert ([c] + chunks)[..k] == [c] + chunks[..k - 1];
    assert ([c] + chunks[..k - 1])[1..] == chunks[..k - 1];
  }

  lemma PicturesOfRead(n: nat, head: seq<byte>, es: seq<Event>)
    requires es != []
    ensures var here, rest := es[0], es[1..];
            if !here.ReadOk? then
              && ChunksOf(es) == ChunksOf(rest)
              && Pictures(Open(n, head), es) == Pictures(Open(n, head), rest)
              && After(Open(n, head), es) == After(Open(n, head), rest)
            else
              && ChunksOf(es) == [here.data] + ChunksOf(rest)
              && if |head + here.data| > n then
                   Pictures(Open(n, head), es) == [head + here.data] + Pictures(Closed, rest)
                 else
                   && Pictures(Open(n, head), es) == Pictures(Open(n, head + here.data), rest)
                   && After(Open(n, head), es) == After(Open(n, head + here.data), rest)
  {
  }

  lemma FlatOfCons(head: seq<byte>, c: seq<byte>, rest: seq<seq<byte>>)
    ensures head + Flat([c] + rest) == head + c + Flat(rest)
  {
    assert ([c] + rest)[1..] == rest;
    assert head + (c + Flat(rest)) == head + c + Flat(rest);
  }

  /** The first picture of an open capture, if there is one, is the shortest chunk-aligned prefix
      of the stream, with at least one chunk behind the opening packet, that is longer than
      declared; and there is none exactly if the chunks together do not get that far. */
  lemma {:induction false} FirstPicture(n: nat, head: seq<byte>, es: seq<Event>) returns (k: nat)
    ensures Pictures(Open(n, head), es) == [] <==>
            (ChunksOf(es) == [] || |head + Flat(ChunksOf(es))| <= n)
    ensures Pictures(Open(n, head), es) == [] ==>
              After(Open(n, head), es) == Open(n, head + Flat(ChunksOf(es)))
    ensures Pictures(Open(n, head), es) != [] ==>
              && ShortestOver(head, n, ChunksOf(es), k)
              && Pictures(Open(n, head), es)[0] == head + Flat(ChunksOf(es)[..k])
    decreases |es|
  {
    k := 0;
    if es == [] {
      assert head + [] == head;
    } else {
      PicturesOfRead(n, head, es);
      hide Pictures, After, ChunksOf, Flat, ShortestOver;
      if !es[0].ReadOk? {
        k := FirstPicture(n, head, es[1..]);
      } else {
        var c, rest := es[0].data, ChunksOf(es[1..]);
        FlatOfCons(head, c, rest);
        if |head + c| > n {
          k := 1;
          OneChunkIsEnough(head, n, c, rest);
        } else {
          k := FirstPicture(n, head + c, es[1..]);
          LaterPicture(head, n, c, rest, k);
          k := k + 1;
        }
      }
    }
  }

  lemma OneChunkIsEnough(head: seq<byte>, n: nat, c: seq<byte>, rest: seq<seq<byte>>)
    requires |head + c| > n
    ensures ShortestOver(head, n, [c] + rest, 1)
    ensures head + Flat(([c] + rest)[..1]) == head + c
  {
    FlatTake(c, rest, 1);
    assert c + Flat(rest[..0]) == c;
  }

  lemma LaterPicture(head: seq<byte>, n: nat, c: seq<byte>, rest: seq<seq<byte>>, k: nat)
    requires |head + c| <= n
    ensures rest == [] ==> head + c + Flat(rest) == head + c
    ensures ShortestOver(head + c, n, rest, k) ==>
              && ShortestOver(head, n, [c] + rest, k + 1)
              && head + Flat(([c] + rest)[..k + 1]) == head + c + Flat(rest[..k])
  {
    if ShortestOver(head + c, n, rest, k) {
      forall j | 0 < j <= k + 1
        ensures head + Flat(([c] + rest)[..j]) == head + c + Flat(rest[..j - 1])
      {
        FlatTake(c, rest, j);
      }
      assert rest[..0] == [];
    }
  }

  /** Two streams, of which one continues the other. */
  predicate SameStream(a: seq<byte>, b: seq<byte>) {
    a <= b || b <= a
  }

  lemma Extends(head: seq<byte>, x: seq<byte>, y: seq<byte>)
    ensures head + x <= head + (x + y)
  {
    assert head + (x + y) == (head + x) + y;
  }

  lemma FlatPrefix(head: seq<byte>, chunks: seq<seq<byte>>, k: nat)
    requires k <= |chunks|
    ensures head + Flat(chunks[..k]) <= head + Flat(chunks)
  {
    hide Flat;
    FlatConcat(chunks[..k], chunks[k..]);
    Extends(head, Flat(chunks[..k]), Flat(chunks[k..]));
    assert chunks[..k] + chunks[k..] == chunks;
  }

  /** CHUNKING INDEPENDENCE, reference. However one byte stream is cut into an opening packet and
      later reads, with whatever else happens in between, both cuts give pictures longer than
      the declared n bytes that agree on the first n + 1; and one picture continues the other. */
  lemma CutsAgree(n: nat, head1: seq<byte>, es1: seq<Event>, head2: seq<byte>, es2: seq<Event>)
    requires SameStream(head1 + Flat(ChunksOf(es1)), head2 + Flat(ChunksOf(es2)))
    requires Pictures(Open(n, head1), es1) != [] && Pictures(Open(n, head2), es2) != []
    ensures var p1, p2 := Pictures(Open(n, head1), es1)[0], Pictures(Open(n, head2), es2)[0];
            && |p1| > n && |p2| > n && p1[..n + 1] == p2[..n + 1]
            && SameStream(p1, p2)
  {
    var k1 := FirstPicture(n, head1, es1);
    var k2 := FirstPicture(n, head2, es2);
    FlatPrefix(head1, ChunksOf(es1), k1);
    FlatPrefix(head2, ChunksOf(es2), k2);
  }

  // ---------------------------------------------------------------- the same for sessions

  /** A session's run up to a capture, the snapshot frame that opens it, and what follows. */
  datatype Trial = Trial(r0: int, m0: int, before: seq<Event>, open: Event, rest: seq<Event>) {
    function Events(): seq<Event> {
      before + ([open] + rest)
    }

    function Stream(): seq<byte>
      requires open.ReadOk?
    {
      open.data + Flat(ChunksOf(rest))
    }

    /** The run is possible, `open` opens a capture of declared size `n` in command mode, and the
        capture is completed. */
    ghost predicate Captures(n: nat) {
      && open.ReadOk? && open.answers.headType == 11 && open.answers.frameSize == n && 0 < n < 10485760
      && Legal(Opened(r0, m0), Events()) && Legal(Opened(r0, m0), before)
      && !Run(Opened(r0, m0), before).capturing
      && |Handed(Run(Opened(r0, m0), Events()).effects)| > |Handed(Run(Opened(r0, m0), before).effects)|
    }

    /** The picture of that capture: the first one handed over after `before`. */
    ghost function Picture(n: nat): seq<byte>
      requires Captures(n)
    {
      Handed(Run(Opened(r0, m0), Events()).effects)[|Handed(Run(Opened(r0, m0), before).effects)|]
    }

    lemma PictureIsFirst(n: nat)
      requires Captures(n)
      ensures Pictures(Open(n, open.data), rest) != []
      ensures Picture(n) == Pictures(Open(n, open.data), rest)[0]
    {
      SessionRefinesAssembler(r0, m0, before);
      SessionRefinesAssembler(r0, m0, Events());
      hide Legal, Run, Handed;
      PicturesConcat(Closed, before, [open] + rest);
      assert ([open] + rest)[1..] == rest;
      assert Pictures(Closed, [open] + rest) == [] + Pictures(Open(n, open.data), rest);
    }
  }

  /** CHUNKING INDEPENDENCE. Two sessions, with any histories, that read one byte stream from the
      same capture start on, cut into reads in any two ways, hand over pictures longer than the
      declared size that agree on the first n + 1 bytes. */
  lemma ChunkingIndependence(t: Trial, u: Trial, n: nat)
    requires t.Captures(n) && u.Captures(n) && SameStream(t.Stream(), u.Stream())
    ensures |t.Picture(n)| > n && |u.Picture(n)| > n
    ensures t.Picture(n)[..n + 1] == u.Picture(n)[..n + 1]
    ensures SameStream(t.Picture(n), u.Picture(n))
  {
    hide Legal, Run, Handed, Trial.Picture;
    t.PictureIsFirst(n);
    u.PictureIsFirst(n);
    CutsAgree(n, t.open.data, t.rest, u.open.data, u.rest);
  }

  /** The picture handed over is the shortest chunk-aligned prefix of the stream, with at least
      one chunk behind the opening packet, that is longer than declared. */
  lemma PictureIsShortest(t: Trial, n: nat) returns (k: nat)
    requires t.Captures(n)
    ensures ShortestOver(t.open.data, n, ChunksOf(t.rest), k)
    ensures t.Picture(n) == t.open.data + Flat(ChunksOf(t.rest)[..k])
  {
    hide Trial.Picture;
    t.PictureIsFirst(n);
    k := FirstPicture(n, t.open.data, t.rest);
  }

  // ---------------------------------------------------------------- termination

  lemma {:induction false} FlatAtLeast(chunks: seq<seq<byte>>)
    requires forall i :: 0 <= i < |chunks| ==> |chunks[i]| > 0
    ensures |Flat(chunks)| >= |chunks|
    decreases |chunks|
  {
    if chunks != [] {
      FlatAtLeast(chunks[1..]);
    }
  }

  lemma {:induction false} ChunksAreNonEmpty(s: Session, es: seq<Event>)
    requires |s.pic| == PIC_BUFFER_LEN && Legal(s, es)
    ensures forall i :: 0 <= i < |ChunksOf(es)| ==> |ChunksOf(es)[i]| > 0
    decreases |es|
  {
    hide Step;
    if es != [] {
      ChunksAreNonEmpty(Step(s, es[0]), es[1..]);
    }
  }

  /** The bytes an open capture still needs to be longer than declared. */
  function Excess(s: Session): nat {
    if s.pos <= s.frameSize then s.frameSize + 1 - s.pos else 0
  }

  /** TERMINATION. When an open capture of declared size F has got as far as b bytes, it is
      completed within the next max(1, F + 1 - b) reads, whatever else happens in between; and
      until it is completed `res.frameSize` stays F. */
  lemma CaptureTerminates(r0: int, m0: int, before: seq<Event>, es: seq<Event>)
    requires Legal(Opened(r0, m0), before)
    requires Run(Opened(r0, m0), before).capturing && Legal(Run(Opened(r0, m0), before), es)
    ensures var s := Run(Opened(r0, m0), before);
            var t := Run(s, es);
            && (|ChunksOf(es)| >= Max(1, Excess(s)) ==> |Handed(t.effects)| > |Handed(s.effects)|)
            && (|Handed(t.effects)| == |Handed(s.effects)| ==> t.capturing && t.frameSize == s.frameSize)
  {
    var s := Run(Opened(r0, m0), before);
    SessionRefinesAssembler(r0, m0, before);
    var m := After(Closed, before);
    RunHolds(s, m, es);
    var k := FirstPicture(m.declared, m.bytes, es);
    ChunksAreNonEmpty(s, es);
    FlatAtLeast(ChunksOf(es));
  }

  /** The bound is reached: fed one byte at a time, a capture is still open after one read less. */
  lemma TerminationBoundIsTight(s: Session)
    requires |s.pic| == PIC_BUFFER_LEN && s.capturing && s.pendingReads > 0
    requires s.pos <= s.frameSize < PIC_BUFFER_LEN
    ensures Legal(s, Bytes(Excess(s) - 1)) && |Bytes(Excess(s) - 1)| == Excess(s) - 1
    ensures Run(s, Bytes(Excess(s) - 1)).capturing
  {
    BytesFillUp(s, Excess(s) - 1);
    BytesLength(Excess(s) - 1);
  }

  lemma {:induction false} BytesLength(n: nat)
    ensures |Bytes(n)| == n
  {
    if n > 0 {
      BytesLength(n - 1);
    }
  }
}
