/** The class `server`: a service pool, an acceptor, and the session waiting for a connection. */
module Servers {
  import AC = AcceptChain
  import RR = RoundRobin
  import opened Sequences
  import opened ServicePools

  /** What the server knows of a session of either kind: its service, and whether the server has
      started or deleted it. */
  class Session {
    const ioService: IoService
    var started: bool
    var deleted: bool

    constructor (ioService: IoService)
      ensures this.ioService == ioService && !started && !deleted
    {
      this.ioService := ioService;
      started, deleted := false, false;
    }
  }

  class Server {
    const pool: ServicePool
    const acceptorOn: IoService
    /** The session the outstanding accept will fill, or null when none is outstanding. */
    var waiting: Session?

    // History: all sessions in order of creation, and what became of them.
    ghost var sessions: seq<Session>
    ghost var chain: AC.Chain

    ghost predicate Valid()
      reads this, pool, sessions
    {
      && pool.Valid() && pool.ioServices != []
      && chain.size == |pool.ioServices| && chain.next == pool.nextIoService
      && chain.acceptorOn < chain.size && acceptorOn == pool.ioServices[chain.acceptorOn]
      && |chain.placed| == |sessions|
      && (forall k :: 0 <= k < |sessions| ==>
            chain.placed[k] < chain.size && sessions[k].ioService == pool.ioServices[chain.placed[k]])
      && Distinct(sessions)
      && (forall k :: 0 <= k < |sessions| ==>
            (sessions[k].started <==> k in chain.started) && (sessions[k].deleted <==> k in chain.deleted))
      && (forall k :: k in chain.started || k in chain.deleted ==> k < |sessions|)
      && (match chain.waiting
          case Nobody => waiting == null
          case Session(k) => k < |sessions| && waiting == sessions[k])
    }

    /** The constructor needs a thread count of at least one: it draws two services. */
    constructor (threadCnt: nat)
      requires threadCnt > 0
      ensures Valid() && chain == AC.Opened(threadCnt) && fresh(pool)
    {
      var p := new ServicePool(threadCnt);
      var acceptorService := p.GetIoService();
      pool, acceptorOn := p, acceptorService;
      waiting, sessions := null, [];
      chain := AC.Chain(threadCnt, RR.Advance(threadCnt, 0), 0, [], [], [], AC.Nobody);
      new;
      Arm();
    }

    /** Creates a session on the next service and arms an accept for it. */
    method Arm()
      requires Valid() && chain.waiting == AC.Nobody
      modifies this`waiting, this`sessions, this`chain, pool
      ensures Valid() && chain == old(chain).Create()
      ensures fresh(waiting)
      ensures pool.ioServices == old(pool.ioServices)
    {
      var ioService := pool.GetIoService();
      var session := new Session(ioService);
      waiting, sessions, chain := session, sessions + [session], chain.Create();
    }

    /** Capture server: a failed accept deletes the session and arms no other. */
    method HandleAccept(newSession: Session, error: bool)
      requires Valid() && waiting == newSession
      modifies this`waiting, this`sessions, this`chain, pool, newSession
      ensures Valid()
      ensures chain == AC.Step(AC.Capture, old(chain), if error then AC.AcceptFailed else AC.AcceptOk)
    {
      var k := chain.waiting.number;
      if !error {
        newSession.started := true;
        chain := chain.(started := chain.started + [k], waiting := AC.Nobody);
        waiting := null;
        Arm();
      } else {
        newSession.deleted := true;
        chain := chain.(deleted := chain.deleted + [k], waiting := AC.Nobody);
        waiting := null;
      }
    }

    /** Config server: the next accept is armed whatever the outcome. */
    method HandleAcceptCfg(newSession: Session, error: bool)
      requires Valid() && waiting == newSession
      modifies this`waiting, this`sessions, this`chain, pool, newSession
      ensures Valid()
      ensures chain == AC.Step(AC.Config, old(chain), if error then AC.AcceptFailed else AC.AcceptOk)
    {
      var k := chain.waiting.number;
      if !error {
        newSession.started := true;
        chain := chain.(started := chain.started + [k], waiting := AC.Nobody);
      } else {
        newSession.deleted := true;
        chain := chain.(deleted := chain.deleted + [k], waiting := AC.Nobody);
      }
      waiting := null;
      Arm();
    }

    /** One thread per service. */
    method Run()
      requires Valid()
      modifies pool`threads
      ensures Valid() && pool.threads == old(pool.threads) + pool.ioServices
    {
      pool.Start();
    }
  }
}
