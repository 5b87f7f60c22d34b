/** The class `io_service_pool`: its vectors are filled by loops and its cursor moves in place. */
module ServicePools {
  import opened Sequences
  import RR = RoundRobin

  /** An io_service: kept busy by a work object, run by threads, and stoppable. */
  class IoService {
    var hasWork: bool
    var stopped: bool

    constructor ()
      ensures !hasWork && !stopped
    {
      hasWork, stopped := false, false;
    }

    method AddWork()
      modifies this`hasWork
      ensures hasWork
    {
      hasWork := true;
    }

    method Stop()
      modifies this`stopped
      ensures stopped
    {
      stopped := true;
    }
  }

  class ServicePool {
    var ioServices: seq<IoService>
    var work: seq<IoService>
    var threads: seq<IoService>
    var nextIoService: nat

    ghost predicate Valid()
      reads this
    {
      && Distinct(ioServices)
      && work == ioServices
      && (if ioServices == [] then nextIoService == 0 else nextIoService < |ioServices|)
    }

    constructor (poolSize: nat)
      ensures Valid() && |ioServices| == poolSize && nextIoService == 0 && threads == []
      ensures forall s :: s in ioServices ==> fresh(s) && s.hasWork && !s.stopped
    {
      ioServices, work, threads, nextIoService := [], [], [], 0;
      new;
      var i := 0;
      while i < poolSize
        invariant i <= poolSize && |ioServices| == i && work == ioServices
        invariant nextIoService == 0 && threads == []
        invariant Distinct(ioServices)
        invariant forall s :: s in ioServices ==> fresh(s) && s.hasWork && !s.stopped
      {
        var ioService := new IoService();
        ioService.AddWork();
        ioServices := ioServices + [ioService];
        work := work + [ioService];
        i := i + 1;
      }
    }

    /** One thread runs each service, in pool order. */
    method Start()
      requires Valid()
      modifies this`threads
      ensures Valid()
      ensures threads == old(threads) + ioServices
    {
      var i := 0;
      while i < |ioServices|
        invariant i <= |ioServices|
        invariant threads == old(threads) + ioServices[..i]
      {
        threads := threads + [ioServices[i]];
        i := i + 1;
      }
    }

    method Stop()
      requires Valid()
      modifies ioServices
      ensures forall s :: s in ioServices ==> s.stopped && s.hasWork == old(s.hasWork)
    {
      var i := 0;
      while i < |ioServices|
        invariant i <= |ioServices|
        invariant forall k :: 0 <= k < i ==> ioServices[k].stopped
        invariant forall s :: s in ioServices ==> s.hasWork == old(s.hasWork)
      {
        ioServices[i].Stop();
        i := i + 1;
      }
    }

    /** One call, the mutex held throughout. An empty pool has no service to return: indexing its
        vector is undefined in C++. */
    method GetIoService() returns (ioService: IoService)
      requires Valid() && ioServices != []
      modifies this`nextIoService
      ensures Valid()
      ensures ioService == ioServices[old(nextIoService)]
      ensures nextIoService == RR.Advance(|ioServices|, old(nextIoService))
    {
      ioService := ioServices[nextIoService];
      nextIoService := nextIoService + 1;
      if nextIoService == |ioServices| {
        nextIoService := 0;
      }
    }
  }
}
