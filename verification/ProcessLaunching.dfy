/** The worker launcher of iotronic/openstack/common/service.py: it forks workers, reaps dead
    ones and respawns them, at a bounded rate.

    The system's side (clock, pids handed out by fork, pids found dead, signals) is nondeterministic. */
module ProcessLaunching {
  import opened Collections

  type Pid = int

  // The last n elements, or all of them when there are fewer.
  function LastOf(s: seq<real>, n: nat): seq<real> {
    if |s| <= n then s else s[|s| - n..]
  }

  // A fork beyond the first workers + 1 is a second after the previous one, or `workers` seconds
  // after the one workers + 1 places back.
  ghost predicate Paced(forks: seq<real>, workers: nat) {
    forall k :: workers + 1 <= k < |forks| ==>
      forks[k] >= forks[k - 1] + 1.0 || forks[k] >= forks[k - (workers + 1)] + workers as real
  }

  // After more than `workers` forks the next is due a second after the last one or `workers` seconds
  // after the one workers + 1 places back.
  ghost predicate TurnTaken(forks: seq<real>, workers: nat, t: real) {
    |forks| > workers ==>
      t >= forks[|forks| - 1] + 1.0 || t >= forks[|forks| - (workers + 1)] + workers as real
  }

  class SystemClock {
    var now: real

    method Time() returns (t: real)
      modifies this
      ensures t == now >= old(now)
    {
      var passed: real := *;
      now := if passed >= 0.0 then now + passed else now;
      t := now;
    }

    method Sleep(seconds: real)
      requires seconds >= 0.0
      modifies this
      ensures now >= old(now) + seconds
    {
      now := now + seconds;
    }
  }

  class ServiceWrapper {
    const workers: nat
    var children: set<Pid>
    var forktimes: seq<real>
    ghost var forks: seq<real>    // the times of all forks so far

    // forktimes remembers the last workers + 1 forks, and the forks so far are paced.
    ghost predicate Good(now: real)
      reads `forktimes, `forks
    {
      && forktimes == LastOf(forks, workers + 1)
      && Paced(forks, workers)
      && (forks != [] ==> forks[|forks| - 1] <= now)
    }

    constructor (workers: nat)
      ensures this.workers == workers && children == {} && forktimes == [] && forks == []
      ensures forall now :: Good(now)
    {
      this.workers := workers;
      children, forktimes, forks := {}, [], [];
    }

    // The first half of _start_child: wait for the turn to fork and note the time.
    method AwaitTurn(clock: SystemClock)
      requires Good(clock.now)
      modifies this`forktimes, this`forks, clock
      ensures Good(clock.now) && clock.now >= old(clock.now)
      ensures forktimes != [] && forks == old(forks) + [forktimes[|forktimes| - 1]]
      ensures |old(forks)| > workers ==>
                var t, earlier := forktimes[|forktimes| - 1], old(forks);
                t >= earlier[|earlier| - 1] + 1.0 || t >= earlier[|earlier| - (workers + 1)] + workers as real
    {
      ghost var before, entered := forks, clock.now;
      assert Paced(before, workers);
      WindowFull(forks, workers);
      if |forktimes| > workers {
        var t := clock.Time();
        if t - forktimes[0] < workers as real {
          clock.Sleep(1.0);
        }
        forktimes := forktimes[1..];
      }
      var t := clock.Time();
      forktimes := forktimes + [t];
      forks := forks + [t];
      WindowMoves(before, workers, t);
      PaceKept(before, workers, t, entered);
      assert TurnTaken(before, workers, t);
    }
  }

  function PidsOf(children: map<Pid, ServiceWrapper>, w: ServiceWrapper): set<Pid> {
    set pid | pid in children && children[pid] == w
  }

  // Each wrapper of `held` has exactly the pids that map to it, and all pids map to such a wrapper.
  ghost predicate Agree(children: map<Pid, ServiceWrapper>, held: map<ServiceWrapper, set<Pid>>) {
    && (forall pid :: pid in children ==> children[pid] in held)
    && (forall w :: w in held ==> held[w] == PidsOf(children, w))
  }

  lemma AgreeAdded(children: map<Pid, ServiceWrapper>, held: map<ServiceWrapper, set<Pid>>, pid: Pid,
                   wrap: ServiceWrapper)
    requires Agree(children, held) && wrap in held && pid !in children
    ensures pid !in held[wrap] && Agree(children[pid := wrap], held[wrap := held[wrap] + {pid}])
  {
  }

  lemma AgreeRemoved(children: map<Pid, ServiceWrapper>, held: map<ServiceWrapper, set<Pid>>, pid: Pid)
    requires Agree(children, held) && pid in children
    ensures var wrap := children[pid];
            wrap in held && pid in held[wrap] && Agree(children - {pid}, held[wrap := held[wrap] - {pid}])
  {
  }

  class ProcessLauncher {
    const clock: SystemClock
    var children: map<Pid, ServiceWrapper>
    var running: bool
    ghost var wraps: set<ServiceWrapper>    // all services launched

    // What each service holds.
    ghost function Held(): map<ServiceWrapper, set<Pid>>
      reads `wraps, wraps`children
    {
      map w | w in wraps :: w.children
    }

    // pid maps to wrap exactly when pid is among wrap's children, and no wrap has too many.
    ghost predicate Indexed()
      reads `children, `wraps, wraps`children
    {
      && Agree(children, Held())
      && forall w :: w in wraps ==> |w.children| <= w.workers
    }

    ghost predicate AllPaced()
      reads `wraps, clock`now, wraps`forktimes, wraps`forks
    {
      forall w :: w in wraps ==> w.Good(clock.now)
    }

    ghost predicate Valid()
      reads `children, `wraps, clock`now, wraps`children, wraps`forktimes, wraps`forks
    {
      Indexed() && AllPaced()
    }

    constructor (clock: SystemClock)
      ensures Valid() && running && children == map[] && wraps == {} && this.clock == clock
    {
      this.clock := clock;
      children, running, wraps := map[], true, {};
    }

    method StartChild(wrap: ServiceWrapper) returns (pid: Pid)
      requires Valid() && wrap in wraps && |wrap.children| < wrap.workers
      modifies this`children, clock, wrap
      ensures Valid()
      ensures pid !in old(children) && children == old(children)[pid := wrap]
      ensures pid !in old(wrap.children) && wrap.children == old(wrap.children) + {pid}
      ensures |wrap.children| == |old(wrap.children)| + 1
      ensures |wrap.forks| == |old(wrap.forks)| + 1 && old(wrap.forks) <= wrap.forks
    {
      wrap.AwaitTurn(clock);
      assert AllPaced();
      // os.fork: the system hands out a pid that is not in use.
      FreshInt(children.Keys);
      pid :| pid !in children;
      Adopt(wrap, pid);
    }

    // The bookkeeping after a fork.
    method Adopt(wrap: ServiceWrapper, pid: Pid)
      requires Indexed() && wrap in wraps && |wrap.children| < wrap.workers && pid !in children
      modifies this`children, wrap`children
      ensures Indexed()
      ensures pid !in old(wrap.children)
      ensures children == old(children)[pid := wrap] && wrap.children == old(wrap.children) + {pid}
    {
      AgreeAdded(children, Held(), pid, wrap);
      ghost var held := Held()[wrap := wrap.children + {pid}];
      wrap.children := wrap.children + {pid};
      children := children[pid := wrap];
      assert Held() == held;
    }

    // The bookkeeping after a reaped worker.
    method Dismiss(pid: Pid) returns (wrap: ServiceWrapper)
      requires Indexed() && pid in children
      modifies this`children, wraps`children
      ensures Indexed()
      ensures wrap == old(children)[pid] && wrap in wraps && pid in old(wrap.children)
      ensures children == old(children) - {pid} && wrap.children == old(wrap.children) - {pid}
      ensures forall w :: w in wraps && w != wrap ==> w.children == old(w.children)
    {
      AgreeRemoved(children, Held(), pid);
      wrap := children[pid];
      ghost var held := Held()[wrap := wrap.children - {pid}];
      children := children - {pid};
      wrap.children := wrap.children - {pid};
      assert Held() == held;
    }

    method LaunchService(workers: nat) returns (wrap: ServiceWrapper)
      requires Valid()
      modifies this, clock
      ensures Valid() && fresh(wrap) && wraps == old(wraps) + {wrap} && wrap.workers == workers
      ensures |wrap.children| == workers || !running
      ensures forall w :: w in old(wraps) ==> w.children == old(w.children)
    {
      wrap := new ServiceWrapper(workers);
      wraps := wraps + {wrap};
      Refill(wrap);
    }

    // A signal may tell the launcher to stop.
    method Signal()
      requires Valid()
      modifies `running
      ensures Valid() && (running ==> old(running))
    {
      if * {
        running := false;
      }
    }

    // The forking loop of launch_service and _respawn_children; a signal may stop it at any turn.
    method Refill(wrap: ServiceWrapper)
      requires Valid() && wrap in wraps
      modifies this`children, clock, this`running, wrap
      ensures Valid() && wraps == old(wraps)
      ensures |wrap.children| == wrap.workers || !running
      ensures old(wrap.children) <= wrap.children && old(wrap.forks) <= wrap.forks
      ensures |wrap.forks| - |old(wrap.forks)| == |wrap.children| - |old(wrap.children)|
    {
      while running && |wrap.children| < wrap.workers
        invariant Valid() && wraps == old(wraps) && |wrap.children| <= wrap.workers
        invariant old(wrap.children) <= wrap.children && old(wrap.forks) <= wrap.forks
        invariant |wrap.forks| - |old(wrap.forks)| == |wrap.children| - |old(wrap.children)|
        decreases wrap.workers - |wrap.children|
      {
        var pid := StartChild(wrap);
        Signal();
      }
    }

    // `found`: what waitpid reports, if anything.
    method WaitChild(found: Option<Pid>) returns (wrap: ServiceWrapper?)
      requires Valid()
      modifies this`children, wraps`children
      ensures Valid()
      ensures wrap == null <==> found.None? || found.value !in old(children)
      ensures wrap == null ==> children == old(children) && forall w :: w in wraps ==> w.children == old(w.children)
      ensures wrap != null ==>
                && wrap == old(children)[found.value] && wrap in wraps
                && children == old(children) - {found.value}
                && wrap.children == old(wrap.children) - {found.value}
                && |wrap.children| == |old(wrap.children)| - 1
                && forall w :: w in wraps && w != wrap ==> w.children == old(w.children)
    {
      if found.None? {
        return null;
      }
      var pid: Pid := found.value;
      if pid !in children {
        return null;
      }
      wrap := Dismiss(pid);
    }

    // One round of _respawn_children: reap at most one child and restore its service's workers.
    method Respawn(found: Option<Pid>)
      requires Valid()
      modifies this`children, clock, this`running, wraps
      ensures Valid() && wraps == old(wraps)
      ensures found.Some? && found.value in old(children) && running ==>
                |old(children)[found.value].children| == old(children)[found.value].workers
      ensures found.None? || found.value !in old(children) ==> children == old(children)
    {
      var wrap := WaitChild(found);
      if wrap != null {
        Refill(wrap);
      }
    }
  }

  lemma WindowFull(forks: seq<real>, workers: nat)
    ensures var window := LastOf(forks, workers + 1);
            && (|window| > workers <==> |forks| >= workers + 1)
            && (|window| > workers ==> window[0] == forks[|forks| - (workers + 1)])
  {
  }

  lemma WindowMoves(forks: seq<real>, workers: nat, t: real)
    ensures var window := LastOf(forks, workers + 1);
            LastOf(forks + [t], workers + 1) == (if |window| > workers then window[1..] else window) + [t]
  {
  }

  lemma PaceKept(forks: seq<real>, workers: nat, t: real, entered: real)
    requires Paced(forks, workers) && (forks != [] ==> forks[|forks| - 1] <= entered) && entered <= t
    requires |forks| >= workers + 1 ==>
               t >= entered + 1.0 || t >= forks[|forks| - (workers + 1)] + workers as real
    ensures Paced(forks + [t], workers) && TurnTaken(forks, workers, t)
  {
  }

  // Each fork took its turn after those before it.
  lemma PacedIff(forks: seq<real>, workers: nat)
    ensures Paced(forks, workers) <==> forall k :: 0 <= k < |forks| ==> TurnTaken(forks[..k], workers, forks[k])
  {
    forall k | workers + 1 <= k < |forks|
      ensures TurnTaken(forks[..k], workers, forks[k]) <==>
              forks[k] >= forks[k - 1] + 1.0 || forks[k] >= forks[k - (workers + 1)] + workers as real
    {
      assert forks[..k][k - 1] == forks[k - 1] && forks[..k][k - (workers + 1)] == forks[k - (workers + 1)];
    }
    if Paced(forks, workers) {
      forall k | 0 <= k < |forks| ensures TurnTaken(forks[..k], workers, forks[k]) {
      }
    }
    if forall k :: 0 <= k < |forks| ==> TurnTaken(forks[..k], workers, forks[k]) {
      forall k | workers + 1 <= k < |forks|
        ensures forks[k] >= forks[k - 1] + 1.0 || forks[k] >= forks[k - (workers + 1)] + workers as real
      {
        assert TurnTaken(forks[..k], workers, forks[k]);
      }
    }
  }
}
