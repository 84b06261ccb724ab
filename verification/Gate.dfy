/**
 * The collectors' request gate (`gate.rs`): a fixed window per lane, one lane for reads and one
 * for writes, and a bound on the requests in flight. Times are nanoseconds of one clock.
 */
module RequestGate {
  const WINDOW := 1_000_000_000
  const SLOTS := 16

  // ----- one window -----

  datatype Window = Window(started: int, requests: nat)

  /**
   * One attempt to charge: `checked` is when the age of the window is read, `now` when a new
   * window, if there is one, is dated.
   */
  datatype Attempt = Attempt(checked: int, now: int)

  /** The window the charge goes to. */
  function Current(w: Window, a: Attempt): Window {
    if a.checked - w.started >= WINDOW then Window(a.now, 0) else w
  }

  predicate Admits(w: Window, a: Attempt, allowance: nat) {
    Current(w, a).requests < allowance
  }

  function Charge(w: Window, a: Attempt, allowance: nat): Window {
    var current := Current(w, a);
    if current.requests < allowance then current.(requests := current.requests + 1) else current
  }

  function Run(w: Window, attempts: seq<Attempt>, allowance: nat): Window
    decreases |attempts|
  {
    if attempts == [] then w else Run(Charge(w, attempts[0], allowance), attempts[1..], allowance)
  }

  /** The clock does not go back, from `clock` on. */
  predicate Ordered(attempts: seq<Attempt>, clock: int) {
    attempts == [] ||
    (clock <= attempts[0].checked <= attempts[0].now && Ordered(attempts[1..], attempts[0].now))
  }

  /** How many attempts checked within `from..=to` are admitted. */
  function AdmittedIn(w: Window, attempts: seq<Attempt>, allowance: nat, from: int, to: int): nat
    decreases |attempts|
  {
    if attempts == [] then 0
    else
      var a := attempts[0];
      (if from <= a.checked <= to && Admits(w, a, allowance) then 1 else 0)
      + AdmittedIn(Charge(w, a, allowance), attempts[1..], allowance, from, to)
  }

  // ----- the rate bound -----

  /** How many whole windows fit between `a` and `b`. */
  function WindowsBetween(a: int, b: int): nat {
    if a <= b then (b - a) / WINDOW else 0
  }

  lemma {:induction false} NoneLeft(w: Window, attempts: seq<Attempt>, allowance: nat, from: int, to: int, clock: int)
    requires Ordered(attempts, clock) && to < clock
    ensures AdmittedIn(w, attempts, allowance, from, to) == 0
    decreases |attempts|
  {
    if attempts != [] {
      NoneLeft(Charge(w, attempts[0], allowance), attempts[1..], allowance, from, to, attempts[0].now);
    }
  }

  /** A window dated within the last `WINDOW` before `from`, or later, bounds what follows. */
  lemma {:induction false} BoundAfter(w: Window, attempts: seq<Attempt>, allowance: nat, from: int, to: int, clock: int)
    requires Ordered(attempts, clock) && w.started <= clock && w.requests <= allowance
    ensures AdmittedIn(w, attempts, allowance, from, to)
         <= (allowance - w.requests) + allowance * WindowsBetween(w.started, to)
    decreases |attempts|
  {
    if attempts != [] {
      var a, rest := attempts[0], attempts[1..];
      var next := Charge(w, a, allowance);
      if a.checked > to {
        NoneLeft(w, attempts, allowance, from, to, a.checked);
      } else {
        BoundAfter(next, rest, allowance, from, to, a.now);
        if a.checked - w.started >= WINDOW {
          WindowsAdd(w.started, a.now, to, allowance);
        }
      }
    }
  }

  lemma WindowsAdd(started: int, later: int, to: int, allowance: nat)
    requires started + WINDOW <= to && started + WINDOW <= later
    ensures allowance + allowance * WindowsBetween(later, to) <= allowance * WindowsBetween(started, to)
  {
    var m, n := WindowsBetween(later, to), WindowsBetween(started, to);
    assert m + 1 <= n;
    MoreWindows(allowance, m, n);
  }

  lemma MoreWindows(allowance: nat, m: nat, n: nat)
    requires m + 1 <= n
    ensures allowance + allowance * m <= allowance * n
  {
    var more := n - m - 1;
    assert allowance * n == allowance * m + allowance + allowance * more;
  }

  lemma Allowances(allowance: nat, n: nat, k: nat)
    requires n <= k
    ensures allowance + allowance * n <= (k + 1) * allowance
  {
    assert allowance * n <= allowance * k;
  }

  lemma FewWindows(started: int, from: int, k: nat)
    requires started > from - WINDOW
    ensures WindowsBetween(started, from + k * WINDOW) <= k
  {
    var to := from + k * WINDOW;
    if started <= to {
      assert to - started < (k + 1) * WINDOW;
    }
  }

  /** A window dated within the last `WINDOW` before the interval, or later. */
  lemma RecentWindow(w: Window, attempts: seq<Attempt>, allowance: nat, from: int, k: nat, clock: int)
    requires Ordered(attempts, clock) && from - WINDOW < w.started <= clock && w.requests <= allowance
    ensures AdmittedIn(w, attempts, allowance, from, from + k * WINDOW) + w.requests <= (k + 1) * allowance
  {
    var to := from + k * WINDOW;
    BoundAfter(w, attempts, allowance, from, to, clock);
    FewWindows(w.started, from, k);
    Allowances(allowance, WindowsBetween(w.started, to), k);
  }

  /** The first attempt inside the interval opens a new window there. */
  lemma FirstInside(w: Window, attempts: seq<Attempt>, allowance: nat, from: int, k: nat, clock: int)
    requires Ordered(attempts, clock) && w.started <= clock && attempts != []
    requires w.started <= from - WINDOW && from <= attempts[0].checked
    ensures AdmittedIn(w, attempts, allowance, from, from + k * WINDOW) <= (k + 1) * allowance
  {
    var a := attempts[0];
    RecentWindow(Charge(w, a, allowance), attempts[1..], allowance, from, k, a.now);
  }

  /** Any run: at most `k + 1` allowances within `k` windows, ends included. */
  lemma {:induction false} RateBound(w: Window, attempts: seq<Attempt>, allowance: nat, from: int, k: nat, clock: int)
    requires Ordered(attempts, clock) && w.started <= clock && w.requests <= allowance
    ensures AdmittedIn(w, attempts, allowance, from, from + k * WINDOW) <= (k + 1) * allowance
    decreases |attempts|
  {
    if w.started > from - WINDOW {
      RecentWindow(w, attempts, allowance, from, k, clock);
    } else if attempts == [] {
      Allowances(allowance, 0, k);
    } else if from <= attempts[0].checked {
      FirstInside(w, attempts, allowance, from, k, clock);
    } else {
      RateBound(Charge(w, attempts[0], allowance), attempts[1..], allowance, from, k, attempts[0].now);
    }
  }

  // ----- the bound is reached -----

  function Burst(at: int, n: nat): (attempts: seq<Attempt>)
    ensures |attempts| == n
  {
    if n == 0 then [] else [Attempt(at, at)] + Burst(at, n - 1)
  }

  /** A full allowance at the start of each of `k + 1` windows. */
  function Bursts(at: int, k: nat, allowance: nat): seq<Attempt>
    decreases k
  {
    Burst(at, allowance) + if k == 0 then [] else Bursts(at + WINDOW, k - 1, allowance)
  }

  lemma {:induction false} OrderedAfterBurst(at: int, n: nat, rest: seq<Attempt>)
    requires Ordered(rest, at)
    ensures Ordered(Burst(at, n) + rest, at)
  {
    if n == 0 {
      assert Burst(at, 0) + rest == rest;
    } else {
      OrderedAfterBurst(at, n - 1, rest);
      assert (Burst(at, n) + rest)[1..] == Burst(at, n - 1) + rest;
    }
  }

  lemma OrderedSooner(attempts: seq<Attempt>, clock: int, sooner: int)
    requires Ordered(attempts, clock) && sooner <= clock
    ensures Ordered(attempts, sooner)
  {
  }

  lemma {:induction false} BurstsOrdered(at: int, k: nat, allowance: nat)
    ensures Ordered(Bursts(at, k, allowance), at)
    decreases k
  {
    if k > 0 {
      BurstsOrdered(at + WINDOW, k - 1, allowance);
      OrderedSooner(Bursts(at + WINDOW, k - 1, allowance), at + WINDOW, at);
      OrderedAfterBurst(at, allowance, Bursts(at + WINDOW, k - 1, allowance));
    } else {
      OrderedAfterBurst(at, allowance, []);
    }
  }

  lemma {:induction false} BurstAdmitted(w: Window, at: int, n: nat, allowance: nat, rest: seq<Attempt>, from: int, to: int)
    requires w.started == at && w.requests + n == allowance && from <= at <= to
    ensures AdmittedIn(w, Burst(at, n) + rest, allowance, from, to)
         == n + AdmittedIn(Window(at, allowance), rest, allowance, from, to)
    decreases n
  {
    if n == 0 {
      assert Burst(at, 0) + rest == rest;
    } else {
      assert (Burst(at, n) + rest)[1..] == Burst(at, n - 1) + rest;
      BurstAdmitted(w.(requests := w.requests + 1), at, n - 1, allowance, rest, from, to);
    }
  }

  lemma {:induction false} NextBurstAdmitted(w: Window, at: int, allowance: nat, rest: seq<Attempt>, from: int, to: int)
    requires w.started == at - WINDOW && allowance > 0 && from <= at <= to
    ensures AdmittedIn(w, Burst(at, allowance) + rest, allowance, from, to)
         == allowance + AdmittedIn(Window(at, allowance), rest, allowance, from, to)
  {
    assert (Burst(at, allowance) + rest)[1..] == Burst(at, allowance - 1) + rest;
    BurstAdmitted(Window(at, 1), at, allowance - 1, allowance, rest, from, to);
  }

  lemma {:induction false} BurstsAdmitted(w: Window, at: int, k: nat, allowance: nat, from: int, to: int)
    requires w.started == at - WINDOW && allowance > 0 && from <= at && at + k * WINDOW <= to
    ensures AdmittedIn(w, Bursts(at, k, allowance), allowance, from, to) == (k + 1) * allowance
    decreases k
  {
    if k == 0 {
      assert Bursts(at, 0, allowance) == Burst(at, allowance) + [];
      NextBurstAdmitted(w, at, allowance, [], from, to);
    } else {
      NextBurstAdmitted(w, at, allowance, Bursts(at + WINDOW, k - 1, allowance), from, to);
      BurstsAdmitted(Window(at, allowance), at + WINDOW, k - 1, allowance, from, to);
      assert (k + 1) * allowance == k * allowance + allowance;
    }
  }

  /** A full allowance at each boundary, the first at `from`. */
  lemma BurstsReachBound(from: int, k: nat, allowance: nat)
    ensures Ordered(Bursts(from, k, allowance), from - WINDOW)
    ensures AdmittedIn(Window(from - WINDOW, 0), Bursts(from, k, allowance), allowance, from, from + k * WINDOW)
         == (k + 1) * allowance
  {
    var w, attempts := Window(from - WINDOW, 0), Bursts(from, k, allowance);
    BurstsOrdered(from, k, allowance);
    OrderedSooner(attempts, from, w.started);
    if allowance > 0 {
      BurstsAdmitted(w, from, k, allowance, from, from + k * WINDOW);
    } else {
      RateBound(w, attempts, allowance, from, k, w.started);
    }
  }

  /** No smaller bound holds: a caller can spend a full allowance at every boundary. */
  lemma RateBoundIsReached(from: int, k: nat, allowance: nat)
    ensures exists w: Window, attempts: seq<Attempt> ::
      Ordered(attempts, w.started) && w.requests <= allowance
      && AdmittedIn(w, attempts, allowance, from, from + k * WINDOW) == (k + 1) * allowance
  {
    BurstsReachBound(from, k, allowance);
    var w := Window(from - WINDOW, 0);
    assert Ordered(Bursts(from, k, allowance), w.started) && w.requests <= allowance;
  }

  // ----- refusals -----

  /** How many attempts are admitted. */
  function Count(w: Window, attempts: seq<Attempt>, allowance: nat): nat
    decreases |attempts|
  {
    if attempts == [] then 0
    else
      (if Admits(w, attempts[0], allowance) then 1 else 0)
      + Count(Charge(w, attempts[0], allowance), attempts[1..], allowance)
  }

  /** The window in force after `attempts`: opened by the one at `i`, or the first one still. */
  predicate InForce(w: Window, attempts: seq<Attempt>, allowance: nat, i: nat, renewed: bool) {
    var last := Run(w, attempts, allowance);
    if !renewed then i == 0 && last.started == w.started && last.requests == w.requests + Count(w, attempts, allowance)
    else
      && i < |attempts| && last.started == attempts[i].now
      && Current(Run(w, attempts[..i], allowance), attempts[i]) == Window(attempts[i].now, 0)
      && last.requests == Count(Run(w, attempts[..i], allowance), attempts[i..], allowance)
  }

  lemma {:induction false} WindowInForce(w: Window, attempts: seq<Attempt>, allowance: nat) returns (i: nat, renewed: bool)
    ensures InForce(w, attempts, allowance, i, renewed)
    decreases |attempts|
  {
    if attempts == [] {
      i, renewed := 0, false;
    } else {
      var a, rest := attempts[0], attempts[1..];
      var j, later := WindowInForce(Charge(w, a, allowance), rest, allowance);
      if later {
        i, renewed := j + 1, true;
        assert attempts[..i][1..] == rest[..j] && attempts[i..] == rest[j..];
      } else {
        i, renewed := 0, a.checked - w.started >= WINDOW;
        assert attempts[..0] == [] && attempts[0..] == attempts;
      }
    }
  }

  /** A refusal means that the window in force is still young and has admitted its whole allowance. */
  lemma RefusedOnlyWhenFull(w: Window, attempts: seq<Attempt>, allowance: nat, a: Attempt)
    returns (i: nat, renewed: bool)
    requires w.requests == 0 && allowance > 0
    requires !Admits(Run(w, attempts, allowance), a, allowance)
    ensures InForce(w, attempts, allowance, i, renewed)
    ensures a.checked - Run(w, attempts, allowance).started < WINDOW
    ensures Count(Run(w, attempts[..i], allowance), attempts[i..], allowance) >= allowance
  {
    i, renewed := WindowInForce(w, attempts, allowance);
    assert attempts[..0] == [] && attempts[0..] == attempts;
  }

  // ----- the gate -----

  datatype Method = Get | Head | Other

  predicate IsRead(m: Method) {
    m.Get? || m.Head?
  }

  datatype Status = Admitted | TooManyRequests | Unavailable

  class Lane {
    var window: Window
    var inFlight: nat

    constructor (now: int)
      ensures window == Window(now, 0) && inFlight == 0
    {
      window := Window(now, 0);
      inFlight := 0;
    }

    /** `Window::charge` under the lane's lock. */
    method ChargeOne(a: Attempt, allowance: nat) returns (admitted: bool)
      modifies this`window
      ensures admitted == Admits(old(window), a, allowance)
      ensures window == Charge(old(window), a, allowance)
    {
      if a.checked - window.started >= WINDOW {
        window := window.(started := a.now);
        window := window.(requests := 0);
      }
      if window.requests >= allowance {
        return false;
      }
      window := window.(requests := window.requests + 1);
      admitted := true;
    }
  }

  class Gate {
    const reading: Lane
    const writing: Lane
    const allowance: nat

    constructor (allowance: nat, now: int)
      ensures Valid() && this.allowance == allowance
      ensures fresh(reading) && fresh(writing)
      ensures reading.window == Window(now, 0) && writing.window == Window(now, 0)
    {
      reading := new Lane(now);
      writing := new Lane(now);
      this.allowance := allowance;
    }

    ghost predicate Valid()
      reads this, reading, writing
    {
      reading != writing && reading.inFlight <= SLOTS && writing.inFlight <= SLOTS
    }

    /** GET and HEAD are reads, everything else is a write. */
    function LaneOf(m: Method): (lane: Lane)
      ensures m in {Get, Head} ==> lane == reading
      ensures m == Other ==> lane == writing
    {
      if IsRead(m) then reading else writing
    }

    function OtherLane(m: Method): (lane: Lane)
      ensures m in {Get, Head} ==> lane == writing
      ensures m == Other ==> lane == reading
    {
      if IsRead(m) then writing else reading
    }

    /**
     * Admission of one request; `lockFree` tells whether the lane's lock could be taken at once.
     * A request that finds the lane busy or spent takes no slot, and one that finds no slot has
     * spent a charge; the other lane never notices.
     */
    method Admit(m: Method, lockFree: bool, a: Attempt) returns (status: Status)
      requires Valid()
      modifies LaneOf(m)
      ensures Valid()
      ensures var lane := LaneOf(m);
              && lane.window == (if lockFree then Charge(old(lane.window), a, allowance) else old(lane.window))
              && (status.TooManyRequests? <==> !lockFree || !Admits(old(lane.window), a, allowance))
              && (status.Unavailable? ==> old(lane.inFlight) == SLOTS)
              && lane.inFlight == old(lane.inFlight) + (if status.Admitted? then 1 else 0)
      ensures OtherLane(m).window == old(OtherLane(m).window) && OtherLane(m).inFlight == old(OtherLane(m).inFlight)
    {
      var lane := LaneOf(m);
      if !lockFree {
        return TooManyRequests;
      }
      var charged := lane.ChargeOne(a, allowance);
      if !charged {
        return TooManyRequests;
      }
      if lane.inFlight >= SLOTS {
        return Unavailable;
      }
      lane.inFlight := lane.inFlight + 1;
      status := Admitted;
    }

    /** The request is answered or timed out; its slot is free again. */
    method Finish(m: Method)
      requires Valid() && LaneOf(m).inFlight > 0
      modifies LaneOf(m)
      ensures Valid() && LaneOf(m).inFlight == old(LaneOf(m).inFlight) - 1
      ensures LaneOf(m).window == old(LaneOf(m).window)
    {
      LaneOf(m).inFlight := LaneOf(m).inFlight - 1;
    }
  }

  // ----- both lanes over a run -----

  datatype Request = Request(verb: Method, attempt: Attempt)

  datatype Windows = Windows(reading: Window, writing: Window)

  function Serve(g: Windows, r: Request, allowance: nat): Windows {
    if IsRead(r.verb) then g.(reading := Charge(g.reading, r.attempt, allowance))
    else g.(writing := Charge(g.writing, r.attempt, allowance))
  }

  function ServeAll(g: Windows, requests: seq<Request>, allowance: nat): Windows
    decreases |requests|
  {
    if requests == [] then g else ServeAll(Serve(g, requests[0], allowance), requests[1..], allowance)
  }

  /** The attempts of one lane. */
  function LaneAttempts(requests: seq<Request>, ofReads: bool): seq<Attempt> {
    if requests == [] then []
    else
      (if IsRead(requests[0].verb) == ofReads then [requests[0].attempt] else [])
      + LaneAttempts(requests[1..], ofReads)
  }

  /** However reads and writes interleave, each lane ends as if it had been alone. */
  lemma {:induction false} LanesAreIndependent(g: Windows, requests: seq<Request>, allowance: nat)
    ensures ServeAll(g, requests, allowance).reading == Run(g.reading, LaneAttempts(requests, true), allowance)
    ensures ServeAll(g, requests, allowance).writing == Run(g.writing, LaneAttempts(requests, false), allowance)
    decreases |requests|
  {
    if requests != [] {
      var r := requests[0];
      LanesAreIndependent(Serve(g, r, allowance), requests[1..], allowance);
      var rest := LaneAttempts(requests[1..], IsRead(r.verb));
      assert ([r.attempt] + rest)[1..] == rest;
      assert [] + LaneAttempts(requests[1..], !IsRead(r.verb)) == LaneAttempts(requests[1..], !IsRead(r.verb));
    }
  }
}
