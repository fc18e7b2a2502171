/** Who has the network (NetArbiter.h): a queue by priority, and a bounded
    wait for the heap a turn needs. */
module NetArbiter {
  import opened Text

  const WAIT_MS := 30_000

  // In priority order
  datatype Who = OTA | IP | DNS | SETUP | POST | RELAY | STREAM | NONE

  const ORDER: seq<Who> := [OTA, IP, DNS, SETUP, POST, RELAY, STREAM]

  // The most important of those who want the network
  function First(wants: set<Who>, i: nat): (w: Who)
    requires i <= |ORDER|
    ensures w == NONE || w in wants
    decreases |ORDER| - i
  {
    if i == |ORDER| then NONE else if ORDER[i] in wants then ORDER[i] else First(wants, i + 1)
  }

  // The wait for the heap: since when, if it is on
  datatype Wait = Wait(starved: bool, from: Word)

  // Whether the turn may go on, its session open or the heap fitting one
  function Waited(w: Wait, fits: bool, now: Word): (bool, Wait) {
    if fits then (true, w.(starved := false))
    else
      var v := if w.starved then w else Wait(true, now);
      if Since(now, v.from) < WAIT_MS then (false, v) else (true, v.(starved := false))
  }

  // ── The arbiter ────────────────────────────────────────────────────────────

  class Arbiter {
    var wants: set<Who>
    var owner: Who
    var starved: bool
    var waitFrom: Word
    var late: nat

    function State(): Wait
      reads this
    {
      Wait(starved, waitFrom)
    }

    constructor ()
      ensures wants == {} && owner == NONE && State() == Wait(false, 0)
    {
      wants, owner, starved, waitFrom, late := {}, NONE, false, 0, 0;
    }

    method Want(w: Who)
      modifies `wants
      ensures wants == old(wants) + {w}
    {
      wants := wants + {w};
    }

    // The turn for this tick; the wants start over
    method Grant() returns (w: Who)
      modifies this
      ensures w == First(old(wants), 0) && wants == {} && owner == w
      ensures State() == if w == old(owner) then old(State()) else old(State()).(starved := false)
      ensures late == old(late)
    {
      w := NONE;
      var i := 0;
      while i < |ORDER| && w == NONE
        invariant 0 <= i <= |ORDER|
        invariant First(wants, 0) == if w == NONE then First(wants, i) else w
      {
        if ORDER[i] in wants {
          w := ORDER[i];
        }
        i := i + 1;
      }
      wants := {};
      if w != owner {
        owner := w;
        starved := false;
      }
    }

    // The owner may go on: its session is open, the heap fits a new one, or it
    // has waited for it
    method Ready(now: Word, fits: bool, running: bool) returns (go: bool)
      modifies this
      ensures (go, State()) == Waited(old(State()), running || fits, now)
      ensures wants == old(wants) && owner == old(owner)
      ensures late == if go && !running && !fits then (old(late) + 1) % 0x1_0000 else old(late)
    {
      if running || fits {
        starved := false;
        return true;
      }
      if !starved {
        starved := true;
        waitFrom := now;
      }
      if Since(now, waitFrom) < WAIT_MS {
        return false;
      }
      starved := false;
      late := (late + 1) % 0x1_0000;
      return true;
    }
  }

  // ── What the order means ───────────────────────────────────────────────────

  // The turn goes to one who wants it, if there is any, and nobody before it
  // in the order does
  lemma {:induction false} FirstIsFirst(wants: set<Who>, i: nat)
    requires i <= |ORDER|
    ensures var w := First(wants, i);
            if w == NONE then forall k | i <= k < |ORDER| :: ORDER[k] !in wants
            else exists k | i <= k < |ORDER| :: ORDER[k] == w && w in wants && forall j | i <= j < k :: ORDER[j] !in wants
    decreases |ORDER| - i
  {
    if i < |ORDER| && ORDER[i] !in wants {
      FirstIsFirst(wants, i + 1);
    }
  }

  // ── The bounded wait ───────────────────────────────────────────────────────

  function Clock(t: nat): Word {
    t % WORD
  }

  // The wait over calls of ready at these times (milliseconds since power on)
  function After(w: Wait, times: seq<nat>): Wait {
    if times == [] then w else Waited(After(w, times[..|times| - 1]), false, Clock(times[|times| - 1])).1
  }

  ghost predicate AllWait(w: Wait, times: seq<nat>) {
    forall k | 0 <= k < |times| :: !Waited(After(w, times[..k]), false, Clock(times[k])).0
  }

  // Calls closer together than this see the counter go round at most once
  ghost predicate Close(times: seq<nat>) {
    forall j, k | 0 <= j < |times| && k == j + 1 < |times| :: times[j] <= times[k] < times[j] + WORD - WAIT_MS
  }

  lemma AllWaitBefore(w: Wait, times: seq<nat>)
    requires times != [] && AllWait(w, times)
    ensures var n := |times| - 1; AllWait(w, times[..n]) && !Waited(After(w, times[..n]), false, Clock(times[n])).0
  {
    var before := times[..|times| - 1];
    forall k | 0 <= k < |before| ensures !Waited(After(w, before[..k]), false, Clock(before[k])).0 {
      assert before[..k] == times[..k];
    }
  }

  // A turn that has just been given and finds no heap is held less than WAIT_MS,
  // however often it asks and wherever the 32-bit counter goes round
  lemma {:induction false} WaitBounded(w: Wait, times: seq<nat>)
    requires !w.starved && times != [] && Close(times) && AllWait(w, times)
    ensures times[|times| - 1] - times[0] < WAIT_MS
    ensures After(w, times) == Wait(true, Clock(times[0]))
  {
    var n := |times| - 1;
    var before := times[..n];
    AllWaitBefore(w, times);
    assert After(w, times) == Waited(After(w, before), false, Clock(times[n])).1;
    if n == 0 {
      assert before == [] && After(w, before) == w;
      SinceClock(times[0], times[0]);
    } else {
      CloseBefore(times);
      WaitBounded(w, before);
      WaitGoesOn(before[0], before[n - 1], times[n]);
    }
  }

  lemma CloseBefore(times: seq<nat>)
    requires |times| > 1 && Close(times)
    ensures var n := |times| - 1;
            Close(times[..n]) && times[0] <= times[n - 1] <= times[n] < times[n - 1] + WORD - WAIT_MS
    decreases |times|
  {
    if |times| > 2 {
      CloseBefore(times[..|times| - 1]);
    }
  }

  lemma WaitGoesOn(from: nat, last: nat, to: nat)
    requires from <= last <= to < last + WORD - WAIT_MS && last - from < WAIT_MS
    ensures var w := Wait(true, Clock(from));
            Waited(w, false, Clock(to)) == if to - from < WAIT_MS then (false, w) else (true, w.(starved := false))
  {
    SinceClock(from, to);
  }

  lemma SinceClock(from: nat, to: nat)
    requires from <= to < from + WORD
    ensures Since(Clock(to), Clock(from)) == to - from
  {
  }
}
