/** The per-model analysis cooldown, claimed by concurrent workers through one conditional `UPDATE`. */
module Cooldown {
  import opened Wrappers

  /** Microseconds since the epoch, as a worker's own clock shows them. */
  type Time = int

  const COOLDOWN: Time := 60_000_000

  type Worker = nat

  /** A worker reads its clock, then runs the `UPDATE`.  Row locking makes it wait while another claim is open;
      its condition is evaluated when the lock is free, on the committed row. */
  datatype Phase = Idle | Stamped(now: Time) | Claimed(now: Time)

  /** `last` is the committed column, `granted` every value it was ever committed with. */
  datatype State = State(last: Option<Time>, phases: map<Worker, Phase>, granted: seq<Time>)

  const INITIAL := State(None, map[], [])

  datatype Event =
    | ReadClock(worker: Worker, now: Time)
    | Claim(worker: Worker)
    | Commit(worker: Worker)
    | Rollback(worker: Worker)

  function PhaseOf(s: State, w: Worker): Phase {
    if w in s.phases then s.phases[w] else Idle
  }

  /** `last_analyze_requested_at IS NULL OR last_analyze_requested_at < now - 60 s`. */
  predicate Elapsed(last: Option<Time>, now: Time) {
    last == None || last.value < now - COOLDOWN
  }

  ghost predicate Locked(s: State) {
    exists w | w in s.phases :: s.phases[w].Claimed?
  }

  /** Clocks are arbitrary: nothing relates the times two workers read.  A worker may die at any point, which
      rolls its claim back. */
  ghost predicate Step(s: State, e: Event, s': State) {
    match e
    case ReadClock(w, now) =>
      PhaseOf(s, w) == Idle && s' == s.(phases := s.phases[w := Stamped(now)])
    case Claim(w) =>
      && PhaseOf(s, w).Stamped? && !Locked(s)
      && s' == s.(phases := s.phases[w := if Elapsed(s.last, s.phases[w].now) then Claimed(s.phases[w].now) else Idle])
    case Commit(w) =>
      && PhaseOf(s, w).Claimed?
      && s' == State(Some(s.phases[w].now), s.phases[w := Idle], s.granted + [s.phases[w].now])
    case Rollback(w) =>
      PhaseOf(s, w) != Idle && s' == s.(phases := s.phases[w := Idle])
  }

  ghost predicate Run(states: seq<State>, events: seq<Event>) {
    && |states| == |events| + 1 && states[0] == INITIAL
    && forall i | 0 <= i < |events| :: Step(states[i], events[i], states[i + 1])
  }

  /** Successive grants lie more than the cooldown apart. */
  predicate Spaced(granted: seq<Time>) {
    forall i | 0 <= i < |granted| - 1 :: granted[i] < granted[i + 1] - COOLDOWN
  }

  function LastOf(granted: seq<Time>): Option<Time> {
    if granted == [] then None else Some(granted[|granted| - 1])
  }

  ghost predicate AtMostOneClaim(s: State) {
    forall v, w | v in s.phases && w in s.phases && s.phases[v].Claimed? && s.phases[w].Claimed? :: v == w
  }

  ghost predicate ClaimsElapsed(s: State) {
    forall w | w in s.phases && s.phases[w].Claimed? :: Elapsed(s.last, s.phases[w].now)
  }

  /** One open claim at most, and it still satisfies the condition it was granted on. */
  ghost predicate Sound(s: State) {
    AtMostOneClaim(s) && ClaimsElapsed(s) && Spaced(s.granted) && s.last == LastOf(s.granted)
  }

  lemma SpacedSnoc(granted: seq<Time>, now: Time)
    requires Spaced(granted) && Elapsed(LastOf(granted), now)
    ensures Spaced(granted + [now])
  {}

  lemma CommitSound(s: State, w: Worker, s': State)
    requires Sound(s) && Step(s, Commit(w), s')
    ensures Sound(s')
  {
    SpacedSnoc(s.granted, s.phases[w].now);
  }

  lemma StepSound(s: State, e: Event, s': State)
    requires Sound(s) && Step(s, e, s')
    ensures Sound(s')
  {
    match e
    case Commit(w) => CommitSound(s, w, s');
    case _ =>
  }

  lemma {:induction false} RunSound(states: seq<State>, events: seq<Event>, i: nat)
    requires Run(states, events) && i < |states|
    ensures Sound(states[i])
  {
    if i > 0 {
      RunSound(states, events, i - 1);
      StepSound(states[i - 1], events[i - 1], states[i]);
    }
  }

  // ---- How many analyses fit a window ----

  lemma {:induction false} GrantsApart(granted: seq<Time>, i: nat, j: nat)
    requires Spaced(granted) && i <= j < |granted|
    ensures granted[j] - granted[i] >= COOLDOWN * (j - i)
    ensures i < j ==> granted[j] - granted[i] > COOLDOWN * (j - i)
  {
    if i < j {
      GrantsApart(granted, i, j - 1);
      assert granted[j - 1] < granted[(j - 1) + 1] - COOLDOWN;
    }
  }

  function GrantsWithin(granted: seq<Time>, from: Time, to: Time): nat {
    if granted == [] then 0
    else
      var n := |granted| - 1;
      GrantsWithin(granted[..n], from, to) + if from <= granted[n] <= to then 1 else 0
  }

  lemma {:induction false} WindowIsShort(granted: seq<Time>, from: Time, to: Time) returns (i: nat, j: nat)
    requires GrantsWithin(granted, from, to) > 0
    ensures i <= j < |granted| && from <= granted[i] && granted[j] <= to
    ensures GrantsWithin(granted, from, to) <= j - i + 1
  {
    var n := |granted| - 1;
    var within := from <= granted[n] <= to;
    if GrantsWithin(granted[..n], from, to) == 0 {
      i, j := n, n;
    } else {
      i, j := WindowIsShort(granted[..n], from, to);
      assert granted[..n][i] == granted[i] && granted[..n][j] == granted[j];
      if within { j := n; }
    }
  }

  /** However many workers race, with whatever clocks: `n` analyses granted with stamps inside a window of
      length `to - from` satisfy 60 s * (n - 1) <= to - from, strictly for more than one. */
  lemma CooldownBound(states: seq<State>, events: seq<Event>, k: nat, from: Time, to: Time)
    requires Run(states, events) && k < |states| && from <= to
    ensures 60_000_000 * (GrantsWithin(states[k].granted, from, to) - 1) <= to - from
    ensures GrantsWithin(states[k].granted, from, to) > 1 ==>
            60_000_000 * (GrantsWithin(states[k].granted, from, to) - 1) < to - from
  {
    var granted := states[k].granted;
    RunSound(states, events, k);
    if GrantsWithin(granted, from, to) > 0 {
      var i, j := WindowIsShort(granted, from, to);
      GrantsApart(granted, i, j);
    }
  }

  /** A refused worker was refused rightly: at that moment a grant stamped at most 60 s before its clock stands. */
  lemma RefusedOnlyWhenRecent(states: seq<State>, events: seq<Event>, k: nat)
    requires Run(states, events) && k < |events| && events[k].Claim?
    ensures var w := events[k].worker;
            PhaseOf(states[k + 1], w) == Idle <==>
              var granted := states[k].granted;
              granted != [] && states[k].phases[w].now - granted[|granted| - 1] <= 60_000_000
  {
    RunSound(states, events, k);
    assert Step(states[k], events[k], states[k + 1]);
  }
}
