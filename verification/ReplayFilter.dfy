/**
 RemotePeer.CompareAndUpdateSeq: a load and a compare-and-swap in a loop, run by any number of
 callers at once. One step is one atomic access to `lastSeq`; a schedule is any interleaving.
 */
module ReplayFilter {

  datatype Caller =
    | Ready(sequence: nat)               // about to load
    | Loaded(sequence: nat, seen: nat)   // about to swap
    | Done(sequence: nat, accepted: bool)

  /** A finished call, in the order in which the calls took effect. */
  datatype Op = Op(caller: nat, sequence: nat, accepted: bool)

  datatype State = State(last: nat, callers: seq<Caller>, history: seq<Op>)

  function Start(sequences: seq<nat>): State {
    State(0, seq(|sequences|, i requires 0 <= i < |sequences| => Ready(sequences[i])), [])
  }

  function Finish(s: State, t: nat, accepted: bool): State
    requires t < |s.callers|
  {
    var sequence := s.callers[t].sequence;
    s.(callers := s.callers[t := Done(sequence, accepted)],
       history := s.history + [Op(t, sequence, accepted)],
       last := if accepted then sequence else s.last)
  }

  ghost predicate SameCalls(a: State, b: State) {
    |a.callers| == |b.callers| && forall t :: 0 <= t < |a.callers| ==> a.callers[t].sequence == b.callers[t].sequence
  }

  /** One atomic access by caller t. */
  function Step(s: State, t: nat): (r: State)
    ensures SameCalls(s, r)
  {
    if t >= |s.callers| then s
    else match s.callers[t]
      case Ready(sequence) =>
        if sequence <= s.last then Finish(s, t, false)
        else s.(callers := s.callers[t := Loaded(sequence, s.last)])
      case Loaded(sequence, seen) =>
        if s.last == seen then Finish(s, t, true)
        else s.(callers := s.callers[t := Ready(sequence)])
      case Done(_, _) => s
  }

  function Run(s: State, schedule: seq<nat>): (r: State)
    ensures SameCalls(s, r)
  {
    if schedule == [] then s else Step(Run(s, schedule[..|schedule| - 1]), schedule[|schedule| - 1])
  }

  // ---------- The sequential filter ----------

  /** The largest accepted sequence number of a history, 0 if none. */
  function Highest(history: seq<Op>): nat {
    if history == [] then 0
    else
      var op := history[|history| - 1];
      var before := Highest(history[..|history| - 1]);
      if op.accepted && op.sequence > before then op.sequence else before
  }

  /** Each call was answered as a filter that runs one call at a time would have answered it. */
  predicate Sequential(history: seq<Op>) {
    history == [] ||
    var op := history[|history| - 1];
    var before := history[..|history| - 1];
    Sequential(before) && (op.accepted <==> op.sequence > Highest(before))
  }

  /** Every entry of the history is a finished call, and no call has two entries. */
  ghost predicate Recorded(callers: seq<Caller>, history: seq<Op>) {
    && (forall i :: 0 <= i < |history| ==>
          history[i].caller < |callers| && callers[history[i].caller] == Done(history[i].sequence, history[i].accepted))
    && (forall i, j :: 0 <= i < j < |history| ==> history[i].caller != history[j].caller)
  }

  ghost predicate InHistory(history: seq<Op>, t: int) {
    exists i :: 0 <= i < |history| && history[i].caller == t
  }

  ghost predicate GoodCaller(s: State, t: int)
    requires 0 <= t < |s.callers|
  {
    match s.callers[t]
    case Ready(_) => true
    case Loaded(sequence, seen) => seen <= s.last && seen < sequence
    case Done(_, _) => InHistory(s.history, t)
  }

  ghost predicate Inv(s: State) {
    && Sequential(s.history)
    && s.last == Highest(s.history)
    && Recorded(s.callers, s.history)
    && forall t :: 0 <= t < |s.callers| ==> GoodCaller(s, t)
  }

  lemma FinishInv(s: State, t: nat, accepted: bool)
    requires Inv(s) && t < |s.callers| && !s.callers[t].Done?
    requires accepted <==> s.callers[t].sequence > s.last
    ensures Inv(Finish(s, t, accepted))
  {
    var r := Finish(s, t, accepted);
    var n := |s.history|;
    assert r.history[..n] == s.history;
    assert Recorded(r.callers, r.history) by {
      assert forall i :: 0 <= i < n ==> s.history[i].caller != t;
    }
    forall u | 0 <= u < |r.callers|
      ensures GoodCaller(r, u)
    {
      if u == t {
        assert r.history[n].caller == t;
      } else {
        assert GoodCaller(s, u);
        if s.callers[u].Done? {
          var i :| 0 <= i < n && s.history[i].caller == u;
          assert r.history[i].caller == u;
        }
      }
    }
  }

  /** A step that does not finish a call touches only that caller. */
  lemma Requeued(s: State, t: nat, c: Caller)
    requires Inv(s) && t < |s.callers| && !s.callers[t].Done? && !c.Done?
    requires c.Loaded? ==> c.seen <= s.last && c.seen < c.sequence
    ensures Inv(s.(callers := s.callers[t := c]))
  {
    var r := s.(callers := s.callers[t := c]);
    forall u | 0 <= u < |r.callers|
      ensures GoodCaller(r, u)
    {
      assert GoodCaller(s, u);
    }
  }

  lemma StepInv(s: State, t: nat)
    requires Inv(s)
    ensures Inv(Step(s, t))
  {
    if t < |s.callers| {
      assert GoodCaller(s, t);
      match s.callers[t]
      case Ready(sequence) =>
        if sequence <= s.last {
          FinishInv(s, t, false);
        } else {
          Requeued(s, t, Loaded(sequence, s.last));
        }
      case Loaded(sequence, seen) =>
        if s.last == seen {
          FinishInv(s, t, true);
        } else {
          Requeued(s, t, Ready(sequence));
        }
      case Done(_, _) =>
    }
  }

  lemma {:induction false} RunInv(sequences: seq<nat>, schedule: seq<nat>)
    ensures Inv(Run(Start(sequences), schedule))
  {
    if schedule != [] {
      RunInv(sequences, schedule[..|schedule| - 1]);
      StepInv(Run(Start(sequences), schedule[..|schedule| - 1]), schedule[|schedule| - 1]);
    }
  }

  // ---------- What follows for every interleaving ----------

  lemma {:induction false} HighestBounds(history: seq<Op>, i: nat)
    requires Sequential(history) && i < |history|
    ensures history[i].sequence <= Highest(history)
    ensures forall j :: i < j < |history| && history[j].accepted ==> history[i].sequence < history[j].sequence
  {
    var n := |history| - 1;
    if i < n {
      HighestBounds(history[..n], i);
    }
  }

  predicate Accepts(s: State, t: int) {
    0 <= t < |s.callers| && s.callers[t].Done? && s.callers[t].accepted
  }

  /**
   Linearisability: in every interleaving each finished call has one place in the history, and the
   history is one that the sequential filter could have produced. So accepted numbers strictly
   increase in that order, no number is accepted by two calls, and `lastSeq` is at least the number
   of every finished call.
   */
  lemma Linearisable(sequences: seq<nat>, schedule: seq<nat>)
    ensures var s := Run(Start(sequences), schedule);
            && Sequential(s.history)
            && (forall i, j :: 0 <= i < j < |s.history| && s.history[i].accepted && s.history[j].accepted ==>
                  s.history[i].sequence < s.history[j].sequence)
            && (forall t, u :: 0 <= t < u < |s.callers| && Accepts(s, t) && Accepts(s, u) ==>
                  s.callers[t].sequence != s.callers[u].sequence)
            && (forall t :: 0 <= t < |s.callers| && s.callers[t].Done? ==> s.callers[t].sequence <= s.last)
            && (s.last == 0 || exists t :: 0 <= t < |s.callers| && s.callers[t] == Done(s.last, true))
  {
    var s := Run(Start(sequences), schedule);
    RunInv(sequences, schedule);
    forall i | 0 <= i < |s.history|
      ensures forall j :: i < j < |s.history| && s.history[j].accepted ==> s.history[i].sequence < s.history[j].sequence
    {
      HighestBounds(s.history, i);
    }
    forall t | 0 <= t < |s.callers| && s.callers[t].Done?
      ensures s.callers[t].sequence <= s.last
    {
      var i := Placed(s, t);
      HighestBounds(s.history, i);
    }
    forall t, u | 0 <= t < u < |s.callers| && Accepts(s, t) && Accepts(s, u)
      ensures s.callers[t].sequence != s.callers[u].sequence
    {
      var i := Placed(s, t);
      var j := Placed(s, u);
      assert i < j || j < i;
    }
    if s.last > 0 {
      var i := HighestWitness(s.history);
      assert s.callers[s.history[i].caller] == Done(s.last, true);
    }
  }

  /** Where a finished call stands in the history. */
  lemma Placed(s: State, t: nat) returns (i: nat)
    requires Inv(s) && t < |s.callers| && s.callers[t].Done?
    ensures i < |s.history| && s.history[i] == Op(t, s.callers[t].sequence, s.callers[t].accepted)
  {
    assert GoodCaller(s, t);
    i :| i < |s.history| && s.history[i].caller == t;
  }

  lemma {:induction false} HighestWitness(history: seq<Op>) returns (i: nat)
    requires Highest(history) > 0
    ensures i < |history| && history[i].accepted && history[i].sequence == Highest(history)
  {
    var n := |history| - 1;
    if Highest(history) == Highest(history[..n]) {
      i := HighestWitness(history[..n]);
    } else {
      i := n;
    }
  }

  // ---------- Termination ----------

  /** An upper bound on the accesses that a caller still makes: every failed swap shrinks it. */
  function Remaining(s: State, t: nat): int
    requires t < |s.callers|
  {
    match s.callers[t]
    case Ready(sequence) => if sequence <= s.last then 1 else 2 * (sequence - s.last) + 1
    case Loaded(sequence, seen) => 2 * (sequence - seen)
    case Done(_, _) => 0
  }

  /** Its own step brings a caller closer to the end, and no other caller's step takes it back. */
  lemma StepProgress(s: State, t: nat, u: nat)
    requires Inv(s) && t < |s.callers|
    ensures 0 <= Remaining(Step(s, u), t) <= Remaining(s, t)
    ensures u == t && !s.callers[t].Done? ==> Remaining(Step(s, u), t) < Remaining(s, t)
  {
    assert GoodCaller(s, t);
    assert u < |s.callers| ==> GoodCaller(s, u);
  }

  function Turns(schedule: seq<nat>, t: nat): nat {
    if schedule == [] then 0
    else Turns(schedule[..|schedule| - 1], t) + (if schedule[|schedule| - 1] == t then 1 else 0)
  }

  lemma {:induction false} RunProgress(sequences: seq<nat>, schedule: seq<nat>, t: nat)
    requires t < |sequences|
    ensures var s := Run(Start(sequences), schedule);
            && 0 <= Remaining(s, t)
            && (s.callers[t].Done? || Remaining(s, t) + Turns(schedule, t) <= 2 * sequences[t] + 1)
  {
    if schedule != [] {
      var n := |schedule| - 1;
      RunProgress(sequences, schedule[..n], t);
      RunInv(sequences, schedule[..n]);
      StepProgress(Run(Start(sequences), schedule[..n]), t, schedule[n]);
    }
  }

  /** A call returns after at most 2 * sequence + 1 of its own accesses, whatever the others do. */
  lemma CallTerminates(sequences: seq<nat>, schedule: seq<nat>, t: nat)
    requires t < |sequences| && Turns(schedule, t) >= 2 * sequences[t] + 1
    ensures Run(Start(sequences), schedule).callers[t].Done?
  {
    RunProgress(sequences, schedule, t);
    RunInv(sequences, schedule);
    StepProgress(Run(Start(sequences), schedule), t, t);
  }
}
