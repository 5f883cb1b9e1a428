/** When a sequence of once, repeat and loop actions stops going round. */
module AutomationPasses {
  datatype Mode = Once | Repeat | Loop

  /** A JavaScript number. */
  datatype Number = NaN | Infinite(negative: bool) | Finite(value: real)

  /** `mode` is the configured execution mode in lower case. */
  datatype Action = Action(action: string, mode: string, payloadLoops: bool, repeatCount: Number)

  function ExecutionMode(a: Action): (m: Mode)
    ensures m.Repeat? <==> a.mode == "repeat"
    ensures m.Loop? <==> a.mode == "loop" || (a.mode == "" && a.action == "display.media" && a.payloadLoops)
  {
    var mode := if a.mode == "" && a.action == "display.media" && a.payloadLoops then "loop" else a.mode;
    if mode == "loop" then Loop else if mode == "repeat" then Repeat else Once
  }

  /** `Math.round`, which rounds halves up. */
  function Round(x: real): int { (x + 0.5).Floor }

  function Clamp(n: int): int {
    var atMost := if n > 100 then 100 else n;
    if atMost < 1 then 1 else atMost
  }

  function RepeatLimit(count: Number): int {
    match count
    case NaN => 2
    case Infinite(negative) => if negative then 1 else 100
    case Finite(x) => if x == 0.0 then 2 else Clamp(Round(x))
  }

  function Distance(x: real, n: int): real {
    if x >= n as real then x - n as real else n as real - x
  }

  /** A count is taken as the nearest whole number from 1 to 100, the higher one of two; so a
      whole count in that range is its own limit. No count at all is two. */
  lemma RepeatLimitNearest(x: real, n: int)
    requires 1 <= n <= 100
    ensures RepeatLimit(NaN) == 2 && RepeatLimit(Finite(0.0)) == 2
    ensures x != 0.0 ==> NearestOf(x, n, RepeatLimit(Finite(x)))
    ensures RepeatLimit(Infinite(true)) == 1 && RepeatLimit(Infinite(false)) == 100
  {
  }

  /** No whole number n from 1 to 100 is nearer to x than r, and no higher one as near. */
  predicate NearestOf(x: real, n: int, r: int) {
    && 1 <= r <= 100 && Distance(x, r) <= Distance(x, n)
    && (Distance(x, r) == Distance(x, n) ==> n <= r) && (x == n as real ==> r == n)
  }

  datatype Limit = Endless | Passes(count: int)

  function PassLimit(a: Action): (r: Limit)
    ensures r.Endless? <==> ExecutionMode(a).Loop?
    ensures r.Passes? ==> 1 <= r.count <= 100
    ensures r.Passes? && r.count > 1 ==> ExecutionMode(a).Repeat?
  {
    match ExecutionMode(a)
    case Loop => Endless
    case Repeat => Passes(RepeatLimit(a.repeatCount))
    case Once => Passes(1)
  }

  predicate Eligible(a: Action, pass: int) {
    var n := if pass > 1 then pass else 1;
    PassLimit(a).Endless? || n <= PassLimit(a).count
  }

  function EligibleOn(steps: seq<Action>, pass: int): seq<Action> {
    if steps == [] then []
    else (if Eligible(steps[0], pass) then [steps[0]] else []) + EligibleOn(steps[1..], pass)
  }

  predicate DrivesAnotherPass(a: Action, pass: int) {
    Eligible(a, pass) && ExecutionMode(a).Repeat?
  }

  predicate NeedsAnotherPass(steps: seq<Action>, nextPass: int) {
    var eligible := EligibleOn(steps, nextPass);
    if |eligible| == 0 then false
    else if |eligible| == 1 then DrivesAnotherPass(eligible[0], nextPass)
    else true
  }

  function Loops(steps: seq<Action>): nat {
    if steps == [] then 0 else (if ExecutionMode(steps[0]).Loop? then 1 else 0) + Loops(steps[1..])
  }

  /** The largest repeat limit, or 1. */
  function LargestLimit(steps: seq<Action>): (r: int)
    ensures 1 <= r <= 100
    ensures forall k :: 0 <= k < |steps| && PassLimit(steps[k]).Passes? ==> PassLimit(steps[k]).count <= r
    ensures r > 1 ==> exists k :: 0 <= k < |steps| && PassLimit(steps[k]) == Passes(r)
  {
    if steps == [] then 1
    else
      var rest := LargestLimit(steps[1..]);
      if PassLimit(steps[0]).Passes? && PassLimit(steps[0]).count > rest then PassLimit(steps[0]).count
      else
        assert rest > 1 ==> exists k :: 0 <= k < |steps[1..]| && steps[1..][k] == steps[k + 1] && PassLimit(steps[k + 1]) == Passes(rest);
        rest
  }

  /** Later passes only lose actions. */
  lemma {:induction false} EligibleShrinks(steps: seq<Action>, p: int, q: int)
    requires p <= q
    ensures |EligibleOn(steps, q)| <= |EligibleOn(steps, p)|
    ensures |EligibleOn(steps, q)| == |EligibleOn(steps, p)| ==> EligibleOn(steps, q) == EligibleOn(steps, p)
  {
    if steps != [] {
      EligibleShrinks(steps[1..], p, q);
    }
  }

  /** Once no other pass is needed, none ever is. */
  lemma NeverNeededAgain(steps: seq<Action>, p: int, q: int)
    requires p <= q && !NeedsAnotherPass(steps, p)
    ensures !NeedsAnotherPass(steps, q)
  {
    EligibleShrinks(steps, p, q);
    EligibleMember(steps, p);
  }

  lemma {:induction false} EligibleMember(steps: seq<Action>, pass: int)
    ensures forall a :: a in EligibleOn(steps, pass) <==> a in steps && Eligible(a, pass)
  {
    if steps != [] {
      EligibleMember(steps[1..], pass);
      assert steps == [steps[0]] + steps[1..];
    }
  }

  /** Beyond every finite limit only the loops remain. */
  lemma {:induction false} OnlyLoopsRemain(steps: seq<Action>, pass: int)
    requires pass > 1 && forall k :: 0 <= k < |steps| && PassLimit(steps[k]).Passes? ==> PassLimit(steps[k]).count < pass
    ensures |EligibleOn(steps, pass)| == Loops(steps)
    ensures forall a :: a in EligibleOn(steps, pass) ==> ExecutionMode(a).Loop?
  {
    if steps != [] {
      OnlyLoopsRemain(steps[1..], pass);
    }
  }

  lemma {:induction false} LoopsStay(steps: seq<Action>, pass: int)
    ensures |EligibleOn(steps, pass)| >= Loops(steps)
  {
    if steps != [] {
      LoopsStay(steps[1..], pass);
    }
  }

  /** Exactly when a later pass is needed: while a repeat has passes left, or for ever with two loops. */
  lemma NeedsIff(steps: seq<Action>, pass: int)
    requires pass >= 2
    ensures NeedsAnotherPass(steps, pass) <==> (pass <= LargestLimit(steps) || Loops(steps) >= 2)
  {
    LoopsStay(steps, pass);
    EligibleMember(steps, pass);
    if pass <= LargestLimit(steps) {
      var k :| 0 <= k < |steps| && PassLimit(steps[k]) == Passes(LargestLimit(steps));
      assert steps[k] in EligibleOn(steps, pass);
    } else {
      OnlyLoopsRemain(steps, pass);
    }
  }

  function Min(a: int, b: int): int { if a < b then a else b }

  /** How many of the first `passes` passes an action is eligible on. */
  function Dispatches(a: Action, passes: nat): int {
    if PassLimit(a).Endless? then passes else Min(PassLimit(a).count, passes)
  }

  /** How often each action has been dispatched after `passes` whole passes. */
  predicate Dispatched(steps: seq<Action>, runs: seq<nat>, passes: nat) {
    |runs| == |steps| && forall k :: 0 <= k < |steps| ==> runs[k] == Dispatches(steps[k], passes)
  }

  predicate HasEligible(steps: seq<Action>, pass: int) {
    exists k :: 0 <= k < |steps| && Eligible(steps[k], pass)
  }

  lemma SomeEligible(steps: seq<Action>, pass: int)
    requires steps != [] && (pass <= LargestLimit(steps) || Loops(steps) >= 2)
    ensures HasEligible(steps, pass)
  {
    LoopsStay(steps, pass);
    EligibleMember(steps, pass);
    if pass <= 1 {
      assert Eligible(steps[0], pass);
    } else if pass <= LargestLimit(steps) {
      var k :| 0 <= k < |steps| && PassLimit(steps[k]) == Passes(LargestLimit(steps));
      assert Eligible(steps[k], pass);
    } else {
      assert EligibleOn(steps, pass)[0] in EligibleOn(steps, pass);
    }
  }

  method DispatchPass(steps: seq<Action>, runs: seq<nat>, pass: nat) returns (r: seq<nat>)
    requires pass >= 1 && Dispatched(steps, runs, pass - 1)
    ensures Dispatched(steps, r, pass)
  {
    r := runs;
    for i := 0 to |steps|
      invariant |r| == |steps|
      invariant forall k :: 0 <= k < i ==> r[k] == Dispatches(steps[k], pass)
      invariant forall k :: i <= k < |steps| ==> r[k] == runs[k]
    {
      if Eligible(steps[i], pass) {
        r := r[i := r[i] + 1];
      }
    }
  }

  /** Every repeat was dispatched exactly its own number of times. */
  predicate RepeatsDone(steps: seq<Action>, runs: seq<nat>) {
    |runs| == |steps| && forall k :: 0 <= k < |steps| && ExecutionMode(steps[k]).Repeat? ==> runs[k] == RepeatLimit(steps[k].repeatCount)
  }

  lemma RepeatsInFull(steps: seq<Action>, runs: seq<nat>, passes: nat)
    requires Dispatched(steps, runs, passes)
    ensures passes >= LargestLimit(steps) ==> RepeatsDone(steps, runs)
  {
    assert forall k :: 0 <= k < |steps| && ExecutionMode(steps[k]).Repeat? ==> PassLimit(steps[k]).Passes?;
  }

  /** Go round the sequence; `maxPasses` of 0 sets no bound, which two or more loops need.
      `runs` counts how often each action was dispatched. */
  method RunPasses(steps: seq<Action>, maxPasses: nat) returns (passes: nat, runs: seq<nat>)
    requires steps != [] && (maxPasses > 0 || Loops(steps) <= 1)
    ensures Loops(steps) <= 1 ==> passes == if maxPasses > 0 then Min(maxPasses, LargestLimit(steps)) else LargestLimit(steps)
    ensures Loops(steps) >= 2 ==> passes == maxPasses
    ensures Dispatched(steps, runs, passes)
    ensures maxPasses == 0 ==> 1 <= passes <= 100
    ensures maxPasses == 0 ==> RepeatsDone(steps, runs)
  {
    runs := seq(|steps|, _ => 0);
    passes := 0;
    var pass := 1;
    SomeEligible(steps, pass);
    while HasEligible(steps, pass)
      invariant pass == passes + 1 && HasEligible(steps, pass)
      invariant maxPasses > 0 ==> passes < maxPasses
      invariant pass <= LargestLimit(steps) || Loops(steps) >= 2
      invariant Dispatched(steps, runs, passes)
      decreases if maxPasses > 0 then maxPasses - passes else LargestLimit(steps) - passes
    {
      runs := DispatchPass(steps, runs, pass);
      passes := pass;
      NeedsIff(steps, pass + 1);
      if !NeedsAnotherPass(steps, pass + 1) {
        RepeatsInFull(steps, runs, passes);
        return;
      }
      if maxPasses > 0 && pass >= maxPasses { return; }
      pass := pass + 1;
      SomeEligible(steps, pass);
    }
  }
}
