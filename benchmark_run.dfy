/** Parameter validation and the per-width plan of `run` in the Braket
    amplitude-estimation benchmark. Metrics, submission, timing and the random
    choice of secrets are outside the model; what remains is which widths are
    built, with how many counting qubits, how many circuits and which secrets,
    and whether the CPHASESHIFT shim is used. */
module BenchmarkRun {
  import opened Common
  import opened Gates
  import PhaseEstimation
  import StatePrep

  /** `MAX_QUBITS`: circuit size grows quickly with the width. */
  const MaxQubits := 8

  /** The keyword arguments of `run` that affect the plan. */
  datatype Params = Params(
    minQubits: int, maxQubits: int, maxCircuits: int,
    numStateQubits: int, backendId: string, useCu1Shim: bool)

  /** The defaults of `run`, which is what the script runs as `__main__`. */
  const DefaultParams := Params(3, 8, 3, 1, "simulator", false)

  /** The validated parameters, or the early return (after printing that
      `needed` qubits are required). */
  datatype Validated =
    | TooFewQubits(needed: int)
    | Valid(nsq: nat, minQubits: int, maxQubits: int, shim: bool)

  /** `sub in s` on Python strings. */
  predicate Contains(s: string, sub: string)
  {
    |sub| <= |s| && (s[..|sub|] == sub || Contains(s[1..], sub))
  }


  /** The clamping and validation at the top of `run`. */
  function Validate(p: Params): Validated
  {
    var maxQ := if p.maxQubits > MaxQubits then MaxQubits else p.maxQubits;
    var nsq := Max(1, p.numStateQubits);
    if maxQ < nsq + 2 then TooFewQubits(nsq + 2)
    else
      var minQ := Max(Max(3, p.minQubits), nsq + 2);
      Valid(nsq, minQ, maxQ, p.useCu1Shim || Contains(p.backendId, "ionq/"))
  }

  /** `run` returns before any execution exactly when the clamped budget
      cannot hold the state qubits, the objective qubit and one counting
      qubit; otherwise the budget is clamped to 8, there is at least one
      state qubit, the effective minimum is `max(3, min_qubits, nsq + 2)`,
      and the shim is on for IonQ backends or on request. */
  lemma ValidateSpec(p: Params)
    ensures var nsq := if p.numStateQubits < 1 then 1 else p.numStateQubits;
      var maxQ := if p.maxQubits <= 8 then p.maxQubits else 8;
      && (Validate(p).TooFewQubits? <==> maxQ < nsq + 2)
      && (Validate(p).TooFewQubits? ==> Validate(p).needed == nsq + 2)
      && (Validate(p).Valid? ==>
            && Validate(p).nsq == nsq
            && Validate(p).maxQubits == maxQ <= MaxQubits
            && Validate(p).minQubits >= 3
            && Validate(p).minQubits >= p.minQubits
            && Validate(p).minQubits >= nsq + 2
            && (Validate(p).minQubits == 3 || Validate(p).minQubits == p.minQubits
                || Validate(p).minQubits == nsq + 2)
            && (Validate(p).shim <==> p.useCu1Shim || Contains(p.backendId, "ionq/")))
  {
  }

  /** With its defaults `run` builds widths 3 to 8 with one state qubit and
      without the shim. */
  lemma DefaultRun()
    ensures Validate(DefaultParams) == Valid(1, 3, 8, false)
  {
    NotContains("simulator", "ionq/", '/');
  }

  /** `sub in s` fails when `sub` holds a character that `s` does not. */
  lemma {:induction false} NotContains(s: string, sub: string, c: char)
    requires c in sub && c !in s
    ensures !Contains(s, sub)
  {
    if |sub| <= |s| {
      NotContains(s[1..], sub, c);
    }
  }

  /** With one state qubit and `min_qubits = 1` the effective minimum is 3. */
  lemma DefaultMinimum(p: Params)
    requires p.numStateQubits == 1 && p.minQubits == 1 && p.maxQubits >= 3
    ensures Validate(p).Valid? && Validate(p).minQubits == 3
  {
  }

  /** The secrets of one width: `0 .. n-1` when all fit, otherwise a random
      draw of `count` distinct values that is not modelled. */
  datatype Secrets = Exhaustive(values: seq<int>) | Sampled(count: nat)

  /** What `run` does for one width: one circuit per secret. */
  datatype WidthPlan = WidthPlan(
    numQubits: int, numCountingQubits: nat, numCircuits: nat,
    secrets: Secrets, circuits: seq<seq<Gate>>)

  /** The circuit `AmplitudeEstimation` returns for `m` counting qubits when
      `run` calls it with the default `psi` strings. The secret only sets the
      (symbolic) rotation angle of A, so it does not appear. */
  function DefaultCircuit(nsq: nat, shim: bool): nat -> seq<Gate>
    requires nsq >= 1
  {
    (m: nat) => PhaseEstimation.AECircuit(nsq, m, Repeat('0', nsq), Repeat('1', nsq), shim)
  }

  /** The plan of a width whose secrets can be drawn, every circuit being
      `circuit`. */
  function PlanFor(numQubits: int, nsq: nat, maxCircuits: int, circuit: seq<Gate>): WidthPlan
    requires numQubits >= nsq + 2 && maxCircuits >= 0
  {
    var m: nat := numQubits - nsq - 1;
    var numCircuits: nat := Min(Pow2(m), maxCircuits);
    WidthPlan(numQubits, m, numCircuits,
      if Pow2(m) <= maxCircuits then Exhaustive(Range(0, numCircuits)) else Sampled(numCircuits),
      Repeat(circuit, numCircuits))
  }

  /** `f` applied to the `count` widths from `lo` on, in order. */
  function Widths<T>(lo: int, count: nat, f: int --> T): (r: seq<T>)
    requires forall w :: lo <= w < lo + count ==> f.requires(w)
    ensures |r| == count
  {
    if count == 0 then [] else Widths(lo, count - 1, f) + [f(lo + count - 1)]
  }

  /** Entry `k` is `f` of width `lo + k`. */
  lemma {:induction false} WidthsAt<T>(lo: int, count: nat, f: int --> T, k: nat)
    requires forall w :: lo <= w < lo + count ==> f.requires(w)
    requires k < count
    ensures Widths(lo, count, f)[k] == f(lo + k)
  {
    if k < count - 1 {
      WidthsAt(lo, count - 1, f, k);
    }
  }

  /** One more width extends the sequence. */
  lemma WidthsSnoc<T>(lo: int, count: nat, f: int --> T, s: seq<T>, w: int, x: T)
    requires forall w :: lo <= w <= lo + count ==> f.requires(w)
    requires w == lo + count && s == Widths(lo, count, f) && x == f(w)
    ensures s + [x] == Widths(lo, count + 1, f)
  {
  }

  /** The plan of each width, `circuitOf(m)` being the circuit built with `m`
      counting qubits. */
  function PlanOf(nsq: nat, maxCircuits: int, circuitOf: nat -> seq<Gate>): int --> WidthPlan
    requires maxCircuits >= 0
  {
    w requires w >= nsq + 2 => PlanFor(w, nsq, maxCircuits, circuitOf(w - nsq - 1))
  }

  /** What `run` does overall: nothing after the early return, one group per
      width `min_qubits .. max_qubits`, or the ValueError numpy raises when
      asked for a negative number of secrets. */
  datatype RunPlan =
    | Aborted(needed: int)
    | Executed(shim: bool, groups: seq<WidthPlan>)
    | Raised(error: Error, shim: bool, groups: seq<WidthPlan>)

  /** What `run` does after validation, `circuitOf(m)` being the circuit
      built with `m` counting qubits: nothing when no width is left, the ValueError of
      `np.random.choice` for a negative number of secrets, and otherwise the
      plans of the widths `min_qubits .. max_qubits`. */
  function Planned(v: Validated, maxCircuits: int, circuitOf: nat -> seq<Gate>): RunPlan
    requires v.Valid? && v.minQubits >= v.nsq + 2
  {
    if v.minQubits > v.maxQubits then Executed(v.shim, [])
    else if maxCircuits < 0 then Raised(ValueError, v.shim, [])
    else Executed(v.shim, Widths(v.minQubits, v.maxQubits - v.minQubits + 1, PlanOf(v.nsq, maxCircuits, circuitOf)))
  }

  /** After validation `run` raises ValueError, with no group done, exactly
      when there is a width to build and `max_circuits` is negative; otherwise
      it builds one group per width `min_qubits .. max_qubits`, group `k`
      being the plan of width `min_qubits + k`. */
  lemma PlannedSpec(v: Validated, maxCircuits: int, circuitOf: nat -> seq<Gate>)
    requires v.Valid? && v.minQubits >= v.nsq + 2
    ensures var plan := Planned(v, maxCircuits, circuitOf);
      && !plan.Aborted? && plan.shim == v.shim
      && (plan.Raised? <==> v.minQubits <= v.maxQubits && maxCircuits < 0)
      && (plan.Raised? ==> plan.error == ValueError && plan.groups == [])
      && (plan.Executed? ==>
            && |plan.groups| == (if v.minQubits <= v.maxQubits then v.maxQubits - v.minQubits + 1 else 0)
            && forall k :: 0 <= k < |plan.groups| ==>
                 maxCircuits >= 0 && plan.groups[k] == PlanFor(v.minQubits + k, v.nsq, maxCircuits, circuitOf(v.minQubits + k - v.nsq - 1)))
  {
    var plan := Planned(v, maxCircuits, circuitOf);
    if plan.Executed? && v.minQubits <= v.maxQubits {
      var f := PlanOf(v.nsq, maxCircuits, circuitOf);
      forall k | 0 <= k < |plan.groups|
        ensures plan.groups[k] == PlanFor(v.minQubits + k, v.nsq, maxCircuits, circuitOf(v.minQubits + k - v.nsq - 1))
      {
        WidthsAt(v.minQubits, v.maxQubits - v.minQubits + 1, f, k);
      }
    }
  }

  /** `run`: validation, then the loop over widths that builds one circuit
      per secret. */
  method Run(p: Params) returns (plan: RunPlan)
    ensures Validate(p).TooFewQubits? ==> plan == Aborted(Validate(p).needed)
    ensures Validate(p).Valid? ==>
      plan == Planned(Validate(p), p.maxCircuits, DefaultCircuit(Validate(p).nsq, Validate(p).shim))
  {
    var maxQubits := p.maxQubits;
    if maxQubits > MaxQubits {
      maxQubits := MaxQubits;
    }
    var nsq := Max(1, p.numStateQubits);
    if maxQubits < nsq + 2 {
      return Aborted(nsq + 2);
    }
    var minQubits := Max(Max(3, p.minQubits), nsq + 2);
    var useShim := p.useCu1Shim;
    if Contains(p.backendId, "ionq/") {
      useShim := true;
    }
    assert Validate(p) == Valid(nsq, minQubits, maxQubits, useShim);
    plan := PlanWidths(nsq, minQubits, maxQubits, p.maxCircuits, useShim);
  }

  /** The loop of `run` over the widths `min_qubits .. max_qubits`: one group
      of circuits per width, or the ValueError of `np.random.choice` when the
      number of circuits is negative. */
  method PlanWidths(nsq: nat, minQubits: int, maxQubits: int, maxCircuits: int, shim: bool)
    returns (plan: RunPlan)
    requires nsq >= 1 && minQubits >= nsq + 2
    ensures plan == Planned(Valid(nsq, minQubits, maxQubits, shim), maxCircuits, DefaultCircuit(nsq, shim))
  {
    var groups: seq<WidthPlan> := [];
    var numQubits := minQubits;
    while numQubits < maxQubits + 1
      invariant minQubits <= numQubits
      invariant numQubits <= maxQubits + 1 || groups == []
      invariant |groups| == numQubits - minQubits
      invariant maxCircuits < 0 ==> groups == []
      invariant maxCircuits >= 0 ==> groups == Widths(minQubits, |groups|, PlanOf(nsq, maxCircuits, DefaultCircuit(nsq, shim)))
      decreases maxQubits + 1 - numQubits
    {
      var width := PlanWidth(numQubits, nsq, maxCircuits, shim);
      if width.Err? {
        return Raised(width.error, shim, groups);
      }
      if maxCircuits >= 0 {
        WidthsSnoc(minQubits, |groups|, PlanOf(nsq, maxCircuits, DefaultCircuit(nsq, shim)), groups, numQubits, width.value);
      }
      groups := groups + [width.value];
      numQubits := numQubits + 1;
    }
    plan := Executed(shim, groups);
  }

  /** One pass of the loop of `run`: the number of counting qubits and of
      circuits, the secrets, and one `AmplitudeEstimation` circuit per secret;
      `np.random.choice` raises ValueError when asked for a negative number
      of secrets. */
  method PlanWidth(numQubits: int, nsq: nat, maxCircuits: int, shim: bool) returns (r: Result<WidthPlan>)
    requires nsq >= 1 && numQubits >= nsq + 2
    ensures maxCircuits < 0 ==> r == Err(ValueError)
    ensures maxCircuits >= 0 ==> r == Ok(PlanOf(nsq, maxCircuits, DefaultCircuit(nsq, shim))(numQubits))
  {
    var m: nat := numQubits - nsq - 1;
    var numCircuits := Min(Pow2(m), maxCircuits);
    var secrets;
    if Pow2(m) <= maxCircuits {
      secrets := Exhaustive(Range(0, numCircuits));
    } else if numCircuits < 0 {
      return Err(ValueError);
    } else {
      secrets := Sampled(numCircuits);
    }
    var circuits: seq<seq<Gate>> := [];
    for s := 0 to numCircuits
      invariant circuits == Repeat(DefaultCircuit(nsq, shim)(m), s)
    {
      var qc := PhaseEstimation.AmplitudeEstimation(nsq, m, None, None, shim);
      assert qc.Ok?;
      RepeatSnoc([], qc.value, s, circuits);
      circuits := circuits + [qc.value];
    }
    r := Ok(WidthPlan(numQubits, m, numCircuits, secrets, circuits));
    assert maxCircuits >= 0 ==>
      PlanOf(nsq, maxCircuits, DefaultCircuit(nsq, shim))(numQubits)
      == PlanFor(numQubits, nsq, maxCircuits, DefaultCircuit(nsq, shim)(m));
  }

  /** Every planned width has at least one counting qubit, builds
      `min(2^m, max_circuits)` circuits of width `nsq + 1 + m`; when
      `2^m <= max_circuits` its secrets are exactly `0 .. 2^m - 1`, and
      otherwise they are a random draw of `max_circuits` values. */
  lemma PlanForSpec(numQubits: int, nsq: nat, maxCircuits: int, circuit: seq<Gate>)
    requires nsq >= 1 && numQubits >= nsq + 2 && maxCircuits >= 0
    ensures var w := PlanFor(numQubits, nsq, maxCircuits, circuit);
      && w.numQubits == numQubits
      && w.numCountingQubits >= 1
      && PhaseEstimation.Width(nsq, w.numCountingQubits) == numQubits
      && w.numCircuits <= Pow2(w.numCountingQubits) && w.numCircuits <= maxCircuits
      && (w.numCircuits == Pow2(w.numCountingQubits) || w.numCircuits == maxCircuits)
      && (Pow2(w.numCountingQubits) <= maxCircuits ==>
            w.secrets == Exhaustive(Range(0, Pow2(w.numCountingQubits))))
      && (w.secrets.Exhaustive? ==> forall s :: s in w.secrets.values ==> 0 <= s < Pow2(w.numCountingQubits))
      && (w.secrets.Sampled? <==> maxCircuits < Pow2(w.numCountingQubits))
      && (w.secrets.Sampled? ==> w.secrets.count == w.numCircuits == maxCircuits)
      && |w.circuits| == w.numCircuits
      && (forall c :: c in w.circuits ==> c == circuit)
  {
  }
}
