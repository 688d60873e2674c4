/** The brute-force multi-controlled X of the Braket amplitude-estimation
    benchmark: a breadth-first work list of `[j, i, theta]` units, each emitting
    an optional CNOT between two controls and one controlled phase on the
    target, native or through the five-gate CPHASESHIFT shim. */
module Mcx {
  import opened Common
  import opened Gates

  /** A work-list unit `[j, i, theta]`; `j == None` only for the first unit. */
  datatype Unit = Unit(j: Option<int>, i: int, theta: PiAngle)

  /** The unit refers only to existing controls and carries a pi/2^k angle. */
  predicate InRange(u: Unit, n: nat)
  {
    && 0 <= u.i < n
    && (u.j.Some? ==> 0 <= u.j.value < n)
  }

  predicate AllInRange(units: seq<Unit>, n: nat)
  {
    forall k :: 0 <= k < |units| ==> InRange(units[k], n)
  }

  /** `add_cphaseshift`: a controlled phase from two CNOTs and three RZs. */
  function CPhaseShim(c: nat, t: nat, theta: PiAngle): (r: seq<Gate>)
  {
    [RZ(c, Half(theta)), CNOT(c, t), RZ(t, Negate(Half(theta))), CNOT(c, t), RZ(t, Half(theta))]
  }

  /** The shim is two CNOTs and three RZs, with no native phase gate. */
  lemma ShimCounts(c: nat, t: nat, theta: PiAngle, kind: Kind)
    ensures Count(CPhaseShim(c, t, theta), kind) == match kind
      case KCNOT => 2
      case KRZ => 3
      case _ => 0
  {
    var s := CPhaseShim(c, t, theta);
    assert s == [s[0]] + ([s[1]] + ([s[2]] + ([s[3]] + [s[4]])));
    CountAppend([s[0]], [s[1]] + ([s[2]] + ([s[3]] + [s[4]])), kind);
    CountAppend([s[1]], [s[2]] + ([s[3]] + [s[4]]), kind);
    CountAppend([s[2]], [s[3]] + [s[4]], kind);
    CountAppend([s[3]], [s[4]], kind);
    CountSingle(s[0], kind);
    CountSingle(s[1], kind);
    CountSingle(s[2], kind);
    CountSingle(s[3], kind);
    CountSingle(s[4], kind);
  }

  /** The phase gate of one unit: native `cphaseshift`, or the shim. */
  function PhaseGates(c: nat, t: nat, theta: PiAngle, shim: bool): seq<Gate>
  {
    if shim then CPhaseShim(c, t, theta) else [CPhase(c, t, theta)]
  }

  /** What `add_cx_unit` appends for one unit. */
  function UnitGates(u: Unit, controls: seq<nat>, target: nat, shim: bool): seq<Gate>
    requires InRange(u, |controls|)
  {
    (if u.j.Some? then [CNOT(controls[u.j.value], controls[u.i])] else [])
    + PhaseGates(controls[u.i], target, u.theta, shim)
  }

  /** The units `add_cx_unit` returns: none once `i` reaches 0, otherwise two. */
  function Children(u: Unit, n: nat): seq<Unit>
  {
    var i' := u.i - 1;
    var j' := if u.j.None? then i' + 1 else u.j.value - 1;
    var theta := Magnitude(u.theta);
    if i' >= 0 then [Unit(Some(j'), i', Negate(theta)), Unit(Some(n - 1), i', theta)] else []
  }

  /** Gates of one pass of the work list, in list order. */
  function PassGates(units: seq<Unit>, controls: seq<nat>, target: nat, shim: bool): seq<Gate>
    requires AllInRange(units, |controls|)
  {
    if units == [] then []
    else PassGates(units[..|units| - 1], controls, target, shim)
         + UnitGates(units[|units| - 1], controls, target, shim)
  }

  /** The work list of the next pass. */
  function NextUnits(units: seq<Unit>, n: nat): seq<Unit>
  {
    if units == [] then []
    else NextUnits(units[..|units| - 1], n) + Children(units[|units| - 1], n)
  }

  /** A unit of the `p`-th pass for `n` controls: its `i` is `n - 1 - p`, its
      `j` is set after the first pass and then lies strictly between `i` and
      `n`, and its angle has magnitude pi/2^n. */
  predicate PassUnit(u: Unit, n: nat, p: nat)
  {
    && u.i == n - 1 - p
    && 0 <= u.i
    && (u.j.Some? <==> p > 0)
    && (u.j.Some? ==> u.i < u.j.value <= n - 1)
    && u.theta.k == n
  }

  /** The work list of pass `p` of `add_mcx` with `n` controls. */
  function WorkList(n: nat, p: nat): seq<Unit>
    requires n >= 1
  {
    if p == 0 then [Unit(None, n - 1, Pi(false, n))]
    else NextUnits(WorkList(n, p - 1), n)
  }

  lemma {:induction false} NextUnitsShape(units: seq<Unit>, n: nat, p: nat)
    requires forall k :: 0 <= k < |units| ==> PassUnit(units[k], n, p)
    ensures p + 1 < n ==> |NextUnits(units, n)| == 2 * |units|
    ensures p + 1 >= n ==> NextUnits(units, n) == []
    ensures forall k :: 0 <= k < |NextUnits(units, n)| ==> PassUnit(NextUnits(units, n)[k], n, p + 1)
  {
    if units != [] {
      var init := units[..|units| - 1];
      NextUnitsShape(init, n, p);
    }
  }

  /** The work-list invariant: pass `p < n` holds `2^p` units of level
      `n - 1 - p`, and pass `n` is empty, so the loop makes exactly `n` passes. */
  lemma {:induction false} WorkListShape(n: nat, p: nat)
    requires 1 <= n && p <= n
    ensures p < n ==> |WorkList(n, p)| == Pow2(p)
    ensures p == n ==> WorkList(n, p) == []
    ensures forall k :: 0 <= k < |WorkList(n, p)| ==> PassUnit(WorkList(n, p)[k], n, p)
  {
    if p > 0 {
      WorkListShape(n, p - 1);
      NextUnitsShape(WorkList(n, p - 1), n, p - 1);
    }
  }

  lemma PassUnitsInRange(units: seq<Unit>, n: nat, p: nat)
    requires forall k :: 0 <= k < |units| ==> PassUnit(units[k], n, p)
    ensures AllInRange(units, n)
  {
  }

  /** The work list is empty exactly at pass `n`: the loop of `add_mcx` stops
      after `n` passes. */
  lemma WorkListEmpty(n: nat, p: nat)
    requires 1 <= n && p <= n
    ensures WorkList(n, p) == [] <==> p == n
  {
    WorkListShape(n, p);
  }

  /** Gates of the first `p` passes. */
  function McxBody(controls: seq<nat>, target: nat, shim: bool, p: nat): seq<Gate>
    requires 1 <= |controls| && p <= |controls|
  {
    if p == 0 then []
    else
      var units := WorkList(|controls|, p - 1);
      WorkListShape(|controls|, p - 1);
      PassUnitsInRange(units, |controls|, p - 1);
      McxBody(controls, target, shim, p - 1) + PassGates(units, controls, target, shim)
  }

  lemma McxBodyStep(controls: seq<nat>, target: nat, shim: bool, p: nat)
    requires 1 <= |controls| && p < |controls|
    ensures AllInRange(WorkList(|controls|, p), |controls|)
    ensures McxBody(controls, target, shim, p + 1)
            == McxBody(controls, target, shim, p) + PassGates(WorkList(|controls|, p), controls, target, shim)
  {
    WorkListShape(|controls|, p);
    PassUnitsInRange(WorkList(|controls|, p), |controls|, p);
  }

  /** Everything `add_mcx` appends for `n >= 1` controls. */
  function McxGates(controls: seq<nat>, target: nat, shim: bool): seq<Gate>
    requires 1 <= |controls|
  {
    [H(target)] + McxBody(controls, target, shim, |controls|) + [H(target)]
  }

  /** `add_cx_unit`: append the unit's gates and return its children. */
  method AddCxUnit(qc: seq<Gate>, u: Unit, controls: seq<nat>, target: nat, shim: bool)
    returns (qc': seq<Gate>, newUnits: seq<Unit>)
    requires InRange(u, |controls|)
    ensures qc' == qc + UnitGates(u, controls, target, shim)
    ensures newUnits == Children(u, |controls|)
  {
    var numControls := |controls|;
    var iQubit := u.i;
    var jQubit := u.j;
    var theta := u.theta;
    qc' := qc;
    if jQubit.Some? {
      qc' := qc' + [CNOT(controls[jQubit.value], controls[iQubit])];
    }
    if shim {
      qc' := qc' + CPhaseShim(controls[iQubit], target, theta);
    } else {
      qc' := qc' + [CPhase(controls[iQubit], target, theta)];
    }
    iQubit := iQubit - 1;
    if jQubit.None? {
      jQubit := Some(iQubit + 1);
    } else {
      jQubit := Some(jQubit.value - 1);
    }
    if theta.negative {
      theta := Pi(false, theta.k);
    }
    newUnits := [];
    if iQubit >= 0 {
      newUnits := newUnits + [Unit(jQubit, iQubit, Negate(theta))];
      newUnits := newUnits + [Unit(Some(numControls - 1), iQubit, theta)];
    }
  }

  /** `add_cxcu1_units`: one pass over the work list. */
  method AddCxcu1Units(qc: seq<Gate>, units: seq<Unit>, controls: seq<nat>, target: nat, shim: bool)
    returns (qc': seq<Gate>, newUnits: seq<Unit>)
    requires AllInRange(units, |controls|)
    ensures qc' == qc + PassGates(units, controls, target, shim)
    ensures newUnits == NextUnits(units, |controls|)
  {
    qc' := qc;
    newUnits := [];
    for k := 0 to |units|
      invariant qc' == qc + PassGates(units[..k], controls, target, shim)
      invariant newUnits == NextUnits(units[..k], |controls|)
    {
      ghost var before, beforeUnits := qc', newUnits;
      var more;
      qc', more := AddCxUnit(qc', units[k], controls, target, shim);
      newUnits := newUnits + more;
      PassPrefixStep(qc, units, controls, target, shim, k, before, qc', beforeUnits, newUnits);
    }
    assert units[..|units|] == units;
  }

  /** One more unit of a pass: its gates and children follow those of the
      units before it. */
  lemma PassPrefixStep(qc: seq<Gate>, units: seq<Unit>, controls: seq<nat>, target: nat, shim: bool, k: nat,
                       before: seq<Gate>, after: seq<Gate>, beforeUnits: seq<Unit>, afterUnits: seq<Unit>)
    requires AllInRange(units, |controls|) && k < |units|
    requires before == qc + PassGates(units[..k], controls, target, shim)
    requires after == before + UnitGates(units[k], controls, target, shim)
    requires beforeUnits == NextUnits(units[..k], |controls|)
    requires afterUnits == beforeUnits + Children(units[k], |controls|)
    ensures after == qc + PassGates(units[..k + 1], controls, target, shim)
    ensures afterUnits == NextUnits(units[..k + 1], |controls|)
  {
    assert units[..k + 1][..k] == units[..k];
  }

  /** One more pass of `add_mcx`: the circuit grows by the gates of pass `p`. */
  lemma McxLoopStep(pre: seq<Gate>, controls: seq<nat>, target: nat, shim: bool, p: nat,
                    before: seq<Gate>, after: seq<Gate>)
    requires 1 <= |controls| && p < |controls|
    requires AllInRange(WorkList(|controls|, p), |controls|)
    requires before == pre + McxBody(controls, target, shim, p)
    requires after == before + PassGates(WorkList(|controls|, p), controls, target, shim)
    ensures after == pre + McxBody(controls, target, shim, p + 1)
  {
    McxBodyStep(controls, target, shim, p);
  }

  /** `add_mcx`: H on the target, the passes of the work list until it is
      empty, H on the target. With no controls the first unit indexes
      `controls[-1]` of an empty list, which raises IndexError. */
  method AddMcx(qc: seq<Gate>, controls: seq<nat>, target: nat, shim: bool)
    returns (r: Result<seq<Gate>>)
    ensures |controls| == 0 ==> r == Err(IndexError)
    ensures |controls| >= 1 ==> r == Ok(qc + McxGates(controls, target, shim))
  {
    var n := |controls|;
    if n == 0 {
      return Err(IndexError);
    }
    var circuit := qc + [H(target)];
    var units := [Unit(None, n - 1, Pi(false, n))];
    ghost var p := 0;
    assert McxBody(controls, target, shim, 0) == [];
    while |units| > 0
      invariant 0 <= p <= n
      invariant units == WorkList(n, p)
      invariant circuit == qc + [H(target)] + McxBody(controls, target, shim, p)
      decreases n - p
    {
      WorkListEmpty(n, p);
      WorkListShape(n, p);
      PassUnitsInRange(units, n, p);
      var next;
      ghost var before := circuit;
      circuit, next := AddCxcu1Units(circuit, units, controls, target, shim);
      McxLoopStep(qc + [H(target)], controls, target, shim, p, before, circuit);
      units := next;
      p := p + 1;
    }
    WorkListEmpty(n, p);
    McxGatesParts(qc, controls, target, shim, circuit);
    circuit := circuit + [H(target)];
    r := Ok(circuit);
  }

  lemma McxGatesParts(qc: seq<Gate>, controls: seq<nat>, target: nat, shim: bool, circuit: seq<Gate>)
    requires 1 <= |controls|
    requires circuit == qc + [H(target)] + McxBody(controls, target, shim, |controls|)
    ensures circuit + [H(target)] == qc + McxGates(controls, target, shim)
  {
  }

  // ---------------------------------------------------------------------
  // What the emitted gate sequence contains.

  function NumWithJ(units: seq<Unit>): nat
  {
    if units == [] then 0
    else NumWithJ(units[..|units| - 1]) + (if units[|units| - 1].j.Some? then 1 else 0)
  }

  /** One unit emits at most one CNOT between controls and exactly one phase. */
  lemma UnitGatesCount(u: Unit, controls: seq<nat>, target: nat, shim: bool, kind: Kind)
    requires InRange(u, |controls|)
    ensures Count(UnitGates(u, controls, target, shim), kind) == match kind
      case KCPhase => if shim then 0 else 1
      case KRZ => if shim then 3 else 0
      case KCNOT => (if u.j.Some? then 1 else 0) + (if shim then 2 else 0)
      case _ => 0
  {
    var cnot: seq<Gate> := if u.j.Some? then [CNOT(controls[u.j.value], controls[u.i])] else [];
    var ph := PhaseGates(controls[u.i], target, u.theta, shim);
    assert UnitGates(u, controls, target, shim) == cnot + ph;
    CountAppend(cnot, ph, kind);
    if u.j.Some? {
      CountSingle(cnot[0], kind);
    }
    if shim {
      ShimCounts(controls[u.i], target, u.theta, kind);
    } else {
      CountSingle(ph[0], kind);
    }
  }

  lemma {:induction false} PassGatesCounts(units: seq<Unit>, controls: seq<nat>, target: nat, shim: bool)
    requires AllInRange(units, |controls|)
    ensures Count(PassGates(units, controls, target, shim), KCPhase) == if shim then 0 else |units|
    ensures Count(PassGates(units, controls, target, shim), KRZ) == if shim then 3 * |units| else 0
    ensures Count(PassGates(units, controls, target, shim), KCNOT)
            == NumWithJ(units) + if shim then 2 * |units| else 0
    ensures Count(PassGates(units, controls, target, shim), KH) == 0
  {
    if units != [] {
      var init := units[..|units| - 1];
      var u := units[|units| - 1];
      PassGatesCounts(init, controls, target, shim);
      var prev := PassGates(init, controls, target, shim);
      var last := UnitGates(u, controls, target, shim);
      CountAppend(prev, last, KCPhase);
      CountAppend(prev, last, KRZ);
      CountAppend(prev, last, KCNOT);
      CountAppend(prev, last, KH);
      UnitGatesCount(u, controls, target, shim, KCPhase);
      UnitGatesCount(u, controls, target, shim, KRZ);
      UnitGatesCount(u, controls, target, shim, KCNOT);
      UnitGatesCount(u, controls, target, shim, KH);
    }
  }

  lemma {:induction false} NumWithJAll(units: seq<Unit>, n: nat, p: nat)
    requires forall k :: 0 <= k < |units| ==> PassUnit(units[k], n, p)
    ensures NumWithJ(units) == if p > 0 then |units| else 0
  {
    if units != [] {
      NumWithJAll(units[..|units| - 1], n, p);
    }
  }

  /** `gs` holds `units` phase units and `cnots` CNOTs between controls. */
  predicate HasCounts(gs: seq<Gate>, shim: bool, units: nat, cnots: nat)
  {
    && Count(gs, KCPhase) == (if shim then 0 else units)
    && Count(gs, KRZ) == (if shim then 3 * units else 0)
    && Count(gs, KCNOT) == cnots + (if shim then 2 * units else 0)
    && Count(gs, KH) == 0
  }

  lemma CountsAdd(a: seq<Gate>, b: seq<Gate>, shim: bool, ua: nat, ca: nat, ub: nat, cb: nat)
    requires HasCounts(a, shim, ua, ca) && HasCounts(b, shim, ub, cb)
    ensures HasCounts(a + b, shim, ua + ub, ca + cb)
  {
    CountAppend(a, b, KCPhase);
    CountAppend(a, b, KRZ);
    CountAppend(a, b, KCNOT);
    CountAppend(a, b, KH);
  }

  /** Pass `p` holds `2^p` phase units, each with a CNOT between controls
      except in the first pass. */
  lemma PassCounts(controls: seq<nat>, target: nat, shim: bool, p: nat)
    requires p < |controls|
    ensures AllInRange(WorkList(|controls|, p), |controls|)
    ensures HasCounts(PassGates(WorkList(|controls|, p), controls, target, shim), shim,
                      Pow2(p), if p > 0 then Pow2(p) else 0)
  {
    var n := |controls|;
    var units := WorkList(n, p);
    WorkListShape(n, p);
    PassUnitsInRange(units, n, p);
    NumWithJAll(units, n, p);
    PassGatesCounts(units, controls, target, shim);
  }

  lemma {:induction false} McxBodyCounts(controls: seq<nat>, target: nat, shim: bool, p: nat)
    requires 1 <= p <= |controls|
    ensures HasCounts(McxBody(controls, target, shim, p), shim, Pow2(p) - 1, Pow2(p) - 2)
    decreases p, 1
  {
    if p == 1 {
      PassCounts(controls, target, shim, 0);
      assert McxBody(controls, target, shim, 0) == [];
      CountsStep([], PassGates(WorkList(|controls|, 0), controls, target, shim),
                 McxBody(controls, target, shim, 1), shim, 1);
    } else {
      McxBodyCountsNext(controls, target, shim, p);
    }
  }

  lemma {:induction false} McxBodyCountsNext(controls: seq<nat>, target: nat, shim: bool, p: nat)
    requires 2 <= p <= |controls|
    ensures HasCounts(McxBody(controls, target, shim, p), shim, Pow2(p) - 1, Pow2(p) - 2)
    decreases p, 0
  {
    var units := WorkList(|controls|, p - 1);
    McxBodyCounts(controls, target, shim, p - 1);
    PassCounts(controls, target, shim, p - 1);
    CountsStep(McxBody(controls, target, shim, p - 1), PassGates(units, controls, target, shim),
               McxBody(controls, target, shim, p), shim, p);
  }

  /** The counts after pass `p - 1` from those before it and those of the pass. */
  lemma CountsStep(prev: seq<Gate>, pass: seq<Gate>, body: seq<Gate>, shim: bool, p: nat)
    requires p >= 1 && body == prev + pass
    requires p == 1 ==> prev == []
    requires p > 1 ==> HasCounts(prev, shim, Pow2(p - 1) - 1, Pow2(p - 1) - 2)
    requires HasCounts(pass, shim, Pow2(p - 1), if p - 1 > 0 then Pow2(p - 1) else 0)
    ensures HasCounts(body, shim, Pow2(p) - 1, Pow2(p) - 2)
  {
    if p > 1 {
      CountsAdd(prev, pass, shim, Pow2(p - 1) - 1, Pow2(p - 1) - 2, Pow2(p - 1), Pow2(p - 1));
    } else {
      assert body == pass;
    }
  }

  /** For `n >= 1` controls: `2^n - 1` controlled-phase units and `2^n - 2`
      CNOTs between controls, framed by one H on the target at each end. With
      the shim each phase unit becomes three RZs and two more CNOTs. */
  lemma McxCounts(controls: seq<nat>, target: nat, shim: bool)
    requires 1 <= |controls|
    ensures var gs := McxGates(controls, target, shim);
      && gs[0] == H(target) && gs[|gs| - 1] == H(target)
      && Count(gs, KH) == 2
      && Count(gs, KCPhase) == (if shim then 0 else Pow2(|controls|) - 1)
      && Count(gs, KRZ) == (if shim then 3 * (Pow2(|controls|) - 1) else 0)
      && Count(gs, KCNOT) == Pow2(|controls|) - 2 + (if shim then 2 * (Pow2(|controls|) - 1) else 0)
  {
    var body := McxBody(controls, target, shim, |controls|);
    McxBodyCounts(controls, target, shim, |controls|);
    assert HasCounts(body, shim, Pow2(|controls|) - 1, Pow2(|controls|) - 2);
    forall kind | kind in {KCPhase, KRZ, KCNOT, KH}
      ensures Count(McxGates(controls, target, shim), kind) == Count([H(target)], kind) + Count(body, kind) + Count([H(target)], kind)
    {
      CountAppend([H(target)] + body, [H(target)], kind);
      CountAppend([H(target)], body, kind);
    }
  }

  /** A gate that a pass may emit: a CNOT from a higher-indexed control to a
      lower-indexed one (or, with the shim, from a control to the target), a
      native phase of magnitude pi/2^n from a control to the target, or (with
      the shim) an RZ of magnitude pi/2^(n+1) on a control or the target. */
  predicate PassGate(g: Gate, controls: seq<nat>, target: nat, shim: bool)
  {
    var n := |controls|;
    match g
    case CNOT(c, t) =>
      (exists a, b :: 0 <= b < a < n && c == controls[a] && t == controls[b])
      || (shim && c in controls && t == target)
    case CPhase(c, t, theta) => !shim && c in controls && t == target && theta.Pi? && theta.k == n
    case RZ(q, theta) => shim && (q in controls || q == target) && theta.Pi? && theta.k == n + 1
    case _ => false
  }

  lemma {:induction false} PassGatesShape(units: seq<Unit>, controls: seq<nat>, target: nat, shim: bool, p: nat)
    requires forall k :: 0 <= k < |units| ==> PassUnit(units[k], |controls|, p)
    requires AllInRange(units, |controls|)
    ensures forall g :: g in PassGates(units, controls, target, shim) ==> PassGate(g, controls, target, shim)
  {
    if units != [] {
      var init := units[..|units| - 1];
      var u := units[|units| - 1];
      PassGatesShape(init, controls, target, shim, p);
      if u.j.Some? {
        var g := CNOT(controls[u.j.value], controls[u.i]);
        assert 0 <= u.i < u.j.value < |controls| && g.control == controls[u.j.value] && g.target == controls[u.i];
        assert PassGate(g, controls, target, shim);
      }
      assert controls[u.i] in controls;
    }
  }

  /** Every gate strictly between the two H gates is a `PassGate`. */
  lemma {:induction false} McxBodyShape(controls: seq<nat>, target: nat, shim: bool, p: nat)
    requires 1 <= |controls| && p <= |controls|
    ensures forall g :: g in McxBody(controls, target, shim, p) ==> PassGate(g, controls, target, shim)
  {
    if p > 0 {
      var n := |controls|;
      McxBodyShape(controls, target, shim, p - 1);
      WorkListShape(n, p - 1);
      PassUnitsInRange(WorkList(n, p - 1), n, p - 1);
      PassGatesShape(WorkList(n, p - 1), controls, target, shim, p - 1);
    }
  }

  lemma McxShape(controls: seq<nat>, target: nat, shim: bool)
    requires 1 <= |controls|
    ensures var gs := McxGates(controls, target, shim);
      forall k :: 0 < k < |gs| - 1 ==> PassGate(gs[k], controls, target, shim)
  {
    McxBodyShape(controls, target, shim, |controls|);
    var gs := McxGates(controls, target, shim);
    forall k | 0 < k < |gs| - 1 ensures PassGate(gs[k], controls, target, shim) {
      assert gs[k] == McxBody(controls, target, shim, |controls|)[k - 1];
    }
  }
}
