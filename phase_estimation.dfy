/** `AmplitudeEstimation`: A on the state and objective qubits, H on every
    counting qubit, the controlled-Q schedule of phase estimation, and the
    inverse QFT on the counting qubits. Counting qubits are `0 .. m-1`, the
    state qubits and the objective qubit are `m .. width-1`. */
module PhaseEstimation {
  import opened Common
  import opened Gates
  import StatePrep

  /** Python's `num_state_qubits + 1 + num_counting_qubits`. */
  function Width(nsq: nat, m: nat): nat { nsq + 1 + m }

  /** The unitary of the Q circuit `q` (computed by the SDK) controlled by
      counting qubit `j` and acting on the state and objective qubits. */
  function CQ(j: nat, m: nat, width: nat, q: seq<Gate>): Gate { Block("CQ", [j], Range(m, width), q) }

  /** The A circuit `a` placed by `add_circuit` on the state and objective qubits. */
  function APlaced(m: nat, width: nat, a: seq<Gate>): Gate { Block("A", [], Range(m, width), a) }

  /** `inv_qft_gate(m)`, built outside this model, on the counting qubits. */
  function InvQft(m: nat): Gate { Block("inv_qft", [], Range(0, m), []) }

  /** H on each of the qubits `0 .. count-1`. */
  function HLayer(count: nat): (r: seq<Gate>)
    ensures |r| == count && forall i :: 0 <= i < count ==> r[i] == H(i)
  {
    if count == 0 then [] else HLayer(count - 1) + [H(count - 1)]
  }

  /** The controlled-Q applications for counting qubits `m-1` down to `lo`:
      qubit `j` gets `2^(m-1-j)` of them. */
  function Schedule(m: nat, width: nat, q: seq<Gate>, lo: nat): seq<Gate>
    decreases m - lo
  {
    if lo >= m then []
    else Schedule(m, width, q, lo + 1) + Repeat(CQ(lo, m, width, q), Pow2(m - 1 - lo))
  }

  /** The gates of `AmplitudeEstimation` for the A circuit `a` and the Q
      circuit `q`. */
  function AEGates(nsq: nat, m: nat, a: seq<Gate>, q: seq<Gate>): seq<Gate>
  {
    var width := Width(nsq, m);
    [APlaced(m, width, a)] + HLayer(m) + Schedule(m, width, q, 0) + [InvQft(m)]
  }

  /** The circuit of `AmplitudeEstimation` for the `psi` strings `p0` and `p1`:
      A is `A_gen`'s circuit, Q is `Q_Unitary`'s built around it. */
  function AECircuit(nsq: nat, m: nat, p0: string, p1: string, shim: bool): seq<Gate>
    requires 1 <= nsq <= |p0| && nsq <= |p1|
  {
    var a := StatePrep.AGates(nsq, p0, p1);
    AEGates(nsq, m, a, StatePrep.QGates(nsq, shim, a))
  }

  /** `AmplitudeEstimation`. A and Q are built first and their errors are
      passed on: a `psi` string shorter than `nsq`, or no state qubits at all. */
  method AmplitudeEstimation(nsq: nat, m: nat, psiZero: Option<string>, psiOne: Option<string>, shim: bool)
    returns (r: Result<seq<Gate>>)
    ensures var p0, p1 := StatePrep.PsiOrDefault(psiZero, '0', nsq), StatePrep.PsiOrDefault(psiOne, '1', nsq);
      r == if |p0| < nsq || |p1| < nsq || nsq == 0 then Err(IndexError) else Ok(AECircuit(nsq, m, p0, p1, shim))
  {
    var numQubits := nsq + 1 + m;
    var aGen := StatePrep.AGen(nsq, psiZero, psiOne);
    if aGen.Err? {
      return Err(aGen.error);
    }
    var a := aGen.value;
    var qUnitary := StatePrep.QUnitary(nsq, shim, a);
    if qUnitary.Err? {
      return Err(qUnitary.error);
    }
    var q := qUnitary.value;
    var qc := [APlaced(m, numQubits, a)];
    for i := 0 to m
      invariant qc == [APlaced(m, numQubits, a)] + HLayer(i)
    {
      HLayerSnoc([APlaced(m, numQubits, a)], i, qc);
      qc := qc + [H(i)];
    }
    ghost var prepared := qc;
    qc := AddSchedule(qc, m, numQubits, q);
    AEGatesParts(nsq, m, a, q, prepared, qc);
    qc := qc + [InvQft(m)];
    r := Ok(qc);
  }

  /** The phase-estimation loop of `AmplitudeEstimation`: counting qubit `j`,
      from `m-1` down to 0, controls `repeat` applications of Q, and `repeat`
      doubles after each qubit. */
  method AddSchedule(qc: seq<Gate>, m: nat, width: nat, q: seq<Gate>) returns (qc': seq<Gate>)
    ensures qc' == qc + Schedule(m, width, q, 0)
  {
    qc' := qc;
    var repeat := 1;
    for j := m downto 0
      invariant repeat == Pow2(m - j)
      invariant qc' == qc + Schedule(m, width, q, j)
    {
      ghost var before := qc';
      for k := 0 to repeat
        invariant qc' == before + Repeat(CQ(j, m, width, q), k)
      {
        RepeatSnoc(before, CQ(j, m, width, q), k, qc');
        qc' := qc' + [CQ(j, m, width, q)];
      }
      ScheduleStep(qc, m, width, q, j, before, qc');
      repeat := repeat * 2;
    }
  }

  lemma HLayerSnoc(pre: seq<Gate>, i: nat, qc: seq<Gate>)
    requires qc == pre + HLayer(i)
    ensures qc + [H(i)] == pre + HLayer(i + 1)
  {
  }

  lemma AEGatesParts(nsq: nat, m: nat, a: seq<Gate>, q: seq<Gate>, prepared: seq<Gate>, qc: seq<Gate>)
    requires prepared == [APlaced(m, Width(nsq, m), a)] + HLayer(m)
    requires qc == prepared + Schedule(m, Width(nsq, m), q, 0)
    ensures qc + [InvQft(m)] == AEGates(nsq, m, a, q)
  {
  }

  /** The applications for counting qubit `j` extend the schedule of the
      qubits above it. */
  lemma ScheduleStep(prepared: seq<Gate>, m: nat, width: nat, q: seq<Gate>, j: nat, before: seq<Gate>, after: seq<Gate>)
    requires j < m
    requires before == prepared + Schedule(m, width, q, j + 1)
    requires after == before + Repeat(CQ(j, m, width, q), Pow2(m - 1 - j))
    ensures after == prepared + Schedule(m, width, q, j)
  {
  }

  lemma {:induction false} HLayerOccurrences(count: nat, g: Gate)
    ensures Occurrences(HLayer(count), g) == if g.H? && g.q < count then 1 else 0
    ensures Count(HLayer(count), KH) == count
    ensures Count(HLayer(count), KBlock) == 0
  {
    if count > 0 {
      HLayerOccurrences(count - 1, g);
      OccurrencesAppend(HLayer(count - 1), [H(count - 1)], g);
      CountAppend(HLayer(count - 1), [H(count - 1)], KH);
      CountAppend(HLayer(count - 1), [H(count - 1)], KBlock);
      assert [H(count - 1)][1..] == [];
    }
  }

  /** Counting qubit `j` receives exactly `2^(m-1-j)` controlled-Q
      applications; the schedule holds `2^(m-lo) - 1` of them in all. */
  lemma ScheduleCounts(m: nat, width: nat, q: seq<Gate>, lo: nat, j: nat)
    requires lo <= m
    ensures Occurrences(Schedule(m, width, q, lo), CQ(j, m, width, q))
            == if lo <= j < m then Pow2(m - 1 - j) else 0
    ensures Count(Schedule(m, width, q, lo), KBlock) == Pow2(m - lo) - 1
    ensures Count(Schedule(m, width, q, lo), KH) == 0
  {
    ScheduleOccurrences(m, width, q, lo, j);
    ScheduleKinds(m, width, q, lo);
  }

  lemma {:induction false} ScheduleOccurrences(m: nat, width: nat, q: seq<Gate>, lo: nat, j: nat)
    requires lo <= m
    decreases m - lo
    ensures Occurrences(Schedule(m, width, q, lo), CQ(j, m, width, q))
            == if lo <= j < m then Pow2(m - 1 - j) else 0
  {
    if lo < m {
      ScheduleOccurrences(m, width, q, lo + 1, j);
      var rep := Repeat(CQ(lo, m, width, q), Pow2(m - 1 - lo));
      OccurrencesAppend(Schedule(m, width, q, lo + 1), rep, CQ(j, m, width, q));
      OccurrencesRepeat(CQ(lo, m, width, q), Pow2(m - 1 - lo), CQ(j, m, width, q));
    }
  }

  lemma {:induction false} ScheduleKinds(m: nat, width: nat, q: seq<Gate>, lo: nat)
    requires lo <= m
    decreases m - lo
    ensures Count(Schedule(m, width, q, lo), KBlock) == Pow2(m - lo) - 1
    ensures Count(Schedule(m, width, q, lo), KH) == 0
  {
    if lo < m {
      ScheduleKinds(m, width, q, lo + 1);
      var rep := Repeat(CQ(lo, m, width, q), Pow2(m - 1 - lo));
      CountAppend(Schedule(m, width, q, lo + 1), rep, KBlock);
      CountRepeat(CQ(lo, m, width, q), Pow2(m - 1 - lo), KBlock);
      CountAppend(Schedule(m, width, q, lo + 1), rep, KH);
      CountRepeat(CQ(lo, m, width, q), Pow2(m - 1 - lo), KH);
      assert m - lo == (m - 1 - lo) + 1;
    }
  }

  /** A controlled-Q application with a control in `lo .. m-1`, acting on
      qubits `m .. width-1`. */
  predicate IsCQ(g: Gate, m: nat, width: nat, lo: nat)
  {
    g.Block? && g.name == "CQ" && g.targets == Range(m, width)
    && |g.controls| == 1 && lo <= g.controls[0] < m
  }

  /** The control qubit of a controlled block (-1 for anything else). */
  function ControlOf(g: Gate): int
  {
    if g.Block? && |g.controls| > 0 then g.controls[0] else -1
  }

  /** The schedule runs from the highest counting qubit down: controls never
      increase along it, and every application acts on qubits `m .. width-1`. */
  lemma {:induction false} ScheduleOrder(m: nat, width: nat, q: seq<Gate>, lo: nat)
    requires lo <= m
    decreases m - lo
    ensures forall a :: 0 <= a < |Schedule(m, width, q, lo)| ==>
              IsCQ(Schedule(m, width, q, lo)[a], m, width, lo)
    ensures forall a, b :: 0 <= a < b < |Schedule(m, width, q, lo)| ==>
              ControlOf(Schedule(m, width, q, lo)[a]) >= ControlOf(Schedule(m, width, q, lo)[b])
  {
    if lo < m {
      ScheduleOrder(m, width, q, lo + 1);
      var prev := Schedule(m, width, q, lo + 1);
      var rep := Repeat(CQ(lo, m, width, q), Pow2(m - 1 - lo));
      var s := prev + rep;
      assert Schedule(m, width, q, lo) == s;
      forall a | 0 <= a < |s| ensures IsCQ(s[a], m, width, lo) {
        if a >= |prev| {
          assert s[a] == rep[a - |prev|] == CQ(lo, m, width, q);
        } else {
          assert s[a] == prev[a];
        }
      }
      forall a, b | 0 <= a < b < |s| ensures ControlOf(s[a]) >= ControlOf(s[b]) {
        if b >= |prev| {
          assert s[b] == rep[b - |prev|] == CQ(lo, m, width, q);
        } else {
          assert s[a] == prev[a] && s[b] == prev[b];
        }
      }
    }
  }

  /** The circuit: one H per counting qubit, A once at the start on the qubits
      `m .. nsq + m`, the inverse QFT once at the end, and exactly `2^(m-1-j)`
      applications of Q controlled by counting qubit `j` on those same qubits,
      for a total of `2^m - 1`. */
  lemma AECircuitShape(nsq: nat, m: nat, a: seq<Gate>, q: seq<Gate>, j: nat)
    requires j < m
    ensures var gs := AEGates(nsq, m, a, q);
      && gs[0] == Block("A", [], Range(m, nsq + 1 + m), a)
      && gs[|gs| - 1] == Block("inv_qft", [], Range(0, m), [])
      && Count(gs, KH) == m
      && Occurrences(gs, H(j)) == 1
      && Occurrences(gs, Block("CQ", [j], Range(m, nsq + 1 + m), q)) == Pow2(m - 1 - j)
      && Count(gs, KBlock) == Pow2(m) + 1
  {
    AEEnds(nsq, m, a, q);
    AEOccurrences(nsq, m, a, q, j);
    AEHCount(nsq, m, a, q);
    AEBlockCount(nsq, m, a, q);
  }

  lemma AEEnds(nsq: nat, m: nat, a: seq<Gate>, q: seq<Gate>)
    ensures var gs := AEGates(nsq, m, a, q);
      && gs[0] == APlaced(m, Width(nsq, m), a)
      && gs[|gs| - 1] == InvQft(m)
  {
  }

  lemma AEOccurrences(nsq: nat, m: nat, a: seq<Gate>, q: seq<Gate>, j: nat)
    requires j < m
    ensures Occurrences(AEGates(nsq, m, a, q), H(j)) == 1
    ensures Occurrences(AEGates(nsq, m, a, q), CQ(j, m, Width(nsq, m), q)) == Pow2(m - 1 - j)
  {
    var w := Width(nsq, m);
    var first, z := APlaced(m, w, a), InvQft(m);
    assert AEGates(nsq, m, a, q) == [first] + HLayer(m) + Schedule(m, w, q, 0) + [z];
    HLayerOccurrences(m, H(j));
    HLayerOccurrences(m, CQ(j, m, w, q));
    ScheduleCounts(m, w, q, 0, j);
    OccurrencesAtMostCount(Schedule(m, w, q, 0), H(j));
    FrameOccurrences(first, HLayer(m), Schedule(m, w, q, 0), z, H(j));
    FrameOccurrences(first, HLayer(m), Schedule(m, w, q, 0), z, CQ(j, m, w, q));
  }

  lemma AEHCount(nsq: nat, m: nat, a: seq<Gate>, q: seq<Gate>)
    ensures Count(AEGates(nsq, m, a, q), KH) == m
  {
    var w := Width(nsq, m);
    var first, z := APlaced(m, w, a), InvQft(m);
    assert AEGates(nsq, m, a, q) == [first] + HLayer(m) + Schedule(m, w, q, 0) + [z];
    HLayerOccurrences(m, H(0));
    ScheduleCounts(m, w, q, 0, 0);
    FrameCounts(first, HLayer(m), Schedule(m, w, q, 0), z, KH);
  }

  lemma AEBlockCount(nsq: nat, m: nat, a: seq<Gate>, q: seq<Gate>)
    ensures Count(AEGates(nsq, m, a, q), KBlock) == Pow2(m) + 1
  {
    var w := Width(nsq, m);
    var first, z := APlaced(m, w, a), InvQft(m);
    assert AEGates(nsq, m, a, q) == [first] + HLayer(m) + Schedule(m, w, q, 0) + [z];
    HLayerOccurrences(m, H(0));
    ScheduleCounts(m, w, q, 0, 0);
    FrameCounts(first, HLayer(m), Schedule(m, w, q, 0), z, KBlock);
  }

  /** Kind counts of a circuit framed by a first and a last gate add up. */
  lemma FrameCounts(a: Gate, hs: seq<Gate>, sch: seq<Gate>, z: Gate, kind: Kind)
    ensures Count([a] + hs + sch + [z], kind)
            == (if KindOf(a) == kind then 1 else 0) + Count(hs, kind) + Count(sch, kind)
               + (if KindOf(z) == kind then 1 else 0)
  {
    CountAppend([a] + hs + sch, [z], kind);
    CountAppend([a] + hs, sch, kind);
    CountAppend([a], hs, kind);
    assert [a][1..] == [] && [z][1..] == [];
  }

  /** Occurrences in a circuit framed by a first and a last gate add up. */
  lemma FrameOccurrences(a: Gate, hs: seq<Gate>, sch: seq<Gate>, z: Gate, g: Gate)
    ensures Occurrences([a] + hs + sch + [z], g)
            == (if a == g then 1 else 0) + Occurrences(hs, g) + Occurrences(sch, g)
               + (if z == g then 1 else 0)
  {
    OccurrencesAppend([a] + hs + sch, [z], g);
    OccurrencesAppend([a] + hs, sch, g);
    OccurrencesAppend([a], hs, g);
    assert [a][1..] == [] && [z][1..] == [];
  }
}
