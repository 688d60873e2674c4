/** The amplitude generator A (`A_gen`) and the Grover-like operator Q
    (`Q_Unitary`) of the Braket amplitude-estimation benchmark. The objective
    qubit is `n`, the state qubits are `0 .. n-1`. */
module StatePrep {
  import opened Common
  import opened Gates
  import Mcx

  /** The `psi_zero` / `psi_one` defaults: `'0' * n` and `'1' * n`. */
  function PsiOrDefault(psi: Option<string>, fill: char, n: nat): string
  {
    if psi.None? then Repeat(fill, n) else psi.value
  }

  /** Number of `'1'` characters in `s`. */
  function Ones(s: string): (r: nat)
    ensures r <= |s|
  {
    if s == [] then 0 else Ones(s[..|s| - 1]) + (if s[|s| - 1] == '1' then 1 else 0)
  }

  /** The CNOTs from `control` to each `i < count` with `psi[i] == '1'`. */
  function OnesCnots(control: nat, psi: string, count: nat): seq<Gate>
    requires count <= |psi|
  {
    if count == 0 then []
    else OnesCnots(control, psi, count - 1)
         + (if psi[count - 1] == '1' then [CNOT(control, count - 1)] else [])
  }

  /** The gates of A on `n` state qubits. */
  function AGates(n: nat, psiZero: string, psiOne: string): seq<Gate>
    requires n <= |psiZero| && n <= |psiOne|
  {
    [RY(n, AmpTheta), X(n)] + OnesCnots(n, psiZero, n) + [X(n)] + OnesCnots(n, psiOne, n)
  }

  /** `A_gen`. A `psi` string shorter than `n` fails on `psi[i]` with IndexError. */
  method AGen(n: nat, psiZero: Option<string>, psiOne: Option<string>) returns (r: Result<seq<Gate>>)
    ensures var p0, p1 := PsiOrDefault(psiZero, '0', n), PsiOrDefault(psiOne, '1', n);
      r == if |p0| < n || |p1| < n then Err(IndexError) else Ok(AGates(n, p0, p1))
  {
    var p0 := if psiZero.None? then Repeat('0', n) else psiZero.value;
    var p1 := if psiOne.None? then Repeat('1', n) else psiOne.value;
    var qcA := [RY(n, AmpTheta)];
    qcA := qcA + [X(n)];
    for i := 0 to n
      invariant i <= |p0|
      invariant qcA == [RY(n, AmpTheta), X(n)] + OnesCnots(n, p0, i)
    {
      if i >= |p0| {
        return Err(IndexError);
      }
      if p0[i] == '1' {
        qcA := qcA + [CNOT(n, i)];
      }
    }
    qcA := qcA + [X(n)];
    ghost var prefix := qcA;
    for i := 0 to n
      invariant i <= |p1|
      invariant qcA == prefix + OnesCnots(n, p1, i)
    {
      if i >= |p1| {
        return Err(IndexError);
      }
      if p1[i] == '1' {
        qcA := qcA + [CNOT(n, i)];
      }
    }
    r := Ok(qcA);
  }

  lemma {:induction false} OnesCnotsShape(control: nat, psi: string, count: nat)
    requires count <= |psi|
    ensures |OnesCnots(control, psi, count)| == Ones(psi[..count])
    ensures forall g :: g in OnesCnots(control, psi, count) ==> g.CNOT? && g.control == control && g.target < count
  {
    if count > 0 {
      OnesCnotsShape(control, psi, count - 1);
      assert psi[..count][..count - 1] == psi[..count - 1];
    }
  }

  /** Qubit `i` is the target of a CNOT exactly when `psi[i] == '1'`. */
  lemma {:induction false} OnesCnotsTargets(control: nat, psi: string, count: nat, i: nat)
    requires count <= |psi|
    ensures Occurrences(OnesCnots(control, psi, count), CNOT(control, i))
            == if i < count && psi[i] == '1' then 1 else 0
  {
    if count > 0 {
      OnesCnotsTargets(control, psi, count - 1, i);
      var last: seq<Gate> := if psi[count - 1] == '1' then [CNOT(control, count - 1)] else [];
      OccurrencesAppend(OnesCnots(control, psi, count - 1), last, CNOT(control, i));
      if last != [] {
        assert last[1..] == [];
      }
    }
  }

  /** A has `3 + ones(psi_zero) + ones(psi_one)` gates, the first an RY on the
      objective qubit; every CNOT has the objective as control and a state
      qubit as target. */
  lemma AGatesShape(n: nat, psiZero: string, psiOne: string)
    requires n <= |psiZero| && n <= |psiOne|
    ensures var gs := AGates(n, psiZero, psiOne);
      && |gs| == 3 + Ones(psiZero[..n]) + Ones(psiOne[..n])
      && gs[0] == RY(n, AmpTheta)
      && Count(gs, KX) == 2
      && (forall g :: g in gs && g.CNOT? ==> g.control == n && g.target < n)
  {
    OnesCnotsShape(n, psiZero, n);
    OnesCnotsShape(n, psiOne, n);
    var a := OnesCnots(n, psiZero, n);
    var b := OnesCnots(n, psiOne, n);
    NoX(a);
    NoX(b);
    CountAppend([RY(n, AmpTheta), X(n)] + a + [X(n)], b, KX);
    CountAppend([RY(n, AmpTheta), X(n)] + a, [X(n)], KX);
    CountAppend([RY(n, AmpTheta), X(n)], a, KX);
    CountAppend([RY(n, AmpTheta)], [X(n)], KX);
    assert [RY(n, AmpTheta)] + [X(n)] == [RY(n, AmpTheta), X(n)];
    CountSingle(RY(n, AmpTheta), KX);
    CountSingle(X(n), KX);
  }

  lemma {:induction false} NoX(gs: seq<Gate>)
    requires forall g :: g in gs ==> g.CNOT?
    ensures Count(gs, KX) == 0
  {
    if gs != [] {
      assert gs[0] in gs;
      NoX(gs[1..]);
    }
  }

  /** With the default `psi_zero` and `psi_one`, A has `3 + n` gates and
      flips, after the rotation, every state qubit exactly once. */
  lemma AGatesDefault(n: nat, i: nat)
    requires i < n
    ensures var gs := AGates(n, Repeat('0', n), Repeat('1', n));
      |gs| == 3 + n && Occurrences(gs, CNOT(n, i)) == 1
  {
    var z, o := Repeat('0', n), Repeat('1', n);
    AGatesShape(n, z, o);
    OnesAll(z, '0');
    OnesAll(o, '1');
    assert z[..n] == z && o[..n] == o;
    var a, b := OnesCnots(n, z, n), OnesCnots(n, o, n);
    OnesCnotsTargets(n, z, n, i);
    OnesCnotsTargets(n, o, n, i);
    var g := CNOT(n, i);
    OccurrencesAppend([RY(n, AmpTheta), X(n)] + a + [X(n)], b, g);
    OccurrencesAppend([RY(n, AmpTheta), X(n)] + a, [X(n)], g);
    OccurrencesAppend([RY(n, AmpTheta), X(n)], a, g);
    OccurrencesAbsent([RY(n, AmpTheta), X(n)], g);
    OccurrencesAbsent([X(n)], g);
  }

  lemma {:induction false} OnesAll(s: string, c: char)
    requires forall k :: 0 <= k < |s| ==> s[k] == c
    ensures Ones(s) == if c == '1' then |s| else 0
  {
    if s != [] {
      OnesAll(s[..|s| - 1], c);
    }
  }

  // ---------------------------------------------------------------------
  // The operator Q.

  /** `X` on each of the qubits `0 .. count-1`, in increasing order. */
  function XLayer(count: nat): (r: seq<Gate>)
    ensures |r| == count && forall i :: 0 <= i < count ==> r[i] == X(i)
  {
    if count == 0 then [] else XLayer(count - 1) + [X(count - 1)]
  }

  method AddXLayer(qc: seq<Gate>, count: nat) returns (qc': seq<Gate>)
    ensures qc' == qc + XLayer(count)
  {
    qc' := qc;
    for i := 0 to count
      invariant qc' == qc + XLayer(i)
    {
      qc' := qc' + [X(i)];
    }
  }

  /** The inverse of the A circuit `a` (`adjoint`, outside this model) and `a`
      itself, as placed by `add_circuit` on the objective and state qubits. */
  function AInverseBlock(n: nat, a: seq<Gate>): Gate { Block("A_inverse", [], Range(0, n + 1), a) }
  function ABlock(n: nat, a: seq<Gate>): Gate { Block("A", [], Range(0, n + 1), a) }

  /** The X layer and H that open the reflection S_0, and their mirror image. */
  function S0Open(n: nat): seq<Gate> { XLayer(n + 1) + [H(n)] }
  function S0Close(n: nat): seq<Gate> { [H(n)] + XLayer(n + 1) }

  /** The reflection S_0: the opening layer, a multi-controlled X with
      controls `0 .. n-1` and target `n`, and the closing layer. */
  function S0(n: nat, shim: bool): seq<Gate>
    requires n >= 1
  {
    S0Open(n) + Mcx.McxGates(Range(0, n), n, shim) + S0Close(n)
  }

  /** The gates of Q built around the A circuit `a`: -S_chi, A inverse, S_0,
      then A. */
  function QGates(n: nat, shim: bool, a: seq<Gate>): seq<Gate>
    requires n >= 1
  {
    [X(n), Z(n), X(n), AInverseBlock(n, a)] + S0(n, shim) + [ABlock(n, a)]
  }

  /** `Q_Unitary(n, a)` (without the unitary matrix, which the SDK computes). With no
      state qubits the multi-controlled X fails with IndexError. */
  method QUnitary(n: nat, shim: bool, a: seq<Gate>) returns (r: Result<seq<Gate>>)
    ensures n == 0 ==> r == Err(IndexError)
    ensures n >= 1 ==> r == Ok(QGates(n, shim, a))
  {
    var qcQ := [X(n)];
    qcQ := qcQ + [Z(n)];
    qcQ := qcQ + [X(n)];
    qcQ := qcQ + [AInverseBlock(n, a)];
    ghost var head := qcQ;
    assert head == [X(n), Z(n), X(n), AInverseBlock(n, a)];
    qcQ := AddXLayer(qcQ, n + 1);
    qcQ := qcQ + [H(n)];
    assert qcQ == head + S0Open(n);
    var withMcx := Mcx.AddMcx(qcQ, Range(0, n), n, shim);
    if withMcx.Err? {
      return Err(withMcx.error);
    }
    ghost var mcx := Mcx.McxGates(Range(0, n), n, shim);
    qcQ := withMcx.value;
    ghost var upToMcx := qcQ;
    qcQ := qcQ + [H(n)];
    qcQ := AddXLayer(qcQ, n + 1);
    assert qcQ == upToMcx + S0Close(n);
    qcQ := qcQ + [ABlock(n, a)];
    QGatesParts(n, shim, a, head, mcx);
    r := Ok(qcQ);
  }

  lemma QGatesParts(n: nat, shim: bool, a: seq<Gate>, head: seq<Gate>, mcx: seq<Gate>)
    requires n >= 1 && head == [X(n), Z(n), X(n), AInverseBlock(n, a)]
    requires mcx == Mcx.McxGates(Range(0, n), n, shim)
    ensures QGates(n, shim, a) == head + S0Open(n) + mcx + S0Close(n) + [ABlock(n, a)]
  {
    Regroup(head, S0Open(n), mcx, S0Close(n), [ABlock(n, a)]);
  }

  lemma Regroup<T>(a: seq<T>, b: seq<T>, c: seq<T>, d: seq<T>, e: seq<T>)
    ensures a + (b + c + d) + e == a + b + c + d + e
  {
  }

  lemma {:induction false} XLayerOccurrences(count: nat, i: nat)
    ensures Occurrences(XLayer(count), X(i)) == if i < count then 1 else 0
    ensures Occurrences(XLayer(count), H(i)) == 0
    ensures Count(XLayer(count), KX) == count
  {
    if count > 0 {
      XLayerOccurrences(count - 1, i);
      OccurrencesAppend(XLayer(count - 1), [X(count - 1)], X(i));
      OccurrencesAppend(XLayer(count - 1), [X(count - 1)], H(i));
      CountAppend(XLayer(count - 1), [X(count - 1)], KX);
      assert [X(count - 1)][1..] == [];
    }
  }

  lemma XLayerKinds(count: nat)
    ensures Count(XLayer(count), KBlock) == 0 && Count(XLayer(count), KCPhase) == 0
  {
    NoKind(XLayer(count), KBlock);
    NoKind(XLayer(count), KCPhase);
  }

  /** The layers around the multi-controlled X mirror each other: the closing
      one is the opening one reversed up to the order of the commuting X gates,
      and each flips every qubit `0 .. n` exactly once. */
  lemma S0Mirror(n: nat, i: nat)
    requires i <= n
    ensures S0Open(n)[n + 1] == S0Close(n)[0] == H(n)
    ensures multiset(S0Open(n)) == multiset(S0Close(n))
    ensures Occurrences(S0Open(n), X(i)) == 1 && Occurrences(S0Close(n), X(i)) == 1
  {
    var xs := XLayer(n + 1);
    XLayerOccurrences(n + 1, i);
    SwapEnds(xs, H(n));
    OccurrencesAppend(xs, [H(n)], X(i));
    OccurrencesAppend([H(n)], xs, X(i));
    assert [H(n)][1..] == [];
  }

  lemma SwapEnds<T>(xs: seq<T>, x: T)
    ensures (xs + [x])[|xs|] == ([x] + xs)[0] == x
    ensures multiset(xs + [x]) == multiset([x] + xs)
  {
  }

  /** Q is the sequence above: it opens with X Z X on the objective qubit,
      holds A inverse and A once each, and the native phase gates are exactly
      those of the multi-controlled X. */
  lemma QShape(n: nat, shim: bool, a: seq<Gate>)
    requires n >= 1
    ensures var q := QGates(n, shim, a);
      && q[..3] == [X(n), Z(n), X(n)]
      && q[3] == AInverseBlock(n, a) && q[|q| - 1] == ABlock(n, a)
      && Occurrences(q, AInverseBlock(n, a)) == 1 && Occurrences(q, ABlock(n, a)) == 1
      && Count(q, KCPhase) == Count(Mcx.McxGates(Range(0, n), n, shim), KCPhase)
  {
    MidShape(n, shim);
    Framed(n, a, S0(n, shim));
  }

  /** The frame of Q around any middle part free of blocks. */
  lemma Framed(n: nat, a: seq<Gate>, mid: seq<Gate>)
    requires Count(mid, KBlock) == 0
    ensures var q := [X(n), Z(n), X(n), AInverseBlock(n, a)] + mid + [ABlock(n, a)];
      && q[..3] == [X(n), Z(n), X(n)]
      && q[3] == AInverseBlock(n, a) && q[|q| - 1] == ABlock(n, a)
      && Occurrences(q, AInverseBlock(n, a)) == 1 && Occurrences(q, ABlock(n, a)) == 1
      && Count(q, KCPhase) == Count(mid, KCPhase)
  {
    var head := [X(n), Z(n), X(n), AInverseBlock(n, a)];
    var tail := [ABlock(n, a)];
    HeadOccurrences(n, a, AInverseBlock(n, a));
    HeadOccurrences(n, a, ABlock(n, a));
    OccurrencesAtMostCount(mid, AInverseBlock(n, a));
    OccurrencesAtMostCount(mid, ABlock(n, a));
    assert tail[1..] == [];
    OccurrencesAppend(head + mid, tail, AInverseBlock(n, a));
    OccurrencesAppend(head, mid, AInverseBlock(n, a));
    OccurrencesAppend(head + mid, tail, ABlock(n, a));
    OccurrencesAppend(head, mid, ABlock(n, a));
    CountAppend(head + mid, tail, KCPhase);
    CountAppend(head, mid, KCPhase);
    NoKind(head, KCPhase);
    NoKind(tail, KCPhase);
  }

  lemma HeadOccurrences(n: nat, a: seq<Gate>, g: Gate)
    requires g.Block?
    ensures Occurrences([X(n), Z(n), X(n), AInverseBlock(n, a)], g) == if g == AInverseBlock(n, a) then 1 else 0
  {
    var head := [X(n), Z(n), X(n), AInverseBlock(n, a)];
    assert head == [X(n), Z(n), X(n)] + [AInverseBlock(n, a)];
    OccurrencesAppend([X(n), Z(n), X(n)], [AInverseBlock(n, a)], g);
    OccurrencesAbsent([X(n), Z(n), X(n)], g);
    assert [AInverseBlock(n, a)][1..] == [];
  }

  /** S_0 holds no block, and no phase gate besides those of the
      multi-controlled X. */
  lemma MidShape(n: nat, shim: bool)
    requires n >= 1
    ensures Count(S0(n, shim), KBlock) == 0
    ensures Count(S0(n, shim), KCPhase) == Count(Mcx.McxGates(Range(0, n), n, shim), KCPhase)
  {
    var mcx := Mcx.McxGates(Range(0, n), n, shim);
    McxNoBlocks(mcx, n, shim);
    XLayerKinds(n + 1);
    forall kind | kind in {KBlock, KCPhase}
      ensures Count(S0(n, shim), kind) == Count(XLayer(n + 1), kind) + Count(mcx, kind) + Count(XLayer(n + 1), kind)
    {
      LayersCount(XLayer(n + 1), H(n), mcx, kind);
    }
  }

  lemma LayersCount(xs: seq<Gate>, h: Gate, mcx: seq<Gate>, kind: Kind)
    requires KindOf(h) == KH && kind != KH
    ensures Count((xs + [h]) + mcx + ([h] + xs), kind) == Count(xs, kind) + Count(mcx, kind) + Count(xs, kind)
  {
    CountAppend((xs + [h]) + mcx, [h] + xs, kind);
    CountAppend(xs + [h], mcx, kind);
    CountAppend(xs, [h], kind);
    CountAppend([h], xs, kind);
    assert [h][1..] == [];
  }

  lemma McxNoBlocks(mcx: seq<Gate>, n: nat, shim: bool)
    requires n >= 1 && mcx == Mcx.McxGates(Range(0, n), n, shim)
    ensures Count(mcx, KBlock) == 0
  {
    Mcx.McxShape(Range(0, n), n, shim);
    forall k | 0 <= k < |mcx| ensures KindOf(mcx[k]) != KBlock {
      if 0 < k < |mcx| - 1 {
        assert Mcx.PassGate(mcx[k], Range(0, n), n, shim);
      }
    }
    NoKind(mcx, KBlock);
  }
}
