/** Gates of a Braket circuit, kept symbolic: angles are never evaluated and
    sub-circuits produced by code outside this model are opaque blocks. */
module Gates {
  import opened Common

  /** `Pi(negative, k)` is the angle (-1)^negative * pi / 2^k; `AmpTheta` is the
      state-preparation angle 2 * arcsin(sqrt(a)), left uninterpreted. */
  datatype Angle = Pi(negative: bool, k: nat) | AmpTheta

  /** The angles of the multi-controlled-X construction, all of the form +-pi/2^k. */
  type PiAngle = a: Angle | a.Pi? witness Pi(false, 0)

  function Negate(a: PiAngle): (r: PiAngle)
    ensures r.k == a.k && r.negative != a.negative
  {
    Pi(!a.negative, a.k)
  }

  /** Python's `if theta < 0: theta = -theta`. */
  function Magnitude(a: PiAngle): (r: PiAngle)
    ensures r.k == a.k && !r.negative
  {
    Pi(false, a.k)
  }

  function Half(a: PiAngle): (r: PiAngle)
    ensures r.k == a.k + 1 && r.negative == a.negative
  {
    Pi(a.negative, a.k + 1)
  }

  /** A gate on qubit indices. `Block` stands for a sub-circuit placed as one
      gate with the given control and target qubits; `body` is the circuit it
      is made from, on its own qubit indices (the adjoint, unitary matrix and
      controlled version are computed from it outside this model), and is
      empty for the inverse QFT, whose gates this model does not build. */
  datatype Gate =
    | H(q: nat)
    | X(q: nat)
    | Z(q: nat)
    | CNOT(control: nat, target: nat)
    | CPhase(control: nat, target: nat, angle: Angle)
    | RZ(q: nat, angle: Angle)
    | RY(q: nat, angle: Angle)
    | Block(name: string, controls: seq<nat>, targets: seq<nat>, body: seq<Gate>)

  datatype Kind = KH | KX | KZ | KCNOT | KCPhase | KRZ | KRY | KBlock

  function KindOf(g: Gate): Kind
  {
    match g
    case H(_) => KH
    case X(_) => KX
    case Z(_) => KZ
    case CNOT(_, _) => KCNOT
    case CPhase(_, _, _) => KCPhase
    case RZ(_, _) => KRZ
    case RY(_, _) => KRY
    case Block(_, _, _, _) => KBlock
  }

  /** Number of gates of one kind in a gate sequence. */
  function Count(gs: seq<Gate>, kind: Kind): (r: nat)
    ensures r <= |gs|
  {
    if gs == [] then 0
    else (if KindOf(gs[0]) == kind then 1 else 0) + Count(gs[1..], kind)
  }

  lemma CountSingle(g: Gate, kind: Kind)
    ensures Count([g], kind) == if KindOf(g) == kind then 1 else 0
  {
    assert [g][1..] == [];
  }

  lemma {:induction false} CountAppend(a: seq<Gate>, b: seq<Gate>, kind: Kind)
    ensures Count(a + b, kind) == Count(a, kind) + Count(b, kind)
  {
    if a == [] {
      assert a + b == b;
    } else {
      assert (a + b)[1..] == a[1..] + b;
      CountAppend(a[1..], b, kind);
    }
  }

  /** Number of occurrences of one particular gate. */
  function Occurrences(gs: seq<Gate>, g: Gate): (r: nat)
    ensures r <= |gs|
  {
    if gs == [] then 0
    else (if gs[0] == g then 1 else 0) + Occurrences(gs[1..], g)
  }

  lemma {:induction false} OccurrencesAppend(a: seq<Gate>, b: seq<Gate>, g: Gate)
    ensures Occurrences(a + b, g) == Occurrences(a, g) + Occurrences(b, g)
  {
    if a == [] {
      assert a + b == b;
    } else {
      assert (a + b)[1..] == a[1..] + b;
      OccurrencesAppend(a[1..], b, g);
    }
  }

  /** A sequence without gates of a kind counts none. */
  lemma {:induction false} NoKind(gs: seq<Gate>, kind: Kind)
    requires forall k :: 0 <= k < |gs| ==> KindOf(gs[k]) != kind
    ensures Count(gs, kind) == 0
  {
    if gs != [] {
      NoKind(gs[1..], kind);
    }
  }

  /** A gate occurs no more often than gates of its kind. */
  lemma {:induction false} OccurrencesAtMostCount(gs: seq<Gate>, g: Gate)
    ensures Occurrences(gs, g) <= Count(gs, KindOf(g))
  {
    if gs != [] {
      OccurrencesAtMostCount(gs[1..], g);
    }
  }

  lemma {:induction false} OccurrencesAbsent(gs: seq<Gate>, g: Gate)
    requires g !in gs
    ensures Occurrences(gs, g) == 0
  {
    if gs != [] {
      OccurrencesAbsent(gs[1..], g);
    }
  }

  lemma {:induction false} OccurrencesRepeat(g: Gate, n: nat, h: Gate)
    ensures Occurrences(Repeat(g, n), h) == if g == h then n else 0
  {
    if n > 0 {
      OccurrencesRepeat(g, n - 1, h);
      OccurrencesAppend(Repeat(g, n - 1), [g], h);
      assert [g][1..] == [];
    }
  }

  lemma {:induction false} CountRepeat(g: Gate, n: nat, kind: Kind)
    ensures Count(Repeat(g, n), kind) == if KindOf(g) == kind then n else 0
  {
    if n > 0 {
      CountRepeat(g, n - 1, kind);
      CountAppend(Repeat(g, n - 1), [g], kind);
      assert [g][1..] == [];
    }
  }
}
