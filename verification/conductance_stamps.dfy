/** Matrices built by stamping conductances between nodes, and to ground. */
module ConductanceStamps {
  import opened RealSums

  datatype Stamp = Ground(n1: nat, g: real) | Floating(n1: nat, n2: nat, g: real)

  /** What one stamp adds at row i, column j. */
  function Part(s: Stamp, i: int, j: int): real {
    match s
    case Ground(a, g) => if i == a && j == a then g else 0.0
    case Floating(a, b, g) =>
      (if i == a && j == a then g else 0.0) + (if i == b && j == b then g else 0.0)
      - (if i == a && j == b then g else 0.0) - (if i == b && j == a then g else 0.0)
  }

  /** The matrix of a list of stamps. */
  function Stamped(stamps: seq<Stamp>, i: int, j: int): real {
    if |stamps| == 0 then 0.0 else Stamped(stamps[..|stamps| - 1], i, j) + Part(stamps[|stamps| - 1], i, j)
  }

  lemma StampedNext(stamps: seq<Stamp>, s: Stamp, i: int, j: int)
    ensures Stamped(stamps + [s], i, j) == Stamped(stamps, i, j) + Part(s, i, j)
  {
    assert (stamps + [s])[..|stamps|] == stamps;
  }

  lemma {:induction false} StampedSymmetric(stamps: seq<Stamp>, i: int, j: int)
    ensures Stamped(stamps, i, j) == Stamped(stamps, j, i)
  {
    if |stamps| > 0 {
      StampedSymmetric(stamps[..|stamps| - 1], i, j);
    }
  }

  /** The current that voltages v drive out of node i through one stamp, and through all. */
  function PartFlow(s: Stamp, v: int -> real, i: int): real {
    match s
    case Ground(a, g) => if i == a then Mul(g, v(a)) else 0.0
    case Floating(a, b, g) =>
      (if i == a then Mul(g, v(a) - v(b)) else 0.0) + (if i == b then Mul(g, v(b) - v(a)) else 0.0)
  }

  function Flow(stamps: seq<Stamp>, v: int -> real, i: int): real {
    if |stamps| == 0 then 0.0 else Flow(stamps[..|stamps| - 1], v, i) + PartFlow(stamps[|stamps| - 1], v, i)
  }

  /** The power that v dissipates in the stamps. */
  function PartEnergy(s: Stamp, v: int -> real): real {
    match s
    case Ground(a, g) => Mul(g, Square(v(a)))
    case Floating(a, b, g) => Mul(g, Square(v(a) - v(b)))
  }

  function Energy(stamps: seq<Stamp>, v: int -> real): real {
    if |stamps| == 0 then 0.0 else Energy(stamps[..|stamps| - 1], v) + PartEnergy(stamps[|stamps| - 1], v)
  }

  /** Every stamp is at nodes among the first n; a stamp between merged nodes adds nothing. */
  ghost predicate Within(stamps: seq<Stamp>, n: nat) {
    forall m {:trigger stamps[m]} :: 0 <= m < |stamps| ==> PartWithin(stamps[m], n)
  }

  predicate PartWithin(s: Stamp, n: nat) {
    s.n1 < n && (s.Floating? ==> s.n2 < n)
  }

  ghost predicate Conducting(stamps: seq<Stamp>) {
    forall m {:trigger stamps[m]} :: 0 <= m < |stamps| ==> stamps[m].g > 0.0
  }

  // ---------------------------------------------------------------------------
  // The matrix as an operator

  function RowTerm(stamps: seq<Stamp>, v: int -> real, i: int): int -> real {
    j => Mul(Stamped(stamps, i, j), v(j))
  }

  function PartTerm(s: Stamp, v: int -> real, i: int): int -> real {
    j => Mul(Part(s, i, j), v(j))
  }

  /** Row i of the matrix times v is the current out of node i. */
  lemma {:induction false} RowIsFlow(stamps: seq<Stamp>, v: int -> real, i: int, n: nat)
    requires Within(stamps, n)
    ensures Sum(RowTerm(stamps, v, i), n) == Flow(stamps, v, i)
    decreases |stamps|
  {
    if |stamps| == 0 {
      forall j | 0 <= j < n
        ensures RowTerm(stamps, v, i)(j) == 0.0
      {
        MulZero(v(j));
      }
      SumZero(RowTerm(stamps, v, i), n);
    } else {
      var last := |stamps| - 1;
      RowIsFlow(stamps[..last], v, i, n);
      assert PartWithin(stamps[last], n);
      PartIsFlow(stamps[last], v, i, n);
      forall j | 0 <= j < n
        ensures RowTerm(stamps, v, i)(j)
                == 1.0 * RowTerm(stamps[..last], v, i)(j) + 1.0 * PartTerm(stamps[last], v, i)(j)
      {
        AddMul(Stamped(stamps[..last], i, j), Part(stamps[last], i, j), v(j));
      }
      SumLinear(RowTerm(stamps, v, i), 1.0, RowTerm(stamps[..last], v, i), 1.0, PartTerm(stamps[last], v, i), n);
    }
  }

  lemma AddMul(a: real, b: real, v: real)
    ensures Mul(a + b, v) == Mul(a, v) + Mul(b, v)
  {
  }

  lemma MulZero(v: real)
    ensures Mul(0.0, v) == 0.0 && Mul(v, 0.0) == 0.0
  {
  }

  lemma PartIsFlow(s: Stamp, v: int -> real, i: int, n: nat)
    requires PartWithin(s, n)
    ensures Sum(PartTerm(s, v, i), n) == PartFlow(s, v, i)
  {
    match s
    case Ground(a, g) =>
      var x := if i == a then Mul(g, v(a)) else 0.0;
      forall j | 0 <= j < n
        ensures PartTerm(s, v, i)(j) == Spike(a, x)(j)
      {
        MulZero(v(j));
      }
      SumCongr(PartTerm(s, v, i), Spike(a, x), n);
      SumSpike(a, x, n);
    case Floating(a, b, g) =>
      FloatingFlow(a, b, g, v, i, n);
  }

  lemma FloatingFlow(a: nat, b: nat, g: real, v: int -> real, i: int, n: nat)
    requires a < n && b < n
    ensures Sum(PartTerm(Floating(a, b, g), v, i), n) == PartFlow(Floating(a, b, g), v, i)
  {
    if a == b {
      MergedFlow(a, g, v, i, n);
      return;
    }
    var s := Floating(a, b, g);
    var x, y := Mul(Part(s, i, a), v(a)), Mul(Part(s, i, b), v(b));
    forall j | 0 <= j < n
      ensures PartTerm(s, v, i)(j) == 1.0 * Spike(a, x)(j) + 1.0 * Spike(b, y)(j)
    {
      MulZero(v(j));
    }
    SumLinear(PartTerm(s, v, i), 1.0, Spike(a, x), 1.0, Spike(b, y), n);
    SumSpike(a, x, n);
    SumSpike(b, y, n);
    FlowOfEnds(g, v(a), v(b));
    MulZero(v(a));
    MulZero(v(b));
  }

  lemma MergedFlow(a: nat, g: real, v: int -> real, i: int, n: nat)
    ensures Sum(PartTerm(Floating(a, a, g), v, i), n) == 0.0 == PartFlow(Floating(a, a, g), v, i)
  {
    forall j | 0 <= j < n
      ensures PartTerm(Floating(a, a, g), v, i)(j) == 0.0
    {
      MulZero(v(j));
    }
    SumZero(PartTerm(Floating(a, a, g), v, i), n);
    MulZero(g);
  }

  lemma FlowOfEnds(g: real, va: real, vb: real)
    ensures Mul(g, va) + Mul(0.0 - g, vb) == Mul(g, va - vb)
    ensures Mul(0.0 - g, va) + Mul(g, vb) == Mul(g, vb - va)
  {
  }

  function PowerTerm(stamps: seq<Stamp>, v: int -> real): int -> real {
    i => Mul(v(i), Flow(stamps, v, i))
  }

  function PartPower(s: Stamp, v: int -> real): int -> real {
    i => Mul(v(i), PartFlow(s, v, i))
  }

  /** v'Gv is the power that v dissipates. */
  lemma {:induction false} PowerIsEnergy(stamps: seq<Stamp>, v: int -> real, n: nat)
    requires Within(stamps, n)
    ensures Sum(PowerTerm(stamps, v), n) == Energy(stamps, v)
    decreases |stamps|
  {
    if |stamps| == 0 {
      forall i | 0 <= i < n
        ensures PowerTerm(stamps, v)(i) == 0.0
      {
        MulZero(v(i));
      }
      SumZero(PowerTerm(stamps, v), n);
    } else {
      var last := |stamps| - 1;
      PowerIsEnergy(stamps[..last], v, n);
      assert PartWithin(stamps[last], n);
      PartIsEnergy(stamps[last], v, n);
      forall i | 0 <= i < n
        ensures PowerTerm(stamps, v)(i) == 1.0 * PowerTerm(stamps[..last], v)(i) + 1.0 * PartPower(stamps[last], v)(i)
      {
        MulAdd(v(i), Flow(stamps[..last], v, i), PartFlow(stamps[last], v, i));
      }
      SumLinear(PowerTerm(stamps, v), 1.0, PowerTerm(stamps[..last], v), 1.0, PartPower(stamps[last], v), n);
    }
  }

  lemma MulAdd(v: real, a: real, b: real)
    ensures Mul(v, a + b) == Mul(v, a) + Mul(v, b)
  {
  }

  lemma PartIsEnergy(s: Stamp, v: int -> real, n: nat)
    requires PartWithin(s, n)
    ensures Sum(PartPower(s, v), n) == PartEnergy(s, v)
  {
    match s
    case Ground(a, g) =>
      var x := Mul(v(a), Mul(g, v(a)));
      forall i | 0 <= i < n
        ensures PartPower(s, v)(i) == Spike(a, x)(i)
      {
        MulZero(v(i));
      }
      SumCongr(PartPower(s, v), Spike(a, x), n);
      SumSpike(a, x, n);
      GroundPower(g, v(a));
    case Floating(a, b, g) => FloatingEnergy(a, b, g, v, n);
  }

  lemma FloatingEnergy(a: nat, b: nat, g: real, v: int -> real, n: nat)
    requires a < n && b < n
    ensures Sum(PartPower(Floating(a, b, g), v), n) == PartEnergy(Floating(a, b, g), v)
  {
    var s := Floating(a, b, g);
    MulZero(g);
    if a == b {
      forall i | 0 <= i < n
        ensures PartPower(s, v)(i) == 0.0
      {
        MulZero(v(i));
      }
      SumZero(PartPower(s, v), n);
    } else {
      var x, y := Mul(v(a), Mul(g, v(a) - v(b))), Mul(v(b), Mul(g, v(b) - v(a)));
      forall i | 0 <= i < n
        ensures PartPower(s, v)(i) == 1.0 * Spike(a, x)(i) + 1.0 * Spike(b, y)(i)
      {
        MulZero(v(i));
      }
      SumLinear(PartPower(s, v), 1.0, Spike(a, x), 1.0, Spike(b, y), n);
      SumSpike(a, x, n);
      SumSpike(b, y, n);
      FloatingPower(g, v(a), v(b));
    }
  }

  lemma GroundPower(g: real, v: real)
    ensures Mul(v, Mul(g, v)) == Mul(g, Square(v))
  {
    assert v * (g * v) == g * (v * v);
  }

  lemma FloatingPower(g: real, va: real, vb: real)
    ensures Mul(va, Mul(g, va - vb)) + Mul(vb, Mul(g, vb - va)) == Mul(g, Square(va - vb))
  {
    var d := va - vb;
    assert vb - va == -d;
    assert va * (g * d) + vb * (g * (-d)) == g * (d * d) by {
      assert va * (g * d) == (g * d) * va;
      assert vb * (g * (-d)) == -((g * d) * vb);
      assert (g * d) * va - (g * d) * vb == (g * d) * (va - vb);
    }
  }

  lemma {:induction false} EnergyBoth(s: seq<Stamp>, t: seq<Stamp>, v: int -> real)
    ensures Energy(s + t, v) == Energy(s, v) + Energy(t, v)
  {
    if |t| == 0 {
      assert s + t == s;
    } else {
      var last := |t| - 1;
      assert (s + t)[..|s + t| - 1] == s + t[..last];
      EnergyBoth(s, t[..last], v);
    }
  }

  lemma EnergyOne(s: Stamp, v: int -> real)
    ensures Energy([s], v) == PartEnergy(s, v) && Energy([], v) == 0.0
  {
    assert [s][..0] == [];
  }

  /** v'Mv over the first n rows and columns. */
  function Form(M: (int, int) -> real, v: int -> real, n: nat): real {
    Sum(FormTerm(M, v, n), n)
  }

  function FormTerm(M: (int, int) -> real, v: int -> real, n: nat): int -> real {
    i => Mul(v(i), Sum(EntryTerm(M, v, i), n))
  }

  function EntryTerm(M: (int, int) -> real, v: int -> real, i: int): int -> real {
    j => Mul(M(i, j), v(j))
  }

  lemma FormRow(stamps: seq<Stamp>, M: (int, int) -> real, v: int -> real, n: nat, i: int)
    requires Within(stamps, n) && 0 <= i < n
    requires forall i, j {:trigger M(i, j)} :: 0 <= i < n && 0 <= j < n ==> M(i, j) == Stamped(stamps, i, j)
    ensures Sum(EntryTerm(M, v, i), n) == Flow(stamps, v, i)
  {
    hide Mul, Stamped, Flow;
    forall j | 0 <= j < n
      ensures EntryTerm(M, v, i)(j) == RowTerm(stamps, v, i)(j)
    {
      assert M(i, j) == Stamped(stamps, i, j);
    }
    SumCongr(EntryTerm(M, v, i), RowTerm(stamps, v, i), n);
    RowIsFlow(stamps, v, i, n);
  }

  lemma FormIsEnergy(stamps: seq<Stamp>, M: (int, int) -> real, v: int -> real, n: nat)
    requires Within(stamps, n)
    requires forall i, j {:trigger M(i, j)} :: 0 <= i < n && 0 <= j < n ==> M(i, j) == Stamped(stamps, i, j)
    ensures Form(M, v, n) == Energy(stamps, v)
  {
    hide Mul, Stamped, Flow;
    forall i | 0 <= i < n
      ensures FormTerm(M, v, n)(i) == PowerTerm(stamps, v)(i)
    {
      FormRow(stamps, M, v, n, i);
    }
    SumCongr(FormTerm(M, v, n), PowerTerm(stamps, v), n);
    PowerIsEnergy(stamps, v, n);
  }

  // ---------------------------------------------------------------------------
  // Definiteness

  lemma {:induction false} EnergyNonNegative(stamps: seq<Stamp>, v: int -> real)
    requires Conducting(stamps)
    ensures Energy(stamps, v) >= 0.0
    ensures forall m {:trigger stamps[m]} :: 0 <= m < |stamps| ==> 0.0 <= PartEnergy(stamps[m], v) <= Energy(stamps, v)
  {
    if |stamps| > 0 {
      var last := |stamps| - 1;
      EnergyNonNegative(stamps[..last], v);
      PartNonNegative(stamps[last], v);
      forall m | 0 <= m < |stamps|
        ensures 0.0 <= PartEnergy(stamps[m], v) <= Energy(stamps, v)
      {
        if m < last {
          assert stamps[..last][m] == stamps[m];
        }
      }
    }
  }

  lemma PartNonNegative(s: Stamp, v: int -> real)
    requires s.g > 0.0
    ensures PartEnergy(s, v) >= 0.0
    ensures PartEnergy(s, v) == 0.0 ==> (s.Ground? ==> v(s.n1) == 0.0) && (s.Floating? ==> v(s.n1) == v(s.n2))
  {
    var x := if s.Ground? then v(s.n1) else v(s.n1) - v(s.n2);
    ScaledSquare(s.g, x);
  }

  lemma ScaledSquare(g: real, x: real)
    requires g > 0.0
    ensures Mul(g, Square(x)) >= 0.0 && (Mul(g, Square(x)) == 0.0 ==> x == 0.0)
  {
    if x != 0.0 {
      SquarePositive(x);
      MulPositive(g, Square(x));
    }
  }

  /** Node i is joined to a grounded node by k floating stamps. */
  ghost predicate GroundedIn(stamps: seq<Stamp>, i: int, k: nat)
    decreases k
  {
    if k == 0 then exists m :: Grounds(stamps, m, i)
    else exists m, j :: Floats(stamps, m, i, j) && GroundedIn(stamps, j, k - 1)
  }

  predicate Grounds(stamps: seq<Stamp>, m: int, i: int) {
    0 <= m < |stamps| && stamps[m].Ground? && stamps[m].n1 == i
  }

  predicate Floats(stamps: seq<Stamp>, m: int, i: int, j: int) {
    && 0 <= m < |stamps| && stamps[m].Floating?
    && ((stamps[m].n1 == i && stamps[m].n2 == j) || (stamps[m].n1 == j && stamps[m].n2 == i))
  }

  ghost predicate Grounded(stamps: seq<Stamp>, i: int) {
    exists k: nat :: GroundedIn(stamps, i, k)
  }

  lemma {:induction false} NoPowerNoVoltage(stamps: seq<Stamp>, v: int -> real, i: int, k: nat)
    requires Conducting(stamps) && Energy(stamps, v) == 0.0 && GroundedIn(stamps, i, k)
    ensures v(i) == 0.0
    decreases k
  {
    EnergyNonNegative(stamps, v);
    if k == 0 {
      var m :| Grounds(stamps, m, i);
      PartNonNegative(stamps[m], v);
    } else {
      var m, j :| Floats(stamps, m, i, j) && GroundedIn(stamps, j, k - 1);
      NoPowerNoVoltage(stamps, v, j, k - 1);
      PartNonNegative(stamps[m], v);
    }
  }

  /** Power is positive for every voltage that is not zero at all of the n nodes. */
  ghost predicate PositiveDefinite(stamps: seq<Stamp>, n: nat) {
    forall v: int -> real, i {:trigger Energy(stamps, v), v(i)} :: 0 <= i < n && v(i) != 0.0 ==> Energy(stamps, v) > 0.0
  }

  /** One where no chain of stamps leads to a grounded node. */
  ghost function Adrift(stamps: seq<Stamp>): int -> real {
    i => if Grounded(stamps, i) then 0.0 else 1.0
  }

  /** No stamp has a voltage across it. */
  lemma AdriftPart(all: seq<Stamp>, s: Stamp)
    requires s in all
    ensures s.Ground? ==> Adrift(all)(s.n1) == 0.0
    ensures s.Floating? ==> Adrift(all)(s.n1) == Adrift(all)(s.n2)
  {
    var m :| 0 <= m < |all| && all[m] == s;
    if s.Ground? {
      assert Grounds(all, m, s.n1);
      assert GroundedIn(all, s.n1, 0);
    } else if Grounded(all, s.n2) {
      SameSide(all, m, s.n1, s.n2);
    } else if Grounded(all, s.n1) {
      SameSide(all, m, s.n2, s.n1);
    }
  }

  lemma {:induction false} AdriftHasNoPower(all: seq<Stamp>, stamps: seq<Stamp>)
    requires forall m {:trigger stamps[m]} :: 0 <= m < |stamps| ==> stamps[m] in all
    ensures Energy(stamps, Adrift(all)) == 0.0
  {
    if |stamps| > 0 {
      var last := |stamps| - 1;
      AdriftHasNoPower(all, stamps[..last]);
      var s := stamps[last];
      AdriftPart(all, s);
      MulZero(s.g);
    }
  }

  lemma SameSide(stamps: seq<Stamp>, m: int, i: int, j: int)
    requires Floats(stamps, m, i, j) && Grounded(stamps, j)
    ensures Grounded(stamps, i)
  {
    var k: nat :| GroundedIn(stamps, j, k);
    assert GroundedIn(stamps, i, k + 1);
  }

  /** The matrix is positive definite exactly when every node is joined to a grounded one. */
  lemma DefiniteWhenGrounded(stamps: seq<Stamp>, n: nat)
    requires Conducting(stamps)
    ensures PositiveDefinite(stamps, n) <==> forall i {:trigger Grounded(stamps, i)} :: 0 <= i < n ==>
              Grounded(stamps, i)
  {
    if PositiveDefinite(stamps, n) {
      forall i | 0 <= i < n
        ensures Grounded(stamps, i)
      {
        AdriftHasNoPower(stamps, stamps);
        assert Adrift(stamps)(i) != 0.0 ==> Energy(stamps, Adrift(stamps)) > 0.0;
      }
    }
    if forall i :: 0 <= i < n ==> Grounded(stamps, i) {
      forall v: int -> real, i | 0 <= i < n && v(i) != 0.0
        ensures Energy(stamps, v) > 0.0
      {
        EnergyNonNegative(stamps, v);
        assert Grounded(stamps, i);
        var k: nat :| GroundedIn(stamps, i, k);
        if Energy(stamps, v) == 0.0 {
          NoPowerNoVoltage(stamps, v, i, k);
        }
      }
    }
  }
}
