/** The reducer: builds the tridiagonal model of an RC tree in place, in work arrays. */
module ArnoldiReduction {
  import opened RealSums
  import opened RcTree
  import opened Lanczos

  const MAX_ORDER: nat := 5
  const MIN_DIAGONAL: real := 0.0000000000001                    // 1e-13
  const MIN_NORM2: real := 0.000000000000000000000000000001      // 1e-30

  /** The state of the iteration at vector h: cur is the newest basis vector, other the one
      before it, and the recurrence has been recorded for all earlier ones. */
  ghost predicate Iterating(t: Tree, basis: seq<seq<real>>, d: seq<real>, e: seq<real>, sqc: real, h: nat,
                            cur: seq<real>, other: seq<real>) {
    && t.Valid()
    && |basis| == h + 1 && h < MAX_ORDER
    && (forall a :: 0 <= a <= h ==> |basis[a]| == t.Size())
    && basis[h] == cur && (h > 0 ==> basis[h - 1] == other)
    && Orthonormal(t, basis)
    && ThreeTerm(t, basis, d, e, h)
    && StartsConstant(t, basis, sqc)
  }

  /** Every recorded row has a usable diagonal and a positive link to the next row. */
  ghost predicate LinksKept(d: seq<real>, e: seq<real>, m: nat) {
    forall g :: 0 <= g < m ==> At(d, g) >= MIN_DIAGONAL && At(e, g) > 0.0 && Square(At(e, g)) >= MIN_NORM2
  }

  lemma LinksKeptFrame(d: seq<real>, d': seq<real>, e: seq<real>, m: nat)
    requires LinksKept(d, e, m) && forall a :: 0 <= a < m ==> At(d, a) == At(d', a)
    ensures LinksKept(d', e, m)
  {
  }

  /** The part of the image of vector h outside the basis is negligible. */
  ghost predicate SmallResidual(t: Tree, basis: seq<seq<real>>, d: seq<real>, e: seq<real>, h: int)
    requires t.Valid()
  {
    t.Dot(Residual(t, basis, d, e, h), Residual(t, basis, d, e, h)) < MIN_NORM2
  }

  /** Why the iteration ends with the given order. */
  ghost predicate Ended(t: Tree, basis: seq<seq<real>>, d: seq<real>, e: seq<real>, order: int)
    requires t.Valid()
  {
    order == t.Size() || order == MAX_ORDER || At(d, order - 1) < MIN_DIAGONAL
        || SmallResidual(t, basis, d, e, order - 1)
  }

  /** A finished reduction of t: an orthonormal basis of at most MAX_ORDER vectors in which
      the network operator is the tridiagonal matrix in d and e. */
  ghost predicate Reduced(t: Tree, basis: seq<seq<real>>, d: seq<real>, e: seq<real>, sqc: real, order: int) {
    && t.Valid()
    && 1 <= order <= MAX_ORDER && order <= t.Size()
    && |basis| == order && (forall a :: 0 <= a < order ==> |basis[a]| == t.Size())
    && IsReduction(t, basis, d, e, sqc)
    && LinksKept(d, e, order - 1)
    && Ended(t, basis, d, e, order)
  }

  /** A reduction has at most five vectors, keeps links and diagonal entries above the cut-offs,
      and ends because it is complete, has five vectors, or meets one of them. */
  lemma ReductionEnds(t: Tree, basis: seq<seq<real>>, d: seq<real>, e: seq<real>, sqc: real, order: int)
    requires Reduced(t, basis, d, e, sqc, order)
    ensures 1 <= order <= 5 && |basis| == order
    ensures forall g {:trigger At(d, g)} {:trigger At(e, g)} :: 0 <= g < order - 1 ==>
              At(d, g) >= 0.0000000000001 && At(e, g) > 0.0 && At(e, g) * At(e, g) >= 0.000000000000000000000000000001
    ensures order < t.Size() && order < 5 ==>
              || At(d, order - 1) < 0.0000000000001
              || t.Dot(Residual(t, basis, d, e, order - 1), Residual(t, basis, d, e, order - 1))
                 < 0.000000000000000000000000000001
  {
    hide IsReduction;
    forall g | 0 <= g < order - 1
      ensures At(d, g) >= 0.0000000000001 && At(e, g) > 0.0 && At(e, g) * At(e, g) >= MIN_NORM2
    {
      assert Square(At(e, g)) >= MIN_NORM2;
    }
  }

  lemma FinishReduction(t: Tree, basis: seq<seq<real>>, d: seq<real>, e: seq<real>, sqc: real, h: nat,
                        cur: seq<real>, other: seq<real>)
    requires Iterating(t, basis, d, e, sqc, h, cur, other) && LinksKept(d, e, h) && h < t.Size()
    requires At(d, h) == t.Dot(Q(basis, h), Image(t, Q(basis, h)))
    requires Ended(t, basis, d, e, h + 1)
    ensures Reduced(t, basis, d, e, sqc, h + 1)
  {
  }

  class ArnoldiReduce {
    const n: nat                 // numbered nodes
    const nterms: nat            // terminals
    const par: array<int>
    const r: array<real>
    const c: array<real>
    const outV: array<int>       // terminal -> node number
    const iv: array<real>
    const y: array<real>
    const u0: array<real>
    const u1: array<real>
    const d: array<real>
    const e: array<real>
    const U: array2<real>
    var order: nat
    var ctot: real
    var sqc: real

    constructor (n: nat, nterms: nat)
      requires n > 0
      ensures this.n == n && this.nterms == nterms && Shaped() && Apart()
      ensures fresh(par) && fresh(r) && fresh(c) && fresh(outV) && fresh(iv) && fresh(y)
      ensures fresh(u0) && fresh(u1) && fresh(d) && fresh(e) && fresh(U) && r != c
    {
      this.n, this.nterms := n, nterms;
      par, outV := new int[n], new int[nterms];
      r, c := new real[n], new real[n];
      iv, y := new real[n], new real[n];
      u0, u1 := new real[n], new real[n];
      d, e := new real[MAX_ORDER], new real[MAX_ORDER];
      U := new real[MAX_ORDER, nterms];
      order, ctot, sqc := 0, 0.0, 0.0;
    }

    ghost predicate Valid()
      reads this, par, r, c, outV
    {
      && Shaped() && Apart()
      && T().Valid()
      && forall i :: 0 <= i < nterms ==> 0 <= outV[i] < n
    }

    ghost predicate Shaped()
    {
      && n > 0
      && par.Length == n && r.Length == n && c.Length == n && outV.Length == nterms
      && iv.Length == n && y.Length == n && u0.Length == n && u1.Length == n
      && d.Length == MAX_ORDER && e.Length == MAX_ORDER && U.Length0 == MAX_ORDER && U.Length1 == nterms
    }

    /** The work arrays are separate objects. */
    ghost predicate Apart()
    {
      && iv != y && iv != u0 && iv != u1 && iv != r && iv != c && iv != d && iv != e
      && y != u0 && y != u1 && y != r && y != c && y != d && y != e
      && u0 != u1 && u0 != r && u0 != c && u0 != d && u0 != e
      && u1 != r && u1 != c && u1 != d && u1 != e
      && d != r && d != c && d != e && e != r && e != c
      && par != outV
    }

    /** The network being reduced. */
    ghost function T(): Tree
      reads par, r, c
    {
      Tree(par[..], r[..], c[..])
    }

    /** y = R C u by one pass up and one pass down the tree. */
    method ApplyRC(u: array<real>)
      requires Valid() && (u == u0 || u == u1)
      modifies iv, y
      ensures forall j :: 0 <= j < n ==> y[j] == T().Solve(Fn(u[..]), j)
      ensures forall j :: 0 <= j < n ==> iv[j] == T().Current(Fn(u[..]), j)
    {
      SumCurrents(u);
      SumDrops(u);
    }

    method SumCurrents(u: array<real>)
      requires Valid() && (u == u0 || u == u1)
      modifies iv
      ensures forall j :: 0 <= j < n ==> iv[j] == T().Current(Fn(u[..]), j)
    {
      ClearCurrents();
      PassStart(T(), Fn(u[..]), iv[..]);
      for j := n downto 1
        invariant PassedDownTo(T(), Fn(u[..]), j, iv[..])
      {
        HandOver(u, j);
      }
      FinishDriver(u);
    }

    method FinishDriver(u: array<real>)
      requires Valid() && (u == u0 || u == u1) && PassedDownTo(T(), Fn(u[..]), 1, iv[..])
      modifies iv
      ensures forall j :: 0 <= j < n ==> iv[j] == T().Current(Fn(u[..]), j)
    {
      ghost var t, q, before := T(), Fn(u[..]), iv[..];
      CollectedComplete(t, q, 0);
      iv[0] := iv[0] + c[0] * u[0];
      assert forall j :: 1 <= j < n ==> iv[j] == before[j];
      assert iv[0] == t.Current(q, 0);
    }

    method ClearCurrents()
      requires Valid()
      modifies iv
      ensures forall i :: 0 <= i < n ==> iv[i] == 0.0
    {
      for j := 0 to n
        invariant forall i :: 0 <= i < j ==> iv[i] == 0.0
      {
        iv[j] := 0.0;
      }
    }

    /** Node j adds its own current and passes the total on to its parent. */
    method HandOver(u: array<real>, j: nat)
      requires Valid() && (u == u0 || u == u1) && 1 <= j < n
      requires PassedDownTo(T(), Fn(u[..]), j + 1, iv[..])
      modifies iv
      ensures PassedDownTo(T(), Fn(u[..]), j, iv[..])
    {
      ghost var before := iv[..];
      iv[j] := iv[j] + c[j] * u[j];
      ghost var own := iv[j];
      PassStep(T(), Fn(u[..]), j, before, own);
      assert iv[..] == before[j := own];
      iv[par[j]] := iv[par[j]] + iv[j];
      assert iv[..] == HandedOver(par[..], j, before, own);
    }

    method SumDrops(u: array<real>)
      requires Valid() && u != y && u.Length == n
      requires forall j :: 0 <= j < n ==> iv[j] == T().Current(Fn(u[..]), j)
      modifies y
      ensures forall j :: 0 <= j < n ==> y[j] == T().Solve(Fn(u[..]), j)
    {
      ghost var t, q := T(), Fn(u[..]);
      SolveRoot(t, q);
      y[0] := 0.0;
      for j := 1 to n
        invariant forall i :: 0 <= i < j ==> y[i] == t.Solve(q, i)
      {
        SolveStep(t, q, j);
        y[j] := y[par[j]] + r[j] * iv[j];
      }
    }

    /** u C y; the driver is skipped because y is zero there. */
    method Diagonal(u: array<real>) returns (sum: real)
      requires Valid() && u.Length == n && y[0] == 0.0
      ensures sum == T().Dot(Fn(u[..]), Fn(y[..]))
    {
      ghost var term := T().DotTerm(Fn(u[..]), Fn(y[..]));
      sum := 0.0;
      assert Sum(term, 1) == 0.0;
      for j := 1 to n
        invariant sum == Sum(term, j)
      {
        sum := sum + u[j] * c[j] * y[j];
      }
    }

    static lemma SquareTerm(k: real, a: real, b: real)
      requires a == b
      ensures k * a * a == k * b * b
    {
    }

    /** y C y */
    method Norm2() returns (sum: real)
      requires Valid()
      ensures sum == T().Dot(Fn(y[..]), Fn(y[..]))
    {
      ghost var term := T().DotTerm(Fn(y[..]), Fn(y[..]));
      sum := 0.0;
      for j := 0 to n
        invariant sum == Sum(term, j)
      {
        SquareTerm(c[j], Fn(y[..])(j), y[j]);
        sum := sum + c[j] * y[j] * y[j];
      }
    }

    /** y -= dh*u + e1*w, where the second part is absent in the first step. */
    method Subtract(h: nat, dh: real, u: array<real>, e1: real, w: array<real>)
      requires Valid() && u != y && w != y && u.Length == n && w.Length == n
      modifies y
      ensures forall j :: 0 <= j < n ==>
                y[j] == old(y[j]) - (dh * u[j] + (if h == 0 then 0.0 else e1 * w[j]))
    {
      if h == 0 {
        for j := 0 to n
          invariant forall i :: 0 <= i < j ==> y[i] == old(y[i]) - dh * u[i]
          invariant forall i :: j <= i < n ==> y[i] == old(y[i])
        {
          y[j] := y[j] - dh * u[j];
        }
      } else {
        for j := 0 to n
          invariant forall i :: 0 <= i < j ==> y[i] == old(y[i]) - (dh * u[i] + e1 * w[i])
          invariant forall i :: j <= i < n ==> y[i] == old(y[i])
        {
          y[j] := y[j] - (dh * u[j] + e1 * w[j]);
        }
      }
    }

    /** w = y / norm */
    method Normalize(norm: real, w: array<real>)
      requires Valid() && w != y && w != c && w != r && w.Length == n && norm > 0.0
      modifies w
      ensures forall j :: 0 <= j < n ==> norm * w[j] == y[j]
    {
      var scale := 1.0 / norm;
      assert norm * scale == 1.0;
      for j := 0 to n
        invariant forall i :: 0 <= i < j ==> norm * w[i] == y[i]
      {
        w[j] := scale * y[j];
        Undo(norm, scale, y[j]);
      }
    }

    static lemma Undo(norm: real, scale: real, v: real)
      requires norm * scale == 1.0
      ensures norm * (scale * v) == v
    {
      assert norm * (scale * v) == (norm * scale) * v;
    }

    /** U[h][i] = u[outV[i]] */
    method RecordTerminals(h: nat, u: array<real>)
      requires Valid() && h < MAX_ORDER && u.Length == n
      modifies U
      ensures forall i :: 0 <= i < nterms ==> U[h, i] == u[outV[i]]
      ensures forall g, i :: 0 <= g < MAX_ORDER && g != h && 0 <= i < nterms ==> U[g, i] == old(U[g, i])
    {
      for i := 0 to nterms
        invariant forall k :: 0 <= k < i ==> U[h, k] == u[outV[k]]
        invariant forall g, k :: 0 <= g < MAX_ORDER && g != h && 0 <= k < nterms ==> U[g, k] == old(U[g, k])
      {
        U[h, i] := u[outV[i]];
      }
    }

    method TotalCapacitance() returns (sum: real)
      requires Valid()
      ensures sum == Sum(Fn(c[..]), n)
    {
      ghost var term := Fn(c[..]);
      sum := 0.0;
      for j := 0 to n
        invariant sum == Sum(term, j)
      {
        sum := sum + c[j];
      }
    }

    /** U holds the values of the first m basis vectors at the terminals. */
    ghost predicate TerminalsRecorded(basis: seq<seq<real>>, m: int)
      reads this, outV, U
    {
      && Shaped() && m <= |basis| && m <= MAX_ORDER
      && forall g, i {:trigger U[g, i]} :: 0 <= g < m && 0 <= i < nterms ==> U[g, i] == At(basis[g], outV[i])
    }

    /** Records vector h at the terminals and computes its row of the matrix. */
    method Project(ghost basis: seq<seq<real>>, h: nat, cur: array<real>, other: array<real>)
      requires Valid() && Iterating(T(), basis, d[..], e[..], sqc, h, cur[..], other[..])
      requires (cur == u0 && other == u1) || (cur == u1 && other == u0)
      requires TerminalsRecorded(basis, h) && LinksKept(d[..], e[..], h)
      modifies iv, y, d, U
      ensures Iterating(T(), basis, d[..], e[..], sqc, h, cur[..], other[..])
      ensures TerminalsRecorded(basis, h + 1) && LinksKept(d[..], e[..], h)
      ensures forall j :: 0 <= j < n ==> y[j] == T().Solve(Q(basis, h), j)
      ensures d[h] == T().Dot(Q(basis, h), Fn(y[..])) == T().Dot(Q(basis, h), Image(T(), Q(basis, h)))
    {
      hide Orthonormal, ThreeTerm, StartsConstant, LinksKept;
      ghost var was := d[..];
      RecordVector(basis, h, cur);
      ProjectVector(basis, h, cur, other);
      LinksKeptFrame(was, d[..], e[..], h);
    }

    method RecordVector(ghost basis: seq<seq<real>>, h: nat, u: array<real>)
      requires Valid() && h < MAX_ORDER && h < |basis| && u.Length == n && basis[h] == u[..]
      requires TerminalsRecorded(basis, h)
      modifies U
      ensures TerminalsRecorded(basis, h + 1)
    {
      RecordTerminals(h, u);
    }

    /** y = R C cur and d[h] = cur C y */
    method ProjectVector(ghost basis: seq<seq<real>>, h: nat, cur: array<real>, other: array<real>)
      requires Valid() && Iterating(T(), basis, d[..], e[..], sqc, h, cur[..], other[..])
      requires (cur == u0 && other == u1) || (cur == u1 && other == u0)
      modifies iv, y, d
      ensures forall a :: 0 <= a < h ==> d[a] == old(d[a])
      ensures Iterating(T(), basis, d[..], e[..], sqc, h, cur[..], other[..])
      ensures forall j :: 0 <= j < n ==> y[j] == T().Solve(Q(basis, h), j)
      ensures d[h] == T().Dot(Q(basis, h), Fn(y[..])) == T().Dot(Q(basis, h), Image(T(), Q(basis, h)))
    {
      ApplyRC(cur);
      SolveRoot(T(), Fn(cur[..]));
      var sum := Diagonal(cur);
      d[h] := sum;
      ThreeTermFrame(T(), basis, old(d[..]), e[..], d[..], e[..], h);
      DotCongrRight(T(), Q(basis, h), Fn(y[..]), Image(T(), Q(basis, h)));
    }

    /** Normalizes the residual in y into other, which becomes the next basis vector. */
    method NextVector(ghost basis: seq<seq<real>>, h: nat, ghost image: seq<real>, sum: real,
      cur: array<real>, other: array<real>, root: real -> real)
      requires Valid() && Iterating(T(), basis, d[..], e[..], sqc, h, cur[..], other[..]) && IsSquareRoot(root)
             && sum >= MIN_NORM2
      requires (cur == u0 && other == u1) || (cur == u1 && other == u0)
      requires |image| == n && forall j :: 0 <= j < n ==> image[j] == T().Solve(Q(basis, h), j)
      requires d[h] == T().Dot(Q(basis, h), Fn(image))
      requires IsResidual(T(), basis, d[..], e[..], h, Fn(image), Fn(y[..]))
      requires sum == T().Dot(Fn(y[..]), Fn(y[..]))
      modifies e, other
      ensures forall a :: 0 <= a < h ==> e[a] == old(e[a])
      ensures e[h] > 0.0 && Square(e[h]) >= MIN_NORM2
      ensures Orthonormal(T(), basis + [other[..]])
      ensures ThreeTerm(T(), basis + [other[..]], d[..], e[..], h + 1)
    {
      SetLink(basis, h, image, sum, cur, other, root);
      Link(basis, h, image, other);
    }

    /** y -= d[h]*cur + e[h-1]*other */
    method TakeResidual(ghost basis: seq<seq<real>>, h: nat, cur: array<real>, other: array<real>)
      requires Valid() && Iterating(T(), basis, d[..], e[..], sqc, h, cur[..], other[..])
      requires (cur == u0 && other == u1) || (cur == u1 && other == u0)
      modifies y
      ensures IsResidual(T(), basis, d[..], e[..], h, Fn(old(y[..])), Fn(y[..]))
    {
      var e1 := if h == 0 then 0.0 else e[h - 1];
      Subtract(h, d[h], cur, e1, other);
    }

    /** e[h] = sqrt(sum) */
    method SetLink(ghost basis: seq<seq<real>>, h: nat, ghost image: seq<real>, sum: real,
      cur: array<real>, other: array<real>, root: real -> real)
      requires Valid() && Iterating(T(), basis, d[..], e[..], sqc, h, cur[..], other[..]) && IsSquareRoot(root)
             && sum >= MIN_NORM2
      requires sum == T().Dot(Fn(y[..]), Fn(y[..]))
      requires (cur == u0 && other == u1) || (cur == u1 && other == u0)
      requires IsResidual(T(), basis, d[..], e[..], h, Fn(image), Fn(y[..]))
      modifies e
      ensures forall a :: 0 <= a < h ==> e[a] == old(e[a])
      ensures e[h] > 0.0 && Square(e[h]) >= MIN_NORM2 && IsNorm(T(), e[h], Fn(y[..]))
      ensures Iterating(T(), basis, d[..], e[..], sqc, h, cur[..], other[..])
      ensures IsResidual(T(), basis, d[..], e[..], h, Fn(image), Fn(y[..]))
    {
      e[h] := root(sum);
      RootPositive(root, sum);
      ThreeTermFrame(T(), basis, d[..], old(e[..]), d[..], e[..], h);
    }

    /** other = y / e[h] */
    method Link(ghost basis: seq<seq<real>>, h: nat, ghost image: seq<real>, other: array<real>)
      requires Valid() && (other == u0 || other == u1) && h < MAX_ORDER && |basis| == h + 1
      requires Orthonormal(T(), basis) && ThreeTerm(T(), basis, d[..], e[..], h)
      requires |image| == n && forall j :: 0 <= j < n ==> image[j] == T().Solve(Q(basis, h), j)
      requires d[h] == T().Dot(Q(basis, h), Fn(image))
      requires IsResidual(T(), basis, d[..], e[..], h, Fn(image), Fn(y[..]))
      requires IsNorm(T(), e[h], Fn(y[..]))
      modifies other
      ensures Orthonormal(T(), basis + [other[..]])
      ensures ThreeTerm(T(), basis + [other[..]], d[..], e[..], h + 1)
    {
      hide Orthonormal, ThreeTerm, IsResidual;
      ghost var t, diag, links, res := T(), d[..], e[..], y[..];
      Normalize(e[h], other);
      assert T() == t && d[..] == diag && e[..] == links;
      Extend(t, basis, diag, links, h, Fn(image), Fn(res), other[..]);
    }

    /** u0 = 1/sqrt(ctot) everywhere */
    method Start(root: real -> real)
      requires Valid() && IsSquareRoot(root) && Sum(Fn(c[..]), n) > 0.0
      modifies this, u0
      ensures ctot == Sum(Fn(c[..]), n) && sqc > 0.0 && Square(sqc) == ctot
      ensures order == if n < MAX_ORDER then n else MAX_ORDER
      ensures Valid() && Iterating(T(), [u0[..]], d[..], e[..], sqc, 0, u0[..], u1[..])
      ensures TerminalsRecorded([u0[..]], 0) && LinksKept(d[..], e[..], 0)
    {
      order := if n < MAX_ORDER then n else MAX_ORDER;
      ctot := TotalCapacitance();
      sqc := root(ctot);
      RootPositive(root, ctot);
      var inverse := 1.0 / sqc;
      assert sqc * inverse == 1.0;
      for j := 0 to n
        modifies u0
        invariant forall i :: 0 <= i < j ==> u0[i] == inverse
      {
        u0[j] := inverse;
      }
      FirstVector(T(), sqc, u0[..]);
    }

    /** The basis itself is not kept by the reducer; it is returned as the witness. */
    method MakeRcmodelFromTs(root: real -> real) returns (ghost basis: seq<seq<real>>)
      requires Valid() && IsSquareRoot(root) && Sum(Fn(c[..]), n) > 0.0
      modifies this, iv, y, u0, u1, d, e, U
      ensures Valid() && Reduced(T(), basis, d[..], e[..], sqc, order) && TerminalsRecorded(basis, order)
      ensures ctot == Sum(Fn(c[..]), n) && sqc > 0.0 && Square(sqc) == ctot
    {
      hide Iterating, Reduced, LinksKept, ArnoldiReduce.TerminalsRecorded, Tree.Valid;
      Start(root);
      basis := [u0[..]];
      var cur, other := u0, u1;
      var h := 0;
      while h < order
        invariant Valid() && sqc > 0.0 && Square(sqc) == ctot && ctot == Sum(Fn(c[..]), n)
        invariant 0 <= h < order && order == if n < MAX_ORDER then n else MAX_ORDER
        invariant if h % 2 == 0 then cur == u0 && other == u1 else cur == u1 && other == u0
        invariant Iterating(T(), basis, d[..], e[..], sqc, h, cur[..], other[..])
        invariant TerminalsRecorded(basis, h)
        invariant LinksKept(d[..], e[..], h)
        decreases order - h
      {
        var more := Step(basis, h, cur, other, root);
        if !more {
          break;
        }
        basis := basis + [other[..]];
        if h % 2 == 1 {
          cur, other := u0, u1;
        } else {
          cur, other := u1, u0;
        }
        h := h + 1;
      }
    }

    /** One pass of the iteration: records vector h and either ends the reduction there or
        produces vector h+1 in other. */
    method Step(ghost basis: seq<seq<real>>, h: nat, cur: array<real>, other: array<real>, root: real -> real)
      returns (more: bool)
      requires Valid() && Iterating(T(), basis, d[..], e[..], sqc, h, cur[..], other[..]) && IsSquareRoot(root)
      requires (cur == u0 && other == u1) || (cur == u1 && other == u0)
      requires h < order && order == if n < MAX_ORDER then n else MAX_ORDER
      requires TerminalsRecorded(basis, h) && LinksKept(d[..], e[..], h)
      modifies this`order, iv, y, d, e, U, other
      ensures more ==> h + 1 < order == old(order) && LinksKept(d[..], e[..], h + 1)
      ensures more ==> Iterating(T(), basis + [other[..]], d[..], e[..], sqc, h + 1, other[..], cur[..])
      ensures more ==> TerminalsRecorded(basis + [other[..]], h + 1)
      ensures !more ==> Reduced(T(), basis, d[..], e[..], sqc, order) && TerminalsRecorded(basis, order)
    {
      Project(basis, h, cur, other);
      if h == order - 1 || d[h] < MIN_DIAGONAL {
        if h != order - 1 {
          order := h + 1;
        }
        more := false;
        FinishReduction(T(), basis, d[..], e[..], sqc, h, cur[..], other[..]);
      } else {
        more := AdvanceOrEnd(basis, h, cur, other, root);
      }
    }

    /** Produces vector h+1 in other, or ends the reduction at vector h. */
    method AdvanceOrEnd(ghost basis: seq<seq<real>>, h: nat, cur: array<real>, other: array<real>, root: real -> real)
      returns (more: bool)
      requires Valid() && Iterating(T(), basis, d[..], e[..], sqc, h, cur[..], other[..]) && IsSquareRoot(root)
      requires (cur == u0 && other == u1) || (cur == u1 && other == u0)
      requires forall j :: 0 <= j < n ==> y[j] == T().Solve(Q(basis, h), j)
      requires d[h] == T().Dot(Q(basis, h), Fn(y[..])) == T().Dot(Q(basis, h), Image(T(), Q(basis, h)))
      requires LinksKept(d[..], e[..], h) && d[h] >= MIN_DIAGONAL && h + 1 < MAX_ORDER && h < n
      modifies this`order, y, e, other
      ensures more ==>
                Iterating(T(), basis + [other[..]], d[..], e[..], sqc, h + 1, other[..], cur[..])
                    && LinksKept(d[..], e[..], h + 1)
      ensures more ==> order == old(order)
      ensures !more ==> order == h + 1 && Reduced(T(), basis, d[..], e[..], sqc, order)
    {
      more := Advance(basis, h, cur, other, root);
      if !more {
        FinishReduction(T(), basis, d[..], e[..], sqc, h, cur[..], other[..]);
      }
    }

    /** Takes the residual and, unless it is negligible, makes it the next basis vector. */
    method Advance(ghost basis: seq<seq<real>>, h: nat, cur: array<real>, other: array<real>, root: real -> real)
      returns (more: bool)
      requires Valid() && Iterating(T(), basis, d[..], e[..], sqc, h, cur[..], other[..]) && IsSquareRoot(root)
      requires (cur == u0 && other == u1) || (cur == u1 && other == u0)
      requires forall j :: 0 <= j < n ==> y[j] == T().Solve(Q(basis, h), j)
      requires d[h] == T().Dot(Q(basis, h), Fn(y[..]))
      requires LinksKept(d[..], e[..], h) && d[h] >= MIN_DIAGONAL && h + 1 < MAX_ORDER && h < n
      modifies this`order, y, e, other
      ensures more ==>
                Iterating(T(), basis + [other[..]], d[..], e[..], sqc, h + 1, other[..], cur[..])
                    && LinksKept(d[..], e[..], h + 1)
      ensures more ==> order == old(order)
      ensures !more ==> order == h + 1 && e[..] == old(e[..]) && other[..] == old(other[..])
                        && SmallResidual(T(), basis, d[..], e[..], h)
    {
      ghost var image := y[..];
      TakeResidual(basis, h, cur, other);
      var sum := Norm2();
      more := sum >= MIN_NORM2;
      if more {
        NextVector(basis, h, image, sum, cur, other, root);
        StartsConstantExtend(T(), basis, other[..], sqc);
      } else {
        ResidualNorm(T(), basis, d[..], e[..], h, Fn(image), Fn(y[..]));
        order := h + 1;
      }
    }
  }
}
