/** The timing arcs that a combinational path of a cell gets, from its timing sense or, when
    none is given, from the function of its output. */
module CombinationalArcs {
  import opened FuncExpr

  datatype Edge = Rise | Fall

  function Other(e: Edge): Edge { if e.Rise? then Fall else Rise }

  /** An arc from an edge of the input to an edge of the output, with that edge's model. */
  datatype Arc = Arc(from: Edge, to: Edge, model: int)

  datatype Option<T> = None | Some(value: T)

  /** The sense and the models that the library gives for the path. */
  datatype Attrs = Attrs(sense: Sense, riseModel: Option<int>, fallModel: Option<int>) {
    function Model(to: Edge): Option<int> { if to.Rise? then riseModel else fallModel }
  }

  /** What is known about the output: its function, and its enable if it is a tristate. */
  datatype Output<P> = Output(func: Expr<P>, isTristate: bool, enable: Expr<P>)

  /** The sense that decides the arcs. */
  function DecidingSense<P(==)>(out: Output<P>, from: P, attrs: Attrs): Sense {
    if attrs.sense != Unknown then attrs.sense
    else if HasPort(out.func, from) then PortTimingSense(out.func, from)
    else if out.isTristate && HasPort(out.enable, from) then NonUnate
    else Unknown
  }

  predicate Requested(to: Edge, toRise: bool, toFall: bool) { if to.Rise? then toRise else toFall }

  /** The edges of the output that may follow an edge of the input under a sense. */
  predicate Allows(s: Sense, from: Edge, to: Edge) {
    match s
    case PositiveUnate => from == to
    case NegativeUnate => from != to
    case _ => true
  }

  ghost predicate Distinct(arcs: seq<Arc>) {
    forall i, j :: 0 <= i < j < |arcs| ==> arcs[i] != arcs[j]
  }

  /** Exactly the arcs that the sense allows, that are requested and that have a model. */
  ghost predicate Complies(arcs: seq<Arc>, s: Sense, toRise: bool, toFall: bool, attrs: Attrs) {
    && Distinct(arcs)
    && forall from, to, m {:trigger Arc(from, to, m)} :: Arc(from, to, m) in arcs <==>
         Allows(s, from, to) && Requested(to, toRise, toFall) && attrs.Model(to) == Some(m)
  }

  /** The arcs between the pairs of edges in made. */
  ghost predicate Made(arcs: seq<Arc>, made: set<(Edge, Edge)>, attrs: Attrs) {
    && Distinct(arcs)
    && forall from, to, m {:trigger Arc(from, to, m)} :: Arc(from, to, m) in arcs <==>
         (from, to) in made && attrs.Model(to) == Some(m)
  }

  method MakeArc(arcs: seq<Arc>, from: Edge, to: Edge, attrs: Attrs, ghost made: set<(Edge,
                 Edge)>) returns (more: seq<Arc>)
    requires Made(arcs, made, attrs) && (from, to) !in made
    ensures Made(more, made + {(from, to)}, attrs)
  {
    more := arcs;
    var model := attrs.Model(to);
    if model.Some? {
      assert Arc(from, to, model.value) !in arcs;
      more := more + [Arc(from, to, model.value)];
      assert forall arc :: arc in more <==> arc in arcs || arc == Arc(from, to, model.value);
    }
  }

  function Pairs(froms: seq<Edge>, to: Edge, requested: bool): set<(Edge, Edge)>
    requires 1 <= |froms| <= 2
  {
    if !requested then {} else if |froms| == 1 then {(froms[0], to)} else {(froms[0], to), (froms[1], to)}
  }

  /** Makes the arcs from the given edges to an edge of the output, if it is requested. */
  method MakeRequested(arcs: seq<Arc>, froms: seq<Edge>, to: Edge, requested: bool, attrs: Attrs,
                       ghost made: set<(Edge, Edge)>)
    returns (more: seq<Arc>)
    requires Made(arcs, made, attrs) && 1 <= |froms| <= 2 && (|froms| == 2 ==> froms[0] != froms[1])
    requires forall from :: (from, to) !in made
    ensures Made(more, made + Pairs(froms, to, requested), attrs)
  {
    more := arcs;
    if requested {
      more := MakeArc(more, froms[0], to, attrs, made);
      if |froms| == 2 {
        more := MakeArc(more, froms[1], to, attrs, made + {(froms[0], to)});
        assert made + {(froms[0], to)} + {(froms[1], to)} == made + Pairs(froms, to, requested);
      }
    } else {
      assert made + {} == made;
    }
  }

  method MakeCombinationalArcs<P(==)>(out: Output<P>, from: P, toRise: bool, toFall: bool,
                                      attrs: Attrs) returns (arcs: seq<Arc>)
    ensures Complies(arcs, DecidingSense(out, from, attrs), toRise, toFall, attrs)
    ensures attrs.sense != Unknown ==> Follows(arcs, attrs.sense, toRise, toFall, attrs)
    ensures attrs.sense == Unknown && HasPort(out.func, from) ==>
              Follows(arcs, PortTimingSense(out.func, from), toRise, toFall, attrs)
    ensures attrs.sense == Unknown && !HasPort(out.func, from) ==> Follows(arcs, NonUnate, toRise, toFall, attrs)
  {
    var sense := attrs.sense;
    if sense == Unknown {
      if HasPort(out.func, from) {
        sense := PortTimingSense(out.func, from);
      } else if out.isTristate && HasPort(out.enable, from) {
        sense := NonUnate;
      }
    }
    arcs := MakeSenseArcs(sense, toRise, toFall, attrs);
    CompliesFollows(arcs, sense, toRise, toFall, attrs);
    SenseOfOccurring(out.func, from);
  }

  /** The arcs are those to an output edge that is requested, with its model, between equal
      edges only if the sense is positive unate and between opposite ones only if it is negative
      unate. */
  ghost predicate Follows(arcs: seq<Arc>, s: Sense, toRise: bool, toFall: bool, attrs: Attrs) {
    forall from, to, m {:trigger Arc(from, to, m)} :: Arc(from, to, m) in arcs <==>
      && ((to == Rise && toRise && attrs.riseModel == Some(m)) || (to == Fall && toFall && attrs.fallModel == Some(m)))
      && (s == PositiveUnate ==> from == to) && (s == NegativeUnate ==> from != to)
  }

  lemma CompliesFollows(arcs: seq<Arc>, s: Sense, toRise: bool, toFall: bool, attrs: Attrs)
    requires Complies(arcs, s, toRise, toFall, attrs)
    ensures Follows(arcs, s, toRise, toFall, attrs)
    ensures s in {Unknown, NoSense} ==> Follows(arcs, NonUnate, toRise, toFall, attrs)
  {
  }

  /** With a sense given, the library's word is taken: the arcs go between equal edges if it is
      positive unate, between opposite ones if it is negative unate, and between all otherwise;
      without one, and without the input in the function, they go between all edges. */
  lemma GivenSense<P>(out: Output<P>, from: P, toRise: bool, toFall: bool, attrs: Attrs, arcs: seq<Arc>, arc: Arc)
    requires Complies(arcs, DecidingSense(out, from, attrs), toRise, toFall, attrs)
    requires attrs.sense != Unknown || !HasPort(out.func, from)
    ensures arc in arcs <==>
            && (if arc.to.Rise? then toRise else toFall)
            && (if arc.to.Rise? then attrs.riseModel else attrs.fallModel) == Some(arc.model)
            && (attrs.sense == PositiveUnate ==> arc.from == arc.to)
            && (attrs.sense == NegativeUnate ==> arc.from != arc.to)
  {
    assert arc == Arc(arc.from, arc.to, arc.model);
  }

  lemma AllowedPairs(sense: Sense, toRise: bool, toFall: bool, rises: set<(Edge, Edge)>, falls: set<(Edge, Edge)>)
    requires rises == if !toRise then {}
                      else if sense == PositiveUnate then {(Rise, Rise)}
                      else if sense == NegativeUnate then {(Fall, Rise)}
                      else {(Rise, Rise), (Fall, Rise)}
    requires falls == if !toFall then {}
                      else if sense == PositiveUnate then {(Fall, Fall)}
                      else if sense == NegativeUnate then {(Rise, Fall)}
                      else {(Fall, Fall), (Rise, Fall)}
    ensures forall from, to {:trigger (from, to)} ::
              (from, to) in falls + rises <==> Allows(sense, from, to) && Requested(to, toRise, toFall)
  {
    forall from, to
      ensures (from, to) in falls + rises <==> Allows(sense, from, to) && Requested(to, toRise, toFall)
    {
      assert (from == Rise || from == Fall) && (to == Rise || to == Fall);
    }
  }

  method MakeSenseArcs(sense: Sense, toRise: bool, toFall: bool, attrs: Attrs) returns (arcs: seq<Arc>)
    ensures Complies(arcs, sense, toRise, toFall, attrs)
  {
    ghost var rises, falls;
    match sense {
      case PositiveUnate =>
        arcs := MakeRequested([], [Rise], Rise, toRise, attrs, {});
        rises := Pairs([Rise], Rise, toRise);
        arcs := MakeRequested(arcs, [Fall], Fall, toFall, attrs, {} + rises);
        falls := Pairs([Fall], Fall, toFall);
        assert Made(arcs, {} + rises + falls, attrs);
      case NegativeUnate =>
        arcs := MakeRequested([], [Rise], Fall, toFall, attrs, {});
        falls := Pairs([Rise], Fall, toFall);
        arcs := MakeRequested(arcs, [Fall], Rise, toRise, attrs, {} + falls);
        rises := Pairs([Fall], Rise, toRise);
        assert Made(arcs, {} + falls + rises, attrs);
      case _ =>
        arcs := MakeRequested([], [Fall, Rise], Fall, toFall, attrs, {});
        falls := Pairs([Fall, Rise], Fall, toFall);
        arcs := MakeRequested(arcs, [Rise, Fall], Rise, toRise, attrs, {} + falls);
        rises := Pairs([Rise, Fall], Rise, toRise);
        assert Made(arcs, {} + falls + rises, attrs);
    }
    AllowedPairs(sense, toRise, toFall, rises, falls);
  }

  // ---------------------------------------------------------------------------
  // Coverage

  /** The edge of the input, with the other inputs as in v, causes the edge of the output. */
  predicate Causes<P(==)>(func: Expr<P>, v: P -> bool, missing: bool, port: P, from: Edge, to: Edge) {
    if from == to then Rises(func, v, missing, port) else Falls(func, v, missing, port)
  }

  lemma CausedIsAllowed<P>(func: Expr<P>, v: P -> bool, missing: bool, port: P, from: Edge, to: Edge)
    requires Causes(func, v, missing, port, from, to)
    ensures Allows(PortTimingSense(func, port), from, to) && HasPort(func, port)
  {
    SenseSound(func, port, v, missing);
    SenseOfOccurring(func, port);
  }

  /** With no sense given, every edge of the output that some assignment of the other inputs
      lets an edge of the input cause has its arc, if it is requested and has a model. */
  lemma EveryCauseHasArc<P>(out: Output<P>, from: P, toRise: bool, toFall: bool, attrs: Attrs, arcs: seq<Arc>,
                            v: P -> bool, missing: bool, fromEdge: Edge, toEdge: Edge)
    requires Complies(arcs, DecidingSense(out, from, attrs), toRise, toFall, attrs) && attrs.sense == Unknown
    requires Causes(out.func, v, missing, from, fromEdge, toEdge)
    requires Requested(toEdge, toRise, toFall) && attrs.Model(toEdge).Some?
    ensures Arc(fromEdge, toEdge, attrs.Model(toEdge).value) in arcs
  {
    CausedIsAllowed(out.func, v, missing, from, fromEdge, toEdge);
  }

  /** An arc that joins opposite edges if up, or the same edges otherwise. */
  predicate AgainstWay(arc: Arc, up: bool) { (arc.from != arc.to) == up }

  /** The function never falls when the port rises if up, and never rises otherwise. */
  ghost predicate Unate<P(!new)>(func: Expr<P>, port: P, up: bool) {
    forall v, missing {:trigger Causes(func, v, missing, port, Rise, WrongEdge(up))} ::
      !Causes(func, v, missing, port, Rise, WrongEdge(up))
  }

  function WrongEdge(up: bool): Edge { if up then Fall else Rise }

  /** Some edge of the output is requested and has a model. */
  predicate AnyRequested(toRise: bool, toFall: bool, attrs: Attrs) {
    (toRise && attrs.riseModel.Some?) || (toFall && attrs.fallModel.Some?)
  }

  /** No edge of the input causes an edge of the output the wrong way. */
  lemma NothingCausesWrong<P(!new)>(func: Expr<P>, port: P, up: bool, v: P -> bool, missing: bool, arc: Arc)
    requires Unate(func, port, up) && AgainstWay(arc, up)
    ensures !Causes(func, v, missing, port, arc.from, arc.to)
  {
    assert !Causes(func, v, missing, port, Rise, WrongEdge(up));
  }

  /** A function that is unate gets no arc of the wrong polarity exactly when the analysis finds
      it unate that way, or nothing is requested that has a model; nothing causes the ones that
      it does get. */
  lemma WrongPolarityExactly<P(!new)>(out: Output<P>, from: P, toRise: bool, toFall: bool, attrs: Attrs, arcs: seq<Arc>,
                                up: bool)
    requires Complies(arcs, DecidingSense(out, from, attrs), toRise, toFall, attrs) && attrs.sense == Unknown
    requires HasPort(out.func, from) && Unate(out.func, from, up)
    ensures (forall arc {:trigger arc in arcs} :: arc in arcs ==> !AgainstWay(arc, up)) <==>
            PortTimingSense(out.func, from) == (if up then PositiveUnate else NegativeUnate)
            || !AnyRequested(toRise, toFall, attrs)
    ensures forall arc, v, missing {:trigger Causes(out.func, v, missing, from, arc.from, arc.to)} ::
              arc in arcs && AgainstWay(arc, up) ==> !Causes(out.func, v, missing, from, arc.from, arc.to)
  {
    forall arc, v, missing | arc in arcs && AgainstWay(arc, up)
      ensures !Causes(out.func, v, missing, from, arc.from, arc.to)
    {
      NothingCausesWrong(out.func, from, up, v, missing, arc);
    }
    var sense := PortTimingSense(out.func, from);
    SenseOfOccurring(out.func, from);
    if sense == (if up then PositiveUnate else NegativeUnate) || !AnyRequested(toRise, toFall, attrs) {
      forall arc | arc in arcs
        ensures !AgainstWay(arc, up)
      {
        assert Arc(arc.from, arc.to, arc.model) in arcs;
      }
    } else {
      var to := if toRise && attrs.riseModel.Some? then Rise else Fall;
      var wrong := Arc(if up then Other(to) else to, to, attrs.Model(to).value);
      assert wrong in arcs && AgainstWay(wrong, up);
    }
  }

  /** For functions in which no port occurs twice the arcs are exactly those that are requested,
      have a model, and that some assignment of the other inputs causes. */
  lemma ReadOnceArcs<P>(out: Output<P>, from: P, toRise: bool, toFall: bool, attrs: Attrs, arcs: seq<Arc>, arc: Arc)
    requires Complies(arcs, DecidingSense(out, from, attrs), toRise, toFall, attrs) && attrs.sense == Unknown
    requires ReadOnce(out.func) && HasPort(out.func, from)
    ensures arc in arcs <==>
              && Requested(arc.to, toRise, toFall) && attrs.Model(arc.to) == Some(arc.model)
              && exists v, missing :: Causes(out.func, v, missing, from, arc.from, arc.to)
  {
    assert arc == Arc(arc.from, arc.to, arc.model);
    SenseOfOccurring(out.func, from);
    var up := arc.from == arc.to;
    if Allows(PortTimingSense(out.func, from), arc.from, arc.to) {
      var v := SenseReached(out.func, from, up, false);
      assert Causes(out.func, v, false, from, arc.from, arc.to);
    }
    if v, missing :| Causes(out.func, v, missing, from, arc.from, arc.to) {
      CausedIsAllowed(out.func, v, missing, from, arc.from, arc.to);
    }
  }

  /** b or (not b and a) */
  function Redundant(): Expr<string> {
    Or(Port("b"), And(Not(Port("b")), Port("a")))
  }

  /** It never falls when b rises, but the analysis finds it non-unate, so it gets an arc from
      the fall of b to its own rise, which nothing can cause. */
  lemma RedundantArc(attrs: Attrs, arcs: seq<Arc>)
    requires attrs.sense == Unknown && attrs.riseModel.Some?
    requires Complies(arcs, DecidingSense(Output(Redundant(), false, Missing), "b", attrs), true, true, attrs)
    ensures Unate(Redundant(), "b", true) && PortTimingSense(Redundant(), "b") == NonUnate
    ensures Arc(Fall, Rise, attrs.riseModel.value) in arcs
    ensures forall v, missing :: !Causes(Redundant(), v, missing, "b", Fall, Rise)
  {
  }

  /** With no sense given, a function found unate gets no arc that no assignment can cause the
      other way around. */
  lemma NoWrongPolarity<P>(out: Output<P>, from: P, toRise: bool, toFall: bool, attrs: Attrs, arcs: seq<Arc>, arc: Arc)
    requires Complies(arcs, DecidingSense(out, from, attrs), toRise, toFall, attrs) && attrs.sense == Unknown
    requires PortTimingSense(out.func, from) in {PositiveUnate, NegativeUnate} && arc in arcs
    ensures PortTimingSense(out.func, from) == (if arc.from == arc.to then PositiveUnate else NegativeUnate)
    ensures forall v, missing :: !Causes(out.func, v, missing, from, Other(arc.from), arc.to)
  {
    SenseOfOccurring(out.func, from);
    assert Arc(arc.from, arc.to, arc.model) in arcs;
    forall v, missing
      ensures !Causes(out.func, v, missing, from, Other(arc.from), arc.to)
    {
      SenseSound(out.func, from, v, missing);
    }
  }
}
