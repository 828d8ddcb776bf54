/** Boolean functions of cell outputs: their value, how they depend on a port, and their
    printed form. */
module FuncExpr {

  /** Expressions over ports of any kind.  Missing stands for a sub-expression that could not
      be resolved. */
  datatype Expr<P> =
    | Missing
    | Port(port: P)
    | Not(left: Expr<P>)
    | Or(left: Expr<P>, right: Expr<P>)
    | And(left: Expr<P>, right: Expr<P>)
    | Xor(left: Expr<P>, right: Expr<P>)
    | One
    | Zero

  datatype Sense = PositiveUnate | NegativeUnate | NonUnate | NoSense | Unknown

  predicate HasPort<P(==)>(e: Expr<P>, port: P) {
    match e
    case Port(p) => p == port
    case Not(l) => HasPort(l, port)
    case Or(l, r) => HasPort(l, port) || HasPort(r, port)
    case And(l, r) => HasPort(l, port) || HasPort(r, port)
    case Xor(l, r) => HasPort(l, port) || HasPort(r, port)
    case _ => false
  }

  function PortTimingSense<P(==)>(e: Expr<P>, port: P): Sense {
    match e
    case Port(p) => if p == port then PositiveUnate else NoSense
    case Not(l) => Opposite(PortTimingSense(l, port))
    case Or(l, r) => Merged(PortTimingSense(l, port), PortTimingSense(r, port))
    case And(l, r) => Merged(PortTimingSense(l, port), PortTimingSense(r, port))
    case Xor(l, r) =>
      if Depends(PortTimingSense(l, port)) || Depends(PortTimingSense(r, port)) then NonUnate else Unknown
    case One => NoSense
    case Zero => NoSense
    case Missing => Unknown
  }

  predicate Depends(s: Sense) { s in {PositiveUnate, NegativeUnate, NonUnate} }

  function Opposite(s: Sense): Sense {
    match s
    case PositiveUnate => NegativeUnate
    case NegativeUnate => PositiveUnate
    case _ => s
  }

  function Merged(l: Sense, r: Sense): Sense {
    if l == r then l
    else if l == NonUnate || r == NonUnate
            || (l == PositiveUnate && r == NegativeUnate) || (l == NegativeUnate && r == PositiveUnate) then NonUnate
    else if l == NoSense || l == Unknown then r
    else if r == NoSense || r == Unknown then l
    else Unknown
  }

  // ---------------------------------------------------------------------------
  // Meaning

  /** The value under an assignment; missing sub-expressions may have any one value. */
  function Value<P>(e: Expr<P>, v: P -> bool, missing: bool): bool {
    match e
    case Missing => missing
    case Port(p) => v(p)
    case Not(l) => !Value(l, v, missing)
    case Or(l, r) => Value(l, v, missing) || Value(r, v, missing)
    case And(l, r) => Value(l, v, missing) && Value(r, v, missing)
    case Xor(l, r) => Value(l, v, missing) != Value(r, v, missing)
    case One => true
    case Zero => false
  }

  /** The assignment with one port set. */
  function Set<P(==)>(v: P -> bool, port: P, b: bool): P -> bool {
    p => if p == port then b else v(p)
  }

  /** The function may rise, or fall, when the port rises. */
  predicate Rises<P(==)>(e: Expr<P>, v: P -> bool, missing: bool, port: P) {
    !Value(e, Set(v, port, false), missing) && Value(e, Set(v, port, true), missing)
  }

  predicate Falls<P(==)>(e: Expr<P>, v: P -> bool, missing: bool, port: P) {
    Value(e, Set(v, port, false), missing) && !Value(e, Set(v, port, true), missing)
  }

  /** What a sense promises about the function of the port under one assignment. */
  predicate Keeps<P(==)>(s: Sense, e: Expr<P>, v: P -> bool, missing: bool, port: P) {
    match s
    case PositiveUnate => !Falls(e, v, missing, port)
    case NegativeUnate => !Rises(e, v, missing, port)
    case NonUnate => true
    case _ => !Rises(e, v, missing, port) && !Falls(e, v, missing, port)
  }

  /** The computed sense is right: a positive unate function never falls when the port rises,
      a negative unate one never rises, and one without a sense does not change. */
  lemma {:induction false} SenseSound<P>(e: Expr<P>, port: P, v: P -> bool, missing: bool)
    ensures Keeps(PortTimingSense(e, port), e, v, missing, port)
  {
    match e
    case Not(l) => SenseSound(l, port, v, missing);
    case Or(l, r) =>
      SenseSound(l, port, v, missing);
      SenseSound(r, port, v, missing);
    case And(l, r) =>
      SenseSound(l, port, v, missing);
      SenseSound(r, port, v, missing);
    case Xor(l, r) =>
      SenseSound(l, port, v, missing);
      SenseSound(r, port, v, missing);
    case _ =>
  }

  /** There is no sense exactly when the port does not occur. */
  lemma {:induction false} SenseOfOccurring<P>(e: Expr<P>, port: P)
    ensures Depends(PortTimingSense(e, port)) <==> HasPort(e, port)
  {
    match e
    case Not(l) => SenseOfOccurring(l, port);
    case Or(l, r) =>
      SenseOfOccurring(l, port);
      SenseOfOccurring(r, port);
    case And(l, r) =>
      SenseOfOccurring(l, port);
      SenseOfOccurring(r, port);
    case Xor(l, r) =>
      SenseOfOccurring(l, port);
      SenseOfOccurring(r, port);
    case _ =>
  }

  /** Whether the port occurs under an even (true) and under an odd (false) number of
      inversions; an exclusive or counts as both. */
  function Ways<P(==)>(e: Expr<P>, port: P): set<bool> {
    match e
    case Port(p) => if p == port then {true} else {}
    case Not(l) => set b | b in Ways(l, port) :: !b
    case Or(l, r) => Ways(l, port) + Ways(r, port)
    case And(l, r) => Ways(l, port) + Ways(r, port)
    case Xor(l, r) => if Ways(l, port) + Ways(r, port) == {} then {} else {true, false}
    case _ => {}
  }

  /** The sense says how often inversions stand over the port: always an even number of times,
      always an odd number, both, or never. */
  lemma {:induction false} SenseByInversions<P>(e: Expr<P>, port: P)
    ensures PortTimingSense(e, port) == PositiveUnate <==> Ways(e, port) == {true}
    ensures PortTimingSense(e, port) == NegativeUnate <==> Ways(e, port) == {false}
    ensures PortTimingSense(e, port) == NonUnate <==> Ways(e, port) == {true, false}
    ensures PortTimingSense(e, port) in {NoSense, Unknown} <==> Ways(e, port) == {}
  {
    match e
    case Not(l) =>
      SenseByInversions(l, port);
      Inverted(Ways(l, port), Ways(e, port));
    case Or(l, r) =>
      SenseByInversions(l, port);
      SenseByInversions(r, port);
      Joint(Ways(l, port), Ways(r, port));
    case And(l, r) =>
      SenseByInversions(l, port);
      SenseByInversions(r, port);
      Joint(Ways(l, port), Ways(r, port));
    case Xor(l, r) =>
      SenseByInversions(l, port);
      SenseByInversions(r, port);
      Joint(Ways(l, port), Ways(r, port));
    case _ =>
  }

  lemma FourSets(s: set<bool>)
    ensures s == {} || s == {true} || s == {false} || s == {true, false}
    ensures true !in s && false !in s ==> s == {}
    ensures true in s && false !in s ==> s == {true}
    ensures true !in s && false in s ==> s == {false}
    ensures true in s && false in s ==> s == {true, false}
  {
    if true in s && false in s {
      SameBits(s, {true, false});
    } else if true in s {
      SameBits(s, {true});
    } else if false in s {
      SameBits(s, {false});
    } else {
      SameBits(s, {});
    }
  }

  lemma SameBits(s: set<bool>, t: set<bool>)
    requires (true in s <==> true in t) && (false in s <==> false in t)
    ensures s == t
  {
    forall b
      ensures b in s <==> b in t
    {
      if b {
        assert b == true;
      } else {
        assert b == false;
      }
    }
  }

  lemma Inverted(s: set<bool>, t: set<bool>)
    requires t == set b | b in s :: !b
    ensures s == {} <==> t == {}
    ensures s == {true} <==> t == {false}
    ensures s == {false} <==> t == {true}
    ensures s == {true, false} <==> t == {true, false}
  {
    FourSets(s);
    FourSets(t);
    assert true in s ==> !true in t;
    assert false in s ==> !false in t;
    assert true in t <==> false in s;
    assert false in t <==> true in s;
  }

  lemma Joint(s: set<bool>, t: set<bool>)
    ensures true in s + t <==> true in s || true in t
    ensures s + t == {} <==> s == {} && t == {}
    ensures s + t == {true} <==> (s == {true} && t in {{}, {true}}) || (s == {} && t == {true})
    ensures s + t == {false} <==> (s == {false} && t in {{}, {false}}) || (s == {} && t == {false})
  {
    FourSets(s);
    FourSets(t);
    FourSets(s + t);
    assert true in s + t <==> true in s || true in t;
    assert false in s + t <==> false in s || false in t;
  }

  // ---------------------------------------------------------------------------
  // Where the analysis is exact

  function Ports<P>(e: Expr<P>): set<P> {
    match e
    case Port(p) => {p}
    case Not(l) => Ports(l)
    case Or(l, r) => Ports(l) + Ports(r)
    case And(l, r) => Ports(l) + Ports(r)
    case Xor(l, r) => Ports(l) + Ports(r)
    case _ => {}
  }

  lemma {:induction false} PortsAre<P>(e: Expr<P>, port: P)
    ensures port in Ports(e) <==> HasPort(e, port)
  {
    match e
    case Not(l) => PortsAre(l, port);
    case Or(l, r) =>
      PortsAre(l, port);
      PortsAre(r, port);
    case And(l, r) =>
      PortsAre(l, port);
      PortsAre(r, port);
    case Xor(l, r) =>
      PortsAre(l, port);
      PortsAre(r, port);
    case _ =>
  }

  /** No port occurs twice, no operand is missing and none is a constant. */
  predicate ReadOnce<P(==)>(e: Expr<P>) {
    match e
    case Port(p) => true
    case Not(l) => ReadOnce(l)
    case Or(l, r) => ReadOnce(l) && ReadOnce(r) && Ports(l) !! Ports(r)
    case And(l, r) => ReadOnce(l) && ReadOnce(r) && Ports(l) !! Ports(r)
    case Xor(l, r) => ReadOnce(l) && ReadOnce(r) && Ports(l) !! Ports(r)
    case _ => false
  }

  /** The value depends on the ports that occur only. */
  lemma {:induction false} ValueOfPorts<P>(e: Expr<P>, v: P -> bool, w: P -> bool, missing: bool)
    requires forall p :: p in Ports(e) ==> v(p) == w(p)
    ensures Value(e, v, missing) == Value(e, w, missing)
  {
    match e
    case Not(l) => ValueOfPorts(l, v, w, missing);
    case Or(l, r) =>
      ValueOfPorts(l, v, w, missing);
      ValueOfPorts(r, v, w, missing);
    case And(l, r) =>
      ValueOfPorts(l, v, w, missing);
      ValueOfPorts(r, v, w, missing);
    case Xor(l, r) =>
      ValueOfPorts(l, v, w, missing);
      ValueOfPorts(r, v, w, missing);
    case _ =>
  }

  /** The assignment v on the ports of e, and w elsewhere. */
  function Joined<P(==)>(e: Expr<P>, v: P -> bool, w: P -> bool): P -> bool {
    var ports := Ports(e);
    p => if p in ports then v(p) else w(p)
  }

  /** Assignments to disjoint operands can be made together. */
  lemma JoinedValues<P>(l: Expr<P>, r: Expr<P>, v: P -> bool, w: P -> bool, missing: bool)
    requires Ports(l) !! Ports(r)
    ensures Value(l, Joined(l, v, w), missing) == Value(l, v, missing)
    ensures Value(r, Joined(l, v, w), missing) == Value(r, w, missing)
  {
    ValueOfPorts(l, Joined(l, v, w), v, missing);
    ValueOfPorts(r, Joined(l, v, w), w, missing);
  }

  /** A read-once function takes either value. */
  lemma {:induction false} Attains<P>(e: Expr<P>, b: bool, missing: bool) returns (v: P -> bool)
    requires ReadOnce(e)
    ensures Value(e, v, missing) == b
  {
    match e
    case Port(p) => v := _ => b;
    case Not(l) => v := Attains(l, !b, missing);
    case Or(l, r) =>
      var x := Attains(l, b, missing);
      var y := Attains(r, b, missing);
      JoinedValues(l, r, x, y, missing);
      v := Joined(l, x, y);
    case And(l, r) =>
      var x := Attains(l, b, missing);
      var y := Attains(r, b, missing);
      JoinedValues(l, r, x, y, missing);
      v := Joined(l, x, y);
    case Xor(l, r) =>
      var x := Attains(l, b, missing);
      var y := Attains(r, false, missing);
      JoinedValues(l, r, x, y, missing);
      v := Joined(l, x, y);
  }

  /** The function rises, or falls, with the port under v. */
  predicate Moves<P(==)>(e: Expr<P>, v: P -> bool, missing: bool, port: P, up: bool) {
    if up then Rises(e, v, missing, port) else Falls(e, v, missing, port)
  }

  /** A sense that leaves the direction open. */
  predicate Admits(s: Sense, up: bool) {
    s == NonUnate || s == (if up then PositiveUnate else NegativeUnate)
  }

  /** One operand moves with the port, and the other one, where the port does not occur, is
      held at a value. */
  lemma HeldOperand<P>(l: Expr<P>, r: Expr<P>, v: P -> bool, w: P -> bool, missing: bool, port: P, up: bool)
    requires Ports(l) !! Ports(r) && !HasPort(r, port) && Moves(l, v, missing, port, up)
    ensures Moves(l, Joined(l, v, w), missing, port, up)
    ensures forall b :: Value(r, Set(Joined(l, v, w), port, b), missing) == Value(r, w, missing)
  {
    PortsAre(r, port);
    forall b
      ensures Value(r, Set(Joined(l, v, w), port, b), missing) == Value(r, w, missing)
      ensures Value(l, Set(Joined(l, v, w), port, b), missing) == Value(l, Set(v, port, b), missing)
    {
      ValueOfPorts(r, Set(Joined(l, v, w), port, b), w, missing);
      ValueOfPorts(l, Set(Joined(l, v, w), port, b), Set(v, port, b), missing);
    }
  }

  /** A read-once function does move in every direction that its sense leaves open. */
  lemma {:induction false} SenseReached<P>(e: Expr<P>, port: P, up: bool, missing: bool) returns (v: P -> bool)
    requires ReadOnce(e) && Admits(PortTimingSense(e, port), up)
    ensures Moves(e, v, missing, port, up)
    decreases e, 1
  {
    SenseOfOccurring(e, port);
    match e
    case Port(p) => v := _ => false;
    case Not(l) => v := SenseReached(l, port, !up, missing);
    case Or(l, r) => v := OperandReached(e, l, r, port, up, false, missing);
    case And(l, r) => v := OperandReached(e, l, r, port, up, true, missing);
    case Xor(l, r) =>
      PortsAre(l, port);
      PortsAre(r, port);
      SenseOfOccurring(l, port);
      SenseOfOccurring(r, port);
      var (m, o) := if HasPort(l, port) then (l, r) else (r, l);
      var way := Admits(PortTimingSense(m, port), true);
      var x := SenseReached(m, port, way, missing);
      var y := Attains(o, way != up, missing);
      HeldOperand(m, o, x, y, missing, port, way);
      v := Joined(m, x, y);
  }

  /** The same through an operand of e, with the other one held where it does not matter. */
  lemma {:induction false} OperandReached<P>(e: Expr<P>, l: Expr<P>, r: Expr<P>, port: P, up: bool, held: bool,
                                             missing: bool)
    returns (v: P -> bool)
    requires ReadOnce(e) && e == (if held then And(l, r) else Or(l, r)) && Admits(PortTimingSense(e, port), up)
    ensures Moves(e, v, missing, port, up)
    decreases e, 0
  {
    PortsAre(l, port);
    PortsAre(r, port);
    SenseOfOccurring(e, port);
    SenseOfOccurring(l, port);
    SenseOfOccurring(r, port);
    var (m, o) := if HasPort(l, port) then (l, r) else (r, l);
    var x := SenseReached(m, port, up, missing);
    var y := Attains(o, held, missing);
    HeldOperand(m, o, x, y, missing, port, up);
    v := Joined(m, x, y);
  }

  /** For them the analysis is exact: the sense is positive unate, or negative unate, exactly
      when the port occurs and the function never falls, or rises, with it. */
  lemma ReadOnceExact<P>(e: Expr<P>, port: P, missing: bool)
    requires ReadOnce(e) && HasPort(e, port)
    ensures PortTimingSense(e, port) == PositiveUnate <==> forall v :: !Falls(e, v, missing, port)
    ensures PortTimingSense(e, port) == NegativeUnate <==> forall v :: !Rises(e, v, missing, port)
  {
    SenseOfOccurring(e, port);
    forall v
      ensures PortTimingSense(e, port) == PositiveUnate ==> !Falls(e, v, missing, port)
      ensures PortTimingSense(e, port) == NegativeUnate ==> !Rises(e, v, missing, port)
    {
      SenseSound(e, port, v, missing);
    }
    if PortTimingSense(e, port) != PositiveUnate {
      var v := SenseReached(e, port, false, missing);
      assert Falls(e, v, missing, port);
    }
    if PortTimingSense(e, port) != NegativeUnate {
      var v := SenseReached(e, port, true, missing);
      assert Rises(e, v, missing, port);
    }
  }

  /** Every operand is there. */
  predicate Complete<P>(e: Expr<P>) {
    match e
    case Missing => false
    case Not(l) => Complete(l)
    case Or(l, r) => Complete(l) && Complete(r)
    case And(l, r) => Complete(l) && Complete(r)
    case Xor(l, r) => Complete(l) && Complete(r)
    case _ => true
  }

  // ---------------------------------------------------------------------------
  // Printing

  const OPERATORS: seq<char> := ['!', '+', '*', '^', '(', ')']

  function Print(e: Expr<string>, parens: bool): string {
    match e
    case Missing => "?"
    case Port(p) => p
    case Not(l) => "!" + Print(l, true)
    case Or(l, r) => Infix(Print(l, true), '+', Print(r, true), parens)
    case And(l, r) => Infix(Print(l, true), '*', Print(r, true), parens)
    case Xor(l, r) => Infix(Print(l, true), '^', Print(r, true), parens)
    case One => "1"
    case Zero => "0"
  }

  function Infix(l: string, op: char, r: string, parens: bool): string {
    if parens then ['('] + l + [op] + r + [')'] else l + [op] + r
  }

  function ToString(e: Expr<string>): string { Print(e, false) }

  /** Port names that cannot be taken for anything else. */
  predicate PlainName(p: string) {
    && |p| > 0 && p != "0" && p != "1"
    && forall i {:trigger p[i]} :: 0 <= i < |p| ==> p[i] !in OPERATORS
  }

  predicate PlainNames(e: Expr<string>) {
    match e
    case Port(p) => PlainName(p)
    case Not(l) => PlainNames(l)
    case Or(l, r) => PlainNames(l) && PlainNames(r)
    case And(l, r) => PlainNames(l) && PlainNames(r)
    case Xor(l, r) => PlainNames(l) && PlainNames(r)
    case _ => true
  }

  // ---------------------------------------------------------------------------
  // Reading

  datatype Parse = Fail | Done(expr: Expr<string>, rest: string)

  /** The length of the leading run without operators. */
  function NameLength(s: string): (n: nat)
    ensures n <= |s|
  {
    if |s| == 0 || s[0] in OPERATORS then 0 else 1 + NameLength(s[1..])
  }

  function Leaf(name: string): Expr<string> {
    if name == "0" then Zero else if name == "1" then One else Port(name)
  }

  function Binary(op: char, l: Expr<string>, r: Expr<string>): Expr<string> {
    if op == '+' then Or(l, r) else if op == '*' then And(l, r) else Xor(l, r)
  }

  /** Reads one operand, which is as long as its brackets or its name. */
  function Read(s: string): (p: Parse)
    ensures p.Done? ==> |p.rest| < |s|
    decreases |s|
  {
    if |s| == 0 then Fail
    else if s[0] == '!' then
      var l := Read(s[1..]);
      if l.Fail? then Fail else Done(Not(l.expr), l.rest)
    else if s[0] == '(' then
      var l := Read(s[1..]);
      if l.Fail? || |l.rest| == 0 then Fail else
        var r := Read(l.rest[1..]);
        if r.Fail? || |r.rest| == 0 then Fail else Done(Binary(l.rest[0], l.expr, r.expr), r.rest[1..])
    else
      var n := NameLength(s);
      if n == 0 then Fail else Done(Leaf(s[..n]), s[n..])
  }

  /** Reads a whole printed function: an operand, or two with an operator between. */
  function ReadAll(s: string): Expr<string> {
    var l := Read(s);
    if l.Fail? then Missing
    else if |l.rest| == 0 then l.expr
    else
      var r := Read(l.rest[1..]);
      if r.Fail? then Missing else Binary(l.rest[0], l.expr, r.expr)
  }

  /** The rest of a string after an operand. */
  predicate Ends(tail: string) { |tail| == 0 || tail[0] in OPERATORS }

  lemma {:induction false} NameLengthIs(name: string, tail: string)
    requires Ends(tail) && forall i {:trigger name[i]} :: 0 <= i < |name| ==> name[i] !in OPERATORS
    ensures NameLength(name + tail) == |name|
  {
    if |name| == 0 {
      assert name + tail == tail;
    } else {
      assert (name + tail)[1..] == name[1..] + tail;
      NameLengthIs(name[1..], tail);
    }
  }

  lemma ReadName(name: string, tail: string)
    requires Ends(tail) && |name| > 0 && forall i {:trigger name[i]} :: 0 <= i < |name| ==> name[i] !in OPERATORS
    ensures Read(name + tail) == Done(Leaf(name), tail)
  {
    NameLengthIs(name, tail);
    assert (name + tail)[0] == name[0] && name[0] !in OPERATORS;
    assert '!' in OPERATORS && '(' in OPERATORS;
    assert (name + tail)[..|name|] == name && (name + tail)[|name|..] == tail;
  }

  /** Reading a printed operand gives it back and stops right after it. */
  lemma {:induction false} ReadPrinted(e: Expr<string>, tail: string)
    requires Complete(e) && PlainNames(e) && Ends(tail)
    ensures Read(Print(e, true) + tail) == Done(e, tail)
    decreases e, 1
  {
    hide Read, Infix, NameLength;
    match e
    case Port(p) => ReadName(p, tail);
    case One => ReadName("1", tail);
    case Zero => ReadName("0", tail);
    case Not(l) =>
      ReadPrinted(l, tail);
      assert (Print(e, true) + tail)[1..] == Print(l, true) + tail;
      ReadBang(Print(e, true) + tail);
    case Or(l, r) => ReadOperands(l, '+', r, tail);
    case And(l, r) => ReadOperands(l, '*', r, tail);
    case Xor(l, r) => ReadOperands(l, '^', r, tail);
    case Missing =>
  }

  lemma {:induction false} ReadOperands(l: Expr<string>, op: char, r: Expr<string>, tail: string)
    requires Complete(l) && Complete(r) && PlainNames(l) && PlainNames(r) && Ends(tail) && op in ['+', '*', '^']
    ensures Read(Infix(Print(l, true), op, Print(r, true), true) + tail) == Done(Binary(op, l, r), tail)
    decreases Binary(op, l, r), 0
  {
    assert op in OPERATORS && ')' in OPERATORS;
    ReadPrinted(r, [')'] + tail);
    ReadPrinted(l, [op] + (Print(r, true) + ([')'] + tail)));
    ReadInfix(Print(l, true), l, op, Print(r, true), r, tail);
  }

  /** A bracketed operation is read operand by operand. */
  lemma ReadInfix(ls: string, l: Expr<string>, op: char, rs: string, r: Expr<string>, tail: string)
    requires Read(rs + ([')'] + tail)) == Done(r, [')'] + tail)
    requires Read(ls + ([op] + (rs + ([')'] + tail)))) == Done(l, [op] + (rs + ([')'] + tail)))
    ensures Read(Infix(ls, op, rs, true) + tail) == Done(Binary(op, l, r), tail)
  {
    hide Read, Infix;
    var s := Infix(ls, op, rs, true) + tail;
    var afterLeft := [op] + (rs + ([')'] + tail));
    InfixIs(ls, op, rs, tail);
    ReadBracket(s);
    assert afterLeft[0] == op && afterLeft[1..] == rs + ([')'] + tail);
    assert ([')'] + tail)[1..] == tail;
  }

  lemma InfixIs(ls: string, op: char, rs: string, tail: string)
    ensures var s := Infix(ls, op, rs, true) + tail;
            |s| > 0 && s[0] == '(' && s[1..] == ls + ([op] + (rs + ([')'] + tail)))
  {
  }

  lemma ReadBracket(s: string)
    requires |s| > 0 && s[0] == '('
    ensures var l := Read(s[1..]);
            l.Done? && |l.rest| > 0 ==>
              var r := Read(l.rest[1..]);
              r.Done? && |r.rest| > 0 ==> Read(s) == Done(Binary(l.rest[0], l.expr, r.expr), r.rest[1..])
  {
  }

  lemma ReadBang(s: string)
    requires |s| > 0 && s[0] == '!' && Read(s[1..]).Done?
    ensures Read(s) == Done(Not(Read(s[1..]).expr), Read(s[1..]).rest)
  {
  }

  /** Printed functions can be read back, ... */
  lemma ReadBack(e: Expr<string>)
    requires Complete(e) && PlainNames(e)
    ensures ReadAll(ToString(e)) == e
  {
    match e
    case Or(l, r) => ReadTop(l, '+', r);
    case And(l, r) => ReadTop(l, '*', r);
    case Xor(l, r) => ReadTop(l, '^', r);
    case Not(l) => ReadOne(e);
    case Port(p) => ReadOne(e);
    case One => ReadOne(e);
    case Zero => ReadOne(e);
    case Missing =>
  }

  lemma ReadOne(e: Expr<string>)
    requires Complete(e) && PlainNames(e) && Print(e, true) == Print(e, false)
    ensures ReadAll(ToString(e)) == e
  {
    ReadPrinted(e, "");
    assert Print(e, true) + "" == ToString(e);
  }

  lemma ReadTop(l: Expr<string>, op: char, r: Expr<string>)
    requires Complete(l) && Complete(r) && PlainNames(l) && PlainNames(r) && op in ['+', '*', '^']
    ensures ReadAll(Infix(Print(l, true), op, Print(r, true), false)) == Binary(op, l, r)
  {
    var s := Infix(Print(l, true), op, Print(r, true), false);
    var afterLeft := [op] + Print(r, true);
    assert s == Print(l, true) + afterLeft;
    assert op in OPERATORS;
    ReadPrinted(l, afterLeft);
    assert afterLeft[1..] == Print(r, true) + "";
    ReadPrinted(r, "");
  }

  /** ... so different functions print differently. */
  lemma PrintInjective(e: Expr<string>, f: Expr<string>)
    requires Complete(e) && Complete(f) && PlainNames(e) && PlainNames(f) && ToString(e) == ToString(f)
    ensures e == f
  {
    ReadBack(e);
    ReadBack(f);
  }

  function Opening(s: string): nat {
    if |s| == 0 then 0 else (if s[0] == '(' then 1 else 0) + Opening(s[1..])
  }

  lemma {:induction false} OpeningBoth(s: string, t: string)
    ensures Opening(s + t) == Opening(s) + Opening(t)
  {
    if |s| == 0 {
      assert s + t == t;
    } else {
      assert (s + t)[1..] == s[1..] + t;
      OpeningBoth(s[1..], t);
    }
  }

  lemma {:induction false} NoOpening(s: string)
    requires forall i {:trigger s[i]} :: 0 <= i < |s| ==> s[i] !in OPERATORS
    ensures Opening(s) == 0
  {
    if |s| > 0 {
      assert s[0] !in OPERATORS && '(' in OPERATORS;
      NoOpening(s[1..]);
    }
  }

  /** Operations with two operands. */
  function Operations(e: Expr<string>): nat {
    match e
    case Not(l) => Operations(l)
    case Or(l, r) => 1 + Operations(l) + Operations(r)
    case And(l, r) => 1 + Operations(l) + Operations(r)
    case Xor(l, r) => 1 + Operations(l) + Operations(r)
    case _ => 0
  }

  /** Every operation that is an operand is in brackets, and nothing else is. */
  lemma BracketsOfOperands(e: Expr<string>)
    requires PlainNames(e)
    ensures Opening(ToString(e)) == Operations(e) - if e.Or? || e.And? || e.Xor? then 1 else 0
  {
    Brackets(e, false);
  }

  lemma {:induction false} Brackets(e: Expr<string>, parens: bool)
    requires PlainNames(e)
    ensures Opening(Print(e, parens)) == Operations(e) - if !parens && (e.Or? || e.And? || e.Xor?) then 1 else 0
    decreases e
  {
    hide Infix, Opening;
    match e
    case Port(p) => NoOpening(p);
    case Not(l) =>
      Brackets(l, true);
      OpeningBoth("!", Print(l, true));
      OneChar('!');
    case Or(l, r) =>
      Brackets(l, true);
      Brackets(r, true);
      InfixBrackets(Print(l, true), '+', Print(r, true), parens);
    case And(l, r) =>
      Brackets(l, true);
      Brackets(r, true);
      InfixBrackets(Print(l, true), '*', Print(r, true), parens);
    case Xor(l, r) =>
      Brackets(l, true);
      Brackets(r, true);
      InfixBrackets(Print(l, true), '^', Print(r, true), parens);
    case One => OneChar('1');
    case Zero => OneChar('0');
    case Missing => OneChar('?');
  }

  lemma OneChar(c: char)
    ensures Opening([c]) == if c == '(' then 1 else 0
  {
    assert [c][1..] == [];
  }

  lemma InfixBrackets(l: string, op: char, r: string, parens: bool)
    requires op != '('
    ensures Opening(Infix(l, op, r, parens)) == Opening(l) + Opening(r) + if parens then 1 else 0
  {
    hide Opening;
    OneChar(op);
    OneChar('(');
    OneChar(')');
    OpeningBoth(l, [op]);
    OpeningBoth(l + [op], r);
    if parens {
      OpeningBoth(['('], l + [op] + r);
      OpeningBoth(['('] + (l + [op] + r), [')']);
      assert ['('] + l + [op] + r + [')'] == ['('] + (l + [op] + r) + [')'];
    }
  }

  /** Names with operators in them spoil it. */
  lemma PrintAmbiguous()
    ensures ToString(Port("a+b")) == ToString(Or(Port("a"), Port("b"))) && Port("a+b") != Or(Port("a"), Port("b"))
  {
    assert ToString(Or(Port("a"), Port("b"))) == "a" + ['+'] + "b" == "a+b";
  }
}
