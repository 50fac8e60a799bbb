/** Virtual pins linked by transformers: setting one pin settles everything that depends on it. */
module GpioNetwork {

  datatype PinState = On | Off | Unset

  function State(value: bool): PinState { if value then On else Off }

  class VirtPin {
    var value: PinState
    var dependentPin: Transformer?

    constructor ()
      ensures value == Unset && dependentPin == null
    {
      value, dependentPin := Unset, null;
    }
  }

  /** A hardware pin and the level last written to it. */
  class HwPin {
    const num: nat
    var level: PinState

    constructor (num: nat)
      ensures this.num == num && level == Unset
    {
      this.num, level := num, Unset;
    }
  }

  /** Anything that can be set. */
  datatype GpioPin = Virt(pin: VirtPin) | Hw(hw: HwPin) | Splitter(out1: GpioPin, out2: GpioPin)

  datatype Operation = And | Or | Xor

  /** What drives an output, and from which pins. */
  datatype Gate =
    | Unary(inPin: VirtPin)
    | Not(inPin: VirtPin)
    | Binary(inPin1: VirtPin, inPin2: VirtPin, op: Operation)
  {
    function Inputs(): set<VirtPin> { if Binary? then {inPin1, inPin2} else {inPin} }
  }

  class Transformer {
    const gate: Gate
    const outPin: GpioPin

    constructor Unary(inPin: VirtPin, outPin: GpioPin)
      requires inPin.dependentPin == null
      modifies inPin`dependentPin
      ensures gate == Gate.Unary(inPin) && this.outPin == outPin && inPin.dependentPin == this
    {
      gate := Gate.Unary(inPin);
      this.outPin := outPin;
      new;
      inPin.dependentPin := this;
    }

    constructor Not(inPin: VirtPin, outPin: GpioPin)
      requires inPin.dependentPin == null
      modifies inPin`dependentPin
      ensures gate == Gate.Not(inPin) && this.outPin == outPin && inPin.dependentPin == this
    {
      gate := Gate.Not(inPin);
      this.outPin := outPin;
      new;
      inPin.dependentPin := this;
    }

    constructor Binary(inPin1: VirtPin, inPin2: VirtPin, outPin: GpioPin, op: Operation)
      requires inPin1.dependentPin == null && inPin2.dependentPin == null && inPin1 != inPin2
      modifies inPin1`dependentPin, inPin2`dependentPin
      ensures gate == Gate.Binary(inPin1, inPin2, op) && this.outPin == outPin
      ensures inPin1.dependentPin == this && inPin2.dependentPin == this
    {
      gate := Gate.Binary(inPin1, inPin2, op);
      this.outPin := outPin;
      new;
      inPin1.dependentPin := this;
      inPin2.dependentPin := this;
    }
  }

  // ---- What a transformer should drive ----

  function Combine(op: Operation, a: bool, b: bool): bool {
    match op
    case And => a && b
    case Or => a || b
    case Xor => a != b
  }

  /** The value of a gate over the values of its inputs: unset inputs do not count. */
  function Wanted(gate: Gate, v1: PinState, v2: PinState): PinState {
    match gate
    case Unary(_) => v1
    case Not(_) => if v1.Unset? then Unset else State(v1.Off?)
    case Binary(_, _, op) =>
      if v1.Unset? then v2 else if v2.Unset? then v1 else State(Combine(op, v1.On?, v2.On?))
  }

  function First(gate: Gate): VirtPin { if gate.Binary? then gate.inPin1 else gate.inPin }

  function Second(gate: Gate): VirtPin { if gate.Binary? then gate.inPin2 else gate.inPin }

  ghost function WantedNow(gate: Gate): PinState
    reads gate.Inputs()`value
  {
    Wanted(gate, First(gate).value, Second(gate).value)
  }

  function VirtLeaves(g: GpioPin): set<VirtPin> {
    match g
    case Virt(p) => {p}
    case Hw(_) => {}
    case Splitter(a, b) => VirtLeaves(a) + VirtLeaves(b)
  }

  function HwLeaves(g: GpioPin): set<HwPin> {
    match g
    case Virt(_) => {}
    case Hw(h) => {h}
    case Splitter(a, b) => HwLeaves(a) + HwLeaves(b)
  }

  /** No pin is reached twice through splitters. */
  ghost predicate Distinct(g: GpioPin) {
    match g
    case Splitter(a, b) =>
      Distinct(a) && Distinct(b) && VirtLeaves(a) !! VirtLeaves(b) && HwLeaves(a) !! HwLeaves(b)
    case _ => true
  }

  /** Everything set through g stands at s. */
  ghost predicate StandsAt(g: GpioPin, s: PinState)
    reads VirtLeaves(g)`value, HwLeaves(g)`level
  {
    (forall p :: p in VirtLeaves(g) ==> p.value == s) && (forall h :: h in HwLeaves(g) ==> h.level == s)
  }

  /** The transformer drives its output to the value of its gate. */
  ghost predicate Consistent(t: Transformer)
    reads t.gate.Inputs()`value, VirtLeaves(t.outPin)`value, HwLeaves(t.outPin)`level
  {
    StandsAt(t.outPin, WantedNow(t.gate))
  }

  // ---- Networks ----

  /** Pins and transformers; along every transformer the rank goes up. */
  datatype Net = Net(pins: set<VirtPin>, hws: set<HwPin>, gates: set<Transformer>, rank: map<VirtPin, nat>, top: nat) {

    /** Who depends on a pin is known to the pin; an input ranks below what it drives; nothing has two drivers. */
    ghost predicate Valid()
      reads pins`dependentPin
    {
      && (forall p :: p in pins ==> p in rank && rank[p] < top)
      && (forall p :: p in pins && p.dependentPin != null ==>
            p.dependentPin in gates && p in p.dependentPin.gate.Inputs())
      && (forall t :: t in gates ==> GateValid(t))
      && (forall t, u :: t in gates && u in gates && t != u ==> Apart(t, u))
    }

    ghost predicate GateValid(t: Transformer)
      reads pins`dependentPin
    {
      && (forall p :: p in t.gate.Inputs() ==> p in pins && p in rank && p.dependentPin == t)
      && VirtLeaves(t.outPin) <= pins && HwLeaves(t.outPin) <= hws && Distinct(t.outPin)
      && (forall p, q :: p in t.gate.Inputs() && q in VirtLeaves(t.outPin) ==> q in rank && rank[p] < rank[q])
    }

    ghost predicate Apart(t: Transformer, u: Transformer) {
      VirtLeaves(t.outPin) !! VirtLeaves(u.outPin) && HwLeaves(t.outPin) !! HwLeaves(u.outPin)
    }

    /** g consists of pins of the network that rank at least r and are driven, if at all, by a pending transformer;
        pending transformers look only at pins below r; all others are consistent. */
    ghost predicate Ready(g: GpioPin, pending: set<Transformer>, r: nat)
      reads pins, hws
    {
      && Valid() && r <= top && pending <= gates && Distinct(g)
      && VirtLeaves(g) <= pins && HwLeaves(g) <= hws
      && (forall p :: p in VirtLeaves(g) ==> r <= rank[p])
      && (forall t :: t in gates && !(VirtLeaves(t.outPin) !! VirtLeaves(g) && HwLeaves(t.outPin) !! HwLeaves(g)) ==>
            t in pending)
      && (forall t, p :: t in pending && p in t.gate.Inputs() ==> rank[p] < r)
      && Settled(pending)
    }

    ghost predicate Settled(pending: set<Transformer>)
      requires forall t :: t in gates ==>
                 VirtLeaves(t.outPin) <= pins && HwLeaves(t.outPin) <= hws && t.gate.Inputs() <= pins
      reads pins`value, hws`level
    {
      forall t :: t in gates && t !in pending ==> Consistent(t)
    }
  }

  /** Pins whose driver is not pending, or that are set through g, may move. */
  ghost predicate MayMove(net: Net, g: GpioPin, pending: set<Transformer>, p: VirtPin) {
    p in VirtLeaves(g) || exists t :: t in net.gates && t !in pending && p in VirtLeaves(t.outPin)
  }

  ghost predicate MayMoveHw(net: Net, g: GpioPin, pending: set<Transformer>, h: HwPin) {
    h in HwLeaves(g) || exists t :: t in net.gates && t !in pending && h in HwLeaves(t.outPin)
  }

  /** Only pins that may move have moved, and none below r. */
  twostate predicate Framed(net: Net, g: GpioPin, pending: set<Transformer>, r: nat)
    reads net.pins`value, net.hws`level
  {
    && (forall p :: p in net.pins && p in net.rank && (net.rank[p] < r || !MayMove(net, g, pending, p)) ==>
          p.value == old(p.value))
    && (forall h :: h in net.hws && !MayMoveHw(net, g, pending, h) ==> h.level == old(h.level))
  }

  /** What every set leaves behind. */
  twostate predicate Done(net: Net, g: GpioPin, s: PinState, pending: set<Transformer>, r: nat)
    requires net.Valid()
    reads net.pins, net.hws, VirtLeaves(g), HwLeaves(g)
  {
    StandsAt(g, s) && net.Settled(pending) && Framed(net, g, pending, r)
  }

  /** Sets whatever g stands for; everything downstream follows. */
  method SetPin(g: GpioPin, value: bool, ghost net: Net, ghost pending: set<Transformer>, ghost r: nat)
    requires net.Ready(g, pending, r)
    modifies net.pins`value, net.hws`level
    ensures net.Valid() && Done(net, g, State(value), pending, r)
    decreases net.top - r, 2, g
  {
    match g {
      case Virt(p) =>
        SetVirt(p, value, net, pending, r);
      case Hw(h) =>
        h.level := State(value);
      case Splitter(a, b) =>
        SetPin(a, value, net, pending, r);
        SetPin(b, value, net, pending, r);
    }
  }

  /** The transformer of a pin may be updated: it joins the pending ones, and looks only at pins below `above`. */
  lemma ReadyForUpdate(net: Net, p: VirtPin, t: Transformer, pending: set<Transformer>, r: nat, above: nat)
    requires net.Valid() && p in net.pins && t == p.dependentPin && r <= net.rank[p] < above <= net.top
    requires pending <= net.gates && forall u, q :: u in pending && q in u.gate.Inputs() ==> net.rank[q] < r
    requires forall q :: q in t.gate.Inputs() ==> net.rank[q] < above
    requires forall q :: q in VirtLeaves(t.outPin) ==> above <= net.rank[q]
    requires net.Settled(pending + {t})
    ensures t in net.gates && t !in pending && net.Ready(t.outPin, pending + {t}, above)
  {
    assert net.GateValid(t);
    forall u | u in net.gates && u != t
      ensures VirtLeaves(u.outPin) !! VirtLeaves(t.outPin) && HwLeaves(u.outPin) !! HwLeaves(t.outPin)
    {
      assert net.Apart(u, t);
    }
  }

  /** The transformer of a pin that has just changed follows. */
  method UpdateDependent(p: VirtPin, t: Transformer, ghost net: Net, ghost pending: set<Transformer>, ghost r: nat)
    requires net.Valid() && p in net.pins && t == p.dependentPin && r <= net.rank[p] && !p.value.Unset?
    requires pending <= net.gates && forall u, q :: u in pending && q in u.gate.Inputs() ==> net.rank[q] < r
    requires net.Settled(pending + {t})
    modifies net.pins`value, net.hws`level
    ensures net.Valid() && net.Settled(pending) && Framed(net, Virt(p), pending, r) && p.value == old(p.value)
    decreases net.top - r, 0, 0
  {
    ghost var above := InputsBelow(net, t, p);
    ReadyForUpdate(net, p, t, pending, r, above);
    SetInputWanted(t.gate, p);
    Update(t, net, pending + {t}, above);
  }

  lemma SetInputWanted(gate: Gate, p: VirtPin)
    requires p in gate.Inputs() && !p.value.Unset?
    ensures !WantedNow(gate).Unset?
  {}

  /** A virtual pin tells its transformer, if its value is new. */
  method SetVirt(p: VirtPin, value: bool, ghost net: Net, ghost pending: set<Transformer>, ghost r: nat)
    requires net.Ready(Virt(p), pending, r)
    modifies net.pins`value, net.hws`level
    ensures net.Valid() && Done(net, Virt(p), State(value), pending, r)
    decreases net.top - r, 1
  {
    if State(value) != p.value {
      p.value := State(value);
      var t := p.dependentPin;
      forall u | u in net.gates && u !in pending && u != t
        ensures Consistent(u)
      {
        assert net.GateValid(u);
        assert old(Consistent(u));
        assert p !in u.gate.Inputs() && p !in VirtLeaves(u.outPin);
      }
      if t != null {
        UpdateDependent(p, t, net, pending, r);
      }
    }
  }

  /** The least rank above all inputs of a transformer. */
  ghost method InputsBelow(net: Net, t: Transformer, p: VirtPin) returns (above: nat)
    requires net.Valid() && t in net.gates && p in t.gate.Inputs()
    ensures net.rank[p] < above <= net.top
    ensures forall q :: q in t.gate.Inputs() ==> net.rank[q] < above
    ensures forall q :: q in VirtLeaves(t.outPin) ==> above <= net.rank[q]
  {
    var a, b := net.rank[First(t.gate)], net.rank[Second(t.gate)];
    above := (if a < b then b else a) + 1;
  }

  /** Drives the output to the value of the gate. */
  method Update(t: Transformer, ghost net: Net, ghost pending: set<Transformer>, ghost r: nat)
    requires net.Ready(t.outPin, pending, r) && t in pending && !WantedNow(t.gate).Unset?
    modifies net.pins`value, net.hws`level
    ensures net.Valid() && Done(net, t.outPin, old(WantedNow(t.gate)), pending, r)
    decreases net.top - r, 3
  {
    match t.gate {
      case Unary(inPin) =>
        var p := inPin.value;
        if p.Unset? {
          return;
        }
        SetPin(t.outPin, p.On?, net, pending, r);
      case Not(inPin) =>
        var p := inPin.value;
        if p.Unset? {
          return;
        }
        SetPin(t.outPin, !p.On?, net, pending, r);
      case Binary(inPin1, inPin2, op) =>
        var p1, p2 := inPin1.value, inPin2.value;
        var newValue := Unset;
        if p1.Unset? {
          newValue := p2;
        } else if p2.Unset? {
          newValue := p1;
        }
        if newValue.Unset? {
          newValue := State(Combine(op, p1.On?, p2.On?));
        }
        SetPin(t.outPin, newValue.On?, net, pending, r);
    }
  }

  // ---- Setting from outside ----

  /** No transformer drives any part of g. */
  ghost predicate Undriven(net: Net, g: GpioPin) {
    && VirtLeaves(g) <= net.pins && HwLeaves(g) <= net.hws && Distinct(g)
    && forall t :: t in net.gates ==> VirtLeaves(t.outPin) !! VirtLeaves(g) && HwLeaves(t.outPin) !! HwLeaves(g)
  }

  /** Everything stands as its drivers want it. */
  ghost predicate AtRest(net: Net)
    reads net.pins, net.hws
  {
    net.Valid() && net.Settled({})
  }

  /** A set from outside ends, and leaves the network at rest. What is not driven and not set stays as it was. */
  method Set(g: GpioPin, value: bool, ghost net: Net)
    requires AtRest(net) && Undriven(net, g)
    modifies net.pins`value, net.hws`level
    ensures AtRest(net) && StandsAt(g, State(value))
    ensures forall p :: p in net.pins && p !in VirtLeaves(g) && Undriven(net, Virt(p)) ==> p.value == old(p.value)
  {
    SetPin(g, value, net, {}, 0);
  }

  /** Any sequence of sets from outside leaves the network at rest. */
  method SetAll(requests: seq<(GpioPin, bool)>, ghost net: Net)
    requires AtRest(net) && forall r :: r in requests ==> Undriven(net, r.0)
    modifies net.pins`value, net.hws`level
    ensures AtRest(net)
    ensures requests != [] ==> StandsAt(requests[|requests| - 1].0, State(requests[|requests| - 1].1))
  {
    for i := 0 to |requests|
      invariant AtRest(net)
      invariant i > 0 ==> StandsAt(requests[i - 1].0, State(requests[i - 1].1))
    {
      Set(requests[i].0, requests[i].1, net);
    }
  }

  /** A network nobody has set yet is at rest. */
  lemma InitiallyAtRest(net: Net)
    requires net.Valid() && (forall p :: p in net.pins ==> p.value == Unset)
    requires forall h :: h in net.hws ==> h.level == Unset
    ensures AtRest(net)
  {
    forall t | t in net.gates
      ensures Consistent(t)
    {
      assert net.GateValid(t);
      assert First(t.gate) in t.gate.Inputs() && Second(t.gate) in t.gate.Inputs();
    }
  }

  // ---- Expressions ----

  ghost predicate Drives(net: Net, older t: Transformer, p: VirtPin) { t in net.gates && p in VirtLeaves(t.outPin) }

  /** The value of the whole expression behind a pin, from the pins that nothing drives. */
  ghost function Expression(net: Net, p: VirtPin): PinState
    requires net.Valid() && p in net.pins
    reads net.pins
    decreases net.rank[p]
  {
    if exists t :: Drives(net, t, p) then
      var t :| Drives(net, t, p);
      assert net.GateValid(t) && First(t.gate) in t.gate.Inputs() && Second(t.gate) in t.gate.Inputs();
      Wanted(t.gate, Expression(net, First(t.gate)), Expression(net, Second(t.gate)))
    else
      p.value
  }

  /** At rest, every pin shows the value of its expression. */
  lemma {:induction false} ShowsExpression(net: Net, p: VirtPin)
    requires AtRest(net) && p in net.pins
    ensures p.value == Expression(net, p)
    decreases net.rank[p]
  {
    if exists t :: Drives(net, t, p) {
      var t :| Drives(net, t, p) &&
        Expression(net, p) == Wanted(t.gate, Expression(net, First(t.gate)), Expression(net, Second(t.gate)));
      assert net.GateValid(t) && First(t.gate) in t.gate.Inputs() && Second(t.gate) in t.gate.Inputs();
      ShowsExpression(net, First(t.gate));
      ShowsExpression(net, Second(t.gate));
      assert Consistent(t);
    }
  }

  /** So does every output a transformer drives, hardware pins included. */
  lemma DrivesExpression(net: Net, t: Transformer)
    requires AtRest(net) && t in net.gates
    ensures First(t.gate) in net.pins && Second(t.gate) in net.pins
    ensures StandsAt(t.outPin, Wanted(t.gate, Expression(net, First(t.gate)), Expression(net, Second(t.gate))))
  {
    assert net.GateValid(t) && First(t.gate) in t.gate.Inputs() && Second(t.gate) in t.gate.Inputs();
    ShowsExpression(net, First(t.gate));
    ShowsExpression(net, Second(t.gate));
    assert Consistent(t);
  }
}
