/** GPIO pins: two ports of 32 pins share one interrupt callback each, with a pin mask and a table
    of owners; a pin object configures, attaches and then enables its own pin. */
module PinWords {
  const PINS: nat := 32

  /** `BIT(i)` of a 32-bit word: one shifted left `i` times. */
  function Bit(i: nat): bv32
    requires i < PINS
  {
    if i == 0 then 1 else Bit(i - 1) << 1
  }

  predicate On(w: bv32, b: bv32) { w & b != 0 }

  /** At most one bit is set. */
  predicate Power(b: bv32) { b & (b - 1) == 0 }

  predicate Has(w: bv32, i: nat)
    requires i < PINS
  {
    On(w, Bit(i))
  }

  /** The pins of a mask word. */
  function Bits(w: bv32): set<nat> { set i: nat | i < PINS && Has(w, i) }

  // ----- facts about words; the single bits are arguments, so that the solver sees plain words -----

  lemma TopBit()
    ensures Bit(31) == 0x8000_0000
  {
    assert Bit(4) == 0x10;
    assert Bit(8) == 0x100;
    assert Bit(12) == 0x1000;
    assert Bit(16) == 0x1_0000;
    assert Bit(20) == 0x10_0000;
    assert Bit(24) == 0x100_0000;
    assert Bit(28) == 0x1000_0000;
  }

  lemma {:induction false} BitIsSet(i: nat)
    requires i < PINS
    ensures Bit(i) != 0
    decreases PINS - i
  {
    if i == 31 { TopBit(); } else { BitIsSet(i + 1); }
  }

  lemma DoublePower(b: bv32)
    requires Power(b)
    ensures Power(b << 1)
  {}

  lemma {:induction false} BitIsPower(i: nat, b: bv32)
    requires i < PINS && b == Bit(i)
    ensures b != 0 && Power(b)
  {
    BitIsSet(i);
    if i > 0 {
      BitIsPower(i - 1, Bit(i - 1));
      DoublePower(Bit(i - 1));
    }
  }

  /** The bit `c` lies inside the mask of the bits below `b`. */
  predicate Inside(c: bv32, b: bv32) { c & (b - 1) == c }

  lemma DoubleInside(a: bv32, b: bv32)
    requires Power(a) && b == a << 1
    ensures Inside(a, b)
  {}

  lemma WidenInside(c: bv32, a: bv32, b: bv32)
    requires Power(a) && b == a << 1 && Inside(c, a)
    ensures Inside(c, b)
  {}

  lemma NextBit(i: nat, a: bv32, b: bv32)
    requires i + 1 < PINS && a == Bit(i) && b == Bit(i + 1)
    ensures b == a << 1 && Power(a)
  {
    BitIsPower(i, a);
  }

  /** A lower bit lies inside the mask below a higher one. */
  lemma {:induction false} BelowMask(j: nat, i: nat, c: bv32, b: bv32)
    requires j < i < PINS && c == Bit(j) && b == Bit(i)
    ensures Inside(c, b)
    decreases i, 1
  {
    BelowStep(j, i, c, Bit(i - 1), b);
  }

  lemma {:induction false} BelowStep(j: nat, i: nat, c: bv32, a: bv32, b: bv32)
    requires j < i < PINS && c == Bit(j) && a == Bit(i - 1) && b == Bit(i)
    ensures Inside(c, b)
    decreases i, 0
  {
    NextBit(i - 1, a, b);
    if j == i - 1 {
      DoubleInside(c, b);
    } else {
      BelowMask(j, i - 1, c, a);
      WidenInside(c, a, b);
    }
  }

  lemma MaskedApart(c: bv32, b: bv32)
    requires Power(b) && Inside(c, b)
    ensures b & c == 0 && c & b == 0
  {}

  lemma BitsDisjoint(i: nat, j: nat, b: bv32, c: bv32)
    requires i < j < PINS && b == Bit(i) && c == Bit(j)
    ensures b & c == 0 && c & b == 0
  {
    BelowMask(i, j, b, c);
    BitIsPower(j, c);
    MaskedApart(b, c);
  }

  lemma BitsDiffer(i: nat, j: nat, b: bv32, c: bv32)
    requires i < PINS && j < PINS && i != j && b == Bit(i) && c == Bit(j)
    ensures b & c == 0
  {
    if i < j { BitsDisjoint(i, j, b, c); } else { BitsDisjoint(j, i, c, b); }
  }

  lemma OrKeeps(w: bv32, b: bv32, c: bv32)
    requires b & c == 0
    ensures (w | b) & c == w & c
  {}

  lemma AndNotKeeps(w: bv32, b: bv32, c: bv32)
    requires b & c == 0
    ensures (w & !b) & c == w & c
  {}

  lemma OwnWord(w: bv32, b: bv32)
    requires b != 0
    ensures On(w | b, b) && !On(w & !b, b)
  {}

  lemma OrWord(w: bv32, b: bv32, c: bv32)
    requires b & c == 0
    ensures On(w | b, c) <==> On(w, c)
  {
    OrKeeps(w, b, c);
  }

  lemma AndNotWord(w: bv32, b: bv32, c: bv32)
    requires b & c == 0
    ensures On(w & !b, c) <==> On(w, c)
  {
    AndNotKeeps(w, b, c);
  }

  lemma OrHas(w: bv32, i: nat, j: nat, b: bv32, c: bv32)
    requires i < PINS && j < PINS && b == Bit(i) && c == Bit(j)
    ensures On(w | b, c) <==> i == j || On(w, c)
  {
    if i == j {
      BitIsPower(i, b);
      OwnWord(w, b);
    } else {
      BitsDiffer(i, j, b, c);
      OrWord(w, b, c);
    }
  }

  lemma AndNotHas(w: bv32, i: nat, j: nat, b: bv32, c: bv32)
    requires i < PINS && j < PINS && b == Bit(i) && c == Bit(j)
    ensures On(w & !b, c) <==> i != j && On(w, c)
  {
    if i == j {
      BitIsPower(i, b);
      OwnWord(w, b);
    } else {
      BitsDiffer(i, j, b, c);
      AndNotWord(w, b, c);
    }
  }

  // ----- word operations as set operations -----

  lemma BitsOr(w: bv32, i: nat, b: bv32)
    requires i < PINS && b == Bit(i)
    ensures Bits(w | b) == Bits(w) + {i}
  {
    forall j: nat | j < PINS
      ensures Has(w | b, j) <==> i == j || Has(w, j)
    {
      OrHas(w, i, j, b, Bit(j));
    }
  }

  lemma BitsAndNot(w: bv32, i: nat, b: bv32)
    requires i < PINS && b == Bit(i)
    ensures Bits(w & !b) == Bits(w) - {i}
  {
    forall j: nat | j < PINS
      ensures Has(w & !b, j) <==> i != j && Has(w, j)
    {
      AndNotHas(w, i, j, b, Bit(j));
    }
  }

  lemma ZeroHas(j: nat)
    requires j < PINS
    ensures !Has(0, j)
  {}

  lemma BitsOfZero()
    ensures Bits(0) == {}
  {
    forall j: nat | j < PINS
      ensures !Has(0, j)
    {
      ZeroHas(j);
    }
  }

  lemma ZeroOr(b: bv32)
    ensures 0 | b == b
  {}

  lemma BitsOfBit(i: nat, b: bv32)
    requires i < PINS && b == Bit(i)
    ensures Bits(b) == {i}
  {
    ZeroOr(b);
    BitsOr(0, i, b);
    BitsOfZero();
  }

  // ----- the lowest set bit -----

  /** The word has no bit below the single bit `b`. */
  predicate NoneBelow(w: bv32, b: bv32) { w & (b - 1) == 0 }

  lemma NextWord(w: bv32, b: bv32)
    requires Power(b) && NoneBelow(w, b) && !On(w, b)
    ensures NoneBelow(w, b << 1)
  {}

  lemma NextClear(w: bv32, i: nat, b: bv32, c: bv32)
    requires i + 1 < PINS && b == Bit(i) && c == Bit(i + 1) && NoneBelow(w, b) && !On(w, b)
    ensures NoneBelow(w, c)
  {
    BitIsPower(i, b);
    NextWord(w, b);
  }

  lemma TopWord(w: bv32)
    requires NoneBelow(w, 0x8000_0000) && w != 0
    ensures On(w, 0x8000_0000)
  {}

  lemma FirstBit(w: bv32)
    ensures NoneBelow(w, Bit(0))
  {}

  lemma SearchGoesOn(w: bv32, i: nat)
    requires w != 0 && i < PINS && NoneBelow(w, Bit(i)) && !Has(w, i)
    ensures i + 1 < PINS && NoneBelow(w, Bit(i + 1))
  {
    if i == 31 {
      TopBit();
      TopWord(w);
    } else {
      NextClear(w, i, Bit(i), Bit(i + 1));
    }
  }

  /** `__builtin_ctz`, searching from position `from`. */
  function Lowest(w: bv32, from: nat): (i: nat)
    requires w != 0 && from < PINS && NoneBelow(w, Bit(from))
    ensures i < PINS && Has(w, i) && NoneBelow(w, Bit(i))
    decreases PINS - from
  {
    if Has(w, from) then from
    else
      SearchGoesOn(w, from);
      Lowest(w, from + 1)
  }

  function Ctz(w: bv32): (i: nat)
    requires w != 0
    ensures i < PINS && Has(w, i) && NoneBelow(w, Bit(i))
  {
    FirstBit(w);
    Lowest(w, 0)
  }

  lemma BelowWord(w: bv32, b: bv32, c: bv32)
    requires NoneBelow(w, b) && Inside(c, b)
    ensures !On(w, c)
  {}

  lemma NoneBelowHas(w: bv32, i: nat, j: nat, b: bv32, c: bv32)
    requires j < i < PINS && b == Bit(i) && c == Bit(j) && NoneBelow(w, b)
    ensures !On(w, c)
  {
    BelowMask(j, i, c, b);
    BelowWord(w, b, c);
  }

  lemma DropWord(w: bv32, b: bv32)
    requires Power(b) && On(w, b) && NoneBelow(w, b)
    ensures w & (w - 1) == w & !b
  {}

  lemma DropAt(w: bv32, i: nat, b: bv32)
    requires i < PINS && b == Bit(i) && On(w, b) && NoneBelow(w, b)
    ensures i in Bits(w) && forall j :: j in Bits(w) ==> i <= j
    ensures Bits(w & (w - 1)) == Bits(w) - {i}
  {
    BitIsPower(i, b);
    DropWord(w, b);
    BitsAndNot(w, i, b);
    forall j: nat | j < i
      ensures !Has(w, j)
    {
      NoneBelowHas(w, i, j, b, Bit(j));
    }
  }

  /** The loop's `pins & (pins - 1)` removes exactly the lowest pin, the one that ctz names. */
  lemma DropLowest(w: bv32)
    requires w != 0
    ensures Ctz(w) in Bits(w) && forall j :: j in Bits(w) ==> Ctz(w) <= j
    ensures Bits(w & (w - 1)) == Bits(w) - {Ctz(w)}
  {
    DropAt(w, Ctz(w), Bit(Ctz(w)));
  }
}

module GpioSpec {
  import opened Bytes
  import opened PinWords

  const PORTS: nat := 2
  const MAX_GLOBAL: nat := PORTS * PINS

  /** A pin object: its global pin number, whether it has a callback, and its interrupt flag. */
  datatype Pin = Pin(number: nat, hasCallback: bool, enabled: bool)

  /** `edge` is the hardware's side: the pins whose edge interrupt is configured. */
  datatype Port = Port(bound: bool, added: bool, mask: set<nat>, edge: set<nat>, owner: seq<Option<nat>>)

  /** Objects are known by their index, which stands for their address. */
  datatype System = System(pins: seq<Pin>, ports: seq<Port>)

  datatype Event =
    | Configure(id: nat, number: nat)
    | Attach(id: nat, ready: bool, rc: int, hasCallback: bool)
    | Enable(id: nat, on: bool, rc: int)
    | Dispose(id: nat, rc: int)

  const BLANK: Pin := Pin(0, false, false)
  const UNBOUND: Port := Port(false, false, {}, {}, seq(PINS, j => None))

  function Init(count: nat): System { System(seq(count, i => BLANK), [UNBOUND, UNBOUND]) }

  function PortOf(number: nat): (p: nat)
    ensures PINS * p <= number < PINS * p + PINS
  {
    number / PINS
  }

  function LocalOf(number: nat): (i: nat)
    ensures i < PINS && number == PINS * PortOf(number) + i
  {
    number % PINS
  }

  predicate Shaped(x: System) {
    && |x.ports| == PORTS
    && |x.ports[0].owner| == |x.ports[1].owner| == PINS
    && (forall id :: 0 <= id < |x.pins| ==> x.pins[id].number < MAX_GLOBAL)
  }

  function Put(s: set<nat>, i: nat, on: bool): set<nat> { if on then s + {i} else s - {i} }

  /** Only the first attach of a port asks whether its device is ready. */
  function AttachPort(p: Port, id: nat, i: nat, ready: bool, rc: int): (Port, bool)
    requires |p.owner| == PINS && i < PINS
  {
    var q := p.(bound := true);
    if (!p.bound && !ready) || rc != 0 then (q, false)
    else (q.(owner := q.owner[i := Some(id)]), true)
  }

  /** The first enable initialises the shared callback with a mask of its own bit only. */
  function EnablePort(p: Port, i: nat, on: bool, rc: int): (Port, bool) {
    if !p.bound || rc != 0 then (p, false)
    else
      (p.(edge := Put(p.edge, i, on), added := p.added || on,
          mask := if on && !p.added then {i} else Put(p.mask, i, on)), true)
  }

  function DisposePort(p: Port, id: nat, i: nat, rc: int): Port
    requires |p.owner| == PINS && i < PINS
  {
    if !p.bound then p
    else
      var q := if rc == 0 then p.(edge := p.edge - {i}) else p;
      if q.owner[i] == Some(id) then q.(owner := q.owner[i := None], mask := q.mask - {i}) else q
  }

  function Step(x: System, e: Event): (y: System)
    requires Shaped(x)
    ensures Shaped(y) && |y.pins| == |x.pins|
  {
    if e.id >= |x.pins| then x
    else
      var pin := x.pins[e.id];
      var p, i := PortOf(pin.number), LocalOf(pin.number);
      match e
      case Configure(id, number) =>
        if number >= MAX_GLOBAL then x else x.(pins := x.pins[id := pin.(number := number)])
      case Attach(id, ready, rc, hasCallback) =>
        var (port, ok) := AttachPort(x.ports[p], id, i, ready, rc);
        System(if ok then x.pins[id := pin.(hasCallback := hasCallback)] else x.pins, x.ports[p := port])
      case Enable(id, on, rc) =>
        var (port, ok) := EnablePort(x.ports[p], i, on, rc);
        System(if ok then x.pins[id := pin.(enabled := on)] else x.pins, x.ports[p := port])
      case Dispose(id, rc) =>
        System(x.pins[id := BLANK], x.ports[p := DisposePort(x.ports[p], id, i, rc)])
  }

  // ----- dispatch -----

  /** One call of an owner's callback. */
  datatype Call = Call(pin: nat, id: nat, rising: bool)

  /** What the interrupt does for pin `i`, given the level it reads there (negative: an error). */
  function CallFor(pins: seq<Pin>, owner: seq<Option<nat>>, i: nat, level: int): seq<Call>
    requires i < |owner|
  {
    var o := owner[i];
    if o.None? || o.value >= |pins| || !pins[o.value].enabled || !pins[o.value].hasCallback || level < 0 then []
    else [Call(i, o.value, level != 0)]
  }

  /** The calls for the pins of `fired` below position `n`, in ascending order. */
  function Calls(pins: seq<Pin>, owner: seq<Option<nat>>, fired: set<nat>, levels: seq<int>, n: nat): seq<Call>
    requires |owner| == |levels| == PINS && n <= PINS
  {
    if n == 0 then []
    else
      Calls(pins, owner, fired, levels, n - 1)
      + (if n - 1 in fired then CallFor(pins, owner, n - 1, levels[n - 1]) else [])
  }
}

/** The static port table and the pin objects, updated in place as in the source. */
module GpioDriver {
  import opened Bytes
  import opened PinWords
  import opened GpioSpec

  /** One entry of the port table; `pinMask` is the mask word of its interrupt callback. */
  datatype PortState = PortState(bound: bool, added: bool, pinMask: bv32, edge: set<nat>, owner: seq<Option<nat>>)

  function Seen(p: PortState): Port { Port(p.bound, p.added, Bits(p.pinMask), p.edge, p.owner) }

  /** What enabling or disabling pin `i` leaves of a port's entry. */
  ghost predicate Switched(p: PortState, q: PortState, i: nat, on: bool) {
    && q.bound == p.bound && q.owner == p.owner
    && q.added == (p.added || on)
    && (forall j: nat :: j in q.edge <==> if j == i then on else j in p.edge)
    && (forall j: nat :: j in Bits(q.pinMask) <==> if j == i then on else j in Bits(p.pinMask) && (p.added || !on))
  }

  /** What disposing of object `id` on pin `i` leaves of a port's entry. */
  ghost predicate Released(p: PortState, q: PortState, id: nat, i: nat, rc: int) {
    && q.bound == p.bound && q.added == p.added && |q.owner| == |p.owner|
    && (forall j: nat :: j in q.edge <==> j in p.edge && !(j == i && rc == 0))
    && (forall j: nat :: j < |p.owner| ==>
          q.owner[j] == if j == i && p.owner[j] == Some(id) then None else p.owner[j])
    && (forall j: nat :: j in Bits(q.pinMask) <==>
          j in Bits(p.pinMask) && !(j == i && i < |p.owner| && p.owner[i] == Some(id)))
  }

  class Gpio {
    const pins: array<Pin>
    const ports: array<PortState>

    ghost function Abs(): System
      requires ports.Length == PORTS
      reads pins, ports
    {
      System(pins[..], [Seen(ports[0]), Seen(ports[1])])
    }

    ghost predicate Valid()
      reads pins, ports
    {
      ports.Length == PORTS && Shaped(Abs())
    }

    constructor (count: nat)
      ensures fresh(pins) && fresh(ports) && Valid() && Abs() == Init(count)
    {
      pins := new Pin[count](_ => BLANK);
      ports := new PortState[PORTS](_ => PortState(false, false, 0, {}, seq(PINS, j => None)));
      new;
      BitsOfZero();
      assert pins[..] == Init(count).pins && Seen(ports[0]) == UNBOUND && Seen(ports[1]) == UNBOUND;
    }

    method SetPin(id: nat, pin: Pin)
      requires Valid() && id < pins.Length && pin.number < MAX_GLOBAL
      modifies pins
      ensures Valid() && Abs() == old(Abs()).(pins := old(pins[..])[id := pin])
      ensures pins[..] == old(pins[..])[id := pin]
    {
      pins[id] := pin;
    }

    method SetPort(p: nat, state: PortState)
      requires Valid() && p < PORTS && |state.owner| == PINS
      modifies ports
      ensures Valid() && Abs() == old(Abs()).(ports := old(Abs()).ports[p := Seen(state)])
      ensures ports[..] == old(ports[..])[p := state]
    {
      ports[p] := state;
    }

    method Configure(id: nat, number: nat) returns (ok: bool)
      requires Valid() && id < pins.Length
      modifies pins
      ensures Valid() && Abs() == Step(old(Abs()), Event.Configure(id, number))
      ensures ok <==> number < MAX_GLOBAL
      ensures pins[..] == if ok then old(pins[..])[id := old(pins[id]).(number := number)] else old(pins[..])
    {
      if number >= MAX_GLOBAL { return false; }
      SetPin(id, pins[id].(number := number));
      return true;
    }

    /** The part of `attach` that changes the port's entry: it is bound on first use, also if the device
        then is not ready, and the pin is taken over once it could be configured. */
    static method ClaimPin(p: PortState, id: nat, i: nat, ready: bool, rc: int) returns (q: PortState, ok: bool)
      requires |p.owner| == PINS && i < PINS
      ensures (Seen(q), ok) == AttachPort(Seen(p), id, i, ready, rc)
      ensures ok <==> (p.bound || ready) && rc == 0
      ensures q == p.(bound := true, owner := if ok then p.owner[i := Some(id)] else p.owner)
    {
      q := p.(bound := true);
      if !p.bound && !ready { return q, false; }
      if rc != 0 { return q, false; }
      return q.(owner := q.owner[i := Some(id)]), true;
    }

    method Attach(id: nat, ready: bool, rc: int, hasCallback: bool) returns (ok: bool)
      requires Valid() && id < pins.Length
      modifies pins, ports
      ensures Valid() && Abs() == Step(old(Abs()), Event.Attach(id, ready, rc, hasCallback))
      ensures ok <==> (old(ports[PortOf(pins[id].number)].bound) || ready) && rc == 0
      ensures pins[..] == if ok then old(pins[..])[id := old(pins[id]).(hasCallback := hasCallback)] else old(pins[..])
      ensures var p, i, was := PortOf(old(pins[id].number)), LocalOf(old(pins[id].number)), old(ports[..]);
        ports[..] == was[p := was[p].(bound := true,
                                      owner := if ok then was[p].owner[i := Some(id)] else was[p].owner)]
    {
      var p, i := PortOf(pins[id].number), LocalOf(pins[id].number);
      var claimed;
      claimed, ok := ClaimPin(ports[p], id, i, ready, rc);
      SetPort(p, claimed);
      if ok {
        SetPin(id, pins[id].(hasCallback := hasCallback));
      }
    }

    /** The part of `enable` that changes a bound port's entry. */
    static method SwitchPin(p: PortState, i: nat, on: bool) returns (q: PortState)
      requires i < PINS && p.bound
      ensures Seen(q) == EnablePort(Seen(p), i, on, 0).0 && Switched(p, q, i, on)
    {
      var word := NewMask(p.pinMask, i, Bit(i), on, on && !p.added);
      q := p.(edge := Put(p.edge, i, on), added := p.added || on, pinMask := word);
    }

    /** `first`: the callback is initialised with this pin alone. */
    static method NewMask(w: bv32, i: nat, b: bv32, on: bool, first: bool) returns (v: bv32)
      requires i < PINS && b == Bit(i)
      ensures Bits(v) == if first then {i} else Put(Bits(w), i, on)
    {
      if first {
        BitsOfBit(i, b);
        return b;
      }
      if on {
        BitsOr(w, i, b);
        return w | b;
      }
      BitsAndNot(w, i, b);
      return w & !b;
    }

    method Enable(id: nat, on: bool, rc: int) returns (ok: bool)
      requires Valid() && id < pins.Length
      modifies pins, ports
      ensures Valid() && Abs() == Step(old(Abs()), Event.Enable(id, on, rc))
      ensures ok <==> old(ports[PortOf(pins[id].number)].bound) && rc == 0
      ensures pins[..] == if ok then old(pins[..])[id := old(pins[id]).(enabled := on)] else old(pins[..])
      ensures !ok ==> ports[..] == old(ports[..])
      ensures var p, i, was := PortOf(old(pins[id].number)), LocalOf(old(pins[id].number)), old(ports[..]);
        ok ==> ports[..] == was[p := ports[p]] && Switched(was[p], ports[p], i, on)
    {
      var p, i := PortOf(pins[id].number), LocalOf(pins[id].number);
      if !ports[p].bound { return false; }
      if rc != 0 { return false; }
      var switched := SwitchPin(ports[p], i, on);
      SetPort(p, switched);
      SetPin(id, pins[id].(enabled := on));
      return true;
    }

    /** The part of `dispose` that changes a bound port's entry. */
    static method ReleasePin(p: PortState, id: nat, i: nat, rc: int) returns (q: PortState)
      requires |p.owner| == PINS && i < PINS && p.bound
      ensures Seen(q) == DisposePort(Seen(p), id, i, rc) && Released(p, q, id, i, rc)
    {
      q := p;
      if rc == 0 {
        q := q.(edge := q.edge - {i});
      }
      if q.owner[i] == Some(id) {
        var word := NewMask(p.pinMask, i, Bit(i), false, false);
        q := q.(owner := q.owner[i := None], pinMask := word);
      }
    }

    method Dispose(id: nat, rc: int)
      requires Valid() && id < pins.Length
      modifies pins, ports
      ensures Valid() && Abs() == Step(old(Abs()), Event.Dispose(id, rc))
      ensures pins[..] == old(pins[..])[id := Pin(0, false, false)]
      ensures var p, i, was := PortOf(old(pins[id].number)), LocalOf(old(pins[id].number)), old(ports[..]);
        && ports[..] == was[p := ports[p]]
        && if was[p].bound then Released(was[p], ports[p], id, i, rc) else ports[p] == was[p]
    {
      var p, i := PortOf(pins[id].number), LocalOf(pins[id].number);
      if ports[p].bound {
        var released := ReleasePin(ports[p], id, i, rc);
        SetPort(p, released);
      }
      SetPin(id, BLANK);
    }

    /** The interrupt: `which` is the port whose callback fired, `fired` its pending pins. */
    method PortIsr(which: nat, fired: bv32, levels: seq<int>) returns (calls: seq<Call>)
      requires Valid() && which < PORTS && |levels| == PINS
      ensures calls == Calls(pins[..], ports[which].owner, Bits(fired), levels, PINS)
    {
      calls := [];
      for port := 0 to PORTS
        invariant port <= which
      {
        if port == which {
          calls := Service(ports[port].owner, fired, levels);
          return;
        }
      }
    }

    method Service(owners: seq<Option<nat>>, fired: bv32, levels: seq<int>) returns (calls: seq<Call>)
      requires |owners| == |levels| == PINS
      ensures calls == Calls(pins[..], owners, Bits(fired), levels, PINS)
    {
      calls := [];
      var left := fired;
      ghost var next: nat := 0;
      while left != 0
        invariant next <= PINS && calls == Calls(pins[..], owners, Bits(fired), levels, next)
        invariant forall j: nat :: j in Bits(left) <==> next <= j && j in Bits(fired)
        decreases PINS - next
      {
        var bit := Ctz(left);
        DropLowest(left);
        left := left & (left - 1);
        NothingBetween(pins[..], owners, Bits(fired), levels, next, bit);
        next := bit + 1;
        var owner := owners[bit];
        if owner.None? || owner.value >= pins.Length { continue; }
        if !pins[owner.value].enabled || !pins[owner.value].hasCallback { continue; }
        var level := levels[bit];
        if level < 0 { continue; }
        calls := calls + [Call(bit, owner.value, level != 0)];
      }
      BitsOfZero();
      NothingBetween(pins[..], owners, Bits(fired), levels, next, PINS);
    }

    static lemma {:induction false} NothingBetween(pins: seq<Pin>, owner: seq<Option<nat>>, fired: set<nat>,
                                                   levels: seq<int>, a: nat, b: nat)
      requires |owner| == |levels| == PINS && a <= b <= PINS
      requires forall j :: a <= j < b ==> j !in fired
      ensures Calls(pins, owner, fired, levels, a) == Calls(pins, owner, fired, levels, b)
      decreases b - a
    {
      if a < b {
        NothingBetween(pins, owner, fired, levels, a, b - 1);
      }
    }
  }
}

/** All runs of the port table and its objects. */
module GpioRuns {
  import opened Bytes
  import opened PinWords
  import opened GpioSpec

  // ----- the state of one pin, by its global number -----

  function OwnerAt(x: System, g: nat): Option<nat>
    requires Shaped(x) && g < MAX_GLOBAL
  {
    x.ports[PortOf(g)].owner[LocalOf(g)]
  }

  predicate InMask(x: System, g: nat)
    requires Shaped(x) && g < MAX_GLOBAL
  {
    LocalOf(g) in x.ports[PortOf(g)].mask
  }

  predicate InEdge(x: System, g: nat)
    requires Shaped(x) && g < MAX_GLOBAL
  {
    LocalOf(g) in x.ports[PortOf(g)].edge
  }

  predicate Owns(x: System, id: nat)
    requires Shaped(x) && id < |x.pins|
  {
    OwnerAt(x, x.pins[id].number) == Some(id)
  }

  predicate EnabledOwner(x: System, g: nat)
    requires Shaped(x) && g < MAX_GLOBAL
  {
    var o := OwnerAt(x, g);
    o.Some? && o.value < |x.pins| && x.pins[o.value].enabled
  }

  // ----- the invariant -----

  /** A pin's mask bit is set exactly when the pin has an owner that is interrupt-enabled. */
  ghost predicate MasksTrue(x: System)
    requires Shaped(x)
  {
    forall g: nat :: g < MAX_GLOBAL ==> (InMask(x, g) <==> EnabledOwner(x, g))
  }

  /** A pin in the mask also has its edge interrupt configured in the hardware. */
  ghost predicate EdgesTrue(x: System)
    requires Shaped(x)
  {
    forall g: nat :: g < MAX_GLOBAL && InMask(x, g) ==> InEdge(x, g)
  }

  /** The owner of a pin is an object configured for it. */
  ghost predicate OwnersTrue(x: System)
    requires Shaped(x)
  {
    forall g: nat :: g < MAX_GLOBAL && OwnerAt(x, g).Some? ==>
      var o := OwnerAt(x, g).value; o < |x.pins| && x.pins[o].number == g && x.ports[PortOf(g)].bound
  }

  ghost predicate Inv(x: System) {
    && Shaped(x) && MasksTrue(x) && EdgesTrue(x) && OwnersTrue(x)
    && (forall id :: 0 <= id < |x.pins| && x.pins[id].enabled ==> Owns(x, id))
    && (x.ports[0].added || x.ports[0].mask == {})
    && (x.ports[1].added || x.ports[1].mask == {})
  }

  /** The protocol: an object changes its number only while it owns no pin, does not attach over
      another's enabled pin, enables only a pin it owns, and is disposed of while it owns its pin
      or nobody has that pin enabled. */
  predicate Polite(x: System, e: Event)
    requires Shaped(x)
  {
    e.id < |x.pins| &&
    match e
    case Configure(id, _) => !Owns(x, id)
    case Attach(id, _, _, _) => Owns(x, id) || !EnabledOwner(x, x.pins[id].number)
    case Enable(id, _, _) => Owns(x, id)
    case Dispose(id, _) => Owns(x, id) || !EnabledOwner(x, x.pins[id].number)
  }

  /** A step touches the pin of its own object only. */
  lemma OtherPins(x: System, e: Event, g: nat)
    requires Inv(x) && e.id < |x.pins| && g < MAX_GLOBAL && g != x.pins[e.id].number
    ensures var y := Step(x, e);
      && OwnerAt(y, g) == OwnerAt(x, g) && OwnerAt(x, g) != Some(e.id)
      && (InMask(y, g) <==> InMask(x, g)) && (InEdge(y, g) <==> InEdge(x, g))
      && (EnabledOwner(y, g) <==> EnabledOwner(x, g))
  {}

  /** What a step does to the pin of its own object. */
  lemma OwnPin(x: System, e: Event)
    requires Inv(x) && e.id < |x.pins|
    ensures var y, g := Step(x, e), x.pins[e.id].number;
      match e
      case Configure(_, _) =>
        OwnerAt(y, g) == OwnerAt(x, g) && (InMask(y, g) <==> InMask(x, g)) && (InEdge(y, g) <==> InEdge(x, g))
      case Attach(id, _, _, _) =>
        && (OwnerAt(y, g) == OwnerAt(x, g) || OwnerAt(y, g) == Some(id))
        && (InMask(y, g) <==> InMask(x, g)) && (InEdge(y, g) <==> InEdge(x, g))
      case Enable(id, on, rc) =>
        && OwnerAt(y, g) == OwnerAt(x, g)
        && if x.ports[PortOf(g)].bound && rc == 0 then InMask(y, g) == InEdge(y, g) == y.pins[id].enabled == on
           else y == x
      case Dispose(id, rc) =>
        if Owns(x, id) then OwnerAt(y, g).None? && !InMask(y, g)
        else
          && OwnerAt(y, g) == OwnerAt(x, g) && (InMask(y, g) <==> InMask(x, g))
          && (InEdge(y, g) <==> InEdge(x, g) && !(x.ports[PortOf(g)].bound && rc == 0))
  {}

  lemma StepOwners(x: System, e: Event)
    requires Inv(x) && Polite(x, e)
    ensures OwnersTrue(Step(x, e))
  {
    OwnPin(x, e);
    forall g: nat | g < MAX_GLOBAL && g != x.pins[e.id].number
      ensures OwnerAt(Step(x, e), g) == OwnerAt(x, g) && OwnerAt(x, g) != Some(e.id)
    {
      OtherPins(x, e, g);
    }
  }

  lemma StepMasks(x: System, e: Event)
    requires Inv(x) && Polite(x, e)
    ensures MasksTrue(Step(x, e)) && EdgesTrue(Step(x, e))
  {
    OwnPin(x, e);
    var y := Step(x, e);
    forall g: nat | g < MAX_GLOBAL
      ensures (InMask(y, g) <==> EnabledOwner(y, g)) && (InMask(y, g) ==> InEdge(y, g))
    {
      if g != x.pins[e.id].number { OtherPins(x, e, g); }
    }
  }

  lemma StepInv(x: System, e: Event)
    requires Inv(x) && Polite(x, e)
    ensures Inv(Step(x, e))
  {
    StepOwners(x, e);
    StepMasks(x, e);
    OwnPin(x, e);
    var y := Step(x, e);
    forall id | 0 <= id < |y.pins| && y.pins[id].enabled
      ensures Owns(y, id)
    {
      if id != e.id {
        var g := x.pins[id].number;
        assert y.pins[id] == x.pins[id] && EnabledOwner(x, g);
        if g != x.pins[e.id].number { OtherPins(x, e, g); }
      }
    }
  }

  lemma InitInv(count: nat)
    ensures Inv(Init(count))
  {
    assert |UNBOUND.owner| == PINS;
  }

  // ----- the theorems -----

  ghost predicate PoliteRun(x: System, es: seq<Event>)
    requires Shaped(x)
    decreases |es|
  {
    es == [] || (Polite(x, es[0]) && PoliteRun(Step(x, es[0]), es[1..]))
  }

  ghost function Run(x: System, es: seq<Event>): (r: System)
    requires Shaped(x)
    ensures Shaped(r)
    decreases |es|
  {
    if es == [] then x else Run(Step(x, es[0]), es[1..])
  }

  lemma {:induction false} RunInv(x: System, es: seq<Event>)
    requires Inv(x) && PoliteRun(x, es)
    ensures Inv(Run(x, es))
    decreases |es|
  {
    if es != [] {
      StepInv(x, es[0]);
      RunInv(Step(x, es[0]), es[1..]);
    }
  }

  /** Over every polite run the mask tells the truth: a pin's bit is set exactly when its owner is
      interrupt-enabled, and the hardware then raises its edges. */
  lemma MaskIsTrue(count: nat, es: seq<Event>)
    requires PoliteRun(Init(count), es)
    ensures MasksTrue(Run(Init(count), es)) && EdgesTrue(Run(Init(count), es))
  {
    InitInv(count);
    RunInv(Init(count), es);
  }

  /** Enabling or disabling keeps the mask true exactly when the object owns its pin, or the pin's
      owner has that setting already, or nobody owns it and it is being disabled. */
  lemma EnableKeepsMaskIff(x: System, id: nat, on: bool)
    requires Inv(x) && id < |x.pins| && x.ports[PortOf(x.pins[id].number)].bound
    ensures MasksTrue(Step(x, Enable(id, on, 0))) <==> Owns(x, id) || EnabledOwner(x, x.pins[id].number) == on
  {
    var e := Enable(id, on, 0);
    OwnPin(x, e);
    var y, n := Step(x, e), x.pins[id].number;
    forall g: nat | g < MAX_GLOBAL && g != n
      ensures InMask(y, g) <==> EnabledOwner(y, g)
    {
      OtherPins(x, e, g);
    }
    assert MasksTrue(y) ==> (InMask(y, n) <==> EnabledOwner(y, n));
  }

  /** A successful attach keeps the invariant exactly when it is not over another's enabled pin. */
  lemma AttachKeepsIff(x: System, id: nat, ready: bool, cb: bool)
    requires Inv(x) && id < |x.pins|
    requires x.ports[PortOf(x.pins[id].number)].bound || ready
    ensures Inv(Step(x, Attach(id, ready, 0, cb))) <==> Owns(x, id) || !EnabledOwner(x, x.pins[id].number)
  {
    var e := Attach(id, ready, 0, cb);
    if Polite(x, e) {
      StepInv(x, e);
    } else {
      OwnPin(x, e);
      var n := x.pins[id].number;
      assert InMask(Step(x, e), n) && !EnabledOwner(Step(x, e), n);
    }
  }

  /** Disposing always switches the pin's edge interrupt off, whoever owns the pin: the others' pins
      stay alive exactly when the object owns its pin or the pin is not in the mask. */
  lemma DisposeKeepsEdgesIff(x: System, id: nat)
    requires Inv(x) && id < |x.pins| && x.ports[PortOf(x.pins[id].number)].bound
    ensures EdgesTrue(Step(x, Dispose(id, 0))) <==> Owns(x, id) || !InMask(x, x.pins[id].number)
  {
    var e := Dispose(id, 0);
    OwnPin(x, e);
    var y, n := Step(x, e), x.pins[id].number;
    forall g: nat | g < MAX_GLOBAL && g != n
      ensures InMask(y, g) ==> InEdge(y, g)
    {
      OtherPins(x, e, g);
    }
  }

  /** A disposed object is configured for pin 0: disposing of it once more cuts off pin 0 exactly
      when that pin is in use. */
  lemma SecondDisposeHitsPinZero(x: System, id: nat, rc: int)
    requires Inv(x) && Polite(x, Dispose(id, rc)) && x.ports[0].bound
    ensures var y := Step(x, Dispose(id, rc));
      && Inv(y)
      && (EdgesTrue(Step(y, Dispose(id, 0))) <==> !InMask(y, 0))
  {
    var e := Dispose(id, rc);
    StepInv(x, e);
    var y := Step(x, e);
    OwnPin(x, e);
    if x.pins[id].number != 0 { OtherPins(x, e, 0); }
    DisposeKeepsEdgesIff(y, id);
  }

  /** One more polite operation at the end of a polite run. */
  lemma {:induction false} PoliteSnoc(x: System, es: seq<Event>, e: Event)
    requires Shaped(x) && PoliteRun(x, es) && Polite(Run(x, es), e)
    ensures PoliteRun(x, es + [e]) && Run(x, es + [e]) == Step(Run(x, es), e)
    decreases |es|
  {
    if es == [] {
      assert [e][1..] == [] && [] + [e] == [e];
    } else {
      assert (es + [e])[0] == es[0] && (es + [e])[1..] == es[1..] + [e];
      PoliteSnoc(Step(x, es[0]), es[1..], e);
    }
  }

  /** Object 0 uses pin 0; object 1 uses pin 5 and is disposed of properly. */
  function TwoUsers(): seq<Event> {
    [] + [Attach(0, true, 0, true)] + [Enable(0, true, 0)] + [Configure(1, 5)] + [Attach(1, true, 0, true)]
    + [Dispose(1, 0)]
  }

  /** A run to the failing case: disposing of object 1 once more cuts off pin 0, which object 0 has
      enabled. */
  lemma PinZeroIsCutOff()
    ensures PoliteRun(Init(2), TwoUsers())
    ensures var x := Run(Init(2), TwoUsers());
      |x.pins| == 2 && EnabledOwner(x, 0) && InMask(x, 0) && !EdgesTrue(Step(x, Dispose(1, 0)))
  {
    var o := Init(2);
    InitInv(2);
    var es: seq<Event> := [];
    PoliteSnoc(o, es, Attach(0, true, 0, true));
    es := es + [Attach(0, true, 0, true)];
    PoliteSnoc(o, es, Enable(0, true, 0));
    es := es + [Enable(0, true, 0)];
    PoliteSnoc(o, es, Configure(1, 5));
    es := es + [Configure(1, 5)];
    PoliteSnoc(o, es, Attach(1, true, 0, true));
    es := es + [Attach(1, true, 0, true)];
    RunInv(o, es);
    PoliteSnoc(o, es, Dispose(1, 0));
    SecondDisposeHitsPinZero(Run(o, es), 1, 0);
    assert es + [Dispose(1, 0)] == TwoUsers();
    OtherPins(Run(o, es), Dispose(1, 0), 0);
  }

  /** Only the first attach of a port asks for the device: after it failed, the next one passes. */
  lemma SecondAttachPasses(x: System, id: nat, cb: bool)
    requires Inv(x) && id < |x.pins| && !x.ports[PortOf(x.pins[id].number)].bound
    ensures var y := Step(x, Attach(id, false, 0, cb)); var z := Step(y, Attach(id, false, 0, cb));
      !Owns(y, id) && Owns(z, id)
  {
  }

  // ----- dispatch -----

  /** What the interrupt calls: in strictly ascending pin order, and for each set bit whose owner is
      enabled, has a callback and can be read, exactly one call with the level read. */
  lemma {:induction false} CallsExactly(pins: seq<Pin>, owner: seq<Option<nat>>, fired: set<nat>,
                                        levels: seq<int>, n: nat)
    requires |owner| == |levels| == PINS && n <= PINS
    ensures var cs := Calls(pins, owner, fired, levels, n);
      && (forall a, b :: 0 <= a < b < |cs| ==> cs[a].pin < cs[b].pin)
      && (forall c :: c in cs <==>
            && c.pin < n && c.pin in fired && owner[c.pin] == Some(c.id)
            && |pins| > c.id && pins[c.id].enabled && pins[c.id].hasCallback
            && levels[c.pin] >= 0 && (c.rising <==> levels[c.pin] > 0))
    decreases n
  {
    if n > 0 {
      CallsExactly(pins, owner, fired, levels, n - 1);
      assert forall c :: c in CallFor(pins, owner, n - 1, levels[n - 1]) ==> c.pin == n - 1;
    }
  }

  lemma OwnerIsCalled(x: System, g: nat, fired: set<nat>, levels: seq<int>)
    requires Inv(x) && g < MAX_GLOBAL && |levels| == PINS
    requires LocalOf(g) in fired && InMask(x, g) && levels[LocalOf(g)] >= 0
    ensures var o := OwnerAt(x, g);
      && o.Some? && o.value < |x.pins| && x.pins[o.value].number == g
      && (x.pins[o.value].hasCallback ==>
            Call(LocalOf(g), o.value, levels[LocalOf(g)] != 0)
              in Calls(x.pins, x.ports[PortOf(g)].owner, fired, levels, PINS))
  {
    assert EnabledOwner(x, g);
    CallsExactly(x.pins, x.ports[PortOf(g)].owner, fired, levels, PINS);
  }

  /** On every polite run, an interrupt for pins of a port's mask reaches the enabled owner of each
      of them, provided that it has a callback and its level can be read. */
  lemma NoInterruptSwallowed(count: nat, es: seq<Event>, g: nat, fired: set<nat>, levels: seq<int>)
    requires PoliteRun(Init(count), es) && g < MAX_GLOBAL && |levels| == PINS
    requires var x := Run(Init(count), es);
      && LocalOf(g) in fired && fired <= x.ports[PortOf(g)].mask && levels[LocalOf(g)] >= 0
    ensures var x := Run(Init(count), es); var o := OwnerAt(x, g);
      && o.Some? && o.value < |x.pins| && x.pins[o.value].number == g
      && (x.pins[o.value].hasCallback ==>
            Call(LocalOf(g), o.value, levels[LocalOf(g)] != 0)
              in Calls(x.pins, x.ports[PortOf(g)].owner, fired, levels, PINS))
  {
    InitInv(count);
    RunInv(Init(count), es);
    OwnerIsCalled(Run(Init(count), es), g, fired, levels);
  }
}
