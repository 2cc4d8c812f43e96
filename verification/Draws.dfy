// The draws of internal/orderbook/simulator.go as functions of the generator's state: which action a state leads
// to, and the state it leaves behind. They make a simulator a function of its seed.
module Draws {
  import opened Bytes
  import opened Pcg
  import opened OrderBook
  import opened Simulation

  const MPIDS: seq<seq<Byte>> := [
    [71, 83, 67, 79], [77, 83, 67, 79], [74, 80, 77, 83], [67, 73, 84, 73],
    [66, 65, 82, 75], [83, 85, 83, 81], [86, 73, 82, 84], [67, 73, 84, 68]]

  const ACTION_WEIGHTS: seq<real> := [0.30, 0.20, 0.15, 0.15, 0.20]

  /** The number in [0, 1) that a generator draws next. */
  function Drawn(state: Word64): real {
    Fraction(Output(state))
  }

  /** The action for a number in [0, 1): new order, cancel, amendment, trade, replenishment. */
  function ActionAt(u: real): nat {
    if u < 0.30 then 0 else if u < 0.50 then 1 else if u < 0.65 then 2 else if u < 0.80 then 3 else 4
  }

  /** Picking by weight is picking by these chances. */
  lemma WeightsAreChances(draw: Word32)
    ensures forall pick :: IsPick(ACTION_WEIGHTS, PickTarget(draw, ACTION_WEIGHTS), pick) ==>
              pick == ActionAt(Fraction(draw))
  {
    var w := ACTION_WEIGHTS;
    assert RunningTotal(w, 1) == 0.30;
    assert RunningTotal(w, 2) == 0.50;
    assert RunningTotal(w, 3) == 0.65;
    assert RunningTotal(w, 4) == 0.80;
    assert RunningTotal(w, 5) == 1.0;
    var u := Fraction(draw);
    assert PickTarget(draw, w) == u;
    forall pick | IsPick(w, u, pick)
      ensures pick == ActionAt(u)
    {
      assert pick > 0 ==> RunningTotal(w, pick) <= u;
    }
  }

  /** Something drawn, and the generator's state afterwards. */
  datatype Draw<T> = Draw(value: T, state: Word64)

  /** A number between two bounds; without a draw if they leave no choice. */
  function IntAt(state: Word64, inc: Word64, lo: int, hi: int): Draw<int> {
    if lo >= hi || (hi - lo + 1) % HALF_WORD == 0 then Draw(lo, state)
    else Draw(lo + Below(Output(state), hi - lo + 1), Step(state, inc))
  }

  function SideAt(state: Word64, inc: Word64): Draw<Side> {
    Draw(if Drawn(state) < 0.5 then Sell else Buy, Step(state, inc))
  }

  /** A participant with some chance, drawn in turn; else none. */
  function MpidAt(state: Word64, inc: Word64, chance: real): Draw<seq<Byte>> {
    if Drawn(state) < chance then
      Draw(MPIDS[Output(Step(state, inc)) % 8], Step(Step(state, inc), inc))
    else Draw([], Step(state, inc))
  }

  /** A price some ticks from the current one, and at least a tick. */
  function PriceAway(side: Side, current: int, offset: int, tick: int): int
    requires tick > 0
  {
    Floored(Quote(side, current, offset, tick), tick)
  }

  /** A price some ticks up or down from an order's, and at least a tick. */
  function PriceShifted(price: int, shift: int, tick: int): int
    requires tick > 0
  {
    Floored(SnapPrice(price + shift * tick, tick), tick)
  }

  /** A new order: its side, its distance in ticks, its lots and its participant, in this order. */
  function PlacementAt(state: Word64, inc: Word64, current: int, tick: int, farthest: int, fewestLots: int,
                       chance: real): Draw<Action>
    requires tick > 0
  {
    var side := SideAt(state, inc);
    var offset := IntAt(side.state, inc, 1, farthest);
    var lots := IntAt(offset.state, inc, fewestLots, 10);
    var mpid := MpidAt(lots.state, inc, chance);
    Draw(Place(side.value, PriceAway(side.value, current, offset.value, tick), lots.value, mpid.value), mpid.state)
  }

  /** A position among the resting orders; without a draw if there is none. */
  function PickAt(s: Sim, state: Word64, inc: Word64): Draw<nat> {
    var total := |s.book.Resting()|;
    if total % HALF_WORD == 0 then Draw(0, state) else Draw(Below(Output(state), total), Step(state, inc))
  }

  lemma PickIs(s: Sim, state: Word64, inc: Word64)
    requires 0 < |s.book.Resting()| < HALF_WORD
    ensures |s.book.Resting()| % HALF_WORD != 0
    ensures PickAt(s, state, inc) == Draw(Below(Output(state), |s.book.Resting()|), Step(state, inc))
  {
    SmallBound(|s.book.Resting()|);
  }

  /** A cancel: the position of an order. */
  function CancelAt(s: Sim, state: Word64, inc: Word64): Draw<Action> {
    var pick := PickAt(s, state, inc);
    Draw(Cancel(pick.value), pick.state)
  }

  /** The new price and size of an order at a position: the ticks it moves, then its lots. */
  function AmendWith(pick: nat, price: int, state: Word64, inc: Word64, tick: int): Draw<Action>
    requires tick > 0
  {
    var shift := IntAt(state, inc, -2, 2);
    var lots := IntAt(shift.state, inc, 1, 10);
    Draw(Amend(pick, PriceShifted(price, shift.value, tick), lots.value), lots.state)
  }

  function PriceAt(b: State, pick: nat): int {
    if pick < |b.Resting()| then Lookup(b, b.Resting()[pick]).price else 0
  }

  /** An amendment: the position of an order, and what becomes of it. */
  function AmendAt(s: Sim, state: Word64, inc: Word64, tick: int): Draw<Action>
    requires tick > 0
  {
    if s.book.Resting() == [] then Draw(Amend(0, 0, 1), state)
    else
      var pick := PickAt(s, state, inc);
      AmendWith(pick.value, PriceAt(s.book, pick.value), pick.state, inc, tick)
  }

  lemma AmendIdle(s: Sim, state: Word64, inc: Word64, tick: int)
    requires tick > 0 && s.book.Resting() == []
    ensures AmendAt(s, state, inc, tick) == Draw(Amend(0, 0, 1), state) && PickAt(s, state, inc) == Draw(0, state)
  {
  }

  lemma AmendIs(s: Sim, state: Word64, inc: Word64, tick: int, pick: Draw<nat>)
    requires tick > 0 && s.book.Resting() != [] && pick == PickAt(s, state, inc)
    ensures AmendAt(s, state, inc, tick) == AmendWith(pick.value, PriceAt(s.book, pick.value), pick.state, inc, tick)
  {
  }

  /** An execution: the aggressor's side, then the lots, up to what the hit order has. */
  function TradeAt(s: Sim, state: Word64, inc: Word64): Draw<Action> {
    if Best(s.book.bids) == 0 || Best(s.book.asks) == 0 then Draw(Execute(Buy, 1), state)
    else
      var aggressor := if Drawn(state) < 0.5 then Buy else Sell;
      var lots := IntAt(Step(state, inc), inc, 1, LotsOf(s.book, aggressor));
      Draw(Execute(aggressor, lots.value), lots.state)
  }

  /** The lots of the order an execution hits. */
  function LotsOf(b: State, aggressor: Side): int {
    if CanExecute(b, aggressor) then Lookup(b, Target(b, aggressor)).shares / LOT else 0
  }

  /** What a simulator does next: a draw decides what, and further draws decide how. */
  function NextAction(s: Sim, state: Word64, inc: Word64, current: int, tick: int): Draw<Action>
    requires tick > 0
  {
    var next := Step(state, inc);
    match ActionAt(Drawn(state))
    case 0 => PlacementAt(next, inc, current, tick, 10, 1, 0.2)
    case 1 => CancelAt(s, next, inc)
    case 2 => AmendAt(s, next, inc, tick)
    case 3 => TradeAt(s, next, inc)
    case _ => PlacementAt(next, inc, current, tick, 5, 2, 0.25)
  }

  /** The actions of a step, one after the other. */
  function NextActions(s: Sim, state: Word64, inc: Word64, current: int, y: Symbol, n: nat): Draw<seq<Action>>
    requires y.tick > 0
  {
    if n == 0 then Draw([], state)
    else
      var earlier := NextActions(s, state, inc, current, y, n - 1);
      var last := NextAction(Run(s, earlier.value, y), earlier.state, inc, current, y.tick);
      Draw(earlier.value + [last.value], last.state)
  }

  /** Sizes and participants of seed orders. */
  function SeedAt(state: Word64, inc: Word64): Draw<(int, seq<Byte>)> {
    var shares := IntAt(state, inc, 100, 1000);
    var mpid := MpidAt(shares.state, inc, 0.3);
    Draw((shares.value / 100 * 100, mpid.value), mpid.state)
  }

  /** Those of the first n seed orders. */
  function SeedsAt(state: Word64, inc: Word64, n: nat): Draw<seq<(int, seq<Byte>)>> {
    if n == 0 then Draw([], state)
    else
      var earlier := SeedsAt(state, inc, n - 1);
      var last := SeedAt(earlier.state, inc);
      Draw(earlier.value + [last.value], last.state)
  }
}
