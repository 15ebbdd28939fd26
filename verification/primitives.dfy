/** The boundary-primitive library shared by both pipelines
    (`generate_carry_logic`, `generate_return_head_logic`,
    `generate_check_logic`). */
module Primitives {
  import opened Wrappers
  import opened Transitions
  import opened Dispatch

  /** `generate_carry_logic`: a rightward sweep over `'0'`/`'1'` cells in
      which the state remembers one bit. */
  function CarryLogic(carry0: string, carry1: string): (r: seq<Transition>)
    ensures |r| == 4
    ensures forall t <- r ::
      && t.direction == Right
      && (t.currentState == carry0 || t.currentState == carry1)
      && (t.newState == carry0 || t.newState == carry1)
  {
    [ Transition(carry0, '0', '0', Right, carry0),
      Transition(carry0, '1', '0', Right, carry1),
      Transition(carry1, '0', '1', Right, carry0),
      Transition(carry1, '1', '1', Right, carry1) ]
  }

  /** `generate_return_head_logic`. */
  function ReturnHeadLogic(returnState: string, targetState: string): (r: seq<Transition>)
    ensures |r| == 2
    ensures forall t <- r :: t.currentState == returnState
    ensures forall t <- r :: t.newState == returnState || t.newState == targetState
  {
    [ Transition(returnState, AnySymbol, AnySymbol, Left, returnState),
      Transition(returnState, LeftWall, LeftWall, Right, targetState) ]
  }

  /** `generate_check_logic`. */
  function CheckLogic(checkState: string, onAnyState: string, onSymbol: char,
                      onSymbolNewSymbol: char, onSymbolDirection: Direction,
                      onSymbolNewState: string): (r: seq<Transition>)
    ensures |r| == 2
    ensures forall t <- r :: t.currentState == checkState
    ensures forall t <- r :: t.newState == onAnyState || t.newState == onSymbolNewState
  {
    [ Transition(checkState, AnySymbol, AnySymbol, Stay, onAnyState),
      Transition(checkState, onSymbol, onSymbolNewSymbol, onSymbolDirection, onSymbolNewState) ]
  }

  /** The boundary check as a decision: in the check state the trigger
      symbol fires the special record; every other symbol stays put, leaves
      the cell as it is and hands over to `onAnyState`. */
  lemma CheckLogicDispatch(checkState: string, onAnyState: string, onSymbol: char,
                           onSymbolNewSymbol: char, onSymbolDirection: Direction,
                           onSymbolNewState: string, a: char)
    requires onSymbol != AnySymbol
    requires onSymbolNewSymbol != AnySymbol
    ensures a == onSymbol ==>
      Fires(CheckLogic(checkState, onAnyState, onSymbol, onSymbolNewSymbol, onSymbolDirection, onSymbolNewState),
            checkState, a, onSymbolDirection, onSymbolNewSymbol, onSymbolNewState)
    ensures a != onSymbol ==>
      Fires(CheckLogic(checkState, onAnyState, onSymbol, onSymbolNewSymbol, onSymbolDirection, onSymbolNewState),
            checkState, a, Stay, a, onAnyState)
  {
    var table := CheckLogic(checkState, onAnyState, onSymbol, onSymbolNewSymbol,
                            onSymbolDirection, onSymbolNewState);
    LookupPair(table, table[0], table[1], checkState, a);
  }

  /** Return-head: any symbol other than the left marker moves the head left
      and keeps scanning; the left marker moves it right into the target. */
  lemma ReturnHeadDispatch(returnState: string, targetState: string, a: char)
    ensures a == LeftWall ==>
      Fires(ReturnHeadLogic(returnState, targetState), returnState, a, Right, LeftWall, targetState)
    ensures a != LeftWall ==>
      Fires(ReturnHeadLogic(returnState, targetState), returnState, a, Left, a, returnState)
  {
    var table := ReturnHeadLogic(returnState, targetState);
    LookupPair(table, table[0], table[1], returnState, a);
  }

  predicate IsBit(c: char) {
    c == '0' || c == '1'
  }

  /** The carry state that remembers bit `b`. */
  function CarryState(carry0: string, carry1: string, b: char): string {
    if b == '0' then carry0 else carry1
  }

  /** `table` answers every bit in either carry state like the carry logic:
      it writes the remembered bit, moves right and remembers the bit read. */
  predicate ActsAsCarry(table: seq<Transition>, carry0: string, carry1: string) {
    forall held, b | IsBit(held) && IsBit(b) ::
      Lookup(table, CarryState(carry0, carry1, held), b)
        == Some(Transition(CarryState(carry0, carry1, held), b, held, Right, CarryState(carry0, carry1, b)))
  }

  lemma CarryLogicActsAsCarry(carry0: string, carry1: string)
    requires carry0 != carry1
    ensures ActsAsCarry(CarryLogic(carry0, carry1), carry0, carry1)
  {
    forall held, b | IsBit(held) && IsBit(b)
      ensures Lookup(CarryLogic(carry0, carry1), CarryState(carry0, carry1, held), b)
        == Some(Transition(CarryState(carry0, carry1, held), b, held, Right, CarryState(carry0, carry1, b)))
    {
      var table := CarryLogic(carry0, carry1);
      var k := (if held == '0' then 0 else 2) + (if b == '0' then 0 else 1);
      FirstMatchAt(table, k, CarryState(carry0, carry1, held), b);
    }
  }

  /** A carry sweep moves a bit string one cell to the right: started in
      the state remembering `held`, it writes `held` followed by every input
      bit but the last, and ends in the state remembering the last one. */
  lemma {:induction false} CarrySweep(table: seq<Transition>, carry0: string, carry1: string,
                                      held: char, bits: seq<char>)
    requires ActsAsCarry(table, carry0, carry1)
    requires IsBit(held)
    requires forall i :: 0 <= i < |bits| ==> IsBit(bits[i])
    ensures var shifted := [held] + bits;
      SweepRight(table, CarryState(carry0, carry1, held), bits)
        == Some((shifted[..|bits|], CarryState(carry0, carry1, shifted[|bits|])))
    decreases |bits|
  {
    if |bits| > 0 {
      var b := bits[0];
      assert Lookup(table, CarryState(carry0, carry1, held), b)
        == Some(Transition(CarryState(carry0, carry1, held), b, held, Right, CarryState(carry0, carry1, b)));
      CarrySweep(table, carry0, carry1, b, bits[1..]);
      ShiftedTail(held, bits);
    }
  }

  /** The shifted string is the held bit followed by the shifted tail. */
  lemma ShiftedTail<T>(held: T, bits: seq<T>)
    requires |bits| > 0
    ensures var shifted, rest := [held] + bits, [bits[0]] + bits[1..];
      && shifted[..|bits|] == [held] + rest[..|bits[1..]|]
      && shifted[|bits|] == rest[|bits[1..]|]
  {
    assert [bits[0]] + bits[1..] == bits;
  }

  /** `generate_carry_logic` read as a sweep: it shifts a bit string one
      cell to the right. */
  lemma CarryLogicShifts(carry0: string, carry1: string, held: char, bits: seq<char>)
    requires carry0 != carry1
    requires IsBit(held)
    requires forall i :: 0 <= i < |bits| ==> IsBit(bits[i])
    ensures var shifted := [held] + bits;
      SweepRight(CarryLogic(carry0, carry1), CarryState(carry0, carry1, held), bits)
        == Some((shifted[..|bits|], CarryState(carry0, carry1, shifted[|bits|])))
  {
    CarryLogicActsAsCarry(carry0, carry1);
    CarrySweep(CarryLogic(carry0, carry1), carry0, carry1, held, bits);
  }
}
