/** The Infinite-to-Sipser pipeline: runs a doubly-infinite-tape machine on
    a tape bounded by a left marker `#` at the origin and a right marker `$`
    that is moved right whenever the simulated region must grow
    (`generate_setup_transitions`, `generate_check_right_logic`,
    `generate_shift_sub_logic`, `generate_check_left_logic`,
    `convert_simulation_transitions`). */
module InfiniteToSipser {
  import opened Wrappers
  import opened Text
  import opened Transitions
  import opened Dispatch
  import opened Primitives
  import opened Enumeration

  /** The control states synthesised for one rewrite target. */
  datatype Role =
    | CheckRight | ExpandRight | CheckLeft | ShiftStart
    | ShiftCarry0 | ShiftCarry1 | ShiftWriteEnd | ShiftReturn

  function RolePrefix(role: Role): string {
    match role
    case CheckRight => "check_right_"
    case ExpandRight => "expand_right_"
    case CheckLeft => "check_left_"
    case ShiftStart => "shift_start_"
    case ShiftCarry0 => "shift_carry_0_"
    case ShiftCarry1 => "shift_carry_1_"
    case ShiftWriteEnd => "shift_write_end_"
    case ShiftReturn => "shift_return_"
  }

  /** The label of control state `role` for target `s`. */
  function ControlLabel(role: Role, s: string): string {
    RolePrefix(role) + s
  }

  /** A label the engine keeps for its own control states. Source tables
      are assumed not to use such labels; the engine does not check it. */
  predicate Reserved(state: string) {
    exists role :: StartsWith(state, RolePrefix(role))
  }

  predicate NoReservedStates(ts: seq<Transition>) {
    forall t <- ts :: !Reserved(t.currentState)
  }

  lemma ControlLabelIsReserved(role: Role, s: string)
    ensures Reserved(ControlLabel(role, s))
  {
    assert ControlLabel(role, s)[..|RolePrefix(role)|] == RolePrefix(role);
  }

  /** Different roles or different targets never share a label. */
  lemma ControlLabelInjective(r1: Role, s1: string, r2: Role, s2: string)
    ensures ControlLabel(r1, s1) == ControlLabel(r2, s2) ==> r1 == r2 && s1 == s2
  {
    var l1 := ControlLabel(r1, s1);
    var l2 := ControlLabel(r2, s2);
    if l1 == l2 {
      assert l1[0] == RolePrefix(r1)[0] && l2[0] == RolePrefix(r2)[0];
      assert l1[6] == RolePrefix(r1)[6] && l2[6] == RolePrefix(r2)[6];
      if |RolePrefix(r1)| > 12 && |RolePrefix(r2)| > 12 {
        assert l1[12] == RolePrefix(r1)[12] && l2[12] == RolePrefix(r2)[12];
      }
      RoleByPrefixChars(r1, r2);
      assert l1[|RolePrefix(r1)|..] == s1;
      assert l2[|RolePrefix(r2)|..] == s2;
    }
  }

  /** Characters 0, 6 and 12 of a role prefix tell the roles apart. */
  lemma RoleByPrefixChars(r1: Role, r2: Role)
    requires RolePrefix(r1)[0] == RolePrefix(r2)[0] && RolePrefix(r1)[6] == RolePrefix(r2)[6]
    requires |RolePrefix(r1)| > 12 && |RolePrefix(r2)| > 12 ==> RolePrefix(r1)[12] == RolePrefix(r2)[12]
    ensures r1 == r2
  {
  }

  lemma ControlLabelIsValid(role: Role, s: string)
    requires ValidLabel(s)
    ensures ValidLabel(ControlLabel(role, s))
  {
    var p := RolePrefix(role);
    RolePrefixIsPlain(role);
    PlainIsClean(p);
    PrefixedLabelIsValid(p, s);
  }

  lemma RolePrefixIsPlain(role: Role)
    ensures Plain(RolePrefix(role))
  {
    match role {
      case CheckRight => CheckPrefixesArePlain(role);
      case CheckLeft => CheckPrefixesArePlain(role);
      case ExpandRight => CheckPrefixesArePlain(role);
      case ShiftStart => ShiftPrefixesArePlain(role);
      case ShiftCarry0 => ShiftPrefixesArePlain(role);
      case ShiftCarry1 => ShiftPrefixesArePlain(role);
      case ShiftWriteEnd => ShiftPrefixesArePlain(role);
      case ShiftReturn => ShiftPrefixesArePlain(role);
    }
  }

  lemma CheckPrefixesArePlain(role: Role)
    requires role == CheckRight || role == CheckLeft || role == ExpandRight
    ensures Plain(RolePrefix(role))
  {
  }

  lemma ShiftPrefixesArePlain(role: Role)
    requires !(role == CheckRight || role == CheckLeft || role == ExpandRight)
    ensures Plain(RolePrefix(role))
  {
  }

  // ---------------------------------------------------------------- setup

  const WriteEndMarker: string := "q_write_end_marker"
  const ReturnHead: string := "q_return_head"
  const Carry0: string := "q_carry_0"
  const Carry1: string := "q_carry_1"
  const WriteEndMarkerEmpty: string := "q_write_end_marker_empty"

  function SetupStates(): set<string> {
    {StartState, Carry0, Carry1, WriteEndMarker, ReturnHead, WriteEndMarkerEmpty}
  }

  /** `generate_setup_transitions`: puts the left marker at the origin,
      shifts any bit string on the tape one cell right, puts the right marker
      behind it and hands over to `renamedStart` on the first cell. */
  function SetupTransitions(renamedStart: string): (r: seq<Transition>)
    ensures |r| == 13
    ensures r[0].currentState == StartState && r[|r| - 1].newState == renamedStart
  {
    [ Transition(StartState, '0', LeftWall, Right, Carry0),
      Transition(StartState, '1', LeftWall, Right, Carry1) ]
    + CarryLogic(Carry0, Carry1)
    + [ Transition(Carry0, Blank, '0', Right, WriteEndMarker),
        Transition(Carry1, Blank, '1', Right, WriteEndMarker),
        Transition(WriteEndMarker, Blank, RightWall, Left, ReturnHead) ]
    + ReturnHeadLogic(ReturnHead, renamedStart)
    + [ Transition(StartState, Blank, LeftWall, Right, WriteEndMarkerEmpty),
        Transition(WriteEndMarkerEmpty, Blank, RightWall, Left, renamedStart) ]
  }

  // ------------------------------------------------------------- clusters

  /** `generate_check_right_logic`: on the right marker, blank it, step
      right, write a fresh marker and step back; otherwise resume `s`. */
  function CheckRightLogic(s: string): (r: seq<Transition>)
    ensures |r| == 3
  {
    CheckLogic(ControlLabel(CheckRight, s), s, RightWall, Blank, Right, ControlLabel(ExpandRight, s))
    + [Transition(ControlLabel(ExpandRight, s), Blank, RightWall, Left, s)]
  }

  /** `generate_shift_sub_logic`: erases the first cell of the region and
      carries the whole region one cell to the right, moving the right
      marker, then returns to the first cell and resumes `suffix`. */
  function ShiftSubLogic(suffix: string, shiftStart: string): (r: seq<Transition>)
    ensures |r| == 15
  {
    var carry0 := ControlLabel(ShiftCarry0, suffix);
    var carry1 := ControlLabel(ShiftCarry1, suffix);
    var writeEnd := ControlLabel(ShiftWriteEnd, suffix);
    var returnState := ControlLabel(ShiftReturn, suffix);
    [ Transition(shiftStart, '0', Blank, Right, carry0),
      Transition(shiftStart, '1', Blank, Right, carry1),
      Transition(shiftStart, Blank, Blank, Stay, suffix) ]
    + CarryLogic(carry0, carry1)
    + [ Transition(carry0, Blank, '0', Right, writeEnd),
        Transition(carry1, Blank, '1', Right, writeEnd),
        Transition(carry0, RightWall, '0', Right, writeEnd),
        Transition(carry1, RightWall, '1', Right, writeEnd),
        Transition(shiftStart, RightWall, Blank, Right, writeEnd),
        Transition(writeEnd, Blank, RightWall, Left, returnState) ]
    + ReturnHeadLogic(returnState, suffix)
  }

  /** `generate_check_left_logic`: on the left marker, step right and shift
      the region; otherwise resume `s`. */
  function CheckLeftLogic(s: string): (r: seq<Transition>)
    ensures |r| == 17
  {
    CheckLogic(ControlLabel(CheckLeft, s), s, LeftWall, LeftWall, Right, ControlLabel(ShiftStart, s))
    + ShiftSubLogic(s, ControlLabel(ShiftStart, s))
  }

  /** The records emitted for one rewrite target, in source order. */
  function Cluster(s: string): (r: seq<Transition>)
    ensures |r| == 20
  {
    CheckRightLogic(s) + CheckLeftLogic(s)
  }

  /** The control states of the cluster of `s`. */
  function ClusterStates(s: string): set<string> {
    { ControlLabel(CheckRight, s), ControlLabel(ExpandRight, s), ControlLabel(CheckLeft, s),
      ControlLabel(ShiftStart, s), ControlLabel(ShiftCarry0, s), ControlLabel(ShiftCarry1, s),
      ControlLabel(ShiftWriteEnd, s), ControlLabel(ShiftReturn, s) }
  }

  /** The control labels of one target are pairwise different and differ
      from the target itself. */
  lemma ClusterLabelsDistinct(s: string)
    ensures forall r1: Role, r2: Role :: r1 != r2 ==> ControlLabel(r1, s) != ControlLabel(r2, s)
    ensures forall role: Role :: ControlLabel(role, s) != s
  {
    forall r1: Role, r2: Role
      ensures r1 != r2 ==> ControlLabel(r1, s) != ControlLabel(r2, s)
    {
      ControlLabelInjective(r1, s, r2, s);
    }
    forall role: Role
      ensures ControlLabel(role, s) != s
    {
      assert |ControlLabel(role, s)| > |s|;
    }
  }

  /** The labels one cluster works with, as plain values. */
  datatype Labels = Labels(target: string, checkRight: string, expandRight: string, checkLeft: string,
                           shiftStart: string, carry0: string, carry1: string, writeEnd: string,
                           shiftReturn: string)

  function LabelsOf(s: string): Labels {
    Labels(s, ControlLabel(CheckRight, s), ControlLabel(ExpandRight, s), ControlLabel(CheckLeft, s),
           ControlLabel(ShiftStart, s), ControlLabel(ShiftCarry0, s), ControlLabel(ShiftCarry1, s),
           ControlLabel(ShiftWriteEnd, s), ControlLabel(ShiftReturn, s))
  }

  predicate DistinctLabels(l: Labels) {
    && l.target != l.checkRight && l.target != l.expandRight && l.target != l.checkLeft && l.target != l.shiftStart
    && l.target != l.carry0 && l.target != l.carry1 && l.target != l.writeEnd && l.target != l.shiftReturn
    && l.checkRight != l.expandRight && l.checkRight != l.checkLeft && l.checkRight != l.shiftStart && l.checkRight != l.carry0
    && l.checkRight != l.carry1 && l.checkRight != l.writeEnd && l.checkRight != l.shiftReturn && l.expandRight != l.checkLeft
    && l.expandRight != l.shiftStart && l.expandRight != l.carry0 && l.expandRight != l.carry1 && l.expandRight != l.writeEnd
    && l.expandRight != l.shiftReturn && l.checkLeft != l.shiftStart && l.checkLeft != l.carry0 && l.checkLeft != l.carry1
    && l.checkLeft != l.writeEnd && l.checkLeft != l.shiftReturn && l.shiftStart != l.carry0 && l.shiftStart != l.carry1
    && l.shiftStart != l.writeEnd && l.shiftStart != l.shiftReturn && l.carry0 != l.carry1 && l.carry0 != l.writeEnd
    && l.carry0 != l.shiftReturn && l.carry1 != l.writeEnd && l.carry1 != l.shiftReturn && l.writeEnd != l.shiftReturn
  }

  /** The twenty records of a cluster over the labels `l`. */
  function ClusterOver(l: Labels): seq<Transition> {
    [ Transition(l.checkRight, AnySymbol, AnySymbol, Stay, l.target),
      Transition(l.checkRight, RightWall, Blank, Right, l.expandRight),
      Transition(l.expandRight, Blank, RightWall, Left, l.target),
      Transition(l.checkLeft, AnySymbol, AnySymbol, Stay, l.target),
      Transition(l.checkLeft, LeftWall, LeftWall, Right, l.shiftStart),
      Transition(l.shiftStart, '0', Blank, Right, l.carry0),
      Transition(l.shiftStart, '1', Blank, Right, l.carry1),
      Transition(l.shiftStart, Blank, Blank, Stay, l.target),
      Transition(l.carry0, '0', '0', Right, l.carry0),
      Transition(l.carry0, '1', '0', Right, l.carry1),
      Transition(l.carry1, '0', '1', Right, l.carry0),
      Transition(l.carry1, '1', '1', Right, l.carry1),
      Transition(l.carry0, Blank, '0', Right, l.writeEnd),
      Transition(l.carry1, Blank, '1', Right, l.writeEnd),
      Transition(l.carry0, RightWall, '0', Right, l.writeEnd),
      Transition(l.carry1, RightWall, '1', Right, l.writeEnd),
      Transition(l.shiftStart, RightWall, Blank, Right, l.writeEnd),
      Transition(l.writeEnd, Blank, RightWall, Left, l.shiftReturn),
      Transition(l.shiftReturn, AnySymbol, AnySymbol, Left, l.shiftReturn),
      Transition(l.shiftReturn, LeftWall, LeftWall, Right, l.target) ]
  }

  /** The same records, built the way the generators build them. */
  function ClusterParts(l: Labels): seq<Transition> {
    CheckLogic(l.checkRight, l.target, RightWall, Blank, Right, l.expandRight)
    + [Transition(l.expandRight, Blank, RightWall, Left, l.target)]
    + (CheckLogic(l.checkLeft, l.target, LeftWall, LeftWall, Right, l.shiftStart) + ShiftParts(l))
  }

  function ShiftParts(l: Labels): seq<Transition> {
    [ Transition(l.shiftStart, '0', Blank, Right, l.carry0),
      Transition(l.shiftStart, '1', Blank, Right, l.carry1),
      Transition(l.shiftStart, Blank, Blank, Stay, l.target) ]
    + CarryLogic(l.carry0, l.carry1)
    + [ Transition(l.carry0, Blank, '0', Right, l.writeEnd),
        Transition(l.carry1, Blank, '1', Right, l.writeEnd),
        Transition(l.carry0, RightWall, '0', Right, l.writeEnd),
        Transition(l.carry1, RightWall, '1', Right, l.writeEnd),
        Transition(l.shiftStart, RightWall, Blank, Right, l.writeEnd),
        Transition(l.writeEnd, Blank, RightWall, Left, l.shiftReturn) ]
    + ReturnHeadLogic(l.shiftReturn, l.target)
  }

  lemma ClusterIsParts(s: string)
    ensures Cluster(s) == ClusterParts(LabelsOf(s))
  {
    assert ShiftSubLogic(s, ControlLabel(ShiftStart, s)) == ShiftParts(LabelsOf(s));
  }

  /** The nesting of the generators' concatenations, flattened. */
  lemma ClusterShape<T>(r0: T, r1: T, r2: T, r3: T, r4: T, r5: T, r6: T, r7: T, r8: T, r9: T,
                        r10: T, r11: T, r12: T, r13: T, r14: T, r15: T, r16: T, r17: T, r18: T, r19: T)
    ensures [r0, r1] + [r2] + ([r3, r4] + ((([r5, r6, r7] + [r8, r9, r10, r11]) + [r12, r13, r14, r15, r16, r17]) + [r18, r19]))
         == [r0, r1, r2, r3, r4, r5, r6, r7, r8, r9, r10, r11, r12, r13, r14, r15, r16, r17, r18, r19]
  {
  }

  lemma PartsAreOver(l: Labels)
    ensures ClusterParts(l) == ClusterOver(l)
  {
    var o := ClusterOver(l);
    ClusterShape(o[0], o[1], o[2], o[3], o[4], o[5], o[6], o[7], o[8], o[9],
                 o[10], o[11], o[12], o[13], o[14], o[15], o[16], o[17], o[18], o[19]);
  }

  lemma ClusterIsOver(s: string)
    ensures Cluster(s) == ClusterOver(LabelsOf(s))
  {
    ClusterIsParts(s);
    PartsAreOver(LabelsOf(s));
  }

  lemma LabelsOfDistinct(s: string)
    ensures DistinctLabels(LabelsOf(s))
  {
    ClusterLabelsDistinct(s);
  }

  /** A record of the cluster is one of its twenty records. */
  lemma OverMember(l: Labels, t: Transition)
    requires t in ClusterOver(l)
    ensures
      t == Transition(l.checkRight, AnySymbol, AnySymbol, Stay, l.target) ||
      t == Transition(l.checkRight, RightWall, Blank, Right, l.expandRight) ||
      t == Transition(l.expandRight, Blank, RightWall, Left, l.target) ||
      t == Transition(l.checkLeft, AnySymbol, AnySymbol, Stay, l.target) ||
      t == Transition(l.checkLeft, LeftWall, LeftWall, Right, l.shiftStart) ||
      t == Transition(l.shiftStart, '0', Blank, Right, l.carry0) ||
      t == Transition(l.shiftStart, '1', Blank, Right, l.carry1) ||
      t == Transition(l.shiftStart, Blank, Blank, Stay, l.target) ||
      t == Transition(l.carry0, '0', '0', Right, l.carry0) ||
      t == Transition(l.carry0, '1', '0', Right, l.carry1) ||
      t == Transition(l.carry1, '0', '1', Right, l.carry0) ||
      t == Transition(l.carry1, '1', '1', Right, l.carry1) ||
      t == Transition(l.carry0, Blank, '0', Right, l.writeEnd) ||
      t == Transition(l.carry1, Blank, '1', Right, l.writeEnd) ||
      t == Transition(l.carry0, RightWall, '0', Right, l.writeEnd) ||
      t == Transition(l.carry1, RightWall, '1', Right, l.writeEnd) ||
      t == Transition(l.shiftStart, RightWall, Blank, Right, l.writeEnd) ||
      t == Transition(l.writeEnd, Blank, RightWall, Left, l.shiftReturn) ||
      t == Transition(l.shiftReturn, AnySymbol, AnySymbol, Left, l.shiftReturn) ||
      t == Transition(l.shiftReturn, LeftWall, LeftWall, Right, l.target)
  {
  }

  /** The records that can fire in state `q` on `a` are `t` alone. */
  lemma OverFirstMatch(l: Labels, q: string, a: char, t: Transition)
    requires t in ClusterOver(l) && Reads(t, q, a)
    requires forall u <- ClusterOver(l) :: Reads(u, q, a) ==> u == t
    ensures FirstMatch(ClusterOver(l), q, a) == Some(t)
  {
  }

  lemma OverCheckRight(l: Labels, a: char)
    requires DistinctLabels(l)
    ensures a == RightWall ==> Fires(ClusterOver(l), l.checkRight, a, Right, Blank, l.expandRight)
    ensures a != RightWall ==> Fires(ClusterOver(l), l.checkRight, a, Stay, a, l.target)
  {
    var table := ClusterOver(l);
    if a == RightWall {
      var t := Transition(l.checkRight, RightWall, Blank, Right, l.expandRight);
      forall u <- table | Reads(u, l.checkRight, a) ensures u == t {
        OverMember(l, u);
      }
      OverFirstMatch(l, l.checkRight, a, t);
    } else {
      var t := Transition(l.checkRight, AnySymbol, AnySymbol, Stay, l.target);
      forall u <- table ensures Reads(u, l.checkRight, AnySymbol) ==> u == t
        ensures a != AnySymbol ==> !Reads(u, l.checkRight, a) {
        OverMember(l, u);
      }
      OverFirstMatch(l, l.checkRight, AnySymbol, t);
      LookupFallsBack(table, l.checkRight, a, t);
    }
  }

  lemma OverExpandRight(l: Labels, a: char)
    requires DistinctLabels(l)
    ensures a == Blank ==> Fires(ClusterOver(l), l.expandRight, a, Left, RightWall, l.target)
    ensures a != Blank ==> Lookup(ClusterOver(l), l.expandRight, a) == None
  {
    var table := ClusterOver(l);
    if a == Blank {
      var t := Transition(l.expandRight, Blank, RightWall, Left, l.target);
      forall u <- table | Reads(u, l.expandRight, a) ensures u == t {
        OverMember(l, u);
      }
      OverFirstMatch(l, l.expandRight, a, t);
    } else {
      forall u <- table ensures !Reads(u, l.expandRight, a) && !Reads(u, l.expandRight, AnySymbol) {
        OverMember(l, u);
      }
    }
  }

  lemma OverCheckLeft(l: Labels, a: char)
    requires DistinctLabels(l)
    ensures a == LeftWall ==> Fires(ClusterOver(l), l.checkLeft, a, Right, LeftWall, l.shiftStart)
    ensures a != LeftWall ==> Fires(ClusterOver(l), l.checkLeft, a, Stay, a, l.target)
  {
    var table := ClusterOver(l);
    if a == LeftWall {
      var t := Transition(l.checkLeft, LeftWall, LeftWall, Right, l.shiftStart);
      forall u <- table | Reads(u, l.checkLeft, a) ensures u == t {
        OverMember(l, u);
      }
      OverFirstMatch(l, l.checkLeft, a, t);
    } else {
      var t := Transition(l.checkLeft, AnySymbol, AnySymbol, Stay, l.target);
      forall u <- table ensures Reads(u, l.checkLeft, AnySymbol) ==> u == t
        ensures a != AnySymbol ==> !Reads(u, l.checkLeft, a) {
        OverMember(l, u);
      }
      OverFirstMatch(l, l.checkLeft, AnySymbol, t);
      LookupFallsBack(table, l.checkLeft, a, t);
    }
  }

  lemma OverShiftStartBit(l: Labels, a: char)
    requires DistinctLabels(l)
    ensures a == '0' ==> Fires(ClusterOver(l), l.shiftStart, a, Right, Blank, l.carry0)
    ensures a == '1' ==> Fires(ClusterOver(l), l.shiftStart, a, Right, Blank, l.carry1)
  {
    var table := ClusterOver(l);
    if a == '0' {
      var t := Transition(l.shiftStart, '0', Blank, Right, l.carry0);
      forall u <- table | Reads(u, l.shiftStart, a) ensures u == t {
        OverMember(l, u);
      }
      OverFirstMatch(l, l.shiftStart, a, t);
    } else if a == '1' {
      var t := Transition(l.shiftStart, '1', Blank, Right, l.carry1);
      forall u <- table | Reads(u, l.shiftStart, a) ensures u == t {
        OverMember(l, u);
      }
      OverFirstMatch(l, l.shiftStart, a, t);
    }
  }

  lemma OverShiftStartEdge(l: Labels, a: char)
    requires DistinctLabels(l)
    ensures a == Blank ==> Fires(ClusterOver(l), l.shiftStart, a, Stay, Blank, l.target)
    ensures a == RightWall ==> Fires(ClusterOver(l), l.shiftStart, a, Right, Blank, l.writeEnd)
    ensures a !in {'0', '1', Blank, RightWall} ==> Lookup(ClusterOver(l), l.shiftStart, a) == None
  {
    var table := ClusterOver(l);
    if a == Blank {
      var t := Transition(l.shiftStart, Blank, Blank, Stay, l.target);
      forall u <- table | Reads(u, l.shiftStart, a) ensures u == t {
        OverMember(l, u);
      }
      OverFirstMatch(l, l.shiftStart, a, t);
    } else if a == RightWall {
      var t := Transition(l.shiftStart, RightWall, Blank, Right, l.writeEnd);
      forall u <- table | Reads(u, l.shiftStart, a) ensures u == t {
        OverMember(l, u);
      }
      OverFirstMatch(l, l.shiftStart, a, t);
    } else if a !in {'0', '1'} {
      forall u <- table ensures !Reads(u, l.shiftStart, a) && !Reads(u, l.shiftStart, AnySymbol) {
        OverMember(l, u);
      }
    }
  }

  lemma OverCarry(l: Labels)
    requires DistinctLabels(l)
    ensures ActsAsCarry(ClusterOver(l), l.carry0, l.carry1)
  {
    var table := ClusterOver(l);
    forall held, b | IsBit(held) && IsBit(b)
      ensures Lookup(table, CarryState(l.carry0, l.carry1, held), b)
        == Some(Transition(CarryState(l.carry0, l.carry1, held), b, held, Right, CarryState(l.carry0, l.carry1, b)))
    {
      var q := CarryState(l.carry0, l.carry1, held);
      var t := Transition(q, b, held, Right, CarryState(l.carry0, l.carry1, b));
      forall u <- table | Reads(u, q, b) ensures u == t {
        OverMember(l, u);
      }
      OverFirstMatch(l, q, b, t);
    }
  }

  lemma OverCarryEnd(l: Labels, a: char)
    requires DistinctLabels(l)
    ensures a == Blank || a == RightWall ==>
      && Fires(ClusterOver(l), l.carry0, a, Right, '0', l.writeEnd)
      && Fires(ClusterOver(l), l.carry1, a, Right, '1', l.writeEnd)
  {
    var table := ClusterOver(l);
    if a == Blank || a == RightWall {
      var t0 := Transition(l.carry0, a, '0', Right, l.writeEnd);
      var t1 := Transition(l.carry1, a, '1', Right, l.writeEnd);
      forall u <- table ensures Reads(u, l.carry0, a) ==> u == t0
        ensures Reads(u, l.carry1, a) ==> u == t1 {
        OverMember(l, u);
      }
      OverFirstMatch(l, l.carry0, a, t0);
      OverFirstMatch(l, l.carry1, a, t1);
    }
  }

  lemma OverCarryStuck(l: Labels, a: char)
    requires DistinctLabels(l)
    ensures a !in {'0', '1', Blank, RightWall} ==>
      Lookup(ClusterOver(l), l.carry0, a) == None && Lookup(ClusterOver(l), l.carry1, a) == None
  {
    var table := ClusterOver(l);
    if a !in {'0', '1', Blank, RightWall} {
      forall u <- table ensures !Reads(u, l.carry0, a) && !Reads(u, l.carry0, AnySymbol) && !Reads(u, l.carry1, a) && !Reads(u, l.carry1, AnySymbol) {
        OverMember(l, u);
      }
    }
  }

  lemma OverWriteEnd(l: Labels, a: char)
    requires DistinctLabels(l)
    ensures a == Blank ==> Fires(ClusterOver(l), l.writeEnd, a, Left, RightWall, l.shiftReturn)
    ensures a != Blank ==> Lookup(ClusterOver(l), l.writeEnd, a) == None
  {
    var table := ClusterOver(l);
    if a == Blank {
      var t := Transition(l.writeEnd, Blank, RightWall, Left, l.shiftReturn);
      forall u <- table | Reads(u, l.writeEnd, a) ensures u == t {
        OverMember(l, u);
      }
      OverFirstMatch(l, l.writeEnd, a, t);
    } else {
      forall u <- table ensures !Reads(u, l.writeEnd, a) && !Reads(u, l.writeEnd, AnySymbol) {
        OverMember(l, u);
      }
    }
  }

  lemma OverShiftReturn(l: Labels, a: char)
    requires DistinctLabels(l)
    ensures a == LeftWall ==> Fires(ClusterOver(l), l.shiftReturn, a, Right, LeftWall, l.target)
    ensures a != LeftWall ==> Fires(ClusterOver(l), l.shiftReturn, a, Left, a, l.shiftReturn)
  {
    var table := ClusterOver(l);
    if a == LeftWall {
      var t := Transition(l.shiftReturn, LeftWall, LeftWall, Right, l.target);
      forall u <- table | Reads(u, l.shiftReturn, a) ensures u == t {
        OverMember(l, u);
      }
      OverFirstMatch(l, l.shiftReturn, a, t);
    } else {
      var t := Transition(l.shiftReturn, AnySymbol, AnySymbol, Left, l.shiftReturn);
      forall u <- table ensures Reads(u, l.shiftReturn, AnySymbol) ==> u == t
        ensures a != AnySymbol ==> !Reads(u, l.shiftReturn, a) {
        OverMember(l, u);
      }
      OverFirstMatch(l, l.shiftReturn, AnySymbol, t);
      LookupFallsBack(table, l.shiftReturn, a, t);
    }
  }

  /** A table whose start state overwrites the first bit with `mark` and
      hands it to a carry sweep, and whose carry states write their bit onto
      the end cell, moves a bit region one cell right behind `mark`. */
  lemma {:induction false} ShiftSweepFrom(table: seq<Transition>, start: string, mark: char, carry0: string,
                                          carry1: string, writeEnd: string, bits: seq<char>, end: char)
    requires Fires(table, start, '0', Right, mark, carry0) && Fires(table, start, '1', Right, mark, carry1)
    requires |bits| == 0 ==> Fires(table, start, end, Right, mark, writeEnd)
    requires ActsAsCarry(table, carry0, carry1)
    requires Fires(table, carry0, end, Right, '0', writeEnd) && Fires(table, carry1, end, Right, '1', writeEnd)
    requires forall i :: 0 <= i < |bits| ==> IsBit(bits[i])
    ensures SweepRight(table, start, bits + [end]) == Some(([mark] + bits, writeEnd))
  {
    if |bits| == 0 {
      SweepRightOne(table, start, end, mark, writeEnd);
      assert bits + [end] == [end];
    } else {
      var b := bits[0];
      var c := CarryState(carry0, carry1, b);
      SweepRightOne(table, start, b, mark, c);
      CarrySweep(table, carry0, carry1, b, bits[1..]);
      assert [b] + bits[1..] == bits;
      var last := bits[|bits| - 1];
      var mid := CarryState(carry0, carry1, last);
      SweepRightOne(table, mid, end, last, writeEnd);
      SweepRightAppend(table, c, bits[1..], [end], bits[..|bits| - 1], mid);
      assert bits[..|bits| - 1] + [last] == bits;
      SweepRightAppend(table, start, [b], bits[1..] + [end], [mark], c);
      assert [b] + (bits[1..] + [end]) == bits + [end];
    }
  }

  // The same behaviour, for the cluster `convert_simulation_transitions`
  // emits for target `s`.

  /** `generate_check_right_logic`: the check state passes every symbol but
      the right marker back to `s` untouched; on the marker it blanks the
      cell and steps right into the expansion state, which writes a fresh
      marker on the new cell and steps back into `s`. */
  lemma ClusterCheckRight(s: string, a: char)
    ensures a == RightWall ==>
      Fires(Cluster(s), ControlLabel(CheckRight, s), a, Right, Blank, ControlLabel(ExpandRight, s))
    ensures a != RightWall ==> Fires(Cluster(s), ControlLabel(CheckRight, s), a, Stay, a, s)
    ensures a == Blank ==> Fires(Cluster(s), ControlLabel(ExpandRight, s), a, Left, RightWall, s)
    ensures a != Blank ==> Lookup(Cluster(s), ControlLabel(ExpandRight, s), a) == None
  {
    ClusterIsOver(s);
    LabelsOfDistinct(s);
    OverCheckRight(LabelsOf(s), a);
    OverExpandRight(LabelsOf(s), a);
  }

  /** `generate_check_left_logic`: the check state passes every symbol but
      the left marker back to `s`; on the marker it steps right into the
      shift chain. */
  lemma ClusterCheckLeft(s: string, a: char)
    ensures a == LeftWall ==>
      Fires(Cluster(s), ControlLabel(CheckLeft, s), a, Right, LeftWall, ControlLabel(ShiftStart, s))
    ensures a != LeftWall ==> Fires(Cluster(s), ControlLabel(CheckLeft, s), a, Stay, a, s)
  {
    ClusterIsOver(s);
    LabelsOfDistinct(s);
    OverCheckLeft(LabelsOf(s), a);
  }

  /** The first step of `generate_shift_sub_logic`: a bit is blanked and
      remembered; a blank cell hands back to `s` without shifting; the right
      marker is blanked and the marker rewritten one cell further. */
  lemma ClusterShiftStart(s: string, a: char)
    ensures a == '0' ==> Fires(Cluster(s), ControlLabel(ShiftStart, s), a, Right, Blank, ControlLabel(ShiftCarry0, s))
    ensures a == '1' ==> Fires(Cluster(s), ControlLabel(ShiftStart, s), a, Right, Blank, ControlLabel(ShiftCarry1, s))
    ensures a == Blank ==> Fires(Cluster(s), ControlLabel(ShiftStart, s), a, Stay, Blank, s)
    ensures a == RightWall ==>
      Fires(Cluster(s), ControlLabel(ShiftStart, s), a, Right, Blank, ControlLabel(ShiftWriteEnd, s))
    ensures a !in {'0', '1', Blank, RightWall} ==> Lookup(Cluster(s), ControlLabel(ShiftStart, s), a) == None
  {
    ClusterIsOver(s);
    LabelsOfDistinct(s);
    OverShiftStartBit(LabelsOf(s), a);
    OverShiftStartEdge(LabelsOf(s), a);
  }

  /** The carry states of the shift chain: over bits they shift the region
      right; on a blank or the right marker they write the last remembered
      bit and move on to rewrite the marker; on any other symbol no record
      fires. */
  lemma ClusterCarry(s: string, a: char)
    ensures ActsAsCarry(Cluster(s), ControlLabel(ShiftCarry0, s), ControlLabel(ShiftCarry1, s))
    ensures a == Blank || a == RightWall ==>
      && Fires(Cluster(s), ControlLabel(ShiftCarry0, s), a, Right, '0', ControlLabel(ShiftWriteEnd, s))
      && Fires(Cluster(s), ControlLabel(ShiftCarry1, s), a, Right, '1', ControlLabel(ShiftWriteEnd, s))
    ensures a !in {'0', '1', Blank, RightWall} ==>
      && Lookup(Cluster(s), ControlLabel(ShiftCarry0, s), a) == None
      && Lookup(Cluster(s), ControlLabel(ShiftCarry1, s), a) == None
  {
    ClusterIsOver(s);
    LabelsOfDistinct(s);
    OverCarry(LabelsOf(s));
    OverCarryEnd(LabelsOf(s), a);
    OverCarryStuck(LabelsOf(s), a);
  }

  /** The end of the shift chain: the marker is written on the blank behind
      the region, then the head runs left to the left marker and steps
      right into `s`. */
  lemma ClusterShiftFinish(s: string, a: char)
    ensures a == Blank ==>
      Fires(Cluster(s), ControlLabel(ShiftWriteEnd, s), a, Left, RightWall, ControlLabel(ShiftReturn, s))
    ensures a != Blank ==> Lookup(Cluster(s), ControlLabel(ShiftWriteEnd, s), a) == None
    ensures a == LeftWall ==> Fires(Cluster(s), ControlLabel(ShiftReturn, s), a, Right, LeftWall, s)
    ensures a != LeftWall ==>
      Fires(Cluster(s), ControlLabel(ShiftReturn, s), a, Left, a, ControlLabel(ShiftReturn, s))
  {
    ClusterIsOver(s);
    LabelsOfDistinct(s);
    OverWriteEnd(LabelsOf(s), a);
    OverShiftReturn(LabelsOf(s), a);
  }

  /** The shift as a whole: started on the first cell of a bit region that
      ends in a blank or the right marker, the chain blanks that cell and
      moves every bit one cell right, then stands on the cell behind the
      region ready to write the marker. An empty region works only when the
      marker is right there. */
  lemma ClusterShiftSweep(s: string, bits: seq<char>, end: char)
    requires forall i :: 0 <= i < |bits| ==> IsBit(bits[i])
    requires end == Blank || end == RightWall
    requires |bits| > 0 || end == RightWall
    ensures SweepRight(Cluster(s), ControlLabel(ShiftStart, s), bits + [end])
      == Some(([Blank] + bits, ControlLabel(ShiftWriteEnd, s)))
  {
    ClusterShiftStart(s, '0');
    ClusterShiftStart(s, '1');
    ClusterShiftStart(s, RightWall);
    ClusterCarry(s, end);
    ShiftSweepFrom(Cluster(s), ControlLabel(ShiftStart, s), Blank, ControlLabel(ShiftCarry0, s), ControlLabel(ShiftCarry1, s),
                   ControlLabel(ShiftWriteEnd, s), bits, end);
  }

  // ------------------------------------------------------- setup behaviour

  /** The labels the setup table works with, as plain values. */
  datatype SetupLabels = SetupLabels(start: string, carry0: string, carry1: string, writeEnd: string,
                                     returnHead: string, writeEmpty: string, target: string)

  function SetupLabelsOf(renamedStart: string): SetupLabels {
    SetupLabels(StartState, Carry0, Carry1, WriteEndMarker, ReturnHead, WriteEndMarkerEmpty, renamedStart)
  }

  predicate DistinctSetupLabels(l: SetupLabels) {
    && l.start != l.carry0 && l.start != l.carry1 && l.start != l.writeEnd && l.start != l.returnHead
    && l.start != l.writeEmpty && l.start != l.target && l.carry0 != l.carry1 && l.carry0 != l.writeEnd
    && l.carry0 != l.returnHead && l.carry0 != l.writeEmpty && l.carry0 != l.target && l.carry1 != l.writeEnd
    && l.carry1 != l.returnHead && l.carry1 != l.writeEmpty && l.carry1 != l.target && l.writeEnd != l.returnHead
    && l.writeEnd != l.writeEmpty && l.writeEnd != l.target && l.returnHead != l.writeEmpty
    && l.returnHead != l.target && l.writeEmpty != l.target
  }

  /** The thirteen setup records over the labels `l`. */
  function SetupOver(l: SetupLabels): seq<Transition> {
    [ Transition(l.start, '0', LeftWall, Right, l.carry0),
      Transition(l.start, '1', LeftWall, Right, l.carry1) ]
    + CarryLogic(l.carry0, l.carry1)
    + [ Transition(l.carry0, Blank, '0', Right, l.writeEnd),
        Transition(l.carry1, Blank, '1', Right, l.writeEnd),
        Transition(l.writeEnd, Blank, RightWall, Left, l.returnHead) ]
    + ReturnHeadLogic(l.returnHead, l.target)
    + [ Transition(l.start, Blank, LeftWall, Right, l.writeEmpty),
        Transition(l.writeEmpty, Blank, RightWall, Left, l.target) ]
  }

  lemma SetupIsOver(renamedStart: string)
    ensures SetupTransitions(renamedStart) == SetupOver(SetupLabelsOf(renamedStart))
  {
  }

  /** The setup labels differ from each other and, when the renamed start
      is not one of them, from the state the setup hands over to. */
  lemma SetupLabelsDistinct(renamedStart: string)
    requires renamedStart !in SetupStates()
    ensures DistinctSetupLabels(SetupLabelsOf(renamedStart))
  {
    assert Carry0[8] != Carry1[8];
  }

  lemma SetupMember(l: SetupLabels, t: Transition)
    requires t in SetupOver(l)
    ensures
      t == Transition(l.start, '0', LeftWall, Right, l.carry0) ||
      t == Transition(l.start, '1', LeftWall, Right, l.carry1) ||
      t == Transition(l.carry0, '0', '0', Right, l.carry0) ||
      t == Transition(l.carry0, '1', '0', Right, l.carry1) ||
      t == Transition(l.carry1, '0', '1', Right, l.carry0) ||
      t == Transition(l.carry1, '1', '1', Right, l.carry1) ||
      t == Transition(l.carry0, Blank, '0', Right, l.writeEnd) ||
      t == Transition(l.carry1, Blank, '1', Right, l.writeEnd) ||
      t == Transition(l.writeEnd, Blank, RightWall, Left, l.returnHead) ||
      t == Transition(l.returnHead, AnySymbol, AnySymbol, Left, l.returnHead) ||
      t == Transition(l.returnHead, LeftWall, LeftWall, Right, l.target) ||
      t == Transition(l.start, Blank, LeftWall, Right, l.writeEmpty) ||
      t == Transition(l.writeEmpty, Blank, RightWall, Left, l.target)
  {
  }

  /** The setup records stay among the setup states, except that they hand
      over to `renamedStart`. */
  lemma SetupStatesClosed(renamedStart: string)
    ensures forall t <- SetupTransitions(renamedStart) :: t.currentState in SetupStates()
    ensures forall t <- SetupTransitions(renamedStart) ::
      t.newState in SetupStates() || t.newState == renamedStart
  {
    var l := SetupLabelsOf(renamedStart);
    forall t <- SetupOver(l)
      ensures t.currentState in SetupStates()
      ensures t.newState in SetupStates() || t.newState == renamedStart
    {
      SetupMember(l, t);
    }
  }

  lemma SetupFirstMatch(l: SetupLabels, q: string, a: char, t: Transition)
    requires t in SetupOver(l) && Reads(t, q, a)
    requires forall u <- SetupOver(l) :: Reads(u, q, a) ==> u == t
    ensures FirstMatch(SetupOver(l), q, a) == Some(t)
  {
  }

  lemma SetupOverStart(l: SetupLabels, a: char)
    requires DistinctSetupLabels(l)
    ensures a == '0' ==> Fires(SetupOver(l), l.start, a, Right, LeftWall, l.carry0)
    ensures a == '1' ==> Fires(SetupOver(l), l.start, a, Right, LeftWall, l.carry1)
    ensures a == Blank ==> Fires(SetupOver(l), l.start, a, Right, LeftWall, l.writeEmpty)
    ensures a !in {'0', '1', Blank} ==> Lookup(SetupOver(l), l.start, a) == None
  {
    var table := SetupOver(l);
    if a in {'0', '1', Blank} {
      var next := if a == '0' then l.carry0 else if a == '1' then l.carry1 else l.writeEmpty;
      var t := Transition(l.start, a, LeftWall, Right, next);
      forall u <- table | Reads(u, l.start, a) ensures u == t {
        SetupMember(l, u);
      }
      SetupFirstMatch(l, l.start, a, t);
    } else {
      forall u <- table ensures !Reads(u, l.start, a) && !Reads(u, l.start, AnySymbol) {
        SetupMember(l, u);
      }
    }
  }

  lemma SetupOverCarry(l: SetupLabels)
    requires DistinctSetupLabels(l)
    ensures ActsAsCarry(SetupOver(l), l.carry0, l.carry1)
  {
    var table := SetupOver(l);
    forall held, b | IsBit(held) && IsBit(b)
      ensures Lookup(table, CarryState(l.carry0, l.carry1, held), b)
        == Some(Transition(CarryState(l.carry0, l.carry1, held), b, held, Right, CarryState(l.carry0, l.carry1, b)))
    {
      var q := CarryState(l.carry0, l.carry1, held);
      var t := Transition(q, b, held, Right, CarryState(l.carry0, l.carry1, b));
      forall u <- table | Reads(u, q, b) ensures u == t {
        SetupMember(l, u);
      }
      SetupFirstMatch(l, q, b, t);
    }
  }

  lemma SetupOverCarryEnd(l: SetupLabels, a: char)
    requires DistinctSetupLabels(l)
    ensures a == Blank ==>
      && Fires(SetupOver(l), l.carry0, a, Right, '0', l.writeEnd)
      && Fires(SetupOver(l), l.carry1, a, Right, '1', l.writeEnd)
    ensures a !in {'0', '1', Blank} ==>
      Lookup(SetupOver(l), l.carry0, a) == None && Lookup(SetupOver(l), l.carry1, a) == None
  {
    var table := SetupOver(l);
    if a == Blank {
      var t0 := Transition(l.carry0, a, '0', Right, l.writeEnd);
      var t1 := Transition(l.carry1, a, '1', Right, l.writeEnd);
      forall u <- table ensures Reads(u, l.carry0, a) ==> u == t0
        ensures Reads(u, l.carry1, a) ==> u == t1 {
        SetupMember(l, u);
      }
      SetupFirstMatch(l, l.carry0, a, t0);
      SetupFirstMatch(l, l.carry1, a, t1);
    } else if a !in {'0', '1'} {
      forall u <- table ensures !Reads(u, l.carry0, a) && !Reads(u, l.carry0, AnySymbol) && !Reads(u, l.carry1, a) && !Reads(u, l.carry1, AnySymbol) {
        SetupMember(l, u);
      }
    }
  }

  lemma SetupOverWriteEnd(l: SetupLabels, a: char)
    requires DistinctSetupLabels(l)
    ensures a == Blank ==> Fires(SetupOver(l), l.writeEnd, a, Left, RightWall, l.returnHead)
    ensures a != Blank ==> Lookup(SetupOver(l), l.writeEnd, a) == None
    ensures a == Blank ==> Fires(SetupOver(l), l.writeEmpty, a, Left, RightWall, l.target)
    ensures a != Blank ==> Lookup(SetupOver(l), l.writeEmpty, a) == None
  {
    var table := SetupOver(l);
    if a == Blank {
      var t := Transition(l.writeEnd, Blank, RightWall, Left, l.returnHead);
      var e := Transition(l.writeEmpty, Blank, RightWall, Left, l.target);
      forall u <- table ensures Reads(u, l.writeEnd, a) ==> u == t
        ensures Reads(u, l.writeEmpty, a) ==> u == e {
        SetupMember(l, u);
      }
      SetupFirstMatch(l, l.writeEnd, a, t);
      SetupFirstMatch(l, l.writeEmpty, a, e);
    } else {
      forall u <- table ensures !Reads(u, l.writeEnd, a) && !Reads(u, l.writeEnd, AnySymbol)
        ensures !Reads(u, l.writeEmpty, a) && !Reads(u, l.writeEmpty, AnySymbol) {
        SetupMember(l, u);
      }
    }
  }

  lemma SetupOverReturn(l: SetupLabels, a: char)
    requires DistinctSetupLabels(l)
    ensures a == LeftWall ==> Fires(SetupOver(l), l.returnHead, a, Right, LeftWall, l.target)
    ensures a != LeftWall ==> Fires(SetupOver(l), l.returnHead, a, Left, a, l.returnHead)
  {
    var table := SetupOver(l);
    if a == LeftWall {
      var t := Transition(l.returnHead, LeftWall, LeftWall, Right, l.target);
      forall u <- table | Reads(u, l.returnHead, a) ensures u == t {
        SetupMember(l, u);
      }
      SetupFirstMatch(l, l.returnHead, a, t);
    } else {
      var t := Transition(l.returnHead, AnySymbol, AnySymbol, Left, l.returnHead);
      forall u <- table ensures Reads(u, l.returnHead, AnySymbol) ==> u == t
        ensures a != AnySymbol ==> !Reads(u, l.returnHead, a) {
        SetupMember(l, u);
      }
      SetupFirstMatch(l, l.returnHead, AnySymbol, t);
      LookupFallsBack(table, l.returnHead, a, t);
    }
  }

  // The same behaviour, for the table `generate_setup_transitions` emits.

  /** The first step from state `0`: a bit or a blank under the head is
      replaced by the left marker; a bit is remembered for the shift, a
      blank means the tape is empty. On any other symbol no record fires. */
  lemma SetupStart(renamedStart: string, a: char)
    requires renamedStart !in SetupStates()
    ensures a == '0' ==> Fires(SetupTransitions(renamedStart), StartState, a, Right, LeftWall, Carry0)
    ensures a == '1' ==> Fires(SetupTransitions(renamedStart), StartState, a, Right, LeftWall, Carry1)
    ensures a == Blank ==> Fires(SetupTransitions(renamedStart), StartState, a, Right, LeftWall, WriteEndMarkerEmpty)
    ensures a !in {'0', '1', Blank} ==> Lookup(SetupTransitions(renamedStart), StartState, a) == None
  {
    SetupIsOver(renamedStart);
    SetupLabelsDistinct(renamedStart);
    SetupOverStart(SetupLabelsOf(renamedStart), a);
  }

  /** The setup carry states shift bits right, write the last bit onto the
      blank behind the input, and are stuck on anything else. */
  lemma SetupCarry(renamedStart: string, a: char)
    requires renamedStart !in SetupStates()
    ensures ActsAsCarry(SetupTransitions(renamedStart), Carry0, Carry1)
    ensures a == Blank ==>
      && Fires(SetupTransitions(renamedStart), Carry0, a, Right, '0', WriteEndMarker)
      && Fires(SetupTransitions(renamedStart), Carry1, a, Right, '1', WriteEndMarker)
    ensures a !in {'0', '1', Blank} ==>
      Lookup(SetupTransitions(renamedStart), Carry0, a) == None
      && Lookup(SetupTransitions(renamedStart), Carry1, a) == None
  {
    SetupIsOver(renamedStart);
    SetupLabelsDistinct(renamedStart);
    SetupOverCarry(SetupLabelsOf(renamedStart));
    SetupOverCarryEnd(SetupLabelsOf(renamedStart), a);
  }

  /** The end of setup: the right marker goes on the blank behind the input
      and the head returns to the cell right of the left marker, entering
      the renamed start state. On an empty tape the marker goes on the
      second cell and the head steps back onto the left marker itself. */
  lemma SetupFinish(renamedStart: string, a: char)
    requires renamedStart !in SetupStates()
    ensures a == Blank ==> Fires(SetupTransitions(renamedStart), WriteEndMarker, a, Left, RightWall, ReturnHead)
    ensures a != Blank ==> Lookup(SetupTransitions(renamedStart), WriteEndMarker, a) == None
    ensures a == LeftWall ==> Fires(SetupTransitions(renamedStart), ReturnHead, a, Right, LeftWall, renamedStart)
    ensures a != LeftWall ==> Fires(SetupTransitions(renamedStart), ReturnHead, a, Left, a, ReturnHead)
    ensures a == Blank ==>
      Fires(SetupTransitions(renamedStart), WriteEndMarkerEmpty, a, Left, RightWall, renamedStart)
    ensures a != Blank ==> Lookup(SetupTransitions(renamedStart), WriteEndMarkerEmpty, a) == None
  {
    SetupIsOver(renamedStart);
    SetupLabelsDistinct(renamedStart);
    SetupOverWriteEnd(SetupLabelsOf(renamedStart), a);
    SetupOverReturn(SetupLabelsOf(renamedStart), a);
  }

  /** Setup on a nonempty bit input: the sweep from state `0` puts the left
      marker on the origin and moves the whole input one cell right, ending
      on the blank behind it, ready to write the right marker. */
  lemma SetupSweep(renamedStart: string, bits: seq<char>)
    requires renamedStart !in SetupStates()
    requires forall i :: 0 <= i < |bits| ==> IsBit(bits[i])
    requires |bits| > 0
    ensures SweepRight(SetupTransitions(renamedStart), StartState, bits + [Blank])
      == Some(([LeftWall] + bits, WriteEndMarker))
  {
    SetupStart(renamedStart, '0');
    SetupStart(renamedStart, '1');
    SetupCarry(renamedStart, Blank);
    ShiftSweepFrom(SetupTransitions(renamedStart), StartState, LeftWall, Carry0, Carry1, WriteEndMarker, bits, Blank);
  }

  // ------------------------------------------------------------ conversion

  /** Whether `convert_simulation_transitions` sends record `t` through a
      boundary check: it leaves a non-terminal state, moves the head and
      enters a non-terminal state. */
  predicate Redirected(t: Transition) {
    !IsHalt(t.currentState) && t.direction != Stay && !IsHalt(t.newState)
  }

  /** The check state a redirected move in direction `d` enters. */
  function CheckFor(d: Direction, s: string): string {
    if d == Right then ControlLabel(CheckRight, s) else ControlLabel(CheckLeft, s)
  }

  /** The rewrite `convert_simulation_transitions` applies to one record. */
  function Retarget(t: Transition): (r: Transition)
    ensures r.(newState := t.newState) == t
    ensures Redirected(t) ==> r.newState == CheckFor(t.direction, t.newState)
    ensures !Redirected(t) ==> r == t
  {
    if IsHalt(t.currentState) then t
    else
      match t.direction
      case Stay => t
      case Right => t.(newState := NextState(t.newState, ControlLabel(CheckRight, t.newState)))
      case Left => t.(newState := NextState(t.newState, ControlLabel(CheckLeft, t.newState)))
  }

  /** A record changes exactly when it is redirected, and then it enters a
      control state of its own target. */
  lemma RetargetChanges(t: Transition)
    ensures Retarget(t) != t <==> Redirected(t)
    ensures Redirected(t) ==> Reserved(Retarget(t).newState)
  {
    if Redirected(t) {
      var role := if t.direction == Right then CheckRight else CheckLeft;
      ClusterLabelsDistinct(t.newState);
      assert Retarget(t).newState == ControlLabel(role, t.newState);
      ControlLabelIsReserved(role, t.newState);
    }
  }

  function Rewrite(ts: seq<Transition>): (r: seq<Transition>)
    ensures |r| == |ts|
  {
    seq(|ts|, i requires 0 <= i < |ts| => Retarget(ts[i]))
  }

  /** The targets the conversion collects: every non-terminal state some
      record enters. */
  function Targets(ts: seq<Transition>): set<string> {
    set i | 0 <= i < |ts| && !IsHalt(ts[i].newState) :: ts[i].newState
  }

  /** The converted table for one walk `order` over the targets. */
  function ConvertWith(ts: seq<Transition>, order: seq<string>): seq<Transition> {
    Rewrite(ts) + FlatMap(Cluster, order)
  }

  lemma ClusterSize()
    ensures forall s :: |Cluster(s)| == 20
  {
  }

  /** The first pass of `convert_simulation_transitions`: rewrites each
      record and collects the targets in one walk over the input. */
  method RewriteAndCollect(ts: seq<Transition>) returns (rewritten: seq<Transition>, targets: set<string>)
    ensures rewritten == Rewrite(ts)
    ensures targets == Targets(ts)
  {
    rewritten := [];
    targets := {};
    for i := 0 to |ts|
      invariant |rewritten| == i
      invariant forall j :: 0 <= j < i ==> rewritten[j] == Retarget(ts[j])
      invariant targets == set j | 0 <= j < i && !IsHalt(ts[j].newState) :: ts[j].newState
    {
      var t := ts[i];
      if !IsHalt(t.newState) {
        targets := targets + {t.newState};
      }
      rewritten := rewritten + [Retarget(t)];
    }
  }

  /** `convert_simulation_transitions`: the rewritten records in input
      order, then one cluster per target, in the order the hash set yields
      them. */
  method ConvertSimulationTransitions(ts: seq<Transition>) returns (r: seq<Transition>)
    ensures exists order :: Enumerates(order, Targets(ts)) && r == ConvertWith(ts, order)
  {
    var targets;
    r, targets := RewriteAndCollect(ts);
    var remaining := targets;
    ghost var order: seq<string> := [];
    while remaining != {}
      invariant remaining <= targets
      invariant Enumerates(order, targets - remaining)
      invariant r == Rewrite(ts) + FlatMap(Cluster, order)
      decreases |remaining|
    {
      var s :| s in remaining;
      var block := CheckRightLogic(s) + CheckLeftLogic(s);
      assert block == Cluster(s);
      FlatMapSnoc(Cluster, Rewrite(ts), order, s);
      r := r + block;
      EnumeratesExtend(order, targets - remaining, s);
      VisitOne(targets, remaining, s);
      order := order + [s];
      remaining := remaining - {s};
    }
    assert targets - remaining == targets == Targets(ts);
    assert Enumerates(order, Targets(ts)) && r == ConvertWith(ts, order);
  }

  /** The converted table is the rewritten input followed by one
      twenty-record cluster per target. */
  lemma ConvertLayout(ts: seq<Transition>, order: seq<string>)
    requires Enumerates(order, Targets(ts))
    ensures |ConvertWith(ts, order)| == |ts| + 20 * |Targets(ts)|
    ensures ConvertWith(ts, order)[..|ts|] == Rewrite(ts)
  {
    ClusterSize();
    EnumerationSize(order, Targets(ts));
    FlatMapLength(Cluster, order, 20);
    assert ConvertWith(ts, order)[..|ts|] == Rewrite(ts);
  }

  /** The cluster of the `j`-th target of the walk is the `j`-th block
      behind the rewritten input: it starts at `|ts| + 20 * j`. */
  lemma ConvertBlock(ts: seq<Transition>, order: seq<string>, j: nat)
    requires j < |order|
    ensures |Rewrite(ts) + FlatMap(Cluster, order[..j])| == |ts| + 20 * j
    ensures ConvertWith(ts, order)
      == (Rewrite(ts) + FlatMap(Cluster, order[..j])) + Cluster(order[j]) + FlatMap(Cluster, order[j + 1..])
  {
    ClusterSize();
    FlatMapLength(Cluster, order[..j], 20);
    FlatMapAround(Cluster, Rewrite(ts), order, j);
  }

  /** Whatever order the hash set yields its targets in, the converted table
      holds the same records. */
  lemma ConvertOrderIrrelevant(ts: seq<Transition>, o1: seq<string>, o2: seq<string>)
    requires Enumerates(o1, Targets(ts)) && Enumerates(o2, Targets(ts))
    ensures multiset(ConvertWith(ts, o1)) == multiset(ConvertWith(ts, o2))
  {
    EnumerationsPermute(o1, o2, Targets(ts));
    FlatMapPermutation(Cluster, o1, o2);
  }

  /** State `q` is one of the control states of target `s`. */
  predicate OwnedBy(q: string, s: string) {
    exists role :: q == ControlLabel(role, s)
  }

  lemma ClusterOwnStates(s: string)
    ensures forall t <- Cluster(s) :: OwnedBy(t.currentState, s)
  {
    ClusterIsOver(s);
    forall t <- Cluster(s)
      ensures OwnedBy(t.currentState, s)
    {
      OverMember(LabelsOf(s), t);
    }
  }

  /** Every record of a cluster belongs to a reserved control state. */
  lemma ClusterTailReserved(order: seq<string>)
    ensures forall t <- FlatMap(Cluster, order) :: Reserved(t.currentState)
  {
    forall t <- FlatMap(Cluster, order)
      ensures Reserved(t.currentState)
    {
      FlatMapMembers(Cluster, order, t);
      var x :| x in order && t in Cluster(x);
      ClusterOwnStates(x);
      var role :| t.currentState == ControlLabel(role, x);
      ControlLabelIsReserved(role, x);
    }
  }

  lemma {:induction false} FirstMatchRewrite(ts: seq<Transition>, q: string, a: char)
    ensures FirstMatch(Rewrite(ts), q, a).None? <==> FirstMatch(ts, q, a).None?
    ensures FirstMatch(ts, q, a).Some? ==>
      FirstMatch(Rewrite(ts), q, a) == Some(Retarget(FirstMatch(ts, q, a).value))
    decreases |ts|
  {
    if |ts| > 0 {
      assert Rewrite(ts)[1..] == Rewrite(ts[1..]);
      assert Rewrite(ts)[0] == Retarget(ts[0]);
      FirstMatchRewrite(ts[1..], q, a);
    }
  }

  /** In a state of the input table the converted table fires the record
      the input fires there, retargeted; a redirected move enters the check
      state of a target whose cluster the table holds. */
  lemma ConvertedOriginalStep(ts: seq<Transition>, order: seq<string>, q: string, a: char)
    requires !Reserved(q)
    ensures Lookup(ts, q, a).None? ==> Lookup(ConvertWith(ts, order), q, a).None?
    ensures Lookup(ts, q, a).Some? ==>
      Lookup(ConvertWith(ts, order), q, a) == Some(Retarget(Lookup(ts, q, a).value))
    ensures Lookup(ts, q, a).Some? && Redirected(Lookup(ts, q, a).value) ==>
      Lookup(ts, q, a).value.newState in Targets(ts)
  {
    ClusterTailReserved(order);
    FirstMatchIgnoresOthers(Rewrite(ts), FlatMap(Cluster, order), q, a);
    FirstMatchIgnoresOthers(Rewrite(ts), FlatMap(Cluster, order), q, AnySymbol);
    FirstMatchRewrite(ts, q, a);
    FirstMatchRewrite(ts, q, AnySymbol);
    if Lookup(ts, q, a).Some? {
      var t := Lookup(ts, q, a).value;
      var i :| 0 <= i < |ts| && ts[i] == t;
    }
  }

  /** In a control state of target `s` the converted table fires what the
      cluster of `s` fires, provided the input uses no reserved label. */
  lemma ConvertedClusterStep(ts: seq<Transition>, order: seq<string>, s: string, role: Role, a: char)
    requires Enumerates(order, Targets(ts))
    requires NoReservedStates(ts)
    requires s in Targets(ts)
    ensures Lookup(ConvertWith(ts, order), ControlLabel(role, s), a) == Lookup(Cluster(s), ControlLabel(role, s), a)
  {
    var j :| 0 <= j < |order| && order[j] == s;
    RewriteAvoids(ts, role, s);
    OtherClustersAvoid(order, j, role);
    LookupInBlock(Rewrite(ts), Cluster, order, j, ControlLabel(role, s), a);
  }

  /** The rewritten input has no record in a control state. */
  lemma RewriteAvoids(ts: seq<Transition>, role: Role, s: string)
    requires NoReservedStates(ts)
    ensures forall t <- Rewrite(ts) :: t.currentState != ControlLabel(role, s)
  {
    ControlLabelIsReserved(role, s);
    forall t <- Rewrite(ts)
      ensures t.currentState != ControlLabel(role, s)
    {
      var i :| 0 <= i < |ts| && Rewrite(ts)[i] == t;
      assert t.currentState == ts[i].currentState;
    }
  }

  /** Along a walk that visits each target once, only the cluster of
      `order[j]` has records in its control states. */
  lemma OtherClustersAvoid(order: seq<string>, j: nat, role: Role)
    requires Distinct(order) && j < |order|
    ensures forall k, t :: 0 <= k < |order| && k != j && t in Cluster(order[k]) ==>
      t.currentState != ControlLabel(role, order[j])
  {
    forall k, t | 0 <= k < |order| && k != j && t in Cluster(order[k])
      ensures t.currentState != ControlLabel(role, order[j])
    {
      OtherClusterAvoids(order[k], order[j], role, t);
    }
  }

  /** The cluster of `x` never holds a record of a control state of another
      target `s`. */
  lemma OtherClusterAvoids(x: string, s: string, role: Role, t: Transition)
    requires x != s && t in Cluster(x)
    ensures t.currentState != ControlLabel(role, s)
  {
    ClusterOwnStates(x);
    var r :| t.currentState == ControlLabel(r, x);
    ControlLabelInjective(r, x, role, s);
  }
}
