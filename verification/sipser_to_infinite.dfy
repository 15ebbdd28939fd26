/** The Sipser-to-Infinite pipeline: runs a machine written for a tape that
    ends on the left on a doubly-infinite tape, with a left marker `#` one
    cell left of the origin; a move left onto the marker halts the run
    (`generate_wall_setup_transitions`, `convert_sipser_to_infinite`). */
module SipserToInfinite {
  import opened Wrappers
  import opened Text
  import opened Transitions
  import opened Dispatch
  import opened Primitives
  import opened Enumeration

  const WallPrefix: string := "check_left_wall_"
  const WriteWall: string := "q_write_wall"

  /** The check state entered after a move left into `s`. */
  function WallLabel(s: string): string {
    WallPrefix + s
  }

  /** A label the engine keeps for its wall checks. Source tables are
      assumed not to use such labels; the engine does not check it. */
  predicate WallReserved(state: string) {
    StartsWith(state, WallPrefix)
  }

  predicate NoWallReservedStates(ts: seq<Transition>) {
    forall t <- ts :: !WallReserved(t.currentState)
  }

  lemma WallLabelIsReserved(s: string)
    ensures WallReserved(WallLabel(s))
  {
    assert WallLabel(s)[..|WallPrefix|] == WallPrefix;
  }

  lemma WallLabelInjective(s1: string, s2: string)
    ensures WallLabel(s1) == WallLabel(s2) ==> s1 == s2
  {
    if WallLabel(s1) == WallLabel(s2) {
      assert WallLabel(s1)[|WallPrefix|..] == s1;
      assert WallLabel(s2)[|WallPrefix|..] == s2;
    }
  }

  // ---------------------------------------------------------------- setup

  /** `generate_wall_setup_transitions`: steps left from the origin, writes
      the left marker there and steps back into `renamedStart`. */
  function WallSetupTransitions(renamedStart: string): (r: seq<Transition>)
    ensures |r| == 2
    ensures forall t <- r :: t.currentState == StartState || t.currentState == WriteWall
    ensures forall t <- r :: t.newState == WriteWall || t.newState == renamedStart
  {
    [ Transition(StartState, AnySymbol, AnySymbol, Left, WriteWall),
      Transition(WriteWall, Blank, LeftWall, Right, renamedStart) ]
  }

  /** Whatever lies under the head, state `0` leaves it and steps left; on
      the blank cell there the marker is written and the head returns to the
      origin in `renamedStart`. Anything but a blank left of the origin
      stops the run. */
  lemma WallSetupDispatch(renamedStart: string, a: char)
    ensures Fires(WallSetupTransitions(renamedStart), StartState, a, Left, a, WriteWall)
    ensures a == Blank ==> Fires(WallSetupTransitions(renamedStart), WriteWall, a, Right, LeftWall, renamedStart)
    ensures a != Blank ==> Lookup(WallSetupTransitions(renamedStart), WriteWall, a) == None
  {
    var table := WallSetupTransitions(renamedStart);
    assert StartState != WriteWall;
    LookupPair(table, table[0], table[1], StartState, a);
    LookupPair(table, table[0], table[1], WriteWall, a);
  }

  // ----------------------------------------------------------- conversion

  /** Whether `convert_sipser_to_infinite` sends record `t` through a wall
      check: it moves left and enters a non-terminal state. The state it
      leaves does not matter. */
  predicate WallRedirected(t: Transition) {
    t.direction == Left && !IsHalt(t.newState)
  }

  /** The rewrite `convert_sipser_to_infinite` applies to one record. */
  function WallRetarget(t: Transition): (r: Transition)
    ensures r.(newState := t.newState) == t
    ensures WallRedirected(t) ==> r.newState == WallLabel(t.newState)
    ensures !WallRedirected(t) ==> r == t
  {
    if t.direction == Left then t.(newState := NextState(t.newState, WallLabel(t.newState)))
    else t
  }

  /** A record changes exactly when it is redirected, and then it enters a
      reserved wall check. */
  lemma WallRetargetChanges(t: Transition)
    ensures WallRetarget(t) != t <==> WallRedirected(t)
    ensures WallRedirected(t) ==> WallReserved(WallRetarget(t).newState)
  {
    if WallRedirected(t) {
      assert |WallLabel(t.newState)| > |t.newState|;
      WallLabelIsReserved(t.newState);
    }
  }

  function WallRewrite(ts: seq<Transition>): (r: seq<Transition>)
    ensures |r| == |ts|
  {
    seq(|ts|, i requires 0 <= i < |ts| => WallRetarget(ts[i]))
  }

  /** The targets the conversion collects: every non-terminal state some
      left move enters. */
  function WallTargets(ts: seq<Transition>): set<string> {
    set i | 0 <= i < |ts| && WallRedirected(ts[i]) :: ts[i].newState
  }

  /** The wall check for target `s`: on the left marker stay and halt,
      otherwise stay and resume `s`. */
  function WallCheck(s: string): (r: seq<Transition>)
    ensures |r| == 2
    ensures forall t <- r :: t.currentState == WallLabel(s)
  {
    CheckLogic(WallLabel(s), s, LeftWall, LeftWall, Stay, HaltPrefix)
  }

  /** The wall check as a decision: the marker halts the run and is left in
      place; any other symbol is left alone and `s` resumes on it. */
  lemma WallCheckDispatch(s: string, a: char)
    ensures a == LeftWall ==> Fires(WallCheck(s), WallLabel(s), a, Stay, LeftWall, HaltPrefix)
    ensures a != LeftWall ==> Fires(WallCheck(s), WallLabel(s), a, Stay, a, s)
    ensures IsHalt(HaltPrefix)
  {
    CheckLogicDispatch(WallLabel(s), s, LeftWall, LeftWall, Stay, HaltPrefix, a);
  }

  /** The converted table for one walk `order` over the targets. */
  function ConvertSipserWith(ts: seq<Transition>, order: seq<string>): seq<Transition> {
    WallRewrite(ts) + FlatMap(WallCheck, order)
  }

  lemma WallCheckSize()
    ensures forall s :: |WallCheck(s)| == 2
  {
  }

  /** The first pass of `convert_sipser_to_infinite`: rewrites each record
      and collects the targets in one walk over the input. */
  method WallRewriteAndCollect(ts: seq<Transition>) returns (rewritten: seq<Transition>, targets: set<string>)
    ensures rewritten == WallRewrite(ts)
    ensures targets == WallTargets(ts)
  {
    rewritten := [];
    targets := {};
    for i := 0 to |ts|
      invariant |rewritten| == i
      invariant forall j :: 0 <= j < i ==> rewritten[j] == WallRetarget(ts[j])
      invariant targets == set j | 0 <= j < i && WallRedirected(ts[j]) :: ts[j].newState
    {
      var t := ts[i];
      if t.direction == Left && !IsHalt(t.newState) {
        targets := targets + {t.newState};
      }
      rewritten := rewritten + [WallRetarget(t)];
    }
  }

  /** `convert_sipser_to_infinite`: the rewritten records in input order,
      then one wall check per target, in the order the hash set yields
      them. */
  method ConvertSipserToInfinite(ts: seq<Transition>) returns (r: seq<Transition>)
    ensures exists order :: Enumerates(order, WallTargets(ts)) && r == ConvertSipserWith(ts, order)
  {
    var targets;
    r, targets := WallRewriteAndCollect(ts);
    var remaining := targets;
    ghost var order: seq<string> := [];
    while remaining != {}
      invariant remaining <= targets
      invariant Enumerates(order, targets - remaining)
      invariant r == WallRewrite(ts) + FlatMap(WallCheck, order)
      decreases |remaining|
    {
      var s :| s in remaining;
      var block := CheckLogic(WallLabel(s), s, LeftWall, LeftWall, Stay, HaltPrefix);
      FlatMapSnoc(WallCheck, WallRewrite(ts), order, s);
      r := r + block;
      EnumeratesExtend(order, targets - remaining, s);
      VisitOne(targets, remaining, s);
      order := order + [s];
      remaining := remaining - {s};
    }
    assert targets - remaining == targets == WallTargets(ts);
    assert Enumerates(order, WallTargets(ts)) && r == ConvertSipserWith(ts, order);
  }

  /** The converted table is the rewritten input followed by one
      two-record wall check per target. */
  lemma ConvertSipserLayout(ts: seq<Transition>, order: seq<string>)
    requires Enumerates(order, WallTargets(ts))
    ensures |ConvertSipserWith(ts, order)| == |ts| + 2 * |WallTargets(ts)|
    ensures ConvertSipserWith(ts, order)[..|ts|] == WallRewrite(ts)
  {
    WallCheckSize();
    EnumerationSize(order, WallTargets(ts));
    FlatMapLength(WallCheck, order, 2);
    assert ConvertSipserWith(ts, order)[..|ts|] == WallRewrite(ts);
  }

  /** The wall check of the `j`-th target of the walk starts at
      `|ts| + 2 * j`. */
  lemma ConvertSipserBlock(ts: seq<Transition>, order: seq<string>, j: nat)
    requires j < |order|
    ensures |WallRewrite(ts) + FlatMap(WallCheck, order[..j])| == |ts| + 2 * j
    ensures ConvertSipserWith(ts, order)
      == (WallRewrite(ts) + FlatMap(WallCheck, order[..j])) + WallCheck(order[j]) + FlatMap(WallCheck, order[j + 1..])
  {
    WallCheckSize();
    FlatMapLength(WallCheck, order[..j], 2);
    FlatMapAround(WallCheck, WallRewrite(ts), order, j);
  }

  /** Whatever order the hash set yields its targets in, the converted table
      holds the same records. */
  lemma ConvertSipserOrderIrrelevant(ts: seq<Transition>, o1: seq<string>, o2: seq<string>)
    requires Enumerates(o1, WallTargets(ts)) && Enumerates(o2, WallTargets(ts))
    ensures multiset(ConvertSipserWith(ts, o1)) == multiset(ConvertSipserWith(ts, o2))
  {
    EnumerationsPermute(o1, o2, WallTargets(ts));
    FlatMapPermutation(WallCheck, o1, o2);
  }

  /** Every record behind the rewritten input belongs to a wall check. */
  lemma WallTailReserved(order: seq<string>)
    ensures forall t <- FlatMap(WallCheck, order) :: WallReserved(t.currentState)
  {
    forall t <- FlatMap(WallCheck, order)
      ensures WallReserved(t.currentState)
    {
      FlatMapMembers(WallCheck, order, t);
      var x :| x in order && t in WallCheck(x);
      WallLabelIsReserved(x);
    }
  }

  lemma {:induction false} FirstMatchWallRewrite(ts: seq<Transition>, q: string, a: char)
    ensures FirstMatch(WallRewrite(ts), q, a).None? <==> FirstMatch(ts, q, a).None?
    ensures FirstMatch(ts, q, a).Some? ==>
      FirstMatch(WallRewrite(ts), q, a) == Some(WallRetarget(FirstMatch(ts, q, a).value))
    decreases |ts|
  {
    if |ts| > 0 {
      assert WallRewrite(ts)[1..] == WallRewrite(ts[1..]);
      assert WallRewrite(ts)[0] == WallRetarget(ts[0]);
      FirstMatchWallRewrite(ts[1..], q, a);
    }
  }

  /** In a state of the input table the converted table fires the record
      the input fires there, retargeted; a redirected move enters the wall
      check of a target the table holds a check for. */
  lemma ConvertedSipserOriginalStep(ts: seq<Transition>, order: seq<string>, q: string, a: char)
    requires !WallReserved(q)
    ensures Lookup(ts, q, a).None? ==> Lookup(ConvertSipserWith(ts, order), q, a).None?
    ensures Lookup(ts, q, a).Some? ==>
      Lookup(ConvertSipserWith(ts, order), q, a) == Some(WallRetarget(Lookup(ts, q, a).value))
    ensures Lookup(ts, q, a).Some? && WallRedirected(Lookup(ts, q, a).value) ==>
      Lookup(ts, q, a).value.newState in WallTargets(ts)
  {
    WallTailReserved(order);
    FirstMatchIgnoresOthers(WallRewrite(ts), FlatMap(WallCheck, order), q, a);
    FirstMatchIgnoresOthers(WallRewrite(ts), FlatMap(WallCheck, order), q, AnySymbol);
    FirstMatchWallRewrite(ts, q, a);
    FirstMatchWallRewrite(ts, q, AnySymbol);
    if Lookup(ts, q, a).Some? {
      var t := Lookup(ts, q, a).value;
      var i :| 0 <= i < |ts| && ts[i] == t;
    }
  }

  /** In the wall check of target `s` the converted table fires what that
      check fires, provided the input uses no reserved label. */
  lemma ConvertedWallStep(ts: seq<Transition>, order: seq<string>, s: string, a: char)
    requires Enumerates(order, WallTargets(ts))
    requires NoWallReservedStates(ts)
    requires s in WallTargets(ts)
    ensures Lookup(ConvertSipserWith(ts, order), WallLabel(s), a) == Lookup(WallCheck(s), WallLabel(s), a)
  {
    var j :| 0 <= j < |order| && order[j] == s;
    WallLabelIsReserved(s);
    forall t <- WallRewrite(ts)
      ensures t.currentState != WallLabel(s)
    {
      var i :| 0 <= i < |ts| && WallRewrite(ts)[i] == t;
      assert t.currentState == ts[i].currentState;
    }
    forall k, t | 0 <= k < |order| && k != j && t in WallCheck(order[k])
      ensures t.currentState != WallLabel(s)
    {
      WallLabelInjective(order[k], s);
    }
    LookupInBlock(WallRewrite(ts), WallCheck, order, j, WallLabel(s), a);
  }
}
