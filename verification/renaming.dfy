/** `rename_original_states`: moves every non-terminal label of the source
    table into a private namespace so that the engine's own control states
    cannot collide with it. */
module Renaming {
  import opened Text
  import opened Wrappers
  import opened Transitions
  import opened Dispatch

  function RenameState(prefix: string, state: string): string {
    if IsHalt(state) then state else prefix + state
  }

  function RenameOriginalStates(ts: seq<Transition>, prefix: string): (r: seq<Transition>)
    ensures |r| == |ts|
    ensures forall i :: 0 <= i < |ts| ==>
      && r[i].currentSymbol == ts[i].currentSymbol
      && r[i].newSymbol == ts[i].newSymbol
      && r[i].direction == ts[i].direction
      && (IsHalt(ts[i].currentState) ==> r[i].currentState == ts[i].currentState)
      && (!IsHalt(ts[i].currentState) ==> r[i].currentState == prefix + ts[i].currentState)
      && (IsHalt(ts[i].newState) ==> r[i].newState == ts[i].newState)
      && (!IsHalt(ts[i].newState) ==> r[i].newState == prefix + ts[i].newState)
  {
    seq(|ts|, i requires 0 <= i < |ts| =>
      ts[i].(currentState := RenameState(prefix, ts[i].currentState),
             newState := RenameState(prefix, ts[i].newState)))
  }

  /** A namespace prefix that cannot make a label look terminal: it differs
      from `"halt"` at some position both strings have. */
  predicate KeepsOutOfHalt(prefix: string) {
    exists i :: 0 <= i < |prefix| && i < |HaltPrefix| && prefix[i] != HaltPrefix[i]
  }

  lemma SimPrefixKeepsOutOfHalt()
    ensures KeepsOutOfHalt(SimPrefix)
  {
    assert SimPrefix[0] != HaltPrefix[0];
  }

  /** Renaming never changes whether a label is terminal. */
  lemma RenamePreservesHalt(prefix: string, state: string)
    requires KeepsOutOfHalt(prefix)
    ensures IsHalt(RenameState(prefix, state)) <==> IsHalt(state)
  {
    if !IsHalt(state) {
      var i :| 0 <= i < |prefix| && i < |HaltPrefix| && prefix[i] != HaltPrefix[i];
      assert (prefix + state)[i] == prefix[i];
    }
  }

  /** Inverse of `RenameState` on labels it produced. */
  function UnrenameState(prefix: string, state: string): string {
    if IsHalt(state) || |state| < |prefix| then state else state[|prefix|..]
  }

  function UnrenameStates(ts: seq<Transition>, prefix: string): seq<Transition> {
    seq(|ts|, i requires 0 <= i < |ts| =>
      ts[i].(currentState := UnrenameState(prefix, ts[i].currentState),
             newState := UnrenameState(prefix, ts[i].newState)))
  }

  /** Renaming loses nothing: stripping the namespace again gives back the
      source table, so two different source tables never rename alike. */
  lemma {:induction false} RenameIsInvertible(ts: seq<Transition>, prefix: string)
    requires KeepsOutOfHalt(prefix)
    ensures UnrenameStates(RenameOriginalStates(ts, prefix), prefix) == ts
  {
    var r := RenameOriginalStates(ts, prefix);
    var u := UnrenameStates(r, prefix);
    forall i | 0 <= i < |ts|
      ensures u[i] == ts[i]
    {
      RenamePreservesHalt(prefix, ts[i].currentState);
      RenamePreservesHalt(prefix, ts[i].newState);
      assert (prefix + ts[i].currentState)[|prefix|..] == ts[i].currentState;
      assert (prefix + ts[i].newState)[|prefix|..] == ts[i].newState;
    }
  }

  /** After renaming with `"sim_"` every label is terminal or lies in the
      `"sim_"` namespace. */
  lemma RenamedLabelsAreNamespaced(ts: seq<Transition>)
    ensures forall t <- RenameOriginalStates(ts, SimPrefix) ::
      && (IsHalt(t.currentState) || StartsWith(t.currentState, SimPrefix))
      && (IsHalt(t.newState) || StartsWith(t.newState, SimPrefix))
  {
    var r := RenameOriginalStates(ts, SimPrefix);
    forall i | 0 <= i < |r|
      ensures IsHalt(r[i].currentState) || StartsWith(r[i].currentState, SimPrefix)
      ensures IsHalt(r[i].newState) || StartsWith(r[i].newState, SimPrefix)
    {
      assert (SimPrefix + ts[i].currentState)[..|SimPrefix|] == SimPrefix;
      assert (SimPrefix + ts[i].newState)[..|SimPrefix|] == SimPrefix;
    }
  }

  /** Renaming keeps a table renderable: the prefix adds no whitespace or
      comment delimiter. */
  lemma RenamePreservesRenderable(ts: seq<Transition>)
    requires forall t <- ts :: Renderable(t)
    ensures forall t <- RenameOriginalStates(ts, SimPrefix) :: Renderable(t)
  {
    var r := RenameOriginalStates(ts, SimPrefix);
    forall i | 0 <= i < |r|
      ensures Renderable(r[i])
    {
      assert Renderable(ts[i]);
      PrefixedLabelIsValid(SimPrefix, ts[i].currentState);
      PrefixedLabelIsValid(SimPrefix, ts[i].newState);
    }
  }

  /** Renaming never merges two labels. */
  lemma RenameStateInjective(prefix: string, x: string, y: string)
    requires KeepsOutOfHalt(prefix)
    ensures RenameState(prefix, x) == RenameState(prefix, y) ==> x == y
  {
    RenamePreservesHalt(prefix, x);
    RenamePreservesHalt(prefix, y);
    if RenameState(prefix, x) == RenameState(prefix, y) && !IsHalt(x) && !IsHalt(y) {
      assert (prefix + x)[|prefix|..] == x;
      assert (prefix + y)[|prefix|..] == y;
    }
  }

  /** One record with its labels renamed. */
  function RenameRecord(prefix: string, t: Transition): Transition {
    t.(currentState := RenameState(prefix, t.currentState), newState := RenameState(prefix, t.newState))
  }

  lemma {:induction false} FirstMatchRenamed(ts: seq<Transition>, prefix: string, p: string, a: char)
    requires KeepsOutOfHalt(prefix)
    ensures FirstMatch(RenameOriginalStates(ts, prefix), RenameState(prefix, p), a)
      == match FirstMatch(ts, p, a)
         case None => None
         case Some(t) => Some(RenameRecord(prefix, t))
    decreases |ts|
  {
    if |ts| > 0 {
      var r := RenameOriginalStates(ts, prefix);
      assert r[0] == RenameRecord(prefix, ts[0]);
      assert r[1..] == RenameOriginalStates(ts[1..], prefix);
      RenameStateInjective(prefix, ts[0].currentState, p);
      FirstMatchRenamed(ts[1..], prefix, p, a);
    }
  }

  /** The renamed table dispatches in a renamed state exactly as the source
      table does in the original state, with the record renamed. */
  lemma LookupRenamed(ts: seq<Transition>, prefix: string, p: string, a: char)
    requires KeepsOutOfHalt(prefix)
    ensures Lookup(RenameOriginalStates(ts, prefix), RenameState(prefix, p), a)
      == match Lookup(ts, p, a)
         case None => None
         case Some(t) => Some(RenameRecord(prefix, t))
  {
    FirstMatchRenamed(ts, prefix, p, a);
    FirstMatchRenamed(ts, prefix, p, AnySymbol);
  }
}
