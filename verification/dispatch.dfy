/** How a generated table is read, as far as the boundary primitives need it:
    which record fires in a state on a symbol, and the effect of a rightward
    sweep. The table's consumer is an external simulator that is not part of
    this model; `Lookup` fixes the reading the generators are written for,
    in which a record naming the symbol takes priority over a wildcard record
    of the same state. */
module Dispatch {
  import opened Wrappers
  import opened Transitions
  import opened Enumeration

  predicate Reads(t: Transition, q: string, a: char) {
    t.currentState == q && t.currentSymbol == a
  }

  /** The first record of `table` in state `q` that names symbol `a`. */
  function FirstMatch(table: seq<Transition>, q: string, a: char): (r: Option<Transition>)
    ensures r.Some? ==> r.value in table && Reads(r.value, q, a)
    ensures r.None? <==> forall t <- table :: !Reads(t, q, a)
  {
    if |table| == 0 then None
    else if Reads(table[0], q, a) then Some(table[0])
    else FirstMatch(table[1..], q, a)
  }

  /** The record that fires in state `q` on symbol `a`: one naming `a` if
      there is any, else a wildcard record of `q`. */
  function Lookup(table: seq<Transition>, q: string, a: char): Option<Transition> {
    match FirstMatch(table, q, a)
    case Some(t) => Some(t)
    case None => FirstMatch(table, q, AnySymbol)
  }

  /** With no record naming `a`, the wildcard record of `q` fires. */
  lemma LookupFallsBack(table: seq<Transition>, q: string, a: char, t: Transition)
    requires a != AnySymbol ==> forall u <- table :: !Reads(u, q, a)
    requires FirstMatch(table, q, AnySymbol) == Some(t)
    ensures Lookup(table, q, a) == Some(t)
  {
  }

  /** In a table of two records, a record naming `a` wins over a wildcard
      and the earlier record wins over the later one. */
  lemma LookupPair(table: seq<Transition>, t0: Transition, t1: Transition, q: string, a: char)
    requires table == [t0, t1]
    ensures Lookup(table, q, a) ==
      if Reads(t0, q, a) then Some(t0)
      else if Reads(t1, q, a) then Some(t1)
      else if Reads(t0, q, AnySymbol) then Some(t0)
      else if Reads(t1, q, AnySymbol) then Some(t1)
      else None
  {
    assert table[1..] == [t1];
    assert table[1..][1..] == [];
  }

  /** The symbol a record leaves on a cell that held `a`. */
  function Written(t: Transition, a: char): char {
    if t.newSymbol == AnySymbol then a else t.newSymbol
  }

  /** In state `q` on symbol `a` some record fires, and it moves the head in
      direction `d`, leaves `w` on the cell and enters `next`. */
  predicate Fires(table: seq<Transition>, q: string, a: char, d: Direction, w: char, next: string) {
    var r := Lookup(table, q, a);
    r.Some? && r.value.direction == d && Written(r.value, a) == w && r.value.newState == next
  }

  /** Runs `table` from state `q` over `input`, one cell per step, as long as
      every step moves right; gives the symbols written and the final state. */
  function SweepRight(table: seq<Transition>, q: string, input: seq<char>): Option<(seq<char>, string)>
    decreases |input|
  {
    if |input| == 0 then Some(([], q))
    else
      match Lookup(table, q, input[0])
      case None => None
      case Some(t) =>
        if t.direction != Right then None
        else
          match SweepRight(table, t.newState, input[1..])
          case None => None
          case Some(rest) => Some(([Written(t, input[0])] + rest.0, rest.1))
  }

  /** The record at `k` fires when it names `a` and no earlier record of `q`
      does. */
  lemma {:induction false} FirstMatchAt(table: seq<Transition>, k: nat, q: string, a: char)
    requires k < |table| && Reads(table[k], q, a)
    requires forall j :: 0 <= j < k ==> !Reads(table[j], q, a)
    ensures FirstMatch(table, q, a) == Some(table[k])
    decreases k
  {
    if k > 0 {
      FirstMatchAt(table[1..], k - 1, q, a);
    }
  }

  /** Records in front of a table that do not read `a` in `q` do not change
      which record fires. */
  lemma {:induction false} FirstMatchSkipsOthers(xs: seq<Transition>, ys: seq<Transition>, q: string, a: char)
    requires forall t <- xs :: !Reads(t, q, a)
    ensures FirstMatch(xs + ys, q, a) == FirstMatch(ys, q, a)
    decreases |xs|
  {
    if |xs| == 0 {
      assert xs + ys == ys;
    } else {
      assert (xs + ys)[0] == xs[0];
      assert (xs + ys)[1..] == xs[1..] + ys;
      FirstMatchSkipsOthers(xs[1..], ys, q, a);
    }
  }

  /** Records of other states behind a table do not change which record of
      `q` fires. */
  lemma {:induction false} FirstMatchIgnoresOthers(xs: seq<Transition>, ys: seq<Transition>, q: string, a: char)
    requires forall t <- ys :: t.currentState != q
    ensures FirstMatch(xs + ys, q, a) == FirstMatch(xs, q, a)
    decreases |xs|
  {
    if |xs| == 0 {
      assert xs + ys == ys;
    } else {
      assert (xs + ys)[0] == xs[0];
      assert (xs + ys)[1..] == xs[1..] + ys;
      FirstMatchIgnoresOthers(xs[1..], ys, q, a);
    }
  }

  /** The records of `q` decide what fires in `q`: a table that holds them
      between records of other states dispatches exactly like they do. */
  lemma LookupFramed(xs: seq<Transition>, ys: seq<Transition>, zs: seq<Transition>, q: string, a: char)
    requires forall t <- xs :: t.currentState != q
    requires forall t <- zs :: t.currentState != q
    ensures Lookup(xs + ys + zs, q, a) == Lookup(ys, q, a)
  {
    assert xs + ys + zs == xs + (ys + zs);
    FirstMatchSkipsOthers(xs, ys + zs, q, a);
    FirstMatchSkipsOthers(xs, ys + zs, q, AnySymbol);
    FirstMatchIgnoresOthers(ys, zs, q, a);
    FirstMatchIgnoresOthers(ys, zs, q, AnySymbol);
  }

  /** A table made of a head and a walk of blocks dispatches in `q` like
      block `j` when no other part has a record of `q`. */
  lemma LookupInBlock<T>(head: seq<Transition>, f: T -> seq<Transition>, xs: seq<T>, j: nat, q: string, a: char)
    requires j < |xs|
    requires forall t <- head :: t.currentState != q
    requires forall k, t :: 0 <= k < |xs| && k != j && t in f(xs[k]) ==> t.currentState != q
    ensures Lookup(head + FlatMap(f, xs), q, a) == Lookup(f(xs[j]), q, a)
  {
    var before, block, after := FlatMap(f, xs[..j]), f(xs[j]), FlatMap(f, xs[j + 1..]);
    FlatMapAround(f, head, xs, j);
    BlocksBeforeAvoid(f, xs, j, q);
    BlocksAfterAvoid(f, xs, j, q);
    HeadAvoids(head, before, q);
    LookupFramed(head + before, block, after, q, a);
  }

  /** The blocks in front of block `j` have no record of `q`. */
  lemma BlocksBeforeAvoid<T>(f: T -> seq<Transition>, xs: seq<T>, j: nat, q: string)
    requires j < |xs|
    requires forall k, t :: 0 <= k < |xs| && k != j && t in f(xs[k]) ==> t.currentState != q
    ensures forall t <- FlatMap(f, xs[..j]) :: t.currentState != q
  {
    BlocksAvoid(f, xs, 0, j, q);
    assert xs[0..j] == xs[..j];
  }

  /** The blocks behind block `j` have no record of `q`. */
  lemma BlocksAfterAvoid<T>(f: T -> seq<Transition>, xs: seq<T>, j: nat, q: string)
    requires j < |xs|
    requires forall k, t :: 0 <= k < |xs| && k != j && t in f(xs[k]) ==> t.currentState != q
    ensures forall t <- FlatMap(f, xs[j + 1..]) :: t.currentState != q
  {
    BlocksAvoid(f, xs, j + 1, |xs|, q);
    assert xs[j + 1..|xs|] == xs[j + 1..];
  }

  lemma HeadAvoids(head: seq<Transition>, tail: seq<Transition>, q: string)
    requires forall t <- head :: t.currentState != q
    requires forall t <- tail :: t.currentState != q
    ensures forall t <- head + tail :: t.currentState != q
  {
  }

  /** A run of blocks none of which has a record of `q` has none either. */
  lemma BlocksAvoid<T>(f: T -> seq<Transition>, xs: seq<T>, lo: nat, hi: nat, q: string)
    requires lo <= hi <= |xs|
    requires forall k, t :: lo <= k < hi && t in f(xs[k]) ==> t.currentState != q
    ensures forall t <- FlatMap(f, xs[lo..hi]) :: t.currentState != q
  {
    forall t <- FlatMap(f, xs[lo..hi])
      ensures t.currentState != q
    {
      FlatMapMembers(f, xs[lo..hi], t);
      var x :| x in xs[lo..hi] && t in f(x);
      var k :| 0 <= k < hi - lo && xs[lo..hi][k] == x;
      assert t in f(xs[lo + k]);
    }
  }

  /** A sweep over `xs + ys` is the sweep over `xs` continued over `ys`. */
  lemma {:induction false} SweepRightAppend(table: seq<Transition>, q: string, xs: seq<char>, ys: seq<char>,
                                            written: seq<char>, mid: string)
    requires SweepRight(table, q, xs) == Some((written, mid))
    ensures SweepRight(table, q, xs + ys) ==
      match SweepRight(table, mid, ys)
      case None => None
      case Some(rest) => Some((written + rest.0, rest.1))
    decreases |xs|
  {
    if |xs| == 0 {
      assert xs + ys == ys;
      match SweepRight(table, mid, ys)
      case None =>
      case Some(rest) =>
        assert written + rest.0 == rest.0;
    } else {
      assert (xs + ys)[0] == xs[0];
      assert (xs + ys)[1..] == xs[1..] + ys;
      var t := Lookup(table, q, xs[0]).value;
      assert t.direction == Right;
      var tail := SweepRight(table, t.newState, xs[1..]).value;
      assert written == [Written(t, xs[0])] + tail.0;
      assert mid == tail.1;
      SweepRightAppend(table, t.newState, xs[1..], ys, tail.0, mid);
      match SweepRight(table, mid, ys)
      case None =>
      case Some(rest) =>
        assert written + rest.0 == [Written(t, xs[0])] + (tail.0 + rest.0);
    }
  }

  /** One step to the right is a sweep over one cell. */
  lemma SweepRightOne(table: seq<Transition>, q: string, a: char, w: char, next: string)
    requires Fires(table, q, a, Right, w, next)
    ensures SweepRight(table, q, [a]) == Some(([w], next))
  {
    assert [a][1..] == [];
    assert SweepRight(table, next, []) == Some(([], next));
    assert [w] + [] == [w];
  }
}
