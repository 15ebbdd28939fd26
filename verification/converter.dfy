/** `run_converter`: reads the header and the table, renames the source
    states, runs the pipeline the header selects and writes the header
    comments followed by one rendered line per generated record. The file
    is given and produced as its lines (`content.lines()` on input, one
    `writeln!` per record on output); opening, reading and writing files is
    not part of this model. */
module Converter {
  import opened Wrappers
  import opened Text
  import opened Transitions
  import opened Renaming
  import opened Dispatch
  import opened Primitives
  import opened Enumeration
  import opened InfiniteToSipser
  import opened SipserToInfinite

  /** A line a line reader lets through: a record, or nothing but
      whitespace and comment. */
  predicate Accepted<T>(parse: string -> Result<T, ParseTransitionError>, line: string) {
    parse(line).Ok? || parse(line) == Err(Empty)
  }

  /** What one line contributes to the table: its record, if it is one. */
  function Kept<T>(parse: string -> Result<T, ParseTransitionError>, line: string): seq<T> {
    match parse(line)
    case Ok(t) => [t]
    case Err(_) => []
  }

  /** The records among `lines`, in order, collected from the last line
      backwards: the filter-map a successful read has to agree with. */
  function Records<T>(parse: string -> Result<T, ParseTransitionError>, lines: seq<string>): seq<T>
    decreases |lines|
  {
    if |lines| == 0 then []
    else Records(parse, lines[..|lines| - 1]) + Kept(parse, lines[|lines| - 1])
  }

  /** `Records` read from the front: the first line's record, then the rest. */
  lemma {:induction false} RecordsCons<T>(parse: string -> Result<T, ParseTransitionError>, lines: seq<string>)
    requires |lines| > 0
    ensures Records(parse, lines) == Kept(parse, lines[0]) + Records(parse, lines[1..])
    decreases |lines|
  {
    var n := |lines|;
    if n == 1 {
      assert lines[..0] == [] && lines[1..] == [];
    } else {
      assert lines[..n - 1][0] == lines[0];
      assert lines[..n - 1][1..] == lines[1..][..n - 2];
      assert lines[1..][n - 2] == lines[n - 1];
      RecordsCons(parse, lines[..n - 1]);
    }
  }

  /** Reads the body of the input with `parse`: blank and comment lines are
      dropped, and the first other error ends the reading. */
  function ReadLines<T>(parse: string -> Result<T, ParseTransitionError>, lines: seq<string>)
    : (r: Result<seq<T>, ConversionError>)
    ensures r.Ok? <==> forall i :: 0 <= i < |lines| ==> Accepted(parse, lines[i])
    ensures r.Ok? ==> r.value == Records(parse, lines)
    ensures r.Ok? ==> |r.value| <= |lines|
    ensures r.Ok? ==> forall t <- r.value :: exists i :: 0 <= i < |lines| && parse(lines[i]) == Ok(t)
    ensures r.Err? ==> r.error.ParseError? && r.error.cause != Empty
    decreases |lines|
  {
    if |lines| == 0 then Ok([])
    else
      RecordsCons(parse, lines);
      match parse(lines[0])
      case Err(Empty) => ReadLines(parse, lines[1..])
      case Err(e) => Err(ParseError(e))
      case Ok(t) =>
        match ReadLines(parse, lines[1..])
        case Err(e) => Err(e)
        case Ok(rest) => Ok([t] + rest)
  }

  /** The error reported is that of the first line that is neither a record
      nor blank. */
  lemma {:induction false} ReadLinesFirstError<T>(parse: string -> Result<T, ParseTransitionError>, lines: seq<string>)
    requires ReadLines(parse, lines).Err?
    ensures exists i :: 0 <= i < |lines| && parse(lines[i]) == Err(ReadLines(parse, lines).error.cause)
                        && (forall j :: 0 <= j < i ==> Accepted(parse, lines[j]))
    decreases |lines|
  {
    if parse(lines[0]).Ok? || parse(lines[0]) == Err(Empty) {
      ReadLinesFirstError(parse, lines[1..]);
      var i :| 0 <= i < |lines[1..]| && parse(lines[1..][i]) == Err(ReadLines(parse, lines[1..]).error.cause)
        && forall j :: 0 <= j < i ==> Accepted(parse, lines[1..][j]);
      assert ReadLines(parse, lines).error == ReadLines(parse, lines[1..]).error;
      forall j | 0 <= j < i + 1
        ensures Accepted(parse, lines[j])
      {
        if j > 0 {
          assert lines[j] == lines[1..][j - 1];
        }
      }
      assert parse(lines[i + 1]) == Err(ReadLines(parse, lines).error.cause);
    }
  }

  /** Lines that each parse to a value read as those values, in order. */
  lemma {:induction false} ReadLinesAllOk<T>(parse: string -> Result<T, ParseTransitionError>, lines: seq<string>,
                                             values: seq<T>)
    requires |values| == |lines|
    requires forall i :: 0 <= i < |lines| ==> parse(lines[i]) == Ok(values[i])
    ensures ReadLines(parse, lines) == Ok(values)
    decreases |lines|
  {
    if |lines| > 0 {
      assert parse(lines[0]) == Ok(values[0]);
      ReadLinesAllOk(parse, lines[1..], values[1..]);
      assert values == [values[0]] + values[1..];
    }
  }

  /** Blank and comment lines in front of the body change nothing. */
  lemma {:induction false} ReadLinesSkipsBlank<T>(parse: string -> Result<T, ParseTransitionError>,
                                                  blank: seq<string>, lines: seq<string>)
    requires forall i :: 0 <= i < |blank| ==> parse(blank[i]) == Err(Empty)
    ensures ReadLines(parse, blank + lines) == ReadLines(parse, lines)
    decreases |blank|
  {
    if |blank| > 0 {
      assert parse((blank + lines)[0]) == Err(Empty);
      assert (blank + lines)[1..] == blank[1..] + lines;
      ReadLinesSkipsBlank(parse, blank[1..], lines);
    } else {
      assert blank + lines == lines;
    }
  }

  /** Reading two runs of lines one after the other: the first run's error
      wins, then the second's, and otherwise the records are concatenated. */
  lemma {:induction false} ReadLinesAppend<T>(parse: string -> Result<T, ParseTransitionError>,
                                              xs: seq<string>, ys: seq<string>)
    ensures ReadLines(parse, xs + ys) ==
      match ReadLines(parse, xs)
      case Err(e) => Err(e)
      case Ok(a) =>
        match ReadLines(parse, ys)
        case Err(e) => Err(e)
        case Ok(b) => Ok(a + b)
    decreases |xs|
  {
    if |xs| == 0 {
      assert xs + ys == ys;
      if ReadLines(parse, ys).Ok? {
        assert [] + ReadLines(parse, ys).value == ReadLines(parse, ys).value;
      }
    } else {
      assert (xs + ys)[0] == xs[0];
      assert (xs + ys)[1..] == xs[1..] + ys;
      ReadLinesAppend(parse, xs[1..], ys);
      match parse(xs[0])
      case Err(Empty) =>
      case Err(e) =>
      case Ok(t) =>
        if ReadLines(parse, xs[1..]).Ok? && ReadLines(parse, ys).Ok? {
          var a, b := ReadLines(parse, xs[1..]).value, ReadLines(parse, ys).value;
          assert [t] + (a + b) == [t] + a + b;
        }
    }
  }

  /** `lines.map(parse_line).filter(..).collect()`. */
  function ParseTable(lines: seq<string>): Result<seq<Transition>, ConversionError> {
    ReadLines(ParseLine, lines)
  }

  /** `run_converter` up to the choice of pipeline: an empty file, a bad
      header or a bad line is an error, in that order. */
  function ParseInput(lines: seq<string>): (r: Result<(MachineType, seq<Transition>), ConversionError>)
    ensures |lines| == 0 ==> r == Err(InvalidHeader("File is empty"))
    ensures |lines| > 0 && lines[0] != ";I" && lines[0] != ";S" ==> r == Err(InvalidHeader(lines[0]))
    ensures |lines| > 0 && (lines[0] == ";I" || lines[0] == ";S") ==>
      (r.Ok? <==> forall i :: 1 <= i < |lines| ==> Accepted(ParseLine, lines[i]))
    ensures r.Ok? ==> (r.value.0 == Infinite <==> lines[0] == ";I")
    ensures r.Ok? ==> ParseTable(lines[1..]) == Ok(r.value.1)
    ensures |lines| > 0 && ParseMachineType(lines[0]).Ok? && ParseTable(lines[1..]).Err? ==>
      r == Err(ParseTable(lines[1..]).error)
  {
    if |lines| == 0 then Err(InvalidHeader("File is empty"))
    else
      match ParseMachineType(lines[0])
      case Err(e) => Err(e)
      case Ok(mt) =>
        match ParseTable(lines[1..])
        case Err(e) => Err(e)
        case Ok(ts) => Ok((mt, ts))
  }

  /** The start label of the source machine once renamed. */
  const RenamedStart: string := SimPrefix + StartState

  function Renamed(ts: seq<Transition>): seq<Transition> {
    RenameOriginalStates(ts, SimPrefix)
  }

  /** The states the selected pipeline emits a block of records for. */
  function PipelineTargets(mt: MachineType, renamed: seq<Transition>): set<string> {
    match mt
    case Infinite => Targets(renamed)
    case Sipser => WallTargets(renamed)
  }

  /** The generated table for one walk `order` over the pipeline's
      targets: the setup records, then the converted records. */
  function Generate(mt: MachineType, renamed: seq<Transition>, order: seq<string>): seq<Transition> {
    match mt
    case Infinite => SetupTransitions(RenamedStart) + ConvertWith(renamed, order)
    case Sipser => WallSetupTransitions(RenamedStart) + ConvertSipserWith(renamed, order)
  }

  /** The two comment lines that open the output. */
  function HeaderLines(mt: MachineType): (r: seq<string>)
    ensures |r| == 2
    ensures forall l <- r :: |l| > 0 && l[0] == Comment
  {
    match mt
    case Infinite => ["; --- Infinite-to-Sipser Simulation ---", "; Start state: " + StartState]
    case Sipser => ["; --- Sipser-to-Infinite Simulation ---", "; Start state: " + StartState]
  }

  function RenderAll(ts: seq<Transition>): (r: seq<string>)
    ensures |r| == |ts|
  {
    seq(|ts|, i requires 0 <= i < |ts| => Render(ts[i]))
  }

  function CompressAll(ts: seq<Transition>): (r: seq<Transition>)
    ensures |r| == |ts|
  {
    seq(|ts|, i requires 0 <= i < |ts| => Compress(ts[i]))
  }

  function ExpandAll(ts: seq<Transition>): (r: seq<Transition>)
    ensures |r| == |ts|
  {
    seq(|ts|, i requires 0 <= i < |ts| => Expand(ts[i]))
  }

  /** The lines of the output file. */
  function OutputLines(mt: MachineType, table: seq<Transition>): seq<string> {
    HeaderLines(mt) + RenderAll(table)
  }

  /** `run_converter`: on success, the machine type read and the lines
      written. The generated blocks follow the order in which the hash set
      yields its targets. */
  method RunConverter(lines: seq<string>) returns (r: Result<(MachineType, seq<string>), ConversionError>)
    ensures r.Err? <==> ParseInput(lines).Err?
    ensures r.Err? ==> r.error == ParseInput(lines).error
    ensures r.Ok? ==>
      var (mt, ts) := ParseInput(lines).value;
      && r.value.0 == mt
      && exists order :: Enumerates(order, PipelineTargets(mt, Renamed(ts)))
                         && r.value.1 == OutputLines(mt, Generate(mt, Renamed(ts), order))
  {
    if |lines| == 0 {
      return Err(InvalidHeader("File is empty"));
    }
    var header := ParseMachineType(lines[0]);
    if header.Err? {
      return Err(header.error);
    }
    var mt := header.value;
    var body := ParseTable(lines[1..]);
    if body.Err? {
      return Err(body.error);
    }
    var ts := body.value;
    assert ParseInput(lines) == Ok((mt, ts));
    var renamed := RenameOriginalStates(ts, SimPrefix);
    var table;
    ghost var order: seq<string>;
    match mt {
      case Infinite =>
        var converted := ConvertSimulationTransitions(renamed);
        order :| Enumerates(order, Targets(renamed)) && converted == ConvertWith(renamed, order);
        table := SetupTransitions(RenamedStart) + converted;
      case Sipser =>
        var converted := ConvertSipserToInfinite(renamed);
        order :| Enumerates(order, WallTargets(renamed)) && converted == ConvertSipserWith(renamed, order);
        table := WallSetupTransitions(RenamedStart) + converted;
    }
    assert Enumerates(order, PipelineTargets(mt, Renamed(ts))) && table == Generate(mt, Renamed(ts), order);
    r := Ok((mt, OutputLines(mt, table)));
  }

  // ------------------------------------------------------------ round trip

  /** Rendered records read back as their compressed forms, one per line. */
  lemma ParseRenderedTable(ts: seq<Transition>)
    requires forall t <- ts :: Renderable(t)
    ensures ParseTable(RenderAll(ts)) == Ok(CompressAll(ts))
  {
    var lines := RenderAll(ts);
    forall i | 0 <= i < |lines|
      ensures ParseLine(lines[i]) == Ok(CompressAll(ts)[i])
    {
      RenderParseRoundTrip(ts[i]);
    }
    ReadLinesAllOk(ParseLine, lines, CompressAll(ts));
  }

  /** The output file reads back as the generated table: the header lines
      are comments, every record line parses to the compressed record, and
      expanding the wildcards restores the table when it is lossless. */
  lemma OutputReadsBack(mt: MachineType, table: seq<Transition>)
    requires forall t <- table :: Renderable(t)
    ensures ParseTable(OutputLines(mt, table)) == Ok(CompressAll(table))
    ensures (forall t <- table :: Lossless(t)) ==> ExpandAll(CompressAll(table)) == table
  {
    HeaderIsComment(mt);
    ReadLinesSkipsBlank(ParseLine, HeaderLines(mt), RenderAll(table));
    ParseRenderedTable(table);
    if forall t <- table :: Lossless(t) {
      ExpandUndoesCompress(table);
    }
  }

  lemma ExpandUndoesCompress(table: seq<Transition>)
    requires forall t <- table :: Lossless(t)
    ensures ExpandAll(CompressAll(table)) == table
  {
    forall i | 0 <= i < |table|
      ensures ExpandAll(CompressAll(table))[i] == table[i]
    {
      ExpandCompress(table[i]);
    }
  }

  lemma HeaderIsComment(mt: MachineType)
    ensures forall i :: 0 <= i < 2 ==> ParseLine(HeaderLines(mt)[i]) == Err(Empty)
  {
    forall i | 0 <= i < 2
      ensures ParseLine(HeaderLines(mt)[i]) == Err(Empty)
    {
      assert BeforeComment(HeaderLines(mt)[i]) == [];
    }
  }

  // ------------------------------------------------------- label hygiene

  /** A label after renaming: terminal, or in the `"sim_"` namespace. */
  predicate SimLabel(q: string) {
    IsHalt(q) || StartsWith(q, SimPrefix)
  }

  /** A renamed label is none of the engine's own labels. */
  lemma SimLabelIsFree(q: string)
    requires SimLabel(q)
    ensures !Reserved(q) && !WallReserved(q)
    ensures q !in SetupStates() && q != WriteWall
    ensures q != [AnySymbol]
  {
    assert q[0] == 'h' || q[0] == 's';
    assert q[0] == 's' ==> q[1] == 'i';
    forall role: Role
      ensures !StartsWith(q, RolePrefix(role))
    {
    }
  }

  /** Every control label starts with `c`, `e` or `s`, so none is a setup
      label. */
  lemma ControlLabelNotSetup(role: Role, s: string)
    ensures ControlLabel(role, s) !in SetupStates()
    ensures ControlLabel(role, s) != [AnySymbol]
  {
    assert ControlLabel(role, s)[0] == RolePrefix(role)[0];
  }

  lemma WallLabelNotSetup(s: string)
    ensures WallLabel(s) != StartState && WallLabel(s) != WriteWall
    ensures WallLabel(s) != [AnySymbol]
  {
    assert WallLabel(s)[0] == 'c';
  }

  /** Renaming puts every label of the source table out of reach of the
      engine's labels, so the reserved-prefix condition the conversions
      rely on always holds for the table they are given. */
  lemma RenamedIsFree(ts: seq<Transition>)
    ensures forall t <- Renamed(ts) :: SimLabel(t.currentState) && SimLabel(t.newState)
    ensures NoReservedStates(Renamed(ts)) && NoWallReservedStates(Renamed(ts))
    ensures forall t <- Renamed(ts) :: t.currentState !in SetupStates() && t.currentState != WriteWall
    ensures SimLabel(RenamedStart) && RenamedStart !in SetupStates() && RenamedStart != WriteWall
  {
    RenamedLabelsAreNamespaced(ts);
    forall t <- Renamed(ts)
      ensures !Reserved(t.currentState) && !WallReserved(t.currentState)
      ensures t.currentState !in SetupStates() && t.currentState != WriteWall
    {
      SimLabelIsFree(t.currentState);
    }
    assert RenamedStart[..|SimPrefix|] == SimPrefix;
    SimLabelIsFree(RenamedStart);
  }

  /** Every target of either pipeline is a renamed label. */
  lemma TargetsAreRenamed(mt: MachineType, ts: seq<Transition>)
    ensures forall s <- PipelineTargets(mt, Renamed(ts)) :: SimLabel(s)
  {
    RenamedIsFree(ts);
    forall s <- PipelineTargets(mt, Renamed(ts))
      ensures SimLabel(s)
    {
      var r := Renamed(ts);
      var i :| 0 <= i < |r| && r[i].newState == s;
      assert r[i] in r;
    }
  }

  // ------------------------------------------------- the generated table

  /** No converted record of the Infinite pipeline is in a setup state. */
  lemma ConvertedAvoidsSetup(ts: seq<Transition>, order: seq<string>)
    ensures forall t <- ConvertWith(Renamed(ts), order) :: t.currentState !in SetupStates()
  {
    RenamedIsFree(ts);
    var r := Renamed(ts);
    forall t <- ConvertWith(r, order)
      ensures t.currentState !in SetupStates()
    {
      if t in Rewrite(r) {
        var i :| 0 <= i < |r| && Rewrite(r)[i] == t;
        assert r[i] in r;
      } else {
        FlatMapMembers(Cluster, order, t);
        var x :| x in order && t in Cluster(x);
        ClusterOwnStates(x);
        var role :| t.currentState == ControlLabel(role, x);
        ControlLabelNotSetup(role, x);
      }
    }
  }

  /** In a setup state the Infinite-to-Sipser table fires what the setup
      records fire. */
  lemma GeneratedSetupStep(ts: seq<Transition>, order: seq<string>, q: string, a: char)
    requires q in SetupStates()
    ensures Lookup(Generate(Infinite, Renamed(ts), order), q, a) == Lookup(SetupTransitions(RenamedStart), q, a)
  {
    ConvertedAvoidsSetup(ts, order);
    var conv := ConvertWith(Renamed(ts), order);
    FirstMatchIgnoresOthers(SetupTransitions(RenamedStart), conv, q, a);
    FirstMatchIgnoresOthers(SetupTransitions(RenamedStart), conv, q, AnySymbol);
  }

  /** In any other state it fires what the converted records fire. */
  lemma GeneratedConvertedStep(ts: seq<Transition>, order: seq<string>, q: string, a: char)
    requires q !in SetupStates()
    ensures Lookup(Generate(Infinite, Renamed(ts), order), q, a) == Lookup(ConvertWith(Renamed(ts), order), q, a)
  {
    var conv := ConvertWith(Renamed(ts), order);
    SetupStatesClosed(RenamedStart);
    FirstMatchSkipsOthers(SetupTransitions(RenamedStart), conv, q, a);
    FirstMatchSkipsOthers(SetupTransitions(RenamedStart), conv, q, AnySymbol);
  }

  /** A step of the source machine in the Infinite-to-Sipser table: in the
      renamed state of a non-terminal source state `p`, the table fires the
      source record, renamed and retargeted; a move then enters the check
      state of a target the table holds a cluster for. */
  lemma GeneratedOriginalStep(ts: seq<Transition>, order: seq<string>, p: string, a: char)
    requires !IsHalt(p)
    ensures var q := RenameState(SimPrefix, p);
      match Lookup(ts, p, a)
      case None => Lookup(Generate(Infinite, Renamed(ts), order), q, a).None?
      case Some(t) =>
        && Lookup(Generate(Infinite, Renamed(ts), order), q, a) == Some(Retarget(RenameRecord(SimPrefix, t)))
        && (Redirected(RenameRecord(SimPrefix, t)) ==> RenameRecord(SimPrefix, t).newState in Targets(Renamed(ts)))
  {
    var q := RenameState(SimPrefix, p);
    SimPrefixKeepsOutOfHalt();
    assert q[..|SimPrefix|] == SimPrefix;
    SimLabelIsFree(q);
    GeneratedConvertedStep(ts, order, q, a);
    ConvertedOriginalStep(Renamed(ts), order, q, a);
    LookupRenamed(ts, SimPrefix, p, a);
  }

  /** In a control state of target `s`, the Infinite-to-Sipser table fires
      what the cluster of `s` fires. The reserved-prefix condition needs no
      assumption: renaming guarantees it. */
  lemma GeneratedClusterStep(ts: seq<Transition>, order: seq<string>, s: string, role: Role, a: char)
    requires Enumerates(order, Targets(Renamed(ts)))
    requires s in Targets(Renamed(ts))
    ensures Lookup(Generate(Infinite, Renamed(ts), order), ControlLabel(role, s), a)
      == Lookup(Cluster(s), ControlLabel(role, s), a)
  {
    RenamedIsFree(ts);
    ControlLabelNotSetup(role, s);
    GeneratedConvertedStep(ts, order, ControlLabel(role, s), a);
    ConvertedClusterStep(Renamed(ts), order, s, role, a);
  }

  /** No converted record of the Sipser pipeline is in a wall-setup
      state. */
  lemma SipserConvertedAvoidsSetup(ts: seq<Transition>, order: seq<string>)
    ensures forall t <- ConvertSipserWith(Renamed(ts), order) ::
      t.currentState != StartState && t.currentState != WriteWall
  {
    RenamedIsFree(ts);
    var r := Renamed(ts);
    forall t <- ConvertSipserWith(r, order)
      ensures t.currentState != StartState && t.currentState != WriteWall
    {
      if t in WallRewrite(r) {
        var i :| 0 <= i < |r| && WallRewrite(r)[i] == t;
        assert r[i] in r;
      } else {
        FlatMapMembers(WallCheck, order, t);
        var x :| x in order && t in WallCheck(x);
        WallLabelNotSetup(x);
      }
    }
  }

  lemma GeneratedWallSetupStep(ts: seq<Transition>, order: seq<string>, q: string, a: char)
    requires q == StartState || q == WriteWall
    ensures Lookup(Generate(Sipser, Renamed(ts), order), q, a) == Lookup(WallSetupTransitions(RenamedStart), q, a)
  {
    SipserConvertedAvoidsSetup(ts, order);
    var conv := ConvertSipserWith(Renamed(ts), order);
    FirstMatchIgnoresOthers(WallSetupTransitions(RenamedStart), conv, q, a);
    FirstMatchIgnoresOthers(WallSetupTransitions(RenamedStart), conv, q, AnySymbol);
  }

  lemma GeneratedSipserConvertedStep(ts: seq<Transition>, order: seq<string>, q: string, a: char)
    requires q != StartState && q != WriteWall
    ensures Lookup(Generate(Sipser, Renamed(ts), order), q, a) == Lookup(ConvertSipserWith(Renamed(ts), order), q, a)
  {
    var conv := ConvertSipserWith(Renamed(ts), order);
    FirstMatchSkipsOthers(WallSetupTransitions(RenamedStart), conv, q, a);
    FirstMatchSkipsOthers(WallSetupTransitions(RenamedStart), conv, q, AnySymbol);
  }

  /** A step of the source machine in the Sipser-to-Infinite table: the
      source record, renamed and retargeted; a move left then enters the
      wall check of a target the table holds a check for. */
  lemma GeneratedSipserOriginalStep(ts: seq<Transition>, order: seq<string>, p: string, a: char)
    requires !IsHalt(p)
    ensures var q := RenameState(SimPrefix, p);
      match Lookup(ts, p, a)
      case None => Lookup(Generate(Sipser, Renamed(ts), order), q, a).None?
      case Some(t) =>
        && Lookup(Generate(Sipser, Renamed(ts), order), q, a) == Some(WallRetarget(RenameRecord(SimPrefix, t)))
        && (WallRedirected(RenameRecord(SimPrefix, t)) ==> RenameRecord(SimPrefix, t).newState in WallTargets(Renamed(ts)))
  {
    var q := RenameState(SimPrefix, p);
    SimPrefixKeepsOutOfHalt();
    assert q[..|SimPrefix|] == SimPrefix;
    SimLabelIsFree(q);
    assert q != StartState;
    GeneratedSipserConvertedStep(ts, order, q, a);
    ConvertedSipserOriginalStep(Renamed(ts), order, q, a);
    LookupRenamed(ts, SimPrefix, p, a);
  }

  /** In the wall check of target `s` the Sipser-to-Infinite table halts on
      the left marker and otherwise resumes `s` on the same cell. */
  lemma GeneratedWallStep(ts: seq<Transition>, order: seq<string>, s: string, a: char)
    requires Enumerates(order, WallTargets(Renamed(ts)))
    requires s in WallTargets(Renamed(ts))
    ensures a == LeftWall ==> Fires(Generate(Sipser, Renamed(ts), order), WallLabel(s), a, Stay, LeftWall, HaltPrefix)
    ensures a != LeftWall ==> Fires(Generate(Sipser, Renamed(ts), order), WallLabel(s), a, Stay, a, s)
  {
    RenamedIsFree(ts);
    WallLabelNotSetup(s);
    GeneratedSipserConvertedStep(ts, order, WallLabel(s), a);
    ConvertedWallStep(Renamed(ts), order, s, a);
    WallCheckDispatch(s, a);
  }

  // ------------------------------------------------ output is readable

  /** A record that renders to a line read back as itself, once its
      wildcards are expanded. */
  predicate Faithful(t: Transition) {
    Renderable(t) && Lossless(t)
  }

  /** A source record the pipeline carries through to its output: it
      renders, and it never writes `*` over a named symbol. Its labels need
      no condition, since renaming moves every label away from `*`. */
  predicate SourceFaithful(t: Transition) {
    Renderable(t) && (t.newSymbol == AnySymbol ==> t.currentSymbol == AnySymbol)
  }

  /** A label that renders and reads back as itself. */
  predicate GoodLabel(x: string) {
    ValidLabel(x) && x != [AnySymbol]
  }

  lemma SetupOverFaithful(l: SetupLabels)
    requires GoodLabel(l.start) && GoodLabel(l.carry0) && GoodLabel(l.carry1) && GoodLabel(l.writeEnd)
    requires GoodLabel(l.returnHead) && GoodLabel(l.writeEmpty) && GoodLabel(l.target)
    ensures forall t <- SetupOver(l) :: Faithful(t)
  {
    var mark := [ Transition(l.start, '0', LeftWall, Right, l.carry0),
                  Transition(l.start, '1', LeftWall, Right, l.carry1) ];
    var carry := CarryLogic(l.carry0, l.carry1);
    var finish := [ Transition(l.carry0, Blank, '0', Right, l.writeEnd),
                    Transition(l.carry1, Blank, '1', Right, l.writeEnd),
                    Transition(l.writeEnd, Blank, RightWall, Left, l.returnHead) ];
    var back := ReturnHeadLogic(l.returnHead, l.target);
    var empty := [ Transition(l.start, Blank, LeftWall, Right, l.writeEmpty),
                   Transition(l.writeEmpty, Blank, RightWall, Left, l.target) ];
    assert forall t <- mark :: Faithful(t) by {
      MarkersValid();
      RecordFaithful(l.start, '0', LeftWall, Right, l.carry0);
      RecordFaithful(l.start, '1', LeftWall, Right, l.carry1);
    }
    assert forall t <- finish :: Faithful(t) by {
      MarkersValid();
      RecordFaithful(l.carry0, Blank, '0', Right, l.writeEnd);
      RecordFaithful(l.carry1, Blank, '1', Right, l.writeEnd);
      RecordFaithful(l.writeEnd, Blank, RightWall, Left, l.returnHead);
    }
    assert forall t <- empty :: Faithful(t) by {
      MarkersValid();
      RecordFaithful(l.start, Blank, LeftWall, Right, l.writeEmpty);
      RecordFaithful(l.writeEmpty, Blank, RightWall, Left, l.target);
    }
    CarryLogicFaithful(l.carry0, l.carry1);
    ReturnHeadLogicFaithful(l.returnHead, l.target);
    FaithfulJoin(mark, carry, finish, back);
    FaithfulJoin(mark + carry + finish + back, empty, [], []);
    assert mark + carry + finish + back + empty + [] + [] == SetupOver(l);
  }

  lemma PlainIsGood(s: string)
    requires |s| > 0 && Plain(s)
    ensures GoodLabel(s)
  {
    PlainIsClean(s);
    assert s[0] != AnySymbol;
  }

  lemma SetupLabelsGood()
    ensures var l := SetupLabelsOf(RenamedStart);
      && GoodLabel(l.start) && GoodLabel(l.carry0) && GoodLabel(l.carry1) && GoodLabel(l.writeEnd)
      && GoodLabel(l.returnHead) && GoodLabel(l.writeEmpty) && GoodLabel(l.target)
  {
    PlainIsGood(StartState);
    PlainIsGood(Carry0);
    PlainIsGood(Carry1);
    PlainIsGood(WriteEndMarker);
    PlainIsGood(ReturnHead);
    PlainIsGood(WriteEndMarkerEmpty);
    PlainIsGood(RenamedStart);
  }

  lemma SetupFaithful()
    ensures forall t <- SetupTransitions(RenamedStart) :: Faithful(t)
  {
    SetupIsOver(RenamedStart);
    SetupLabelsGood();
    SetupOverFaithful(SetupLabelsOf(RenamedStart));
  }

  lemma WallSetupFaithful()
    ensures forall t <- WallSetupTransitions(RenamedStart) :: Faithful(t)
  {
    MarkersValid();
    PlainIsGood(StartState);
    PlainIsGood(WriteWall);
    PlainIsGood(RenamedStart);
  }

  lemma MarkersValid()
    ensures ValidSymbol(AnySymbol) && ValidSymbol(LeftWall) && ValidSymbol(RightWall)
    ensures ValidSymbol(Blank) && ValidSymbol('0') && ValidSymbol('1')
  {
  }

  lemma CheckLogicFaithful(checkState: string, onAnyState: string, onSymbol: char,
                           onSymbolNewSymbol: char, onSymbolDirection: Direction,
                           onSymbolNewState: string)
    requires GoodLabel(checkState) && GoodLabel(onAnyState) && GoodLabel(onSymbolNewState)
    requires ValidSymbol(onSymbol) && ValidSymbol(onSymbolNewSymbol) && onSymbolNewSymbol != AnySymbol
    ensures forall t <- CheckLogic(checkState, onAnyState, onSymbol, onSymbolNewSymbol,
                                   onSymbolDirection, onSymbolNewState) :: Faithful(t)
  {
    MarkersValid();
  }

  lemma CarryLogicFaithful(carry0: string, carry1: string)
    requires GoodLabel(carry0) && GoodLabel(carry1)
    ensures forall t <- CarryLogic(carry0, carry1) :: Faithful(t)
  {
    MarkersValid();
  }

  lemma ReturnHeadLogicFaithful(returnState: string, targetState: string)
    requires GoodLabel(returnState) && GoodLabel(targetState)
    ensures forall t <- ReturnHeadLogic(returnState, targetState) :: Faithful(t)
  {
    MarkersValid();
  }

  /** One record between good labels, on valid symbols, that does not
      write the wildcard over a named symbol. */
  lemma RecordFaithful(from: string, a: char, w: char, d: Direction, to: string)
    requires GoodLabel(from) && GoodLabel(to) && ValidSymbol(a) && ValidSymbol(w)
    requires w == AnySymbol ==> a == AnySymbol
    ensures Faithful(Transition(from, a, w, d, to))
  {
  }

  lemma ShiftPartsFaithful(l: Labels)
    requires GoodLabel(l.target) && GoodLabel(l.shiftStart) && GoodLabel(l.carry0) && GoodLabel(l.carry1)
    requires GoodLabel(l.writeEnd) && GoodLabel(l.shiftReturn)
    ensures forall t <- ShiftParts(l) :: Faithful(t)
  {
    var erase := [ Transition(l.shiftStart, '0', Blank, Right, l.carry0),
                   Transition(l.shiftStart, '1', Blank, Right, l.carry1),
                   Transition(l.shiftStart, Blank, Blank, Stay, l.target) ];
    var carry := CarryLogic(l.carry0, l.carry1);
    var finish := [ Transition(l.carry0, Blank, '0', Right, l.writeEnd),
                    Transition(l.carry1, Blank, '1', Right, l.writeEnd),
                    Transition(l.carry0, RightWall, '0', Right, l.writeEnd),
                    Transition(l.carry1, RightWall, '1', Right, l.writeEnd),
                    Transition(l.shiftStart, RightWall, Blank, Right, l.writeEnd),
                    Transition(l.writeEnd, Blank, RightWall, Left, l.shiftReturn) ];
    var back := ReturnHeadLogic(l.shiftReturn, l.target);
    assert forall t <- erase :: Faithful(t) by {
      MarkersValid();
      RecordFaithful(l.shiftStart, '0', Blank, Right, l.carry0);
      RecordFaithful(l.shiftStart, '1', Blank, Right, l.carry1);
      RecordFaithful(l.shiftStart, Blank, Blank, Stay, l.target);
    }
    assert forall t <- finish :: Faithful(t) by {
      MarkersValid();
      RecordFaithful(l.carry0, Blank, '0', Right, l.writeEnd);
      RecordFaithful(l.carry1, Blank, '1', Right, l.writeEnd);
      RecordFaithful(l.carry0, RightWall, '0', Right, l.writeEnd);
      RecordFaithful(l.carry1, RightWall, '1', Right, l.writeEnd);
      RecordFaithful(l.shiftStart, RightWall, Blank, Right, l.writeEnd);
      RecordFaithful(l.writeEnd, Blank, RightWall, Left, l.shiftReturn);
    }
    CarryLogicFaithful(l.carry0, l.carry1);
    ReturnHeadLogicFaithful(l.shiftReturn, l.target);
    FaithfulJoin(erase, carry, finish, back);
  }

  lemma FaithfulJoin(a: seq<Transition>, b: seq<Transition>, c: seq<Transition>, d: seq<Transition>)
    requires forall t <- a :: Faithful(t)
    requires forall t <- b :: Faithful(t)
    requires forall t <- c :: Faithful(t)
    requires forall t <- d :: Faithful(t)
    ensures forall t <- a + b + c + d :: Faithful(t)
  {
  }

  lemma ClusterOverFaithful(l: Labels)
    requires GoodLabel(l.target) && GoodLabel(l.checkRight) && GoodLabel(l.expandRight) && GoodLabel(l.checkLeft)
    requires GoodLabel(l.shiftStart) && GoodLabel(l.carry0) && GoodLabel(l.carry1) && GoodLabel(l.writeEnd)
    requires GoodLabel(l.shiftReturn)
    ensures forall t <- ClusterOver(l) :: Faithful(t)
  {
    MarkersValid();
    CheckLogicFaithful(l.checkRight, l.target, RightWall, Blank, Right, l.expandRight);
    CheckLogicFaithful(l.checkLeft, l.target, LeftWall, LeftWall, Right, l.shiftStart);
    ShiftPartsFaithful(l);
    PartsAreOver(l);
  }

  lemma ClusterFaithful(s: string)
    requires GoodLabel(s)
    ensures forall t <- Cluster(s) :: Faithful(t)
  {
    forall role: Role
      ensures GoodLabel(ControlLabel(role, s))
    {
      ControlLabelIsValid(role, s);
      ControlLabelNotSetup(role, s);
    }
    ClusterIsOver(s);
    ClusterOverFaithful(LabelsOf(s));
  }

  lemma WallCheckFaithful(s: string)
    requires GoodLabel(s)
    ensures forall t <- WallCheck(s) :: Faithful(t)
  {
    PrefixedLabelIsValid(WallPrefix, s);
    WallLabelNotSetup(s);
    assert ValidLabel(HaltPrefix);
  }

  /** The renamed source records, and what either rewrite makes of them. */
  lemma RenamedFaithful(ts: seq<Transition>)
    requires forall t <- ts :: SourceFaithful(t)
    ensures forall t <- Renamed(ts) :: Faithful(t)
    ensures forall t <- Rewrite(Renamed(ts)) :: Faithful(t)
    ensures forall t <- WallRewrite(Renamed(ts)) :: Faithful(t)
  {
    RenamePreservesRenderable(ts);
    RenamedLabelsAreSim(ts);
    var r := Renamed(ts);
    forall i | 0 <= i < |r|
      ensures Faithful(r[i]) && Faithful(Retarget(r[i])) && Faithful(WallRetarget(r[i]))
    {
      assert ts[i] in ts && r[i] in r;
      assert SourceFaithful(ts[i]);
      SimLabelNotWildcard(r[i].currentState);
      SimLabelNotWildcard(r[i].newState);
      RetargetFaithful(r[i]);
      WallRetargetFaithful(r[i]);
    }
  }

  lemma RenamedLabelsAreSim(ts: seq<Transition>)
    ensures forall t <- Renamed(ts) :: SimLabel(t.currentState) && SimLabel(t.newState)
  {
    RenamedIsFree(ts);
  }

  lemma SimLabelNotWildcard(q: string)
    requires SimLabel(q)
    ensures q != [AnySymbol]
  {
    assert q[0] == 'h' || q[0] == 's';
  }

  lemma RetargetFaithful(t: Transition)
    requires Faithful(t) && t.newState != [AnySymbol]
    ensures Faithful(Retarget(t))
  {
    if Redirected(t) {
      var role := if t.direction == Right then CheckRight else CheckLeft;
      ControlLabelIsValid(role, t.newState);
      ControlLabelNotSetup(role, t.newState);
    }
  }

  lemma WallRetargetFaithful(t: Transition)
    requires Faithful(t) && t.newState != [AnySymbol]
    ensures Faithful(WallRetarget(t))
  {
    if WallRedirected(t) {
      PrefixedLabelIsValid(WallPrefix, t.newState);
      WallLabelNotSetup(t.newState);
    }
  }

  /** Given source records that render and never write `*` over a named
      symbol, every generated record is faithful. */
  lemma GeneratedFaithful(mt: MachineType, ts: seq<Transition>, order: seq<string>)
    requires forall t <- ts :: SourceFaithful(t)
    requires Enumerates(order, PipelineTargets(mt, Renamed(ts)))
    ensures forall t <- Generate(mt, Renamed(ts), order) :: Faithful(t)
  {
    RenamedFaithful(ts);
    TargetsGood(mt, ts, order);
    var r := Renamed(ts);
    match mt {
      case Infinite =>
        SetupFaithful();
        ClustersFaithful(order);
        AllFaithful3(SetupTransitions(RenamedStart), Rewrite(r), FlatMap(Cluster, order));
      case Sipser =>
        WallSetupFaithful();
        WallChecksFaithful(order);
        AllFaithful3(WallSetupTransitions(RenamedStart), WallRewrite(r), FlatMap(WallCheck, order));
    }
  }

  lemma AllFaithful3(a: seq<Transition>, b: seq<Transition>, c: seq<Transition>)
    requires forall t <- a :: Faithful(t)
    requires forall t <- b :: Faithful(t)
    requires forall t <- c :: Faithful(t)
    ensures forall t <- a + (b + c) :: Faithful(t)
  {
  }

  /** Every label a walk visits is a renamed target, hence a good label. */
  lemma TargetsGood(mt: MachineType, ts: seq<Transition>, order: seq<string>)
    requires forall t <- ts :: SourceFaithful(t)
    requires Enumerates(order, PipelineTargets(mt, Renamed(ts)))
    ensures forall x <- order :: GoodLabel(x)
  {
    RenamedFaithful(ts);
    TargetsAreRenamed(mt, ts);
    forall x <- order
      ensures GoodLabel(x)
    {
      TargetLabel(Renamed(ts), x);
    }
  }

  lemma ClustersFaithful(order: seq<string>)
    requires forall x <- order :: GoodLabel(x)
    ensures forall t <- FlatMap(Cluster, order) :: Faithful(t)
  {
    forall t <- FlatMap(Cluster, order)
      ensures Faithful(t)
    {
      FlatMapMembers(Cluster, order, t);
      var x :| x in order && t in Cluster(x);
      ClusterFaithful(x);
    }
  }

  lemma WallChecksFaithful(order: seq<string>)
    requires forall x <- order :: GoodLabel(x)
    ensures forall t <- FlatMap(WallCheck, order) :: Faithful(t)
  {
    forall t <- FlatMap(WallCheck, order)
      ensures Faithful(t)
    {
      FlatMapMembers(WallCheck, order, t);
      var x :| x in order && t in WallCheck(x);
      WallCheckFaithful(x);
    }
  }

  /** A renamed label is a valid label other than `*`. */
  lemma TargetLabel(r: seq<Transition>, x: string)
    requires SimLabel(x)
    requires exists t <- r :: t.newState == x && ValidLabel(t.newState)
    ensures GoodLabel(x)
  {
    SimLabelIsFree(x);
  }

  /** The file `run_converter` writes reads back as the table it generated:
      the header lines are comments, each record line parses to its record
      in compressed form, and expanding the wildcards gives the table back,
      provided no source record writes `*` over a named symbol. */
  lemma ConverterOutputReadsBack(lines: seq<string>, order: seq<string>)
    requires ParseInput(lines).Ok?
    requires Enumerates(order, PipelineTargets(ParseInput(lines).value.0, Renamed(ParseInput(lines).value.1)))
    requires forall t <- ParseInput(lines).value.1 :: t.newSymbol == AnySymbol ==> t.currentSymbol == AnySymbol
    ensures var (mt, ts) := ParseInput(lines).value;
      var table := Generate(mt, Renamed(ts), order);
      && ParseTable(OutputLines(mt, table)) == Ok(CompressAll(table))
      && ExpandAll(CompressAll(table)) == table
  {
    var (mt, ts) := ParseInput(lines).value;
    assert ParseTable(lines[1..]) == Ok(ts);
    forall t <- ts
      ensures SourceFaithful(t)
    {
      var i :| 0 <= i < |lines[1..]| && ParseLine(lines[1..][i]) == Ok(t);
    }
    GeneratedFaithful(mt, ts, order);
    var table := Generate(mt, Renamed(ts), order);
    OutputReadsBack(mt, table);
  }
}
