/** The transition record, its text form and the two small parsers of the
    table format (src/main.rs: constants, `Direction`, `MachineType`,
    `Transition` and its `Display`, `is_halt_state`, `get_next_state`,
    `parse_line`). */
module Transitions {
  import opened Wrappers
  import opened Text

  /** Reserved tape symbols. */
  const LeftWall: char := '#'
  const RightWall: char := '$'
  const Blank: char := '_'
  /** Wildcard: "any symbol" when read, "unchanged" when written. */
  const AnySymbol: char := '*'

  /** Labels starting with this prefix are terminal. */
  const HaltPrefix: string := "halt"
  /** Namespace the embedded machine's states are moved into. */
  const SimPrefix: string := "sim_"
  /** Start state of every generated table. */
  const StartState: string := "0"

  datatype Direction = Left | Right | Stay

  datatype MachineType = Infinite | Sipser

  datatype Transition = Transition(
    currentState: string,
    currentSymbol: char,
    newSymbol: char,
    direction: Direction,
    newState: string)

  datatype ParseTransitionError =
    | Empty
    | InvalidPartCount(count: nat)
    | InvalidDirection(token: string)
    | InvalidSymbol(token: string)

  datatype ConversionError =
    | InvalidHeader(text: string)
    | ParseError(cause: ParseTransitionError)

  /** `is_halt_state`: the terminal-state test shared by both pipelines. */
  predicate IsHalt(state: string) {
    StartsWith(state, HaltPrefix)
  }

  /** `get_next_state`: a terminal destination is never redirected. */
  function NextState(originalNewState: string, checkState: string): string {
    if IsHalt(originalNewState) then originalNewState else checkState
  }

  /** The direction token written by `Display for Direction`. */
  function ShowDirection(d: Direction): string {
    match d
    case Left => "l"
    case Right => "r"
    case Stay => [AnySymbol]
  }

  /** `Direction::from_str`. */
  function ParseDirection(s: string): (r: Result<Direction, ParseTransitionError>)
    ensures r.Ok? ==> ShowDirection(r.value) == s
    ensures r.Err? ==> r.error == InvalidDirection(s)
    ensures r.Err? <==> s != "l" && s != "r" && s != "*"
  {
    if s == "l" then Ok(Left)
    else if s == "r" then Ok(Right)
    else if s == "*" then Ok(Stay)
    else Err(InvalidDirection(s))
  }

  /** Every direction token written by `Display` is read back as itself. */
  lemma DirectionRoundTrip(d: Direction)
    ensures ParseDirection(ShowDirection(d)) == Ok(d)
  {
  }

  /** `MachineType::from_str`, applied to the header line. */
  function ParseMachineType(s: string): (r: Result<MachineType, ConversionError>)
    ensures r == Ok(Sipser) <==> s == ";S"
    ensures r == Ok(Infinite) <==> s == ";I"
    ensures r.Err? ==> r.error == InvalidHeader(s)
  {
    if s == ";S" then Ok(Sipser)
    else if s == ";I" then Ok(Infinite)
    else Err(InvalidHeader(s))
  }

  /** A label that survives one render/parse cycle: one non-empty token
      without a comment delimiter. */
  predicate ValidLabel(s: string) {
    |s| > 0 && NoWhitespace(s) && Comment !in s
  }

  /** Lower-case letters, digits and underscores: the alphabet of every
      label the converter introduces. */
  predicate Plain(s: string) {
    forall i :: 0 <= i < |s| ==> ('a' <= s[i] <= 'z' || '0' <= s[i] <= '9' || s[i] == '_')
  }

  lemma PlainIsClean(s: string)
    requires Plain(s)
    ensures NoWhitespace(s) && Comment !in s
  {
    forall i | 0 <= i < |s|
      ensures !IsWhitespace(s[i]) && s[i] != Comment
    {
    }
  }

  predicate ValidSymbol(c: char) {
    !IsWhitespace(c) && c != Comment
  }

  predicate Renderable(t: Transition) {
    && ValidLabel(t.currentState)
    && ValidLabel(t.newState)
    && ValidSymbol(t.currentSymbol)
    && ValidSymbol(t.newSymbol)
  }

  /** A label behind a whitespace- and comment-free prefix stays valid. */
  lemma PrefixedLabelIsValid(prefix: string, s: string)
    requires NoWhitespace(prefix) && Comment !in prefix
    requires ValidLabel(s)
    ensures ValidLabel(prefix + s)
  {
    var r := prefix + s;
    forall i | 0 <= i < |r|
      ensures !IsWhitespace(r[i]) && r[i] != Comment
    {
      if i < |prefix| {
        assert r[i] == prefix[i];
      } else {
        assert r[i] == s[i - |prefix|];
      }
    }
  }

  /** The record as it reads back after wildcard compression: a written
      symbol equal to the read one becomes `*`, and so does a destination
      equal to the source state. */
  function Compress(t: Transition): Transition {
    t.(newSymbol := if t.newSymbol == t.currentSymbol then AnySymbol else t.newSymbol,
       newState := if t.newState == t.currentState then [AnySymbol] else t.newState)
  }

  /** How a reader undoes the compression: a written `*` keeps the symbol
      read, a destination `*` is the source state. */
  function Expand(c: Transition): Transition {
    c.(newSymbol := if c.newSymbol == AnySymbol then c.currentSymbol else c.newSymbol,
       newState := if c.newState == [AnySymbol] then c.currentState else c.newState)
  }

  /** A record whose compression loses nothing: it writes the wildcard only
      where it reads it, and enters the label `*` only from `*`. */
  predicate Lossless(t: Transition) {
    && (t.newSymbol == AnySymbol ==> t.currentSymbol == AnySymbol)
    && (t.newState == [AnySymbol] ==> t.currentState == [AnySymbol])
  }

  /** Compression is undone by expansion exactly on lossless records. */
  lemma ExpandCompress(t: Transition)
    ensures Expand(Compress(t)) == t <==> Lossless(t)
  {
  }

  /** `Display for Transition`: five space-separated fields, with wildcard
      compression of the written symbol and the destination. */
  function Render(t: Transition): string {
    var c := Compress(t);
    t.currentState + " " + [t.currentSymbol] + " " + [c.newSymbol] + " "
      + ShowDirection(t.direction) + " " + c.newState
  }

  /** The whitespace-separated fields of a line once its comment is cut off. */
  function LineTokens(line: string): seq<string> {
    Tokens(Trim(BeforeComment(line)))
  }

  /** `parse_line` once the line has been split into five fields: each
      symbol field contributes its first character, the direction field must
      be a direction token. */
  function ParseFields(parts: seq<string>): (r: Result<Transition, ParseTransitionError>)
    requires |parts| == 5
    ensures r.Err? ==> r.error.InvalidSymbol? || r.error.InvalidDirection?
    ensures r.Err? && r.error.InvalidSymbol? <==> |parts[1]| == 0 || |parts[2]| == 0
    ensures r.Err? && r.error.InvalidDirection? ==> r.error.token == parts[3]
    ensures r.Ok? <==> |parts[1]| > 0 && |parts[2]| > 0 && ParseDirection(parts[3]).Ok?
    ensures r.Ok? ==>
              && r.value.currentState == parts[0]
              && [r.value.currentSymbol] == parts[1][..1]
              && [r.value.newSymbol] == parts[2][..1]
              && ShowDirection(r.value.direction) == parts[3]
              && r.value.newState == parts[4]
  {
    var currentSymbol := parts[1];
    var newSymbol := parts[2];
    if |currentSymbol| == 0 then Err(InvalidSymbol(currentSymbol))
    else if |newSymbol| == 0 then Err(InvalidSymbol(newSymbol))
    else
      match ParseDirection(parts[3])
      case Err(e) => Err(e)
      case Ok(d) => Ok(Transition(parts[0], currentSymbol[0], newSymbol[0], d, parts[4]))
  }

  /** `parse_line`. The symbol tokens are non-empty (splitting on whitespace
      never yields an empty token), so `InvalidSymbol` is never produced. */
  function ParseLine(line: string): (r: Result<Transition, ParseTransitionError>)
    ensures r == Err(Empty) <==> AllWhitespace(BeforeComment(line))
    ensures r.Err? && r.error.InvalidPartCount? <==>
              !AllWhitespace(BeforeComment(line)) && |LineTokens(line)| != 5
    ensures r.Err? && r.error.InvalidPartCount? ==> r.error.count == |LineTokens(line)|
    ensures r.Err? && r.error.InvalidDirection? <==>
              |LineTokens(line)| == 5 && ParseDirection(LineTokens(line)[3]).Err?
    ensures r.Err? && r.error.InvalidDirection? ==> r.error.token == LineTokens(line)[3]
    ensures r.Err? ==> !r.error.InvalidSymbol?
    ensures r.Ok? ==>
              var parts := LineTokens(line);
              && |parts| == 5
              && r.value.currentState == parts[0]
              && [r.value.currentSymbol] == parts[1][..1]
              && [r.value.newSymbol] == parts[2][..1]
              && ShowDirection(r.value.direction) == parts[3]
              && r.value.newState == parts[4]
    ensures r.Ok? ==> Renderable(r.value)
  {
    var body := Trim(BeforeComment(line));
    if |body| == 0 then Err(Empty)
    else
      var parts := Tokens(body);
      if |parts| != 5 then Err(InvalidPartCount(|parts|))
      else
        FieldsAreValid(line, parts);
        ParseFields(parts)
  }

  /** The fields of a line are valid labels. */
  lemma FieldsAreValid(line: string, parts: seq<string>)
    requires parts == LineTokens(line)
    ensures forall i :: 0 <= i < |parts| ==> ValidLabel(parts[i])
  {
  }

  /** Rendering a record and parsing the line back yields the record with its
      wildcard compression applied; in particular the read symbol, the
      direction and the source state always come back unchanged. */
  lemma RenderParseRoundTrip(t: Transition)
    requires Renderable(t)
    ensures ParseLine(Render(t)) == Ok(Compress(t))
  {
    var c := Compress(t);
    var words := [t.currentState, [t.currentSymbol], [c.newSymbol], ShowDirection(t.direction), c.newState];
    assert forall i :: 0 <= i < |words| ==> |words[i]| > 0 && NoWhitespace(words[i]) && Comment !in words[i];
    JoinFive(words[0], words[1], words[2], words[3], words[4]);
    assert Render(t) == JoinSpaces(words);
    LineTokensOfJoin(words);
    DirectionRoundTrip(t.direction);
  }

  /** A line of words joined by single spaces, with no comment in it, reads
      back as those words. */
  lemma LineTokensOfJoin(words: seq<string>)
    requires |words| > 0
    requires forall i :: 0 <= i < |words| ==> |words[i]| > 0 && NoWhitespace(words[i]) && Comment !in words[i]
    ensures LineTokens(JoinSpaces(words)) == words
  {
    var line := JoinSpaces(words);
    JoinSpacesAvoids(words, Comment);
    BeforeCommentUnchanged(line);
    JoinSpacesEnds(words);
    assert Trim(line) == line;
    TokensOfJoin(words);
  }
}
