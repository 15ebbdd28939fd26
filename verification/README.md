# turing-simulator converter, modelled in Dafny

The converter reads a Turing-machine transition table. The table's first
line says which tape model it was written for:

- `;I` is the doubly-infinite tape.
- `;S` is the Sipser tape, bounded on the left.

The converter writes an equivalent table for the other model. It starts with
two steps that both pipelines share:

- Every non-terminal state label is moved into the `sim_` namespace, so the
  converter's own control states cannot collide with it.
- The table is parsed line by line. A `;` starts a comment. A `*` in a
  symbol or state field is stored as the character `*`. Reading `*` as a
  wildcard is left to the simulator that runs the table.

The two pipelines then differ:

- **Infinite-to-Sipser.**
  - A setup phase puts a left marker `#` at the origin. It shifts the input
    bit string one cell right and puts a right marker `$` behind it.
  - A left or right move from a non-halt state into a non-halt state `s` is
    redirected through `check_right_s` or `check_left_s`. Stay moves, moves
    out of a halt state and moves into a halt state are kept unchanged.
  - Each target `s` gets a cluster of twenty records. The cluster grows the
    region at the right marker. At the left marker, it shifts the whole
    region one cell right.
- **Sipser-to-Infinite.**
  - A setup phase writes `#` one cell left of the origin.
  - A left move into a non-halt state `s` is redirected through
    `check_left_wall_s`. Every other record is kept unchanged.
  - That check halts on `#` and otherwise resumes `s`.

The model is split into these modules:

| Module | What it holds |
|---|---|
| `Text` | The parts of Rust's `str` API the parser uses |
| `Transitions` | Constants, records, `Display`, `parse_line` |
| `Renaming` | Moving labels into the `sim_` namespace |
| `Primitives` | Carry, return-head and check logic |
| `InfiniteToSipser` | The Infinite-to-Sipser pipeline |
| `SipserToInfinite` | The Sipser-to-Infinite pipeline |
| `Converter` | `run_converter` |
| `Dispatch`, `Enumeration`, `Wrappers` | Support modules |

Each generator is a pure function. Each of the two conversion passes is a
method with a loop.

The converter only writes a table; an external simulator runs it. That
simulator is not part of this model. `Dispatch.Lookup` fixes how a table
is read:

- In state `q` on symbol `a`, the first record that names `a` fires.
- If no record names `a`, the first wildcard record of `q` fires.
- A written `*` leaves the cell unchanged.

All the behaviour lemmas below, such as "in state X on symbol Y the table
moves right, writes Z and enters W", are stated under this reading.

The targets are collected in a `HashSet`, whose iteration order is not
specified. In the model, that order is an explicit `order: seq<string>`
that `Enumeration.Enumerates` the target set. The methods promise that
*some* such order produced their output. The lemmas hold for *every* order.

## Model

| member | source | states |
|---|---|---|
| Text.BeforeComment | src/main.rs:177 | The result is the longest prefix of the line without `;`. If it is shorter than the line, a `;` follows it. |
| Text.Trim | src/main.rs:177 | The result is a slice of the line with only whitespace in front of it and behind it, and it starts and ends with non-whitespace. It is empty exactly when the line is all whitespace. A line with no leading or trailing whitespace is returned unchanged. |
| Text.Tokens | src/main.rs:181 | Every token is non-empty and whitespace-free, and every token character comes from the input. There are no tokens exactly when the input is all whitespace. |
| Text.TokensSplit | src/main.rs:181 | Every line is its tokens in order, with whitespace runs around and between them, and a non-empty run between any two tokens. |
| Text.TokensOfInterleave | src/main.rs:181 | Conversely, words that are non-empty and whitespace-free, put together with whitespace runs around them and non-empty runs between them, split back into exactly those words. |
| Text.TokensOfJoin | src/main.rs:157-158 | Splitting on whitespace gives back words that were joined with single spaces, as `Display` joins the five fields. |
| Transitions.ParseDirection | src/main.rs:95-105 | Exactly `l`, `r` and `*` parse. A parsed direction is displayed as the token it came from. Any other token fails with `InvalidDirection` carrying that token. |
| Transitions.DirectionRoundTrip | src/main.rs:95-115 | Every displayed direction parses back to itself. |
| Transitions.ParseMachineType | src/main.rs:123-131 | `;S` is Sipser, `;I` is Infinite, and anything else is `InvalidHeader` carrying the text. |
| Transitions.ExpandCompress | src/main.rs:143-161 | Expanding the `*` wildcards restores a displayed record exactly when the record is lossless. A lossless record writes `*` only where it reads `*`, and enters `*` only from `*`. |
| Transitions.ParseFields | src/main.rs:185-199 | Once the line is split into five fields: the result is `Ok` exactly when both symbol fields are non-empty and the direction parses. The record takes the first character of each symbol field and the labels as given. A failure on a symbol field is `InvalidSymbol`; otherwise it is `InvalidDirection` carrying the fourth field. |
| Transitions.ParseLine | src/main.rs:176-200 | See the breakdown after this table. |
| Transitions.LineTokensOfJoin | src/main.rs:177-181 | Non-empty words without whitespace or `;`, joined by single spaces, come back as exactly those words once the comment is cut off, the line trimmed and split on whitespace. |
| Transitions.RenderParseRoundTrip | src/main.rs:143-200 | Displaying a renderable record and parsing the line gives the record back, with its wildcard compression applied. |
| Renaming.RenameOriginalStates | src/main.rs:202-220 | Each record keeps its symbols and direction. A terminal label is kept. Any other label gets the prefix. |
| Renaming.RenamePreservesHalt | src/main.rs:164-166 | A prefix that differs from `halt` in a shared position never makes a label terminal or non-terminal. |
| Renaming.RenameIsInvertible | src/main.rs:202-220 | Stripping the prefix again gives back the source table, so renaming loses nothing. |
| Renaming.RenameStateInjective | src/main.rs:203-209 | Two different labels never rename to the same label. |
| Renaming.RenamedLabelsAreNamespaced | src/main.rs:202-220 | After renaming with `sim_`, every label is terminal or starts with `sim_`. |
| Renaming.RenamePreservesRenderable | src/main.rs:202-220 | Renaming keeps every record displayable: it adds no whitespace and no `;`. |
| Renaming.LookupRenamed | src/main.rs:202-220 | In a renamed state, the renamed table fires the renamed version of the record the source table fires in the original state. |
| Primitives.CarryLogic | src/main.rs:222-253 | Four records over the two carry states. Every record moves right and stays within the carry states. |
| Primitives.CarryLogicActsAsCarry | src/main.rs:222-253 | In the state that remembers bit `h`, reading bit `b` writes `h`, moves right and remembers `b`. |
| Primitives.CarryLogicShifts | src/main.rs:222-253 | A sweep over a bit string moves it one cell right: it writes the held bit followed by all input bits but the last, and ends remembering the last bit. |
| Primitives.ReturnHeadLogic | src/main.rs:255-272 | Both records belong to the return state. Each stays in it or enters the target. |
| Primitives.ReturnHeadDispatch | src/main.rs:255-272 | On `#`, the head moves right into the target. On any other symbol, it moves left, leaves the cell as it is and keeps returning. |
| Primitives.CheckLogic | src/main.rs:274-298 | Both records belong to the check state. Each enters the on-any state or the on-symbol state. |
| Primitives.CheckLogicDispatch | src/main.rs:274-298 | The trigger symbol fires the special record. Every other symbol stays, leaves the cell as it is and hands over to the on-any state. |
| InfiniteToSipser.ControlLabelInjective | src/main.rs:371-397 | Two control labels that differ in role or in target are different labels. |
| InfiniteToSipser.ClusterLabelsDistinct | src/main.rs:394-397 | The eight control labels of one target are pairwise distinct and differ from the target. |
| InfiniteToSipser.ControlLabelIsValid | src/main.rs:371-372 | A control label built on a valid label is itself a valid label. |
| InfiniteToSipser.SetupTransitions | src/main.rs:300-368 | The setup has thirteen records. It starts in state `0` and ends by entering the renamed start state. |
| InfiniteToSipser.SetupStatesClosed | src/main.rs:300-368 | Every setup record is in a setup state. It enters a setup state or the renamed start state. |
| InfiniteToSipser.SetupStart | src/main.rs:306-358 | In state `0`, a bit or a blank is replaced by `#` and the head moves right. A bit is remembered in a carry state; a blank leads to the empty-tape path. Any other symbol fires nothing. |
| InfiniteToSipser.SetupCarry | src/main.rs:323-337 | The setup carry states act as a carry. On a blank they write the held bit and go to the end-marker state. On any other symbol they fire nothing. |
| InfiniteToSipser.SetupFinish | src/main.rs:339-366 | See the breakdown after this table. |
| InfiniteToSipser.SetupSweep | src/main.rs:300-337 | On a non-empty bit input, the sweep from `0` leaves `#` followed by the input, shifted one cell right. It ends on the blank behind the input, in the end-marker state. |
| InfiniteToSipser.ClusterCheckRight | src/main.rs:370-391 | The check passes every symbol but `$` back to `s` unchanged. On `$`, it blanks the cell, writes a fresh `$` one cell right and steps back into `s`. |
| InfiniteToSipser.ClusterCheckLeft | src/main.rs:472-487 | The check passes every symbol but `#` back to `s` unchanged. On `#`, it steps right into the shift. |
| InfiniteToSipser.ClusterShiftStart | src/main.rs:399-459 | The shift blanks a first bit and remembers it. It resumes `s` on a blank. On `$`, it blanks the cell and goes straight to writing the end marker. |
| InfiniteToSipser.ClusterCarry | src/main.rs:423-452 | The shift's carry states act as a carry. On a blank or `$` they write the held bit and go to the end-marker state. They are stuck on anything else. |
| InfiniteToSipser.ClusterShiftFinish | src/main.rs:460-468 | `$` is written on the blank behind the region. Then the head returns left to `#` and steps right into `s`. |
| InfiniteToSipser.ClusterShiftSweep | src/main.rs:393-470 | From the shift start, a bit region ending in a blank or `$` becomes a blank followed by the region. The sweep ends in the end-marker state. |
| InfiniteToSipser.Retarget | src/main.rs:493-510 | Only the destination changes. A redirected record enters the check state for its direction and destination. Any other record is unchanged. |
| InfiniteToSipser.RetargetChanges | src/main.rs:497-510 | A record changes exactly when it leaves a non-terminal state, moves, and enters a non-terminal state. It then enters a reserved control label. |
| InfiniteToSipser.RewriteAndCollect | src/main.rs:490-512 | A single pass produces the rewritten records in input order and the set of all non-terminal destinations. |
| InfiniteToSipser.ConvertSimulationTransitions | src/main.rs:489-520 | For some order that visits each target once, the output is the rewritten records followed by one cluster per target in that order. |
| InfiniteToSipser.ConvertLayout | src/main.rs:489-520 | The output has one record per input record plus twenty per target. It begins with the rewritten input. |
| InfiniteToSipser.ConvertBlock | src/main.rs:514-517 | The cluster of the `j`-th target visited starts at offset `input length + 20 * j`. |
| InfiniteToSipser.ConvertOrderIrrelevant | src/main.rs:514-517 | Two different hash-set orders give the same multiset of records. |
| InfiniteToSipser.ConvertedOriginalStep | src/main.rs:493-512 | In a non-reserved state, the converted table fires what the input fires, retargeted. A redirected move enters a state whose cluster is in the table. |
| InfiniteToSipser.ConvertedClusterStep | src/main.rs:514-517 | In a control state of target `s`, the converted table fires exactly what the cluster of `s` fires, provided the input uses no reserved label. |
| SipserToInfinite.WallLabelInjective | src/main.rs:553 | Different targets get different wall-check labels. |
| SipserToInfinite.WallSetupTransitions | src/main.rs:522-539 | Two records: one leaves state `0`, the other leaves `q_write_wall`, which hands over to the renamed start. |
| SipserToInfinite.WallSetupDispatch | src/main.rs:522-539 | State `0` steps left over any symbol and leaves it unchanged. On a blank, `q_write_wall` writes `#` and returns right into the renamed start. It is stuck on anything else. |
| SipserToInfinite.WallRetarget | src/main.rs:545-560 | Only the destination changes. A left move into a non-terminal state is sent to that state's wall check, whatever state it leaves. Any other record is unchanged. |
| SipserToInfinite.WallRetargetChanges | src/main.rs:549-559 | A record changes exactly when it moves left into a non-terminal state. It then enters a reserved wall label. |
| SipserToInfinite.WallCheck | src/main.rs:563-572 | The wall check of `s` has two records, both in the wall state of `s`. |
| SipserToInfinite.WallCheckDispatch | src/main.rs:563-572 | On `#`, the check stays and enters `halt`, a terminal state. On any other symbol, it stays, leaves the cell as it is and resumes `s`. |
| SipserToInfinite.WallRewriteAndCollect | src/main.rs:542-561 | A single pass produces the rewritten records in input order and the set of non-terminal destinations of left moves. |
| SipserToInfinite.ConvertSipserToInfinite | src/main.rs:541-576 | For some order that visits each target once, the output is the rewritten records followed by one wall check per target. |
| SipserToInfinite.ConvertSipserLayout | src/main.rs:541-576 | The output has one record per input record plus two per target. It begins with the rewritten input. |
| SipserToInfinite.ConvertSipserBlock | src/main.rs:563-573 | The wall check of the `j`-th target visited starts at offset `input length + 2 * j`. |
| SipserToInfinite.ConvertSipserOrderIrrelevant | src/main.rs:563-573 | Two different hash-set orders give the same multiset of records. |
| SipserToInfinite.ConvertedSipserOriginalStep | src/main.rs:545-561 | In a non-reserved state, the converted table fires what the input fires, retargeted. A redirected move enters a state whose wall check is in the table. |
| SipserToInfinite.ConvertedWallStep | src/main.rs:563-573 | In the wall state of target `s`, the converted table fires exactly what the wall check of `s` fires, provided the input uses no reserved label. |
| Converter.ReadLines | src/main.rs:585-588 | See the breakdown after this table. |
| Converter.RecordsCons | src/main.rs:585-588 | The records of a list of lines, collected from the back, are the first line's record followed by the records of the rest. |
| Converter.ReadLinesAppend | src/main.rs:585-588 | Reading two runs of lines one after the other: an error in the first run wins, then an error in the second, and otherwise the records of the two runs are concatenated. |
| Converter.ReadLinesFirstError | src/main.rs:587-588 | The error reported is the error of the first line that is neither a record nor blank; every line before it is one. |
| Converter.ReadLinesAllOk | src/main.rs:585-588 | Lines that each parse to a record read as those records, in order. |
| Converter.ReadLinesSkipsBlank | src/main.rs:587 | Blank and comment lines in front of the table change nothing. |
| Converter.ParseInput | src/main.rs:579-588 | See the breakdown after this table. |
| Converter.HeaderLines | src/main.rs:593-606 | Two header lines, both starting with `;`. |
| Converter.HeaderIsComment | src/main.rs:593-606 | Each header line reads back as an empty line. |
| Converter.RunConverter | src/main.rs:578-623 | See the breakdown after this table. |
| Converter.RenamedIsFree | src/main.rs:597-607 | After renaming, no source state uses a reserved control or wall label or a setup label. The same holds for `sim_0`. So the assumptions of the conversion lemmas always hold. |
| Converter.GeneratedSetupStep | src/main.rs:598-600 | In a setup state, the Infinite-to-Sipser output fires exactly what the setup records fire. |
| Converter.GeneratedConvertedStep | src/main.rs:598-600 | In any other state, it fires exactly what the converted records fire. |
| Converter.GeneratedOriginalStep | src/main.rs:597-601 | See the breakdown after this table. |
| Converter.GeneratedClusterStep | src/main.rs:597-601 | In a control state of any target, the Infinite-to-Sipser output fires what that target's cluster fires. No assumption on the input labels is needed. |
| Converter.GeneratedWallSetupStep | src/main.rs:608-610 | In state `0` and in `q_write_wall`, the Sipser-to-Infinite output fires exactly what the wall setup fires. |
| Converter.GeneratedSipserConvertedStep | src/main.rs:608-610 | In any other state, it fires exactly what the converted records fire. |
| Converter.GeneratedSipserOriginalStep | src/main.rs:607-611 | The Sipser-to-Infinite counterpart of `GeneratedOriginalStep`. |
| Converter.GeneratedWallStep | src/main.rs:607-611 | In the wall state of any target, the Sipser-to-Infinite output halts on `#` and otherwise resumes the target on the same cell. |
| Converter.OutputReadsBack | src/main.rs:616-620 | See the breakdown after this table. |
| Converter.GeneratedFaithful | src/main.rs:593-614 | When every source record displays and never writes `*` over a named symbol, every generated record displays and reads back as itself. No condition on the source labels is needed, since renaming moves every label away from `*`. |
| Converter.ConverterOutputReadsBack | src/main.rs:578-623 | For a successfully parsed input in which no record writes `*` over a named symbol, the written file parses back to the generated table in compressed form, and expanding the wildcards restores the table exactly. |

`Transitions.ParseLine` (src/main.rs:176-200) states that:

- The result is `Empty` exactly when the line is blank before its comment.
- It is `InvalidPartCount` with the token count exactly when there are not
  five tokens.
- It is `InvalidDirection` with the fourth token exactly when that token is
  not a direction.
- It is never `InvalidSymbol`.
- A record it returns takes its two labels from the first and fifth
  tokens, its symbols from the first characters of the second and third,
  and its direction from the fourth; it is displayable.

`InfiniteToSipser.SetupFinish` (src/main.rs:339-366) states that:

- `$` goes on the blank behind the input.
- The head then returns to `#` and steps right into `sim_0`.
- On an empty tape, `$` goes on the cell after `#`, and the head steps back
  onto `#` in `sim_0`.

`Converter.ReadLines` (src/main.rs:585-588) states that:

- Blank lines are dropped.
- Reading succeeds exactly when every line is a record or blank.
- Every record read comes from some line.
- On success the records are exactly the values of the record lines, in
  the order of the lines: the independent filter-map `Records`.
- A failure is a `ParseError` that is not `Empty`.

`Converter.ParseInput` (src/main.rs:579-588) states that:

- With no lines, the result is `InvalidHeader("File is empty")`.
- With any first line other than `;I` or `;S`, it is `InvalidHeader` of
  that line.
- Otherwise it succeeds exactly when every later line is a record or
  blank.
- The type read is Infinite exactly when the header is `;I`.
- On success the table is what `ParseTable` reads from the later lines.
- With a good header and a table that fails, the error is the table's.

`Converter.RunConverter` (src/main.rs:578-623) states that:

- It fails exactly when parsing fails, and with the same error.
- On success it returns the type read and the header lines.
- These are followed by one displayed line per record of the setup, then
  the converted table, for some hash-set order.

`Converter.GeneratedOriginalStep` (src/main.rs:597-601) states that:

- In `sim_p`, for a non-terminal source state `p`, the Infinite-to-Sipser
  output fires the source record of `p`, renamed and retargeted.
- It fires nothing where the source fires nothing.
- A redirected move enters a target whose cluster is present.

`Converter.OutputReadsBack` (src/main.rs:616-620) states that:

- The written lines parse back to the table in compressed form.
- When every record is lossless, expanding the wildcards restores it
  exactly.

## Left out

- File I/O is not modelled: reading the input, creating and writing the output, and the `Io` error variant (src/main.rs:13, 38-42). The input file is modelled as its lines after `content.lines()`, and the output as the lines written.
- `main` (src/main.rs:625-660) is left out. It handles the command-line argument, checks the `.in` extension, derives the output path and prints messages. All of that is process and file-system interaction.
- The `Display` texts of `ConversionError` and `ParseTransitionError` (src/main.rs:18-26, 58-73) and the `std::error::Error` impls are left out. They are messages only.
- The external simulator that runs the generated tables is left out. `Dispatch.Lookup` is an assumed reading of it: exact symbol before wildcard, first record wins.
  - The behaviour lemmas are stated under this reading.
  - End-to-end simulation of a whole run is not proved. The model proves per-state dispatch, the sweeps of the setup and of the shift, and the renaming correspondence.
- The `HashSet` iteration order is modelled as a parameter constrained only to enumerate the target set, as explained above.
- `Transitions.ParseFields`: symbol fields longer than one character are accepted, and their first character is used. This follows the code (src/main.rs:185-192), which fails only on an empty field. A description of the format that demands single-character fields does not match it.
- `Transitions.ParseLine`: `InvalidSymbol` can never be produced, because splitting on whitespace never yields an empty field. The variant is kept and proved absent.
- `SipserToInfinite.WallSetupTransitions`: the Sipser-to-Infinite setup steps left from the origin over any symbol. Only on a blank there does it write `#` and return. This is modelled as written.
- `InfiniteToSipser.SetupFinish`: on an empty tape the setup leaves the head on `#` in `sim_0`, not on the first cell. This is modelled as written. Whether the simulated machine then behaves as on an empty tape depends on the external simulator, so it is not claimed as a defect.
- `Converter.ConverterOutputReadsBack` requires that no source record writes `*` over a named symbol. Expanding the line it is written as makes it write the symbol it reads instead of `*`, so expansion does not restore it. Labels need no condition: a source label `*` is renamed to `sim_*` before anything is written.
- The reserved-prefix side conditions (`NoReservedStates`, `NoWallReservedStates`) are assumptions of the per-pipeline lemmas. The `Converter` lemmas discharge them through renaming (`Converter.RenamedIsFree`). The converter itself never checks them.
