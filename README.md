# Turing machine interpreter — a Dafny model

This project models the Turing-machine interpreter of the repository (class
`TuringMachine` in `MultiplicadoraBinario.py`) and the stand-alone growable
tape of its prototype (class `Tape` in `Teste.py`), and proves what they do.

- **Rule text to rule table.** The interpreter reads a rule text. It strips
  the text, splits it at newlines and strips each line. Blank lines, lines
  starting with `;` and lines with fewer than five whitespace-separated
  tokens are skipped. Every other line maps the key `(state, symbol)` to the
  rule `(write, move, next)`, and a later line with the same key replaces an
  earlier one. `Rules.Entry` is what one line contributes.
  `Rules.AddLines` folds the lines into a table. The imperative
  `TuringMachine.ParseLogic` inserts into its `transitions` field line by
  line and is proved to compute that fold.
- **Running the machine.** The run starts in state `0`. The head is placed
  at the first `*` of the input, which is removed, or at 0. Each iteration
  does the following:
  - it checks the 1000-step limit;
  - it reads the cell under the head (`_` off the tape);
  - it looks the rule up under the exact key first, then under the wildcard
    key `(state, *)`;
  - it halts with `halt-error-no-transition` when there is no rule;
  - otherwise it writes (a `*` write leaves the cell), moves (`l`, `r`,
    anything else stays), changes state (a `*` next state keeps it), and
    adds a blank cell at the end the head has left.

  At the end, blank cells are trimmed from both ends and the cells are
  joined. `Semantics` gives this as functions: `Start`, `Step`, `Apply`,
  `Loop` and `Output`. The imperative `TuringMachine.Run`, with its local
  tape, head, state and step counter updated in place, is proved to return
  exactly `Output`.
- **The prototype tape.** `TapeBuffer.Tape` is a class with the fields
  `cells` and `head`. `Read`, `Write` and `Move` behave as in the
  prototype, and `Render` is its string form. The interpreter and the tape
  class use the same read and write rules, `ReadCell` and `WriteCell`.

Modules: `Text` (the host string operations used), `TapeBuffer`, `Rules`,
`Semantics`, `Interpreter`.

Three behaviours of the program differ from what one might expect of it,
and the model follows the program:

- **Expected: the head is on the tape after every applied step.** It is
  not. Take a head that starts just past the end (input `1*`). A rule that
  writes `*` and moves `r` takes the head two cells past the old end, and
  boundary maintenance appends only one blank. So the head ends up exactly
  one past the end, and it can stay there (`HeadStaysPastEnd`).
  - What holds is `0 <= head <= |tape|` (`StepKeepsHeadNearTape`,
    `IterateKeepsHeadNearTape`). Once the head is on the tape it stays
    there (`AppliedStepHead`).
  - The head is never negative during a run, so the branch of the write that
    inserts in front is never taken (`NoFrontInsertDuringRun`).
- **Expected: a step grows the tape by at most one cell.** From a head just
  past the end, a write that appends followed by a move right adds two
  cells (`StepGrowsByTwo`). `StepGrowth` proves two is the most.
- **Expected: boundary maintenance runs before the no-transition halt.** It
  does not. The iteration that finds no rule breaks out of the loop first,
  so the tape and head are left exactly as they were (`NoRuleHalts`).

A related limit concerns the trimmed output. The returned string has no `_`
at either end only when every rule writes a single character
(`OutputTrimmed`). Cells hold whole rule tokens, so a rule writing `a_`
returns `a_`, because trimming removes whole `_` cells only
(`MultiCharWriteKeepsUnderscore`).

## Model

| member | source | states |
|---|---|---|
| Text.FirstIndex | MultiplicadoraBinario.py:40-42 | the index found holds the marker and no earlier position does (first occurrence) |
| Text.Strip | MultiplicadoraBinario.py:11-12 | the stripped text is empty exactly when the text is all whitespace, and otherwise starts and ends with a non-whitespace character; `StripParts` shows it is what lies between the leading and trailing whitespace |
| Text.StripParts | MultiplicadoraBinario.py:11-12 | a text with a non-whitespace character is leading whitespace, then its stripped text, then trailing whitespace |
| Text.SplitLines | MultiplicadoraBinario.py:11 | splitting at newlines gives at least one piece and no piece contains a newline |
| Text.JoinSplitLines | MultiplicadoraBinario.py:11 | joining the pieces with newlines gives the original text back |
| Text.Split | MultiplicadoraBinario.py:16 | the tokenizer with a word in progress; `SplitWord` (a whitespace-free run comes out whole), `SplitAppend` and `SplitWords` state what it returns |
| Text.SplitWord | MultiplicadoraBinario.py:16 | a whitespace-free run is emitted as one token, joined to the word in progress, and nothing is emitted when both are empty |
| Text.SplitWords | MultiplicadoraBinario.py:16 | after a whitespace-free word in progress, every token produced is non-empty and whitespace-free |
| Text.SplitAppend | MultiplicadoraBinario.py:16 | splitting text followed by whitespace-led text gives the first part's tokens then the second's |
| Text.Tokens | MultiplicadoraBinario.py:16 | `split()` with no argument; `SplitWord` (a whitespace-free run is one whole token), `TokensAppend` (tokens add up over whitespace boundaries) and `TokensSkipSpaces` (whitespace adds no token) fix it on every input; `TokensAreWords` and `StripTokens` follow |
| Text.TokensAreWords | MultiplicadoraBinario.py:16 | every token is a non-empty run of non-whitespace characters |
| Text.TokensAppend | MultiplicadoraBinario.py:16 | text that begins with whitespace contributes its tokens after those of what precedes it |
| Text.TokensSkipSpaces | MultiplicadoraBinario.py:16 | leading whitespace contributes no token |
| Text.StripTokens | MultiplicadoraBinario.py:12-16 | stripping does not change the tokens; the stripped line is empty exactly when there are no tokens; otherwise it starts with the first character of the first token |
| Text.Trim | MultiplicadoraBinario.py:136-139 | the result is a slice `s[i..j]` of the input with only blanks before `i` and after `j`, and neither of its ends is the blank: exactly the leading and trailing blanks are removed and the middle is kept in order |
| Text.SliceBetweenBlanks | MultiplicadoraBinario.py:136-139 | removing the leading blanks and then the trailing ones keeps a slice of the input with only blanks before and after it |
| Text.TrimKeeps | MultiplicadoraBinario.py:136-139 | every element of the trimmed sequence is an element of the input, so a property of all cells holds after trimming |
| Text.TrimFront | MultiplicadoraBinario.py:136-137 | a suffix of the input, everything before it blank, not starting with the blank |
| Text.TrimBack | MultiplicadoraBinario.py:138-139 | a prefix of the input, everything after it blank, not ending with the blank |
| Text.TrimIdempotent | MultiplicadoraBinario.py:136-139 | trimming twice is trimming once |
| Text.TrimUnchanged | MultiplicadoraBinario.py:136-139 | a sequence whose ends are not blank is left as it is |
| Text.Concat | MultiplicadoraBinario.py:149 | `''.join`: by `ConcatOne` and `ConcatAppend` the cells' text in order; its own contract bounds the length from below when no cell is empty |
| Text.ConcatAppend | MultiplicadoraBinario.py:149 | joining two runs of cells is joining each and concatenating, in order |
| Text.ConcatOne | MultiplicadoraBinario.py:149 | joining one cell gives its text |
| Text.ConcatSingles | MultiplicadoraBinario.py:149 | joining one-character cells gives a string of the same length whose characters are the cells |
| TapeBuffer.ReadCell | MultiplicadoraBinario.py:60 | on the tape the cell under the head, off the tape the blank |
| TapeBuffer.WriteCell | Teste.py:11-18 | the symbol lands under an in-range head, in front for a negative head, at the end for a head at or past the end; the new head is 0 for a negative head and unchanged otherwise (also the write of MultiplicadoraBinario.py:77-84) |
| TapeBuffer.Spaces | Teste.py:27 | `n` spaces for positive `n`, none otherwise |
| TapeBuffer.WriteGrowth | Teste.py:11-18 | a write grows the tape by exactly one cell when the head is off the tape, by none otherwise |
| TapeBuffer.ReadAfterWrite | Teste.py:11-18 | reading after a write, from a head at most one past the end, gives the symbol written |
| TapeBuffer.WriteFarRight | Teste.py:15-16 | a write two or more cells past the end still appends at the end; the head keeps its position and still reads blank |
| TapeBuffer.WriteFrame | Teste.py:11-18 | every other cell keeps its value, shifted by one after a front insertion |
| TapeBuffer.Tape.constructor | Teste.py:2-4 | the cells are the initial sequence and the head is 0 |
| TapeBuffer.Tape.Read | Teste.py:6-9 | blank when the head is negative or past the end, otherwise the cell under the head |
| TapeBuffer.Tape.Write | Teste.py:11-18 | negative head: symbol inserted in front and head 0; head at or past the end: symbol appended, head kept; in range: only that cell replaced |
| TapeBuffer.Tape.Move | Teste.py:20-24 | `R` adds one to the head, `L` subtracts one, anything else leaves it; the cells are not in the frame |
| TapeBuffer.Tape.Render | Teste.py:26-27 | the joined cells, a newline, max(head, 0) spaces and a caret, in that layout |
| Rules.EntryOfTokens | MultiplicadoraBinario.py:16-24 | an entry exactly when there are at least five tokens and the first does not start with `;`; then the first two tokens are the key and the next three the rule |
| Rules.Entry | MultiplicadoraBinario.py:12-24 | a line's entry is decided by its tokens alone: none for a comment or fewer than five tokens, else the first five tokens as key and rule |
| Rules.RuleLines | MultiplicadoraBinario.py:11 | the lines joined with newlines are the stripped text, and there is at least one |
| Rules.Lookup | MultiplicadoraBinario.py:65-72 | the exact key's rule when present; otherwise the wildcard key's rule when present; nothing exactly when neither key is in the table |
| Rules.AddEntry | MultiplicadoraBinario.py:27 | the entry's key maps to its rule; every other key keeps its presence and rule; no other key appears |
| Rules.AddLines | MultiplicadoraBinario.py:11-27 | the table after inserting the lines' entries in order; `AddNextLine`, `LastLineWins`, `UndefinedKeyKept` and `EntriesComeFromLines` state what it holds |
| Rules.ParseTable | MultiplicadoraBinario.py:6-27 | `AddLines` from an empty table over the lines of the stripped text; by `EntriesComeFromLines` every key comes from a line, by `LastLineWins` the last defining line decides it |
| Rules.AddNextLine | MultiplicadoraBinario.py:11-27 | one more line inserts that line's entry, if any, into the table built so far |
| Rules.LastEntryWins | MultiplicadoraBinario.py:27 | after a sequence of insertions a key holds the rule of the last entry for it |
| Rules.UnsetKeyKept | MultiplicadoraBinario.py:27 | a key no entry sets keeps its old presence and rule |
| Rules.SetKeyHasEntry | MultiplicadoraBinario.py:27 | a key that insertions added is set by one of the entries |
| Rules.LastLineWins | MultiplicadoraBinario.py:11-27 | the last line defining a key decides its rule in the table |
| Rules.UndefinedKeyKept | MultiplicadoraBinario.py:11-27 | a key no line defines is in the table exactly when it was before, with the same rule |
| Rules.EntriesComeFromLines | MultiplicadoraBinario.py:11-27 | every key the parser added is defined by some line of the text |
| Rules.TrailingTextIgnored | MultiplicadoraBinario.py:16-24 | text after the tokens of a rule line, such as a trailing `; comment`, does not change its entry |
| Rules.SkippedLines | MultiplicadoraBinario.py:12-18 | a line adds nothing exactly when it is blank, starts with `;` after stripping, or has fewer than five tokens |
| Semantics.IsHalted | MultiplicadoraBinario.py:51 | a state is terminal exactly when its name starts with "halt" |
| Semantics.Cells | MultiplicadoraBinario.py:34 | one single-character cell per input character, in order |
| Semantics.Start | MultiplicadoraBinario.py:34-42 | state `0`; without `*` the input cells and head 0; with `*` the head at its first occurrence and only that `*` removed |
| Semantics.ConcatCells | MultiplicadoraBinario.py:34 | joining the input's cells gives the input back |
| Semantics.Shift | MultiplicadoraBinario.py:87-92 | `l` subtracts one from the head, `r` adds one, any other direction leaves it |
| Semantics.Advance | MultiplicadoraBinario.py:95 | the rule's next state, or the current state when the next state is `*` |
| Semantics.Settle | MultiplicadoraBinario.py:128-133 | a head left of the tape gets a blank inserted in front and becomes 0; a head at or past the end gets a blank appended and stays where it is; a head on the tape changes nothing |
| Semantics.Apply | MultiplicadoraBinario.py:74-133 | the tape grows by at most two cells and never shrinks; `0 <= head <= |tape|` is kept; the state follows the rule; `AppliedStepFromTape` and `AppliedStepPastEnd` give the whole new tape and head for every head a run reaches |
| Semantics.Step | MultiplicadoraBinario.py:59-126 | the tape never shrinks; without a matching rule the state becomes the no-transition error with tape and head unchanged |
| Semantics.Iterate | MultiplicadoraBinario.py:51-57 | the tape never shrinks over any number of steps, and a halted configuration stays as it is |
| Semantics.Finish | MultiplicadoraBinario.py:51-57 | a halting state with tape and head unchanged; a halted configuration is left as it is |
| Semantics.Execute | MultiplicadoraBinario.py:51-57 | the run ends in a halting state with `0 <= head <= |tape|` and no fewer cells than it started with |
| Semantics.Output | MultiplicadoraBinario.py:135-149 | the joined trimmed final tape; `OutputTrimmed` and `MultiCharWriteKeepsUnderscore` state when it has no `_` at its ends |
| Semantics.Loop | MultiplicadoraBinario.py:51-57 | the loop always ends, in a state starting with `halt` |
| Semantics.LoopStep | MultiplicadoraBinario.py:51-57 | below the limit, a running iteration is one step followed by the rest of the loop |
| Semantics.LoopIsBoundedIteration | MultiplicadoraBinario.py:51-57 | the loop is at most the remaining number of steps, then the forced infinite-loop error |
| Semantics.RunIsBounded | MultiplicadoraBinario.py:51-57 | a run applies at most 1000 steps; it ends in the state those steps reach if that state halts, else in `halt-error-potential-infinite-loop` |
| Semantics.StuckIterate | MultiplicadoraBinario.py:51-57 | a configuration a step leaves unchanged stays put |
| Semantics.ExactRuleWins | MultiplicadoraBinario.py:65-68 | with an exact rule present, that rule is applied even if a wildcard rule exists |
| Semantics.WildcardRuleFallback | MultiplicadoraBinario.py:69-72 | without an exact rule, the wildcard rule is applied if present, else the state becomes the no-transition error |
| Semantics.NoRuleHalts | MultiplicadoraBinario.py:116-126 | without a matching rule the run ends at once in `halt-error-no-transition` with tape and head unchanged |
| Semantics.StepKeepsHeadNearTape | MultiplicadoraBinario.py:128-133 | a step keeps the head on the tape or just past its end |
| Semantics.AppliedStepHead | MultiplicadoraBinario.py:74-133 | after an applied rule the head is on the tape, except after a wildcard write and a move right from just past the end |
| Semantics.AppliedStepFromTape | MultiplicadoraBinario.py:74-133 | from a head on the tape: only the cell under the head changes; a blank goes in front only after leaving cell 0 to the left, at the end only after leaving the last cell to the right; the head moves by the direction; the state follows the rule |
| Semantics.AppliedStepPastEnd | MultiplicadoraBinario.py:74-133 | from a head just past the end: a written symbol is appended (the wildcard appends nothing); a move left from an empty tape puts a blank in front and leaves the head at 0; a blank is appended after a move right, or after any move but left when nothing was written; otherwise the head moves by the direction; the state follows the rule |
| Semantics.StepGrowth | MultiplicadoraBinario.py:77-133 | a step never shrinks the tape and grows it by at most one from a head on the tape, at most two from just past the end |
| Semantics.StepGrowsByTwo | MultiplicadoraBinario.py:77-133 | an appending write and a move right from just past the end add two cells in one step |
| Semantics.HeadStaysPastEnd | MultiplicadoraBinario.py:77-133 | on input `1*`, a wildcard write and a move right leave the head one past the end of the grown tape |
| Semantics.WildcardWriteKeepsCells | MultiplicadoraBinario.py:77-84 | a `*` write changes no cell; only a boundary blank may be added |
| Semantics.IterateKeepsHeadNearTape | MultiplicadoraBinario.py:51-133 | every configuration of a run has `0 <= head <= |tape|` |
| Semantics.NoFrontInsertDuringRun | MultiplicadoraBinario.py:78-84 | during a run a write overwrites the cell under the head or appends; it never inserts in front |
| Semantics.ApplyKeepsSingleChars | MultiplicadoraBinario.py:77-133 | a one-character write keeps every cell one character long |
| Semantics.StepKeepsSingleChars | MultiplicadoraBinario.py:60-133 | with one-character writes, a step keeps every cell one character long |
| Semantics.IterateKeepsSingleChars | MultiplicadoraBinario.py:51-133 | with one-character writes, so do any number of steps |
| Semantics.ExecuteSingleChars | MultiplicadoraBinario.py:51-133 | with one-character writes, the final tape has one-character cells |
| Semantics.TrimKeepsSingleChars | MultiplicadoraBinario.py:136-139 | trimming keeps one-character cells |
| Semantics.ConcatEnds | MultiplicadoraBinario.py:149 | one-character cells without blank ends join into a string without `_` at either end |
| Semantics.OutputTrimmed | MultiplicadoraBinario.py:136-149 | with one-character writes, the returned string has no `_` at either end and trimming it again changes nothing |
| Semantics.JoinTrimmedCells | MultiplicadoraBinario.py:136-149 | any tape of one-character cells, trimmed and joined, has no `_` at either end and is unchanged by trimming `_` again |
| Semantics.MultiCharWriteKeepsUnderscore | MultiplicadoraBinario.py:135-149 | a rule writing `a_` on the empty input returns `a_`: the trailing `_` inside a cell survives trimming |
| Semantics.EmptyTableHaltsAtOnce | MultiplicadoraBinario.py:116-126 | with no rules, the run stops at the first iteration with the start tape |
| Semantics.SelfLoopHitsStepLimit | MultiplicadoraBinario.py:51-57 | a rule keeping symbol, position and state forever is cut off by the step limit with `halt-error-potential-infinite-loop` |
| Interpreter.TuringMachine.constructor | MultiplicadoraBinario.py:2-4 | the table is the one parsed from the rule text, starting empty |
| Interpreter.TuringMachine.ParseLogic | MultiplicadoraBinario.py:6-27 | the table becomes the old table with the entries of the stripped text's lines inserted in order |
| Interpreter.TuringMachine.AddLinesInOrder | MultiplicadoraBinario.py:11-27 | the per-line loop inserts the entries of all lines, in order |
| Interpreter.TuringMachine.AddLine | MultiplicadoraBinario.py:12-27 | one line inserts exactly its entry, or nothing |
| Interpreter.TuringMachine.LoadTape | MultiplicadoraBinario.py:34-42 | the tape and head computed are those of the start configuration |
| Interpreter.TuringMachine.ApplyRule | MultiplicadoraBinario.py:75-133 | the in-place write, move, state change and boundary maintenance compute `Apply` |
| Interpreter.TuringMachine.DropLeadingBlanks | MultiplicadoraBinario.py:136-137 | the loop removes exactly the leading blank cells |
| Interpreter.TuringMachine.DropTrailingBlanks | MultiplicadoraBinario.py:138-139 | the loop removes exactly the trailing blank cells |
| Interpreter.TuringMachine.Run | MultiplicadoraBinario.py:29-149 | the string returned is `Output` of the table and input, and the final state is that of `Execute`, a halting state |

## Left out

- The `show_steps` printing and the rule display strings
  (MultiplicadoraBinario.py:44-49, 68, 72, 97-114, 118-125, 141-147). They
  are console output with no effect on the result. `Run` therefore takes no
  `show_steps` flag.
- Interpreter.TuringMachine.Run: it also returns the final state, which the
  program does not. This is an addition that lets the halting class be
  stated; the returned string is unchanged.
- The concrete multiplication rule text (MultiplicadoraBinario.py:151-270)
  and the module-level driver (MultiplicadoraBinario.py:272-291). Whether
  that one rule program multiplies is not a property of the interpreter.
  The driver's `int(..., 2)` and `bin()` conversions are not part of this
  model.
- `binary_multiplier_turing_machine` and its example call (Teste.py:29-165).
  It is a printing prototype that parses tape cells with `int()`; it is not
  part of this model.
- Text.IsSpace: only the six ASCII whitespace characters separate tokens
  and are stripped. The host's `strip()` and `split()` also treat other
  Unicode whitespace that way.
- Semantics.OutputTrimmed: the "no `_` at either end of the output" promise
  is proved only for rule tables whose writes are single characters. With
  longer write tokens it does not hold, as explained above.
- Semantics.AppliedStepHead: it does not state that the head is always on
  the tape after a step, because that is false when the head starts just
  past the end (`HeadStaysPastEnd`); the weaker `0 <= head <= |tape|` is
  what is proved.
- Interpreter.TuringMachine.Run: the input is a string, one cell per
  character. The program copies any sequence with `list(input_tape)`, so a
  caller could pass items longer than one character; the program's own
  caller (MultiplicadoraBinario.py:279-280) passes a list of single
  characters, which behaves the same.
- Interpreter.TuringMachine.Run: the `tape` list is a local `seq` that is
  reassigned at each change (`insert`, `append`, `pop`). There is no
  aliasing to model.
