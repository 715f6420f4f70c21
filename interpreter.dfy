/** The interpreter object: it holds the rule table built from the rule text
    and runs the machine on an input tape. Both operations are imperative, as
    in the program: the parser inserts into the table line by line, and the
    run loop updates a local tape, head, state and step counter in place. Each
    is proved to compute the functions of the Rules and Semantics modules. */
module Interpreter {
  import opened Text
  import opened TapeBuffer
  import opened Rules
  import opened Semantics

  class TuringMachine {
    var transitions: Table

    /** A machine whose table is built from the rule text `logic`. */
    constructor (logic: string)
      ensures transitions == ParseTable(logic)
    {
      transitions := map[];
      new;
      ParseLogic(logic);
    }

    /** Adds the rules of `logic` to the table, line by line, in order; a later
        line with the same (state, symbol) key replaces an earlier rule. */
    method ParseLogic(logic: string)
      modifies this
      ensures transitions == AddLines(old(transitions), RuleLines(logic))
    {
      var lines := SplitLines(Strip(logic));
      AddLinesInOrder(lines);
    }

    /** Adds the rules of `lines` one line after the other. */
    method AddLinesInOrder(lines: seq<string>)
      modifies this
      ensures transitions == AddLines(old(transitions), lines)
    {
      var i := 0;
      while i < |lines|
        invariant 0 <= i <= |lines|
        invariant transitions == AddLines(old(transitions), lines[..i])
      {
        AddNextLine(old(transitions), lines, i);
        AddLine(lines[i]);
        i := i + 1;
      }
      assert lines[..|lines|] == lines;
    }

    /** Adds the rule of one line, if the line has one: the line is stripped;
        a blank line, a comment or a line of fewer than five tokens adds
        nothing; otherwise the first five tokens are the key and the rule. */
    method AddLine(rawLine: string)
      modifies this
      ensures transitions == AddEntry(old(transitions), Entry(rawLine))
    {
      var line := Strip(rawLine);
      if line != [] && !(";" <= line) {
        var parts := Tokens(line);
        if |parts| >= 5 {
          transitions := transitions[(parts[0], parts[1]) := Rule(parts[2], parts[3], parts[4])];
        }
      }
    }

    /** Runs the machine on `input` and returns the final tape, blanks trimmed
        from both ends, and the state the machine stopped in. */
    method Run(input: string) returns (output: string, state: string)
      ensures output == Output(transitions, input)
      ensures state == Execute(transitions, input).state
      ensures IsHalted(state)
    {
      var tape, head := LoadTape(input);
      state := InitialState;
      var stepCount: nat := 0;
      ghost var final := Execute(transitions, input);

      while !IsHalted(state)
        invariant stepCount <= StepLimit
        invariant Loop(transitions, Config(tape, head, state), stepCount) == final
        decreases StepLimit - stepCount
      {
        stepCount := stepCount + 1;
        if stepCount > StepLimit {
          state := LoopError;
          break;
        }

        var symbol := if 0 <= head < |tape| then tape[head] else Blank;
        ghost var before := Config(tape, head, state);
        LoopStep(transitions, before, stepCount - 1);

        var transition := Lookup(transitions, state, symbol);
        if transition.Some? {
          tape, head, state := ApplyRule(tape, head, state, transition.value);
        } else {
          state := NoTransition;
          break;
        }
        assert Config(tape, head, state) == Step(transitions, before);
      }
      assert Config(tape, head, state) == final;

      tape := DropLeadingBlanks(tape);
      tape := DropTrailingBlanks(tape);
      assert tape == Trim(final.tape, Blank);
      output := Concat(tape);
    }

    /** The starting tape and head: one cell per input character; the first
        '*' cell, if any, marks the head position and is removed. */
    static method LoadTape(input: string) returns (tape: seq<string>, head: int)
      ensures Config(tape, head, InitialState) == Start(input)
    {
      tape := Cells(input);
      head := 0;
      if Wildcard in tape {
        head := FirstIndex(tape, Wildcard);
        tape := tape[..head] + tape[head + 1..];
      }
    }

    /** One applied rule, as the run loop performs it in place: write unless
        the symbol is the wildcard (a head off the tape grows it), move, change
        state unless the next state is the wildcard, then keep the head on the
        tape by adding a blank cell at the end it has left. */
    static method ApplyRule(tape: seq<string>, head: int, state: string, rule: Rule)
      returns (tape': seq<string>, head': int, state': string)
      ensures Config(tape', head', state') == Apply(Config(tape, head, state), rule)
    {
      tape', head' := tape, head;
      var Rule(newSymbol, direction, newState) := rule;
      ghost var written := if newSymbol == Wildcard then (tape, head) else WriteCell(tape, head, newSymbol);
      if newSymbol != Wildcard {
        if 0 <= head' < |tape'| {
          tape' := tape'[head' := newSymbol];
        } else if head' < 0 {
          tape' := [newSymbol] + tape';
          head' := 0;
        } else {
          tape' := tape' + [newSymbol];
        }
      }
      assert (tape', head') == written;
      if direction == "l" {
        head' := head' - 1;
      } else if direction == "r" {
        head' := head' + 1;
      }
      state' := if newState != Wildcard then newState else state;
      if head' < 0 {
        tape' := [Blank] + tape';
        head' := 0;
      } else if head' >= |tape'| {
        tape' := tape' + [Blank];
      }
    }

    /** Removes the blank cells at the front. */
    static method DropLeadingBlanks(tape: seq<string>) returns (trimmed: seq<string>)
      ensures trimmed == TrimFront(tape, Blank)
    {
      trimmed := tape;
      while |trimmed| > 0 && trimmed[0] == Blank
        invariant TrimFront(trimmed, Blank) == TrimFront(tape, Blank)
      {
        TrimFrontDropsBlank(trimmed, Blank);
        trimmed := trimmed[1..];
      }
    }

    /** Removes the blank cells at the back. */
    static method DropTrailingBlanks(tape: seq<string>) returns (trimmed: seq<string>)
      ensures trimmed == TrimBack(tape, Blank)
    {
      trimmed := tape;
      while |trimmed| > 0 && trimmed[|trimmed| - 1] == Blank
        invariant TrimBack(trimmed, Blank) == TrimBack(tape, Blank)
      {
        TrimBackDropsBlank(trimmed, Blank);
        trimmed := trimmed[..|trimmed| - 1];
      }
    }
  }
}
