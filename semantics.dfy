/** The meaning of a run of the interpreter, as functions: the start-up
    configuration, one iteration of the run loop, the loop with its step limit,
    and the trimmed result. The imperative run loop is proved equal to these. */
module Semantics {
  import opened Text
  import opened TapeBuffer
  import opened Rules

  const InitialState: string := "0"
  /** Iterations allowed before the run is declared a potential infinite loop. */
  const StepLimit: nat := 1000
  const NoTransition: string := "halt-error-no-transition"
  const LoopError: string := "halt-error-potential-infinite-loop"

  /** A state is terminal when its name starts with "halt". */
  predicate IsHalted(state: string) {
    "halt" <= state
  }

  /** What the run loop works on: the cells, the head index and the state. */
  datatype Config = Config(tape: seq<string>, head: int, state: string)

  /** The head is on the tape or just past its right end. */
  predicate HeadNearTape(c: Config) {
    0 <= c.head <= |c.tape|
  }

  /** The head addresses a cell of the tape. */
  predicate HeadOnTape(c: Config) {
    0 <= c.head < |c.tape|
  }

  /** One cell per character of the input. */
  function Cells(input: string): (cells: seq<string>)
    ensures |cells| == |input|
    ensures forall i :: 0 <= i < |input| ==> cells[i] == [input[i]]
  {
    seq(|input|, i requires 0 <= i < |input| => [input[i]])
  }

  /** The configuration the run starts in: the head at the first '*' of the
      input, which is removed from the tape, or at 0 when there is none; the
      state "0". */
  function Start(input: string): (c: Config)
    ensures c.state == InitialState
    ensures '*' !in input ==> c.tape == Cells(input) && c.head == 0
    ensures '*' in input ==>
              && 0 <= c.head < |input| && input[c.head] == '*' && '*' !in input[..c.head]
              && c.tape == Cells(input[..c.head] + input[c.head + 1..])
    ensures HeadNearTape(c)
  {
    var cells := Cells(input);
    if Wildcard in cells then
      var h := FirstIndex(cells, Wildcard);
      assert '*' !in input[..h] by {
        forall j | 0 <= j < h ensures input[j] != '*' {
          assert cells[..h][j] == cells[j];
        }
      }
      assert Cells(input[..h] + input[h + 1..]) == cells[..h] + cells[h + 1..];
      Config(cells[..h] + cells[h + 1..], h, InitialState)
    else
      assert '*' !in input by {
        forall j | 0 <= j < |input| ensures input[j] != '*' {
          assert cells[j] != Wildcard;
        }
      }
      Config(cells, 0, InitialState)
  }

  /** The head after a move: "l" one cell left, "r" one cell right, any other
      direction token leaves it. */
  function Shift(head: int, direction: string): (h: int)
    ensures direction == "l" ==> h == head - 1
    ensures direction == "r" ==> h == head + 1
    ensures direction != "l" && direction != "r" ==> h == head
  {
    if direction == "l" then head - 1 else if direction == "r" then head + 1 else head
  }

  /** The state after a rule: a wildcard next state keeps the current one. */
  function Advance(state: string, next: string): (s: string)
    ensures next != Wildcard ==> s == next
    ensures next == Wildcard ==> s == state
  {
    if next == Wildcard then state else next
  }

  /** Boundary maintenance after a move: a head left of the tape gets a blank
      cell inserted in front and moves to 0; a head at or past the end gets one
      blank appended. */
  function Settle(tape: seq<string>, head: int): (r: (seq<string>, int))
    ensures r.0 == tape || r.0 == [Blank] + tape || r.0 == tape + [Blank]
    ensures head <= |tape| ==> 0 <= r.1 < |r.0|
    ensures r.1 >= 0
    ensures head < 0 ==> r == ([Blank] + tape, 0)
    ensures 0 <= head < |tape| ==> r == (tape, head)
    ensures head >= |tape| ==> r == (tape + [Blank], head)
  {
    if head < 0 then ([Blank] + tape, 0)
    else if head >= |tape| then (tape + [Blank], head)
    else (tape, head)
  }

  /** Applying a rule: write (a wildcard write leaves the cell), move, change
      state, then boundary maintenance. */
  function Apply(c: Config, rule: Rule): (d: Config)
    ensures |c.tape| <= |d.tape| <= |c.tape| + 2
    ensures HeadNearTape(c) ==> HeadNearTape(d)
    ensures d.state == Advance(c.state, rule.next)
  {
    var (written, h) := if rule.write == Wildcard then (c.tape, c.head) else WriteCell(c.tape, c.head, rule.write);
    var (settled, h') := Settle(written, Shift(h, rule.move));
    Config(settled, h', Advance(c.state, rule.next))
  }

  /** One iteration of the run loop after the step-limit test: read, look up,
      and either halt with the no-transition error, leaving the tape and head
      alone, or apply the rule. */
  function Step(table: Table, c: Config): (d: Config)
    ensures |c.tape| <= |d.tape|
    ensures d.state == NoTransition || Lookup(table, c.state, ReadCell(c.tape, c.head)).Some?
    ensures Lookup(table, c.state, ReadCell(c.tape, c.head)).None? ==> d.tape == c.tape && d.head == c.head
  {
    match Lookup(table, c.state, ReadCell(c.tape, c.head))
    case None => c.(state := NoTransition)
    case Some(rule) => Apply(c, rule)
  }

  /** The run loop from configuration `c` when `count` iterations have already
      started: stop in a halting state; the iteration after the limit forces
      the infinite-loop error; otherwise step and go on. */
  function Loop(table: Table, c: Config, count: nat): (r: Config)
    requires count <= StepLimit
    ensures IsHalted(r.state)
    decreases StepLimit - count
  {
    if IsHalted(c.state) then c
    else if count + 1 > StepLimit then c.(state := LoopError)
    else Loop(table, Step(table, c), count + 1)
  }

  /** At most `n` iterations, stopping early in a halting state. */
  function Iterate(table: Table, c: Config, n: nat): (d: Config)
    ensures |c.tape| <= |d.tape|
    ensures IsHalted(c.state) ==> d == c
    decreases n
  {
    if n == 0 || IsHalted(c.state) then c else Iterate(table, Step(table, c), n - 1)
  }

  /** What the loop makes of the configuration reached when the iterations run out. */
  function Finish(c: Config): (d: Config)
    ensures IsHalted(d.state) && d.tape == c.tape && d.head == c.head
    ensures IsHalted(c.state) ==> d == c
  {
    if IsHalted(c.state) then c else c.(state := LoopError)
  }

  /** The final configuration of a run on `input`. */
  function Execute(table: Table, input: string): (c: Config)
    ensures IsHalted(c.state)
    ensures HeadNearTape(c)
    ensures |Start(input).tape| <= |c.tape|
  {
    LoopIsBoundedIteration(table, Start(input), 0);
    IterateKeepsHeadNearTape(table, Start(input), StepLimit);
    Loop(table, Start(input), 0)
  }

  /** The string a run returns: the final cells, blanks trimmed from both ends, joined. */
  function Output(table: Table, input: string): string {
    Concat(Trim(Execute(table, input).tape, Blank))
  }

  // ---------------------------------------------------------------------------
  // Lemmas: the loop
  // ---------------------------------------------------------------------------

  /** The loop is at most the remaining number of iterations of Step, then the
      forced infinite-loop error if no halting state was reached. */
  lemma {:induction false} LoopIsBoundedIteration(table: Table, c: Config, count: nat)
    requires count <= StepLimit
    ensures Loop(table, c, count) == Finish(Iterate(table, c, StepLimit - count))
    decreases StepLimit - count
  {
    if !IsHalted(c.state) && count < StepLimit {
      LoopIsBoundedIteration(table, Step(table, c), count + 1);
    }
  }

  /** An iteration below the limit from a running state is one step followed
      by the rest of the loop. */
  lemma LoopStep(table: Table, c: Config, count: nat)
    requires count < StepLimit && !IsHalted(c.state)
    ensures Loop(table, c, count) == Loop(table, Step(table, c), count + 1)
  {
  }

  /** Every run ends, in a halting state, after at most StepLimit iterations;
      the infinite-loop error is reported exactly when those iterations did not
      reach a halting state. */
  lemma RunIsBounded(table: Table, input: string)
    ensures var last := Iterate(table, Start(input), StepLimit);
            && Execute(table, input) == Finish(last)
            && IsHalted(Execute(table, input).state)
            && (IsHalted(last.state) ==> Execute(table, input) == last)
            && (!IsHalted(last.state) ==> Execute(table, input) == last.(state := LoopError))
  {
    LoopIsBoundedIteration(table, Start(input), 0);
  }

  /** A configuration that a step leaves unchanged stays put however many
      iterations run. */
  lemma {:induction false} StuckIterate(table: Table, c: Config, n: nat)
    requires Step(table, c) == c
    ensures Iterate(table, c, n) == c
  {
    if n > 0 && !IsHalted(c.state) {
      StuckIterate(table, c, n - 1);
    }
  }

  // ---------------------------------------------------------------------------
  // Lemmas: one step
  // ---------------------------------------------------------------------------

  /** The exact (state, symbol) rule is applied even when a wildcard rule for
      the state exists. */
  lemma ExactRuleWins(table: Table, c: Config)
    requires (c.state, ReadCell(c.tape, c.head)) in table
    ensures Step(table, c) == Apply(c, table[(c.state, ReadCell(c.tape, c.head))])
  {
  }

  /** The wildcard rule of the state is applied only when no exact rule exists. */
  lemma WildcardRuleFallback(table: Table, c: Config)
    requires (c.state, ReadCell(c.tape, c.head)) !in table
    ensures (c.state, Wildcard) in table ==> Step(table, c) == Apply(c, table[(c.state, Wildcard)])
    ensures (c.state, Wildcard) !in table ==> Step(table, c) == c.(state := NoTransition)
  {
  }

  /** Without a matching rule the loop stops at once with the no-transition
      error, and neither the tape nor the head changes. */
  lemma NoRuleHalts(table: Table, c: Config, count: nat)
    requires count < StepLimit && !IsHalted(c.state)
    requires Lookup(table, c.state, ReadCell(c.tape, c.head)).None?
    ensures Loop(table, c, count) == Config(c.tape, c.head, NoTransition)
  {
    assert Loop(table, c, count) == Loop(table, c.(state := NoTransition), count + 1);
  }

  /** One step keeps the head on the tape or just past its end. */
  lemma StepKeepsHeadNearTape(table: Table, c: Config)
    requires HeadNearTape(c)
    ensures HeadNearTape(Step(table, c))
  {
  }

  /** After an applied rule the head addresses a cell, except when the head was
      just past the end, the rule wrote the wildcard and moved right: then it
      is again just past the (grown) end. */
  lemma AppliedStepHead(c: Config, rule: Rule)
    requires HeadNearTape(c)
    ensures var d := Apply(c, rule);
            if c.head == |c.tape| && rule.write == Wildcard && rule.move == "r"
            then d.head == |d.tape|
            else HeadOnTape(d)
  {
  }

  /** From a head on the tape, one step changes the cell under the head (to
      itself when the rule writes the wildcard) and adds a blank in front only
      when the head left the first cell to the left, at the end only when it
      left the last cell to the right; the head moves by the rule's direction,
      staying at 0 after a front insertion. */
  lemma AppliedStepFromTape(c: Config, rule: Rule)
    requires HeadOnTape(c)
    ensures var d := Apply(c, rule);
            var w := if rule.write == Wildcard then c.tape[c.head] else rule.write;
            var t := c.tape[c.head := w];
            && d.tape == (if c.head == 0 && rule.move == "l" then [Blank] else [])
                         + t
                         + (if c.head == |c.tape| - 1 && rule.move == "r" then [Blank] else [])
            && d.head == (if c.head == 0 && rule.move == "l" then 0 else Shift(c.head, rule.move))
            && d.state == Advance(c.state, rule.next)
            && HeadOnTape(d)
  {
    var w := if rule.write == Wildcard then c.tape[c.head] else rule.write;
    assert rule.write == Wildcard ==> c.tape[c.head := w] == c.tape;
  }

  /** Applying a rule from a head just past the end: a written symbol is
      appended, the wildcard write appends nothing; a move left from an empty
      tape inserts a blank in front and leaves the head at 0; any move but left
      from the wildcard, and a move right after a write, appends a blank. */
  lemma AppliedStepPastEnd(c: Config, rule: Rule)
    requires c.head == |c.tape|
    ensures var d := Apply(c, rule);
            var t := if rule.write == Wildcard then c.tape else c.tape + [rule.write];
            && d.tape == (if rule.move == "l" && c.tape == [] then [Blank] else [])
                         + t
                         + (if rule.move == "l" || (rule.write != Wildcard && rule.move != "r") then [] else [Blank])
            && d.head == (if rule.move == "l" && c.tape == [] then 0 else Shift(c.head, rule.move))
            && d.state == Advance(c.state, rule.next)
            && HeadNearTape(d)
  {
    var t := if rule.write == Wildcard then c.tape else c.tape + [rule.write];
    if rule.write != Wildcard {
      assert WriteCell(c.tape, c.head, rule.write) == (t, c.head);
    }
  }

  /** A step grows the tape by at most one cell from a head on the tape, by at
      most two from a head just past its end, and never shrinks it. */
  lemma StepGrowth(table: Table, c: Config)
    requires HeadNearTape(c)
    ensures var d := Step(table, c);
            && |c.tape| <= |d.tape| <= |c.tape| + 2
            && (HeadOnTape(c) ==> |d.tape| <= |c.tape| + 1)
  {
  }

  /** A rule that writes the wildcard changes no cell: the tape only gains a
      blank cell at one end, if any. */
  lemma WildcardWriteKeepsCells(c: Config, rule: Rule)
    requires rule.write == Wildcard
    ensures var t := Apply(c, rule).tape;
            t == c.tape || t == [Blank] + c.tape || t == c.tape + [Blank]
  {
  }

  /** Every configuration the run passes through has its head on the tape or
      just past its end; in particular the head is never negative, so the
      front insertion of a write never happens during a run. */
  lemma {:induction false} IterateKeepsHeadNearTape(table: Table, c: Config, n: nat)
    requires HeadNearTape(c)
    ensures HeadNearTape(Iterate(table, c, n))
    decreases n
  {
    if n > 0 && !IsHalted(c.state) {
      StepKeepsHeadNearTape(table, c);
      IterateKeepsHeadNearTape(table, Step(table, c), n - 1);
    }
  }

  /** During a run, a write never inserts in front: it overwrites the cell
      under the head or appends, and the head stays where it is. */
  lemma NoFrontInsertDuringRun(table: Table, input: string, n: nat, symbol: string)
    ensures var c := Iterate(table, Start(input), n);
            var (t, h) := WriteCell(c.tape, c.head, symbol);
            h == c.head && (if c.head < |c.tape| then t == c.tape[c.head := symbol] else t == c.tape + [symbol])
  {
    IterateKeepsHeadNearTape(table, Start(input), n);
    var c := Iterate(table, Start(input), n);
    assert 0 <= c.head;
  }

  // ---------------------------------------------------------------------------
  // Lemmas: the result
  // ---------------------------------------------------------------------------

  /** Every cell holds exactly one character. */
  predicate SingleChars(cells: seq<string>) {
    forall i :: 0 <= i < |cells| ==> |cells[i]| == 1
  }

  /** Every rule writes a single character (the wildcard included). */
  predicate SingleCharWrites(table: Table) {
    forall k :: k in table ==> |table[k].write| == 1
  }

  /** A rule that writes one character keeps every cell one character long. */
  lemma ApplyKeepsSingleChars(c: Config, rule: Rule)
    requires SingleChars(c.tape) && |rule.write| == 1
    ensures SingleChars(Apply(c, rule).tape)
  {
    var (written, h) := if rule.write == Wildcard then (c.tape, c.head) else WriteCell(c.tape, c.head, rule.write);
    assert SingleChars(written);
    var (settled, _) := Settle(written, Shift(h, rule.move));
    assert |Blank| == 1;
    assert SingleChars(settled);
  }

  lemma StepKeepsSingleChars(table: Table, c: Config)
    requires SingleCharWrites(table) && SingleChars(c.tape)
    ensures SingleChars(Step(table, c).tape)
  {
    var r := Lookup(table, c.state, ReadCell(c.tape, c.head));
    if r.Some? {
      assert r.value in table.Values;
      var k :| k in table && table[k] == r.value;
      ApplyKeepsSingleChars(c, r.value);
    }
  }

  lemma {:induction false} IterateKeepsSingleChars(table: Table, c: Config, n: nat)
    requires SingleCharWrites(table) && SingleChars(c.tape)
    ensures SingleChars(Iterate(table, c, n).tape)
    decreases n
  {
    if n > 0 && !IsHalted(c.state) {
      StepKeepsSingleChars(table, c);
      IterateKeepsSingleChars(table, Step(table, c), n - 1);
    }
  }

  /** Joining the cells of the input gives back the input. */
  lemma {:induction false} ConcatCells(input: string)
    ensures Concat(Cells(input)) == input
  {
    if input != [] {
      assert Cells(input)[1..] == Cells(input[1..]);
      ConcatCells(input[1..]);
    }
  }

  /** When every rule writes one character, every cell of the final tape is one character. */
  lemma ExecuteSingleChars(table: Table, input: string)
    requires SingleCharWrites(table)
    ensures SingleChars(Execute(table, input).tape)
  {
    IterateKeepsSingleChars(table, Start(input), StepLimit);
    RunIsBounded(table, input);
  }

  /** Trimming keeps a contiguous part of the cells. */
  lemma TrimKeepsSingleChars(cells: seq<string>)
    requires SingleChars(cells)
    ensures SingleChars(Trim(cells, Blank))
  {
    TrimKeeps(cells, Blank, c => |c| == 1);
  }

  /** Single-character cells without a blank at either end join into a string
      without '_' at either end. */
  lemma ConcatEnds(cells: seq<string>)
    requires SingleChars(cells)
    requires cells == [] || (cells[0] != Blank && cells[|cells| - 1] != Blank)
    ensures var out := Concat(cells);
            out == [] || (out[0] != '_' && out[|out| - 1] != '_')
  {
    ConcatSingles(cells);
    if cells != [] {
      var first, last := cells[0], cells[|cells| - 1];
      assert |first| == 1 && |last| == 1;
      assert first == [first[0]] && last == [last[0]];
    }
  }

  /** When every rule writes one character, the returned string starts and ends
      with a character other than '_', so trimming it again changes nothing. */
  lemma OutputTrimmed(table: Table, input: string)
    requires SingleCharWrites(table)
    ensures var out := Output(table, input);
            && (out == [] || (out[0] != '_' && out[|out| - 1] != '_'))
            && Trim(out, '_') == out
  {
    var c := Execute(table, input);
    ExecuteSingleChars(table, input);
    JoinTrimmedCells(c.tape);
    assert Output(table, input) == Concat(Trim(c.tape, Blank));
  }

  /** Trimmed one-character cells join into a string with no '_' at either
      end. */
  lemma JoinTrimmedCells(cells: seq<string>)
    requires SingleChars(cells)
    ensures var out := Concat(Trim(cells, Blank));
            && (out == [] || (out[0] != '_' && out[|out| - 1] != '_'))
            && Trim(out, '_') == out
  {
    var kept := Trim(cells, Blank);
    TrimKeepsSingleChars(cells);
    ConcatEnds(kept);
    TrimUnchanged(Concat(kept), '_');
  }

  // ---------------------------------------------------------------------------
  // Lemmas: two rule tables with a known outcome
  // ---------------------------------------------------------------------------

  /** With no rule at all, the first iteration halts with the no-transition
      error and the tape is returned as the input left it (marker removed). */
  lemma EmptyTableHaltsAtOnce(input: string)
    ensures Execute(map[], input) == Start(input).(state := NoTransition)
    ensures Output(map[], input) == Concat(Trim(Start(input).tape, Blank))
  {
    NoRuleHalts(map[], Start(input), 0);
  }

  /** A single rule that, in the initial state, rewrites any symbol to itself
      without moving or changing state never halts by itself: the run is cut
      off by the step limit, with the tape as the input left it plus at most
      one blank. */
  lemma SelfLoopHitsStepLimit(input: string)
    ensures var table := map[(InitialState, Wildcard) := Rule(Wildcard, Wildcard, Wildcard)];
            var c := Start(input);
            var (t, h) := Settle(c.tape, c.head);
            Execute(table, input) == Config(t, h, LoopError)
  {
    var table := map[(InitialState, Wildcard) := Rule(Wildcard, Wildcard, Wildcard)];
    var c := Start(input);
    var (t, h) := Settle(c.tape, c.head);
    var d := Config(t, h, InitialState);
    assert Step(table, c) == d;
    assert Step(table, d) == d;
    StuckIterate(table, d, StepLimit - 1);
    assert Iterate(table, c, StepLimit) == Iterate(table, d, StepLimit - 1);
    LoopIsBoundedIteration(table, c, 0);
  }

  // ---------------------------------------------------------------------------
  // Lemmas: three concrete steps the boundary rules allow
  // ---------------------------------------------------------------------------

  /** A head that starts just past the end, under a rule that writes the
      wildcard and moves right, is still off the tape after the step: one
      blank is appended, but the head is two cells past the old end. */
  lemma HeadStaysPastEnd()
    ensures Start("1*") == Config(["1"], 1, InitialState)
    ensures var d := Step(map[(InitialState, Blank) := Rule(Wildcard, "r", "1")], Start("1*"));
            d == Config(["1", "_"], 2, "1") && !HeadOnTape(d)
  {
    assert Cells("1*") == ["1", "*"];
  }

  /** From just past the end, a write that appends followed by a move right
      grows the tape by two cells in one step. */
  lemma StepGrowsByTwo()
    ensures Apply(Config(["1"], 1, InitialState), Rule("x", "r", InitialState)).tape == ["1", "x", "_"]
  {
  }

  /** A rule writing a two-character token that ends in '_' leaves that '_' at
      the end of the returned string: trimming removes blank cells only. */
  lemma MultiCharWriteKeepsUnderscore()
    ensures Output(map[(InitialState, Blank) := Rule("a_", Wildcard, "halt")], "") == "a_"
  {
    var table := map[(InitialState, Blank) := Rule("a_", Wildcard, "halt")];
    var c := Start("");
    assert c == Config([], 0, InitialState);
    assert ReadCell(c.tape, c.head) == Blank;
    var d := Config(["a_"], 0, "halt");
    assert Apply(c, table[(InitialState, Blank)]) == d;
    assert Step(table, c) == d;
    LoopStep(table, c, 0);
    assert Loop(table, d, 1) == d;
    assert Execute(table, "") == d;
    TrimUnchanged(d.tape, Blank);
    ConcatOne("a_");
  }
}
