/** The tape of a Turing machine: a growable list of cells addressed by a head
    that may stand outside the cells written so far. Reading outside yields the
    blank symbol; writing outside grows the list at the end the head is beyond.
    The same read and write rules are used by the interpreter's run loop and by
    the stand-alone Tape class, so they are defined once here. */
module TapeBuffer {
  import opened Text

  const Blank: string := "_"

  /** The symbol under the head; off the tape every cell reads as blank. */
  function ReadCell(cells: seq<string>, head: int): (s: string)
    ensures 0 <= head < |cells| ==> s == cells[head]
    ensures !(0 <= head < |cells|) ==> s == Blank
  {
    if head < 0 || head >= |cells| then Blank else cells[head]
  }

  /** Writes `symbol` at the head. A head left of the tape inserts the symbol in
      front and moves to index 0; a head at or right of the end appends the
      symbol, however far beyond the end the head is, and stays where it is.
      Result: the new cells and the new head. */
  function WriteCell(cells: seq<string>, head: int, symbol: string): (r: (seq<string>, int))
    ensures r.1 == if head < 0 then 0 else head
    ensures var at := if head < 0 then 0 else if head < |cells| then head else |cells|;
            at < |r.0| && r.0[at] == symbol
  {
    if 0 <= head < |cells| then (cells[head := symbol], head)
    else if head < 0 then ([symbol] + cells, 0)
    else (cells + [symbol], head)
  }

  /** `n` spaces, none when `n` is negative (the host's string repetition). */
  function Spaces(n: int): (r: string)
    ensures |r| == if n > 0 then n else 0
    ensures forall i :: 0 <= i < |r| ==> r[i] == ' '
  {
    if n <= 0 then "" else Spaces(n - 1) + " "
  }

  /** The stand-alone tape of the prototype simulator: cells and a head. */
  class Tape {
    var cells: seq<string>
    var head: int

    constructor (initial: seq<string>)
      ensures cells == initial && head == 0
    {
      cells := initial;
      head := 0;
    }

    /** The symbol under the head. */
    function Read(): (s: string)
      reads this
      ensures 0 <= head < |cells| ==> s == cells[head]
      ensures head < 0 || head >= |cells| ==> s == Blank
    {
      ReadCell(cells, head)
    }

    /** Writes `symbol` under the head, growing the tape by one cell when the
        head is off the tape. */
    method Write(symbol: string)
      modifies this
      ensures (cells, head) == WriteCell(old(cells), old(head), symbol)
      ensures old(head) < 0 ==> cells == [symbol] + old(cells) && head == 0
      ensures old(head) >= |old(cells)| ==> cells == old(cells) + [symbol] && head == old(head)
      ensures 0 <= old(head) < |old(cells)| ==> cells == old(cells)[old(head) := symbol] && head == old(head)
    {
      if head < 0 {
        cells := [symbol] + cells;
        head := 0;
      } else if head >= |cells| {
        cells := cells + [symbol];
      } else {
        cells := cells[head := symbol];
      }
    }

    /** "R" moves the head one cell right, "L" one cell left; anything else
        leaves it. The cells are never touched. */
    method Move(direction: string)
      modifies this`head
      ensures direction == "R" ==> head == old(head) + 1
      ensures direction == "L" ==> head == old(head) - 1
      ensures direction != "R" && direction != "L" ==> head == old(head)
    {
      if direction == "R" {
        head := head + 1;
      } else if direction == "L" {
        head := head - 1;
      }
    }

    /** The joined cells, a newline, then a caret under the head's column
        (at column 0 when the head is left of the tape). */
    function Render(): (r: string)
      reads this
      ensures var line := Concat(cells);
              var column := if head > 0 then head else 0;
              && |r| == |line| + column + 2
              && r[..|line|] == line
              && r[|line|] == '\n'
              && (forall i :: |line| < i < |line| + column + 1 ==> r[i] == ' ')
              && r[|r| - 1] == '^'
    {
      var line := Concat(cells);
      var r := line + "\n" + Spaces(head) + "^";
      assert forall i :: |line| < i < |r| - 1 ==> r[i] == Spaces(head)[i - |line| - 1];
      r
    }
  }

  // ---------------------------------------------------------------------------
  // Lemmas
  // ---------------------------------------------------------------------------

  /** A write grows the tape by exactly one cell when the head is off the
      tape, and by none otherwise. */
  lemma WriteGrowth(cells: seq<string>, head: int, symbol: string)
    ensures var (c, _) := WriteCell(cells, head, symbol);
            |c| == if 0 <= head < |cells| then |cells| else |cells| + 1
  {
  }

  /** Reading right after a write gives back the symbol written, provided the
      head was not more than one cell beyond the end of the tape. */
  lemma ReadAfterWrite(cells: seq<string>, head: int, symbol: string)
    requires head <= |cells|
    ensures var (c, h) := WriteCell(cells, head, symbol);
            0 <= h < |c| && ReadCell(c, h) == symbol
  {
  }

  /** A write beyond the end of the tape by two or more cells lands at the
      end, and the cell under the head still reads blank. */
  lemma WriteFarRight(cells: seq<string>, head: int, symbol: string)
    requires head > |cells|
    ensures var (c, h) := WriteCell(cells, head, symbol);
            c[|c| - 1] == symbol && h == head && ReadCell(c, h) == Blank
  {
  }

  /** A write in range changes the cell under the head and no other cell;
      out of range, the old cells keep their order and values, shifted by one
      when the symbol went in front. */
  lemma WriteFrame(cells: seq<string>, head: int, symbol: string, i: int)
    requires 0 <= i < |cells| && i != head
    ensures var (c, h) := WriteCell(cells, head, symbol);
            c[if head < 0 then i + 1 else i] == cells[i]
  {
  }

  /** A concrete pass through every branch of Read, Write and Move. */
  method TapeScenario()
  {
    var t := new Tape(["1", "0"]);
    t.Move("L");
    assert t.Read() == Blank;
    t.Write("#");
    assert t.cells == ["#", "1", "0"] && t.head == 0;
    t.Move("R");
    t.Move("R");
    t.Move("R");
    t.Write("x");
    assert t.cells == ["#", "1", "0", "x"] && t.Read() == "x";
    t.Move("down");
    assert t.head == 3;
  }
}
