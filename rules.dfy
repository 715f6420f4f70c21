/** The rule table of the interpreter: what one line of rule text contributes,
    how the lines build the table (the specification of the parser), and the
    two-tier lookup the run loop performs on it. */
module Rules {
  import opened Text

  /** The token that means "any symbol" when read, "leave the cell" when
      written and "stay in the current state" as the next state. */
  const Wildcard: string := "*"

  datatype Option<T> = None | Some(value: T)

  /** A table key: the current state and the symbol under the head. */
  type Key = (string, string)

  /** What a rule does: the symbol to write, the direction to move, the next state. */
  datatype Rule = Rule(write: string, move: string, next: string)

  type Table = map<Key, Rule>

  /** The table entry made from the tokens of a stripped, non-empty rule line:
      nothing for a comment or for fewer than five tokens, otherwise the first
      five tokens as key and rule, any further tokens being ignored. */
  function EntryOfTokens(parts: seq<string>): (e: Option<(Key, Rule)>)
    ensures e.Some? <==> |parts| >= 5 && !(";" <= parts[0])
    ensures e.Some? ==> e.value.0 == (parts[0], parts[1]) && e.value.1 == Rule(parts[2], parts[3], parts[4])
  {
    if parts == [] || ";" <= parts[0] || |parts| < 5 then None
    else Some(((parts[0], parts[1]), Rule(parts[2], parts[3], parts[4])))
  }

  /** The table entry one line of rule text contributes, if any: the line is
      stripped; blank lines and lines starting with ';' are skipped; so are
      lines with fewer than five whitespace-separated tokens. */
  function Entry(line: string): (e: Option<(Key, Rule)>)
    ensures e == EntryOfTokens(Tokens(line))
  {
    StripTokens(line);
    var stripped := Strip(line);
    if stripped == [] || ";" <= stripped then None
    else
      var parts := Tokens(stripped);
      if |parts| < 5 then None
      else Some(((parts[0], parts[1]), Rule(parts[2], parts[3], parts[4])))
  }

  /** The lines of a rule text: the text is stripped, then split at newlines. */
  function RuleLines(logic: string): (lines: seq<string>)
    ensures |lines| >= 1 && JoinLines(lines) == Strip(logic)
  {
    JoinSplitLines(Strip(logic));
    SplitLines(Strip(logic))
  }

  /** The table with an entry inserted, replacing any rule for the same key. */
  function AddEntry(table: Table, e: Option<(Key, Rule)>): (t: Table)
    ensures e.Some? ==> e.value.0 in t && t[e.value.0] == e.value.1
    ensures e.None? ==> t == table
    ensures forall k :: k in table && !Sets(e, k) ==> k in t && t[k] == table[k]
    ensures forall k :: k in t ==> k in table || Sets(e, k)
  {
    match e
    case None => table
    case Some((key, rule)) => table[key := rule]
  }

  /** The entries of `lines`, one per line, in order. */
  function Entries(lines: seq<string>): (es: seq<Option<(Key, Rule)>>)
    ensures |es| == |lines|
  {
    seq(|lines|, k requires 0 <= k < |lines| => Entry(lines[k]))
  }

  /** The table after inserting the entries `es` in order. */
  function AddEntries(table: Table, es: seq<Option<(Key, Rule)>>): Table
    decreases |es|
  {
    if es == [] then table
    else AddEntry(AddEntries(table, es[..|es| - 1]), es[|es| - 1])
  }

  /** The table after inserting, in order, the entries of `lines` into `table`:
      a later line with the same key replaces the rule of an earlier one. */
  function AddLines(table: Table, lines: seq<string>): Table {
    AddEntries(table, Entries(lines))
  }

  /** The table built from a whole rule text, starting from an empty table. */
  function ParseTable(logic: string): Table {
    AddLines(map[], RuleLines(logic))
  }

  /** Does entry `e` insert a rule for `key`? */
  predicate Sets(e: Option<(Key, Rule)>, key: Key) {
    e.Some? && e.value.0 == key
  }

  /** Does line `line` contribute an entry for `key`? */
  predicate Defines(line: string, key: Key) {
    Sets(Entry(line), key)
  }

  /** Two-tier lookup: the rule for the exact (state, symbol) pair when there
      is one, else the rule for (state, wildcard), else nothing. */
  function Lookup(table: Table, state: string, symbol: string): (r: Option<Rule>)
    ensures r.Some? <==> (state, symbol) in table || (state, Wildcard) in table
    ensures (state, symbol) in table ==> r == Some(table[(state, symbol)])
    ensures (state, symbol) !in table && (state, Wildcard) in table ==> r == Some(table[(state, Wildcard)])
    ensures r.Some? ==> r.value in table.Values
  {
    if (state, symbol) in table then Some(table[(state, symbol)])
    else if (state, Wildcard) in table then Some(table[(state, Wildcard)])
    else None
  }

  // ---------------------------------------------------------------------------
  // Lemmas
  // ---------------------------------------------------------------------------

  /** Adding one more line to the prefix `lines[..i]` inserts that line's entry, if any. */
  lemma AddNextLine(table: Table, lines: seq<string>, i: int)
    requires 0 <= i < |lines|
    ensures AddLines(table, lines[..i + 1]) == AddEntry(AddLines(table, lines[..i]), Entry(lines[i]))
  {
    var es := Entries(lines[..i + 1]);
    assert es[..i] == Entries(lines[..i]);
  }

  /** The last entry that sets a key decides its rule. */
  lemma {:induction false} LastEntryWins(table: Table, es: seq<Option<(Key, Rule)>>, i: int, key: Key)
    requires 0 <= i < |es| && Sets(es[i], key)
    requires forall j :: i < j < |es| ==> !Sets(es[j], key)
    ensures key in AddEntries(table, es) && AddEntries(table, es)[key] == es[i].value.1
    decreases |es|
  {
    var last := |es| - 1;
    if i < last {
      assert !Sets(es[last], key);
      LastEntryWins(table, es[..last], i, key);
    }
  }

  /** A key no entry sets keeps whatever the table held for it before. */
  lemma {:induction false} UnsetKeyKept(table: Table, es: seq<Option<(Key, Rule)>>, key: Key)
    requires forall j :: 0 <= j < |es| ==> !Sets(es[j], key)
    ensures key in AddEntries(table, es) <==> key in table
    ensures key in table ==> AddEntries(table, es)[key] == table[key]
    decreases |es|
  {
    if es != [] {
      var last := |es| - 1;
      assert !Sets(es[last], key);
      UnsetKeyKept(table, es[..last], key);
    }
  }

  /** A key the entries added to the table is set by one of them. */
  lemma {:induction false} SetKeyHasEntry(table: Table, es: seq<Option<(Key, Rule)>>, key: Key)
    requires key in AddEntries(table, es) && key !in table
    ensures exists j :: 0 <= j < |es| && Sets(es[j], key)
    decreases |es|
  {
    var last := |es| - 1;
    if !Sets(es[last], key) {
      SetKeyHasEntry(table, es[..last], key);
      var j :| 0 <= j < last && Sets(es[..last][j], key);
      assert es[..last][j] == es[j];
    }
  }

  /** The last line that defines a key decides its rule. */
  lemma LastLineWins(table: Table, lines: seq<string>, i: int, key: Key)
    requires 0 <= i < |lines| && Defines(lines[i], key)
    requires forall j :: i < j < |lines| ==> !Defines(lines[j], key)
    ensures key in AddLines(table, lines)
    ensures AddLines(table, lines)[key] == Entry(lines[i]).value.1
  {
    var es := Entries(lines);
    forall j | i < j < |es| ensures !Sets(es[j], key) {
      assert !Defines(lines[j], key);
    }
    LastEntryWins(table, es, i, key);
  }

  /** A key no line defines keeps whatever the table held for it before. */
  lemma UndefinedKeyKept(table: Table, lines: seq<string>, key: Key)
    requires forall j :: 0 <= j < |lines| ==> !Defines(lines[j], key)
    ensures key in AddLines(table, lines) <==> key in table
    ensures key in table ==> AddLines(table, lines)[key] == table[key]
  {
    var es := Entries(lines);
    forall j | 0 <= j < |es| ensures !Sets(es[j], key) {
      assert !Defines(lines[j], key);
    }
    UnsetKeyKept(table, es, key);
  }

  /** Every rule in a parsed table comes from some line of the text. */
  lemma EntriesComeFromLines(table: Table, lines: seq<string>, key: Key)
    requires key in AddLines(table, lines) && key !in table
    ensures exists j :: 0 <= j < |lines| && Defines(lines[j], key)
  {
    var es := Entries(lines);
    SetKeyHasEntry(table, es, key);
    var j :| 0 <= j < |es| && Sets(es[j], key);
    assert Defines(lines[j], key);
  }

  /** Text after the fifth token of a rule line (a trailing "; comment", say)
      does not change the entry the line makes. */
  lemma TrailingTextIgnored(line: string, rest: string)
    requires Entry(line).Some?
    requires rest == [] || IsSpace(rest[0])
    ensures Entry(line + rest) == Entry(line)
  {
    TokensAppend(line, rest);
    var parts := Tokens(line);
    assert (parts + Tokens(rest))[..5] == parts[..5];
  }

  /** A line is skipped exactly when it is blank, a comment, or too short. */
  lemma SkippedLines(line: string)
    ensures Entry(line).None? <==>
              || (forall i :: 0 <= i < |line| ==> IsSpace(line[i]))
              || ";" <= Strip(line)
              || |Tokens(line)| < 5
  {
    StripTokens(line);
  }
}
