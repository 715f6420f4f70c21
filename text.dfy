/** Text utilities the interpreter relies on: the string operations of the
    host language that the rule parser and the run loop use (stripping,
    splitting into lines and into whitespace-separated tokens, joining,
    trimming a blank symbol from both ends, finding a first occurrence). */
module Text {

  /** The six common ASCII whitespace characters: a subset of those the host's
      strip() and split() recognise. */
  const Whitespace: set<char> := {' ', '\t', '\n', '\r', '\U{0B}', '\U{0C}'}

  predicate IsSpace(c: char) {
    c in Whitespace
  }

  /** Index of the first occurrence of `x` in `s` (list.index / str.index). */
  function FirstIndex<T(==)>(s: seq<T>, x: T): (r: nat)
    requires x in s
    ensures r < |s| && s[r] == x
    ensures x !in s[..r]
  {
    if s[0] == x then 0
    else
      assert x in s[1..] by { assert s == [s[0]] + s[1..]; }
      var k := FirstIndex(s[1..], x);
      assert s[..k + 1] == [s[0]] + s[1..][..k];
      k + 1
  }

  /** Number of whitespace characters at the start of `s`. */
  function LeadingSpaces(s: string): (n: nat)
    ensures n <= |s|
    ensures forall i :: 0 <= i < n ==> IsSpace(s[i])
    ensures n == |s| || !IsSpace(s[n])
  {
    if s == [] || !IsSpace(s[0]) then 0 else 1 + LeadingSpaces(s[1..])
  }

  /** Number of whitespace characters at the end of `s`. */
  function TrailingSpaces(s: string): (n: nat)
    ensures n <= |s|
    ensures forall i :: |s| - n <= i < |s| ==> IsSpace(s[i])
    ensures n == |s| || !IsSpace(s[|s| - n - 1])
  {
    if s == [] || !IsSpace(s[|s| - 1]) then 0 else 1 + TrailingSpaces(s[..|s| - 1])
  }

  /** str.strip(): whitespace removed from both ends. */
  function Strip(s: string): (r: string)
    ensures r == [] || (!IsSpace(r[0]) && !IsSpace(r[|r| - 1]))
    ensures r == [] <==> forall i :: 0 <= i < |s| ==> IsSpace(s[i])
  {
    var i := LeadingSpaces(s);
    if i == |s| then []
    else
      var j := |s| - TrailingSpaces(s);
      assert i < j by { assert !IsSpace(s[i]); }
      s[i..j]
  }

  /** Tokens of `s` when the characters of an unfinished token `word` precede it. */
  function Split(s: string, word: string): (r: seq<string>)
  {
    if s == [] then (if word == [] then [] else [word])
    else if IsSpace(s[0]) then (if word == [] then [] else [word]) + Split(s[1..], [])
    else Split(s[1..], word + [s[0]])
  }

  /** str.split() with no argument: the maximal runs of non-whitespace characters. */
  function Tokens(s: string): seq<string> {
    Split(s, [])
  }

  /** str.split('\n'): the pieces between newline characters (always at least one). */
  function SplitLines(s: string): (r: seq<string>)
    ensures |r| >= 1
    ensures forall k :: 0 <= k < |r| ==> '\n' !in r[k]
    decreases |s|
  {
    if '\n' !in s then [s]
    else
      var i := FirstIndex(s, '\n');
      [s[..i]] + SplitLines(s[i + 1..])
  }

  /** '\n'.join(lines), the inverse of SplitLines. */
  function JoinLines(lines: seq<string>): string
    requires |lines| >= 1
  {
    if |lines| == 1 then lines[0] else lines[0] + "\n" + JoinLines(lines[1..])
  }

  /** ''.join(cells). */
  function Concat(cells: seq<string>): (r: string)
    ensures |r| >= |cells| || exists k :: 0 <= k < |cells| && cells[k] == []
  {
    if cells == [] then [] else cells[0] + Concat(cells[1..])
  }

  /** `s` without the leading copies of `blank`. */
  function TrimFront<T(==)>(s: seq<T>, blank: T): (r: seq<T>)
    ensures |r| <= |s| && r == s[|s| - |r|..]
    ensures r == [] || r[0] != blank
    ensures forall i :: 0 <= i < |s| - |r| ==> s[i] == blank
  {
    if s == [] || s[0] != blank then s else TrimFront(s[1..], blank)
  }

  /** `s` without the trailing copies of `blank`. */
  function TrimBack<T(==)>(s: seq<T>, blank: T): (r: seq<T>)
    ensures |r| <= |s| && r == s[..|r|]
    ensures r == [] || r[|r| - 1] != blank
    ensures forall i :: |r| <= i < |s| ==> s[i] == blank
  {
    if s == [] || s[|s| - 1] != blank then s else TrimBack(s[..|s| - 1], blank)
  }

  /** Every element of `s[lo..hi]` is `blank`. */
  predicate AllBlank<T(==)>(s: seq<T>, lo: int, hi: int, blank: T)
    requires 0 <= lo <= hi <= |s|
  {
    forall k :: lo <= k < hi ==> s[k] == blank
  }

  /** Leading copies of `blank` removed first, then trailing ones. */
  function Trim<T(==)>(s: seq<T>, blank: T): (r: seq<T>)
    ensures r == [] || (r[0] != blank && r[|r| - 1] != blank)
    ensures exists i, j :: && 0 <= i <= j <= |s| && r == s[i..j]
                           && AllBlank(s, 0, i, blank) && AllBlank(s, j, |s|, blank)
  {
    var t := TrimFront(s, blank);
    var r := TrimBack(t, blank);
    assert r != [] ==> r[0] == t[0];
    SliceBetweenBlanks(s, t, r, blank);
    r
  }

  /** Every element of a trimmed sequence comes from the untrimmed one, so a
      property of all elements survives trimming. */
  lemma TrimKeeps<T>(s: seq<T>, blank: T, p: T -> bool)
    requires forall k :: 0 <= k < |s| ==> p(s[k])
    ensures forall k :: 0 <= k < |Trim(s, blank)| ==> p(Trim(s, blank)[k])
  {
    var r := Trim(s, blank);
    var lo, hi :| && 0 <= lo <= hi <= |s| && r == s[lo..hi]
                  && AllBlank(s, 0, lo, blank) && AllBlank(s, hi, |s|, blank);
    SliceKeeps(s, lo, hi, p);
  }

  /** A property of all elements holds for all elements of a slice. */
  lemma SliceKeeps<T>(s: seq<T>, lo: int, hi: int, p: T -> bool)
    requires 0 <= lo <= hi <= |s|
    requires forall k :: 0 <= k < |s| ==> p(s[k])
    ensures forall k :: 0 <= k < hi - lo ==> p(s[lo..hi][k])
  {
    forall k | 0 <= k < hi - lo ensures p(s[lo..hi][k]) {
      assert s[lo..hi][k] == s[lo + k];
    }
  }

  /** A prefix `r` of a suffix `t` of `s`, where only blanks precede `t` in
      `s` and only blanks follow `r` in `t`, is a slice of `s` with only
      blanks before and after it. */
  lemma SliceBetweenBlanks<T>(s: seq<T>, t: seq<T>, r: seq<T>, blank: T)
    requires |t| <= |s| && t == s[|s| - |t|..]
    requires forall k :: 0 <= k < |s| - |t| ==> s[k] == blank
    requires |r| <= |t| && r == t[..|r|]
    requires forall m :: |r| <= m < |t| ==> t[m] == blank
    ensures exists i, j :: && 0 <= i <= j <= |s| && r == s[i..j]
                           && AllBlank(s, 0, i, blank) && AllBlank(s, j, |s|, blank)
  {
    var i := |s| - |t|;
    var j := i + |r|;
    assert s[i..j] == s[i..][..|r|];
    forall k | j <= k < |s| ensures s[k] == blank {
      assert s[k] == t[k - i];
    }
    assert AllBlank(s, 0, i, blank) && AllBlank(s, j, |s|, blank);
  }

  // ---------------------------------------------------------------------------
  // Lemmas
  // ---------------------------------------------------------------------------

  /** Splitting on newlines and joining again gives the original text back. */
  lemma {:induction false} JoinSplitLines(s: string)
    ensures JoinLines(SplitLines(s)) == s
    decreases |s|
  {
    if '\n' in s {
      var i := FirstIndex(s, '\n');
      var rest := SplitLines(s[i + 1..]);
      assert SplitLines(s) == [s[..i]] + rest;
      JoinSplitLines(s[i + 1..]);
      assert JoinLines(SplitLines(s)) == s[..i] + "\n" + JoinLines(rest);
      assert s == s[..i] + "\n" + s[i + 1..];
    }
  }

  /** Trimming an already trimmed sequence changes nothing. */
  lemma TrimIdempotent<T>(s: seq<T>, blank: T)
    ensures Trim(Trim(s, blank), blank) == Trim(s, blank)
  {
    var r := Trim(s, blank);
    assert TrimFront(r, blank) == r;
    assert TrimBack(r, blank) == r;
  }

  /** A leading blank is one of those TrimFront removes. */
  lemma TrimFrontDropsBlank<T>(s: seq<T>, blank: T)
    requires s != [] && s[0] == blank
    ensures TrimFront(s, blank) == TrimFront(s[1..], blank)
  {
  }

  /** A trailing blank is one of those TrimBack removes. */
  lemma TrimBackDropsBlank<T>(s: seq<T>, blank: T)
    requires s != [] && s[|s| - 1] == blank
    ensures TrimBack(s, blank) == TrimBack(s[..|s| - 1], blank)
  {
  }

  /** Trimming a sequence whose ends are not blank changes nothing. */
  lemma TrimUnchanged<T>(s: seq<T>, blank: T)
    requires s == [] || (s[0] != blank && s[|s| - 1] != blank)
    ensures Trim(s, blank) == s
  {
    assert TrimFront(s, blank) == s;
  }

  lemma {:induction false} SplitAppend(a: string, b: string, word: string)
    requires b == [] || IsSpace(b[0])
    ensures Split(a + b, word) == Split(a, word) + Tokens(b)
    decreases |a|
  {
    if a == [] {
      assert a + b == b;
      if b != [] {
        assert Tokens(b) == Split(b[1..], []);
      }
    } else {
      assert (a + b)[0] == a[0];
      assert (a + b)[1..] == a[1..] + b;
      if IsSpace(a[0]) {
        SplitAppend(a[1..], b, []);
      } else {
        SplitAppend(a[1..], b, word + [a[0]]);
      }
    }
  }

  /** The tokens produced after an unfinished whitespace-free word are
      non-empty and contain no whitespace. */
  lemma {:induction false} SplitWords(s: string, word: string)
    requires forall i :: 0 <= i < |word| ==> !IsSpace(word[i])
    ensures forall k :: 0 <= k < |Split(s, word)| ==>
              Split(s, word)[k] != [] && forall i :: 0 <= i < |Split(s, word)[k]| ==> !IsSpace(Split(s, word)[k][i])
    decreases |s|
  {
    if s != [] {
      if IsSpace(s[0]) {
        SplitWords(s[1..], []);
      } else {
        var w := word + [s[0]];
        assert forall i :: 0 <= i < |w| ==> !IsSpace(w[i]) by {
          forall i | 0 <= i < |w| ensures !IsSpace(w[i]) {
            if i < |word| { assert w[i] == word[i]; }
          }
        }
        SplitWords(s[1..], w);
      }
    }
  }

  /** A whitespace-free run is emitted whole, joined to the word in progress. */
  lemma {:induction false} SplitWord(s: string, word: string)
    requires forall i :: 0 <= i < |s| ==> !IsSpace(s[i])
    ensures Split(s, word) == if word + s == [] then [] else [word + s]
    decreases |s|
  {
    if s == [] {
      assert word + s == word;
    } else {
      SplitWord(s[1..], word + [s[0]]);
      assert (word + [s[0]]) + s[1..] == word + s;
    }
  }

  /** Every token is a non-empty run of non-whitespace characters. */
  lemma TokensAreWords(s: string)
    ensures forall k :: 0 <= k < |Tokens(s)| ==>
              Tokens(s)[k] != [] && forall i :: 0 <= i < |Tokens(s)[k]| ==> !IsSpace(Tokens(s)[k][i])
  {
    SplitWords(s, []);
  }

  /** Text that starts with whitespace splits into tokens independently of
      what precedes it: text after a separator only adds tokens at the end. */
  lemma TokensAppend(a: string, b: string)
    requires b == [] || IsSpace(b[0])
    ensures Tokens(a + b) == Tokens(a) + Tokens(b)
  {
    SplitAppend(a, b, []);
  }

  /** Leading whitespace contributes no token. */
  lemma {:induction false} TokensSkipSpaces(a: string, b: string)
    requires forall i :: 0 <= i < |a| ==> IsSpace(a[i])
    ensures Tokens(a + b) == Tokens(b)
    decreases |a|
  {
    if a != [] {
      assert (a + b)[0] == a[0];
      assert (a + b)[1..] == a[1..] + b;
      TokensSkipSpaces(a[1..], b);
    } else {
      assert a + b == b;
    }
  }

  /** A token in progress is emitted first. */
  lemma {:induction false} SplitFirst(s: string, word: string)
    requires word != []
    ensures Split(s, word) != [] && Split(s, word)[0] != [] && Split(s, word)[0][0] == word[0]
    decreases |s|
  {
    if s != [] && !IsSpace(s[0]) {
      SplitFirst(s[1..], word + [s[0]]);
    }
  }

  /** Text starting with a non-space character has a first token starting with it. */
  lemma FirstToken(r: string)
    requires r != [] && !IsSpace(r[0])
    ensures Tokens(r) != [] && Tokens(r)[0] != [] && Tokens(r)[0][0] == r[0]
  {
    assert [] + [r[0]] == [r[0]];
    assert Tokens(r) == Split(r[1..], [r[0]]);
    SplitFirst(r[1..], [r[0]]);
  }

  /** Stripping does not change the tokens of a line, and a stripped line that is
      not empty starts with the first character of its first token. */
  lemma StripTokens(s: string)
    ensures Tokens(Strip(s)) == Tokens(s)
    ensures Strip(s) == [] <==> Tokens(s) == []
    ensures Strip(s) != [] ==> Tokens(s) != [] && Tokens(s)[0] != [] && Strip(s)[0] == Tokens(s)[0][0]
  {
    var r := Strip(s);
    if LeadingSpaces(s) == |s| {
      TokensSkipSpaces(s, []);
      assert s + [] == s;
    } else {
      var head, tail := StripParts(s);
      assert Tokens(s) == Tokens(r + tail) by {
        TokensSkipSpaces(head, r + tail);
      }
      assert Tokens(r + tail) == Tokens(r) by {
        TokensAppend(r, tail);
        TokensSkipSpaces(tail, []);
        assert tail + [] == tail;
      }
      FirstToken(r);
    }
  }

  /** A line with a non-space character is its leading whitespace, its stripped
      text and its trailing whitespace, in that order. */
  lemma StripParts(s: string) returns (head: string, tail: string)
    requires LeadingSpaces(s) < |s|
    ensures s == head + (Strip(s) + tail)
    ensures forall i :: 0 <= i < |head| ==> IsSpace(head[i])
    ensures forall i :: 0 <= i < |tail| ==> IsSpace(tail[i])
    ensures Strip(s) != []
  {
    var i := LeadingSpaces(s);
    var j := |s| - TrailingSpaces(s);
    var r := Strip(s);
    assert r == s[i..j];
    head, tail := s[..i], s[j..];
    forall k | 0 <= k < |head| ensures IsSpace(head[k]) {
      assert head[k] == s[k];
    }
    forall k | 0 <= k < |tail| ensures IsSpace(tail[k]) {
      assert tail[k] == s[j + k];
    }
    assert s == head + (r + tail);
  }

  /** Joining is compatible with concatenation: the cells' text comes out in order. */
  lemma {:induction false} ConcatAppend(a: seq<string>, b: seq<string>)
    ensures Concat(a + b) == Concat(a) + Concat(b)
    decreases |a|
  {
    if a == [] {
      assert a + b == b;
    } else {
      assert (a + b)[1..] == a[1..] + b;
      ConcatAppend(a[1..], b);
    }
  }

  /** Joining one cell gives its text. */
  lemma ConcatOne(x: string)
    ensures Concat([x]) == x
  {
    assert Concat([x]) == x + Concat([]);
  }

  /** Joining single-character cells gives back the characters. */
  lemma {:induction false} ConcatSingles(cells: seq<string>)
    requires forall k :: 0 <= k < |cells| ==> |cells[k]| == 1
    ensures |Concat(cells)| == |cells|
    ensures forall k :: 0 <= k < |cells| ==> Concat(cells)[k] == cells[k][0]
  {
    if cells != [] {
      ConcatSingles(cells[1..]);
    }
  }
}
