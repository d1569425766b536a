/** The program grid: the raw bytes of the program split into rows.

    A line feed starts a new row, a carriage return is dropped and every other
    byte is appended to the last row.  There is always at least one row, and
    rows may differ in length.
 */
module ProgramGrid {

  type Grid = seq<seq<char>>

  /** The grid after consuming one more byte. */
  function Feed(g: Grid, c: char): (r: Grid)
    requires |g| >= 1
    ensures |r| >= 1
  {
    match c
    case '\r' => g
    case '\n' => g + [[]]
    case _ => g[..|g| - 1] + [g[|g| - 1] + [c]]
  }

  /** The grid built from the whole input, one byte at a time. */
  function Parse(contents: seq<char>): (g: Grid)
    ensures |g| >= 1
  {
    if contents == [] then [[]]
    else Feed(Parse(contents[..|contents| - 1]), contents[|contents| - 1])
  }

  /** The loop of the program's entry point that turns the input into rows. */
  method BuildGrid(contents: seq<char>) returns (instructions: Grid)
    ensures instructions == Parse(contents)
  {
    instructions := [[]];
    var indx := 0;
    while indx < |contents|
      invariant 0 <= indx <= |contents|
      invariant |instructions| >= 1
      invariant instructions == Parse(contents[..indx])
    {
      assert contents[..indx + 1][..indx] == contents[..indx];
      match contents[indx] {
        case '\r' =>
        case '\n' =>
          instructions := instructions + [[]];
        case _ =>
          var last := |instructions| - 1;
          instructions := instructions[..last] + [instructions[last] + [contents[indx]]];
      }
      indx := indx + 1;
    }
    assert contents[..indx] == contents;
  }

  // ---------------------------------------------------------------------
  // Reference definitions: counting line feeds, dropping carriage returns,
  // and joining rows back together with line feeds.

  function Occurrences(s: seq<char>, c: char): nat
  {
    if s == [] then 0
    else Occurrences(s[..|s| - 1], c) + (if s[|s| - 1] == c then 1 else 0)
  }

  function WithoutCR(s: seq<char>): seq<char>
  {
    if s == [] then []
    else WithoutCR(s[..|s| - 1]) + (if s[|s| - 1] == '\r' then [] else [s[|s| - 1]])
  }

  function Join(g: Grid): seq<char>
    requires |g| >= 1
  {
    if |g| == 1 then g[0] else Join(g[..|g| - 1]) + ['\n'] + g[|g| - 1]
  }

  /** No cell of a row is a line feed or a carriage return. */
  predicate CleanRow(r: seq<char>)
  {
    forall i | 0 <= i < |r| :: r[i] != '\n' && r[i] != '\r'
  }

  // ---------------------------------------------------------------------
  // Properties of the parse

  /** There is one row more than there are line feeds. */
  lemma {:induction false} RowCount(contents: seq<char>)
    ensures |Parse(contents)| == 1 + Occurrences(contents, '\n')
  {
    if contents != [] {
      RowCount(contents[..|contents| - 1]);
    }
  }

  /** No cell holds a line feed or a carriage return. */
  lemma {:induction false} RowsAreClean(contents: seq<char>)
    ensures forall k | 0 <= k < |Parse(contents)| :: CleanRow(Parse(contents)[k])
  {
    if contents != [] {
      RowsAreClean(contents[..|contents| - 1]);
    }
  }

  /** Joining the rows with line feeds gives back the input without its
      carriage returns. */
  lemma {:induction false} JoinParse(contents: seq<char>)
    ensures Join(Parse(contents)) == WithoutCR(contents)
  {
    if contents != [] {
      var init := contents[..|contents| - 1];
      var c := contents[|contents| - 1];
      JoinParse(init);
      var g := Parse(init);
      if c != '\r' && c != '\n' {
        JoinExtendLast(g, c);
      }
    }
  }

  /** Appending a byte to the last row appends it to the joined text. */
  lemma JoinExtendLast(g: Grid, c: char)
    requires |g| >= 1
    ensures Join(g[..|g| - 1] + [g[|g| - 1] + [c]]) == Join(g) + [c]
  {
    var g' := g[..|g| - 1] + [g[|g| - 1] + [c]];
    if |g| > 1 {
      assert g'[..|g'| - 1] == g[..|g| - 1];
    }
  }

  /** A single clean row parses to itself. */
  lemma {:induction false} ParseOneRow(r: seq<char>)
    requires CleanRow(r)
    ensures Parse(r) == [r]
  {
    if r != [] {
      var c := r[|r| - 1];
      assert c != '\n' && c != '\r';
      ParseOneRow(r[..|r| - 1]);
      assert r[..|r| - 1] + [c] == r;
    }
  }

  /** A line feed followed by a clean row adds that row to the grid. */
  lemma {:induction false} ParseNewRow(s: seq<char>, r: seq<char>)
    requires CleanRow(r)
    ensures Parse(s + ['\n'] + r) == Parse(s) + [r]
  {
    if r == [] {
      assert (s + ['\n'] + r)[..|s|] == s;
    } else {
      var t := s + ['\n'] + r;
      assert t[..|t| - 1] == s + ['\n'] + r[..|r| - 1];
      var c := r[|r| - 1];
      assert c != '\n' && c != '\r';
      ParseNewRow(s, r[..|r| - 1]);
      assert r[..|r| - 1] + [c] == r;
    }
  }

  /** Parsing the joined rows of a grid of clean rows gives the grid back:
      together with JoinParse, the parse loses nothing but carriage returns. */
  lemma {:induction false} ParseJoin(g: Grid)
    requires |g| >= 1
    requires forall k | 0 <= k < |g| :: CleanRow(g[k])
    ensures Parse(Join(g)) == g
  {
    if |g| == 1 {
      ParseOneRow(g[0]);
    } else {
      ParseJoin(g[..|g| - 1]);
      ParseNewRow(Join(g[..|g| - 1]), g[|g| - 1]);
    }
  }
}
