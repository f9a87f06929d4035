/**
 * The contest's problem and answer formats and the solver's command line:
 * reading a problem from whitespace-separated tokens, parsing the argument
 * vector, collecting placements into an answer, and writing the answer as
 * CRLF-terminated lines, one per stone.
 */
module Common {

  /** Options of the solver: input file, output file and `-ex` key/value pairs. */
  datatype SolverParameter = SolverParameter(
    problemFile: string,
    answerFile: string,
    extraParameter: map<string, string>)

  /** A problem: a 32x32 board (1 = obstacle) and a list of 8x8 stones (1 = cell). */
  datatype Problem = Problem(field: seq<seq<int>>, stoneList: seq<seq<seq<int>>>)

  /** One line of an answer: the stone's 8x8 box corner, flip flag and quarter turns. */
  datatype AnswerPut = AnswerPut(stoneIndex: int, x: int, y: int, flip: int, rotate: int)

  datatype SolverAnswer = SolverAnswer(putList: seq<AnswerPut>)

  /* ---------------------------------------------------------------------- */
  /* Decimal numbers                                                         */
  /* ---------------------------------------------------------------------- */

  predicate IsDigit(c: char) {
    '0' <= c <= '9'
  }

  predicate IsDigits(s: string) {
    |s| > 0 && forall i | 0 <= i < |s| :: IsDigit(s[i])
  }

  /** The value of a string of decimal digits, as `is >> n` reads it. */
  function ParseNat(s: string): (n: nat)
    requires forall i | 0 <= i < |s| :: IsDigit(s[i])
  {
    if |s| == 0 then 0
    else assert IsDigit(s[|s| - 1]); 10 * ParseNat(s[..|s| - 1]) + (s[|s| - 1] as int - '0' as int)
  }

  function DigitChar(d: nat): (c: char)
    requires d < 10
    ensures IsDigit(c) && (c - '0') as int == d
  {
    '0' + d as char
  }

  /** The decimal form of a natural number, without leading zeros. */
  function NatToString(n: nat): (s: string)
    ensures IsDigits(s)
    ensures |s| > 1 ==> s[0] != '0'
    decreases n
  {
    if n < 10 then [DigitChar(n)] else NatToString(n / 10) + [DigitChar(n % 10)]
  }

  /** The decimal form that `os << n` produces for an int. */
  function IntToString(n: int): (s: string)
    ensures |s| > 0
    ensures n < 0 <==> s[0] == '-'
  {
    if n < 0 then "-" + NatToString(-n) else NatToString(n)
  }

  /** Reading back the decimal form of a number gives the number. */
  lemma {:induction false} ParseNatToString(n: nat)
    ensures ParseNat(NatToString(n)) == n
    decreases n
  {
    if n >= 10 {
      var s := NatToString(n);
      assert s[..|s| - 1] == NatToString(n / 10);
      ParseNatToString(n / 10);
    }
  }

  /* ---------------------------------------------------------------------- */
  /* SolverParameterParser::parse                                            */
  /* ---------------------------------------------------------------------- */

  /**
   * What parse does: returns the parameters, exits the process with a code
   * (0 after `-h`/`--help`, 1 when no problem file was given), or reads past
   * the end of argv when an option lacks its value (common.hpp then builds a
   * string from the terminating null pointer).
   */
  datatype ParseOutcome = Parsed(param: SolverParameter) | Exit(code: int) | MissingValue

  const NoParameter := SolverParameter("", "", map[])

  /** The argument scan from index i on, with the `-ex` mode flag and the options so far. */
  function ParseFrom(args: seq<string>, i: nat, extra: bool, p: SolverParameter): ParseOutcome
    decreases |args| - i
  {
    if i >= |args| then
      if p.problemFile == "" then Exit(1) else Parsed(p)
    else if !extra then
      if args[i] == "-h" || args[i] == "--help" then Exit(0)
      else if args[i] == "-i" then
        if i + 1 >= |args| then MissingValue
        else ParseFrom(args, i + 2, extra, p.(problemFile := args[i + 1]))
      else if args[i] == "-o" then
        if i + 1 >= |args| then MissingValue
        else ParseFrom(args, i + 2, extra, p.(answerFile := args[i + 1]))
      else if args[i] == "-ex" then ParseFrom(args, i + 1, true, p)
      else ParseFrom(args, i + 1, extra, p)
    else
      if i + 1 >= |args| then MissingValue
      else ParseFrom(args, i + 2, extra,
        p.(extraParameter := p.extraParameter[args[i] := args[i + 1]]))
  }

  /** argv[0] is the program name; the scan starts at argv[1]. */
  function ParseSpec(args: seq<string>): ParseOutcome {
    ParseFrom(args, 1, false, NoParameter)
  }

  /** SolverParameterParser::parse over the argument vector. */
  method Parse(args: seq<string>) returns (outcome: ParseOutcome)
    ensures outcome == ParseSpec(args)
    ensures outcome.Parsed? ==> outcome.param.problemFile != ""
  {
    var param := NoParameter;
    var extra := false;
    var i := 1;
    while i < |args|
      invariant 1 <= i
      invariant ParseFrom(args, i, extra, param) == ParseSpec(args)
      decreases |args| - i
    {
      var arg := args[i];
      if !extra {
        if arg == "-h" || arg == "--help" {
          return Exit(0);
        }
        if arg == "-i" {
          if i + 1 >= |args| {
            return MissingValue;
          }
          i := i + 1;
          param := param.(problemFile := args[i]);
        } else if arg == "-o" {
          if i + 1 >= |args| {
            return MissingValue;
          }
          i := i + 1;
          param := param.(answerFile := args[i]);
        } else if arg == "-ex" {
          extra := true;
        }
      } else {
        if i + 1 >= |args| {
          return MissingValue;
        }
        param := param.(extraParameter := param.extraParameter[args[i] := args[i + 1]]);
        i := i + 1;
      }
      i := i + 1;
    }
    if param.problemFile == "" {
      return Exit(1);
    }
    return Parsed(param);
  }

  /** The key/value pairs after `-ex`, flattened as they appear on the command line. */
  function Flatten(pairs: seq<(string, string)>): (s: seq<string>)
    ensures |s| == 2 * |pairs|
  {
    if |pairs| == 0 then [] else [pairs[0].0, pairs[0].1] + Flatten(pairs[1..])
  }

  /** The map the pairs leave behind when inserted in order (a later key overwrites). */
  function InsertAll(m: map<string, string>, pairs: seq<(string, string)>): map<string, string>
    decreases |pairs|
  {
    if |pairs| == 0 then m else InsertAll(m[pairs[0].0 := pairs[0].1], pairs[1..])
  }

  /** A command line that sets every option. */
  function Args(problemFile: string, answerFile: string, pairs: seq<(string, string)>): seq<string> {
    ["solver", "-i", problemFile, "-o", answerFile, "-ex"] + Flatten(pairs)
  }

  lemma {:induction false} ParseExtraPairs(prefix: seq<string>, pairs: seq<(string, string)>, p: SolverParameter)
    requires p.problemFile != ""
    ensures ParseFrom(prefix + Flatten(pairs), |prefix|, true, p)
         == Parsed(p.(extraParameter := InsertAll(p.extraParameter, pairs)))
    decreases |pairs|
  {
    var args := prefix + Flatten(pairs);
    if |pairs| > 0 {
      var prefix' := prefix + [pairs[0].0, pairs[0].1];
      assert args == prefix' + Flatten(pairs[1..]);
      assert args[|prefix|] == pairs[0].0 && args[|prefix| + 1] == pairs[0].1;
      ParseExtraPairs(prefix', pairs[1..], p.(extraParameter := p.extraParameter[pairs[0].0 := pairs[0].1]));
    }
  }

  /** Parsing a complete command line recovers the options it was written from. */
  lemma ParseArgsRoundTrip(problemFile: string, answerFile: string, pairs: seq<(string, string)>)
    requires problemFile != ""
    ensures ParseSpec(Args(problemFile, answerFile, pairs))
         == Parsed(SolverParameter(problemFile, answerFile, InsertAll(map[], pairs)))
  {
    var prefix := ["solver", "-i", problemFile, "-o", answerFile, "-ex"];
    var args := Args(problemFile, answerFile, pairs);
    assert args[..6] == prefix;
    var p := SolverParameter(problemFile, answerFile, map[]);
    ParseExtraPairs(prefix, pairs, p);
    assert args[1] == "-i" && args[3] == "-o" && args[5] == "-ex";
    assert ParseSpec(args) == ParseFrom(args, 3, false, NoParameter.(problemFile := problemFile));
    assert ParseFrom(args, 3, false, NoParameter.(problemFile := problemFile)) == ParseFrom(args, 5, false, p);
    assert ParseFrom(args, 5, false, p) == ParseFrom(args, 6, true, p);
  }

  /** Asking for help exits with code 0 before anything else is looked at. */
  lemma ParseHelp(rest: seq<string>)
    ensures ParseSpec(["solver", "-h"] + rest) == Exit(0)
    ensures ParseSpec(["solver", "--help"] + rest) == Exit(0)
  {
  }

  /** Without `-i` the parser exits with code 1. */
  lemma ParseNoProblemFile(answerFile: string)
    ensures ParseSpec(["solver", "-o", answerFile]) == Exit(1)
    ensures ParseSpec(["solver"]) == Exit(1)
  {
    var args := ["solver", "-o", answerFile];
    assert args[1] == "-o" && args[1] != "-h" && args[1] != "--help" && args[1] != "-i";
    assert ParseSpec(args) == ParseFrom(args, 3, false, NoParameter.(answerFile := answerFile));
  }

  /* ---------------------------------------------------------------------- */
  /* ProblemReader::read                                                     */
  /* ---------------------------------------------------------------------- */

  /** A token stream that holds a problem: 32 board rows, a count, then 8 rows per stone. */
  predicate ProblemTokens(tokens: seq<string>) {
    && |tokens| >= 33
    && (forall y | 0 <= y < 32 :: |tokens[y]| >= 32)
    && IsDigits(tokens[32])
    && |tokens| >= 33 + 8 * ParseNat(tokens[32])
    && (forall k | 33 <= k < 33 + 8 * ParseNat(tokens[32]) :: |tokens[k]| >= 8)
  }

  function Bit(c: char): int {
    if c == '1' then 1 else 0
  }

  /** ProblemReader::read: every cell is 1 exactly when its character is '1'. */
  method Read(tokens: seq<string>) returns (problem: Problem)
    requires ProblemTokens(tokens)
    ensures |problem.field| == 32
    ensures forall y | 0 <= y < 32 :: |problem.field[y]| == 32
    ensures forall y, x | 0 <= y < 32 && 0 <= x < 32 :: problem.field[y][x] == Bit(tokens[y][x])
    ensures |problem.stoneList| == ParseNat(tokens[32])
    ensures forall i | 0 <= i < |problem.stoneList| ::
      |problem.stoneList[i]| == 8 && forall y | 0 <= y < 8 :: |problem.stoneList[i][y]| == 8
    ensures forall i, y, x | 0 <= i < |problem.stoneList| && 0 <= y < 8 && 0 <= x < 8 ::
      problem.stoneList[i][y][x] == Bit(tokens[33 + 8 * i + y][x])
  {
    var field: seq<seq<int>> := [];
    for y := 0 to 32
      invariant |field| == y
      invariant forall y' | 0 <= y' < y :: |field[y']| == 32
      invariant forall y', x | 0 <= y' < y && 0 <= x < 32 :: field[y'][x] == Bit(tokens[y'][x])
    {
      var s := tokens[y];
      var row := [];
      for x := 0 to 32
        invariant |row| == x
        invariant forall x' | 0 <= x' < x :: row[x'] == Bit(s[x'])
      {
        row := row + [if s[x] == '1' then 1 else 0];
      }
      field := field + [row];
    }
    var n := ParseNat(tokens[32]);
    var stones: seq<seq<seq<int>>> := [];
    for i := 0 to n
      invariant |stones| == i
      invariant forall i' | 0 <= i' < i ::
        |stones[i']| == 8 && forall y | 0 <= y < 8 :: |stones[i'][y]| == 8
      invariant forall i', y, x | 0 <= i' < i && 0 <= y < 8 && 0 <= x < 8 ::
        stones[i'][y][x] == Bit(tokens[33 + 8 * i' + y][x])
    {
      var stone: seq<seq<int>> := [];
      for y := 0 to 8
        invariant |stone| == y
        invariant forall y' | 0 <= y' < y :: |stone[y']| == 8
        invariant forall y', x | 0 <= y' < y && 0 <= x < 8 :: stone[y'][x] == Bit(tokens[33 + 8 * i + y'][x])
      {
        var s := tokens[33 + 8 * i + y];
        var row := [];
        for x := 0 to 8
          invariant |row| == x
          invariant forall x' | 0 <= x' < x :: row[x'] == Bit(s[x'])
        {
          row := row + [if s[x] == '1' then 1 else 0];
        }
        stone := stone + [row];
      }
      stones := stones + [stone];
    }
    problem := Problem(field, stones);
  }

  /* ---------------------------------------------------------------------- */
  /* SolverAnswerBuilder                                                     */
  /* ---------------------------------------------------------------------- */

  predicate SortedByIndex(s: seq<AnswerPut>) {
    forall i, j | 0 <= i < j < |s| :: s[i].stoneIndex <= s[j].stoneIndex
  }

  /** Inserts e after every entry whose index is not larger. */
  method InsertByStoneIndex(t: seq<AnswerPut>, e: AnswerPut) returns (u: seq<AnswerPut>)
    requires SortedByIndex(t)
    ensures SortedByIndex(u)
    ensures multiset(u) == multiset(t) + multiset{e}
  {
    var k := 0;
    while k < |t| && t[k].stoneIndex <= e.stoneIndex
      invariant 0 <= k <= |t|
      invariant forall m | 0 <= m < k :: t[m].stoneIndex <= e.stoneIndex
    {
      k := k + 1;
    }
    var front, back := t[..k], t[k..];
    assert t == front + back;
    u := front + [e] + back;
    assert multiset(u) == multiset(front) + multiset{e} + multiset(back);
    InsertSorted(t, e, k);
  }

  lemma InsertSorted(t: seq<AnswerPut>, e: AnswerPut, k: int)
    requires SortedByIndex(t) && 0 <= k <= |t|
    requires forall m | 0 <= m < k :: t[m].stoneIndex <= e.stoneIndex
    requires k < |t| ==> e.stoneIndex < t[k].stoneIndex
    ensures SortedByIndex(t[..k] + [e] + t[k..])
  {
    var u := t[..k] + [e] + t[k..];
    forall i, j | 0 <= i < j < |u|
      ensures u[i].stoneIndex <= u[j].stoneIndex
    {
      if j < k {
        assert u[i] == t[i] && u[j] == t[j];
      } else if j == k {
        assert u[i] == t[i];
      } else if i < k {
        assert u[i] == t[i] && u[j] == t[j - 1];
      } else if i == k {
        assert u[j] == t[j - 1];
      } else {
        assert u[i] == t[i - 1] && u[j] == t[j - 1];
      }
    }
  }

  /** The std::sort of build: any ordering by stone index that permutes the list. */
  method SortByStoneIndex(s: seq<AnswerPut>) returns (t: seq<AnswerPut>)
    ensures SortedByIndex(t)
    ensures multiset(t) == multiset(s)
  {
    t := [];
    for i := 0 to |s|
      invariant SortedByIndex(t)
      invariant multiset(t) == multiset(s[..i])
    {
      t := InsertByStoneIndex(t, s[i]);
      assert s[..i + 1] == s[..i] + [s[i]];
    }
    assert s[..|s|] == s;
  }

  /** SolverAnswerBuilder: collects placements for a problem with stoneMax stones. */
  class SolverAnswerBuilder {
    const stoneMax: int
    var putList: seq<AnswerPut>

    constructor (problem: Problem)
      ensures stoneMax == |problem.stoneList| && putList == []
    {
      stoneMax := |problem.stoneList|;
      putList := [];
    }

    /** put: common.hpp asserts these bounds and appends one entry. */
    method Put(stoneIndex: int, x: int, y: int, flip: int, rotate: int)
      requires stoneIndex < stoneMax
      requires 0 <= rotate < 4
      requires -7 <= x < 32 && -7 <= y < 32
      modifies this
      ensures putList == old(putList) + [AnswerPut(stoneIndex, x, y, flip, rotate)]
    {
      putList := putList + [AnswerPut(stoneIndex, x, y, flip, rotate)];
    }

    /** build: sorts the recorded placements by stone index and returns them. */
    method Build() returns (answer: SolverAnswer)
      modifies this
      ensures SortedByIndex(putList) && multiset(putList) == multiset(old(putList))
      ensures answer == SolverAnswer(putList)
    {
      putList := SortByStoneIndex(putList);
      answer := SolverAnswer(putList);
    }
  }

  /* ---------------------------------------------------------------------- */
  /* SolverAnswerWriter::write                                               */
  /* ---------------------------------------------------------------------- */

  const Crlf: string := "\r\n"

  /** One answer line: `x y F deg` with F = T when flipped, H otherwise. */
  function Line(p: AnswerPut): (s: string)
    ensures |s| >= 2 && s[|s| - 2..] == Crlf
  {
    IntToString(p.x) + " " + IntToString(p.y) + " " + [if p.flip != 0 then 'T' else 'H'] + " "
      + IntToString(p.rotate * 90) + Crlf
  }

  predicate StrictlyIncreasingIndices(s: seq<AnswerPut>) {
    && (forall i | 0 <= i < |s| :: s[i].stoneIndex >= 0)
    && (forall i, j | 0 <= i < j < |s| :: s[i].stoneIndex < s[j].stoneIndex)
  }

  /** The line stone i gets: its placement's line, or an empty line when it was not placed. */
  ghost function LineFor(s: seq<AnswerPut>, i: int): string {
    if exists k :: 0 <= k < |s| && s[k].stoneIndex == i then
      var k :| 0 <= k < |s| && s[k].stoneIndex == i; Line(s[k])
    else Crlf
  }

  /** SolverAnswerWriter::write, producing the lines it sends to the stream. */
  method Write(problem: Problem, answer: SolverAnswer) returns (lines: seq<string>)
    ensures |lines| == |problem.stoneList|
    ensures forall i | 0 <= i < |lines| :: |lines[i]| >= 2 && lines[i][|lines[i]| - 2..] == Crlf
    ensures StrictlyIncreasingIndices(answer.putList) ==>
      forall i | 0 <= i < |lines| :: lines[i] == LineFor(answer.putList, i)
  {
    var list := answer.putList;
    var it := 0;
    lines := [];
    for i := 0 to |problem.stoneList|
      invariant 0 <= it <= |list|
      invariant |lines| == i
      invariant forall i' | 0 <= i' < i :: |lines[i']| >= 2 && lines[i'][|lines[i']| - 2..] == Crlf
      invariant StrictlyIncreasingIndices(list) ==>
        && (forall k | 0 <= k < it :: list[k].stoneIndex < i)
        && (forall k | it <= k < |list| :: list[k].stoneIndex >= i)
        && (forall i' | 0 <= i' < i :: lines[i'] == LineFor(list, i'))
    {
      if it == |list| || list[it].stoneIndex != i {
        lines := lines + [Crlf];
      } else {
        lines := lines + [Line(list[it])];
        it := it + 1;
      }
    }
  }
}
