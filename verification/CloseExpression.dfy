// Matching brackets across the lines of a file (cpplint.py, CloseExpression
// and ReverseCloseExpression).
module CloseExpressions {
  import opened Wrappers
  import opened Brackets

  type Line = seq<char>

  // ---------- The regular expressions ----------

  predicate IsSpace(c: char) { c == ' ' || c == '\t' || c == '\n' || c == '\r' || c == '\U{000B}' || c == '\U{000C}' }

  predicate IsWordChar(c: char) { 'a' <= c <= 'z' || 'A' <= c <= 'Z' || '0' <= c <= '9' || c == '_' }

  // The word "operator" at position k, with only blanks after it.
  predicate OperatorAt(s: Line, k: nat) {
    k + 8 <= |s| && s[k..k + 8] == "operator" && (k == 0 || !IsWordChar(s[k - 1])) &&
    forall i :: k + 8 <= i < |s| ==> IsSpace(s[i])
  }

  predicate EndsWithOperator(s: Line) { exists k: nat :: k < |s| && OperatorAt(s, k) }

  // A spaced ">=" around position i.
  predicate SpacedGreaterEqual(line: Line, i: nat) {
    0 < i && i + 2 < |line| && IsSpace(line[i - 1]) && line[i] == '>' && line[i + 1] == '=' && IsSpace(line[i + 2])
  }

  // ---------- Forward, one line ----------

  // Drops pending angle brackets from the top of the stack.
  function PopAngles(stack: seq<char>, angle: char): (r: seq<char>)
    ensures r == [] || Last(r) != angle
    ensures |r| <= |stack| && r == stack[..|r|] && forall i :: |r| <= i < |stack| ==> stack[i] == angle
  {
    if stack == [] || Last(stack) != angle then stack else PopAngles(Pop(stack), angle)
  }

  // Removes the top of the stack; an empty stack means the match is here.
  function Closed(stack: seq<char>, pos: nat): Outcome
    requires stack != []
  {
    if |stack| == 1 then Found(pos) else More(Pop(stack))
  }

  function EndStep(line: Line, i: nat, stack: seq<char>): Outcome
    requires i < |line|
  {
    var c := line[i];
    if IsOpen(c) then More(stack + [c])
    else if c == '<' then
      if i > 0 && line[i - 1] == '<' then
        if stack != [] && Last(stack) == '<' then (if |stack| == 1 then Fail else More(Pop(stack))) else More(stack)
      else if i > 0 && EndsWithOperator(line[..i]) then More(stack)
      else More(stack + ['<'])
    else if IsClose(c) then
      var s := PopAngles(stack, '<');
      if s == [] || Closer(Last(s)) != c then Fail else Closed(s, i + 1)
    else if c == '>' then
      if i > 0 && (line[i - 1] == '-' || EndsWithOperator(line[..i - 1])) then More(stack)
      else if stack != [] && Last(stack) == '<' then Closed(stack, i + 1)
      else More(stack)
    else if c == ';' then
      var s := PopAngles(stack, '<');
      if s == [] then Fail else More(s)
    else More(stack)
  }

  function EndScan(line: Line, i: nat, stack: seq<char>): Outcome
    requires i <= |line|
    decreases |line| - i
  {
    if i == |line| then More(stack)
    else
      var r := EndStep(line, i, stack);
      if r.More? then EndScan(line, i + 1, r.stack) else r
  }

  lemma EndScanNext(line: Line, i: nat, stack: seq<char>)
    requires i <= |line|
    ensures EndScan(line, i, stack) ==
            if i == |line| then More(stack)
            else var r := EndStep(line, i, stack); if r.More? then EndScan(line, i + 1, r.stack) else r
  {
  }

  // What the code hands back: the position, and the stack unless the search is over.
  function Result(r: Outcome): (int, Option<seq<char>>) {
    match r
    case Found(p) => (p as int, None)
    case Fail => (-1, None)
    case More(s) => (-1, Some(s))
  }

  method PopWhile(stack: seq<char>, angle: char) returns (r: seq<char>)
    ensures r == PopAngles(stack, angle)
  {
    r := stack;
    while r != [] && r[|r| - 1] == angle
      invariant PopAngles(r, angle) == PopAngles(stack, angle)
      decreases |r|
    {
      r := r[..|r| - 1];
    }
  }

  // The position after the match, or -1 and the stack at the end of the line;
  // None for the stack when the search is over.
  method FindEndOfExpressionInLine(line: Line, startpos: nat, stack: seq<char>)
    returns (pos: int, stack': Option<seq<char>>)
    requires startpos <= |line|
    ensures (pos, stack') == Result(EndScan(line, startpos, stack))
  {
    hide EndScan, EndsWithOperator, PopAngles;
    var s := stack;
    var i := startpos;
    while i < |line|
      invariant startpos <= i <= |line| && EndScan(line, i, s) == EndScan(line, startpos, stack)
    {
      EndScanNext(line, i, s);
      var c := line[i];
      if c in "([{" {
        s := s + [c];
      } else if c == '<' {
        if i > 0 && line[i - 1] == '<' {
          if s != [] && s[|s| - 1] == '<' {
            s := s[..|s| - 1];
            if s == [] {
              return -1, None;
            }
          }
        } else if i > 0 && EndsWithOperator(line[..i]) {
        } else {
          s := s + ['<'];
        }
      } else if c in ")]}" {
        s := PopWhile(s, '<');
        if s == [] {
          return -1, None;
        }
        if (s[|s| - 1] == '(' && c == ')') || (s[|s| - 1] == '[' && c == ']') || (s[|s| - 1] == '{' && c == '}') {
          s := s[..|s| - 1];
          if s == [] {
            return i + 1, None;
          }
        } else {
          return -1, None;
        }
      } else if c == '>' {
        if i > 0 && (line[i - 1] == '-' || EndsWithOperator(line[..i - 1])) {
        } else if s != [] {
          if s[|s| - 1] == '<' {
            s := s[..|s| - 1];
            if s == [] {
              return i + 1, None;
            }
          }
        }
      } else if c == ';' {
        s := PopWhile(s, '<');
        if s == [] {
          return -1, None;
        }
      }
      i := i + 1;
    }
    EndScanNext(line, i, s);
    return -1, Some(s);
  }

  // ---------- Forward, over the lines ----------

  // A place in the file.
  datatype Place = Place(line: nat, pos: nat)

  function EndLines(lines: seq<Line>, l: nat, i: nat, stack: seq<char>): Option<Place>
    requires l < |lines| && i <= |lines[l]|
    decreases |lines| - l
  {
    match EndScan(lines[l], i, stack)
    case Found(p) => Some(Place(l, p))
    case Fail => None
    case More(s) => if s != [] && l < |lines| - 1 then EndLines(lines, l + 1, 0, s) else None
  }

  predicate StartsExpression(line: Line, pos: nat)
    requires pos < |line|
  {
    (IsOpen(line[pos]) || line[pos] == '<') &&
    !(line[pos] == '<' && pos + 1 < |line| && (line[pos + 1] == '<' || line[pos + 1] == '='))
  }

  // Where the expression that starts here ends; None if it does not.
  function CloseOf(lines: seq<Line>, l: nat, pos: nat): Option<Place>
    requires l < |lines| && pos < |lines[l]|
  {
    if StartsExpression(lines[l], pos) then EndLines(lines, l, pos, []) else None
  }

  // The line, its number and the position just past the closing bracket; the
  // number of lines and -1 if there is none.
  method CloseExpression(lines: seq<Line>, linenum: nat, pos: nat) returns (line: Line, num: nat, end: int)
    requires linenum < |lines| && pos < |lines[linenum]|
    ensures var r := CloseOf(lines, linenum, pos);
            if r.Some? then num == r.value.line < |lines| && end == r.value.pos && line == lines[num]
            else num == |lines| && end == -1
  {
    hide EndStep, EndScan;
    line := lines[linenum];
    var c := line[pos];
    if c !in "({[<" || (c == '<' && pos + 1 < |line| && (line[pos + 1] == '<' || line[pos + 1] == '=')) {
      return line, |lines|, -1;
    }
    var endPos, stack := FindEndOfExpressionInLine(line, pos, []);
    if endPos > -1 {
      return line, linenum, endPos;
    }
    num := linenum;
    while stack.Some? && stack.value != [] && num < |lines| - 1
      invariant linenum <= num < |lines| && line == lines[num]
      invariant CloseOf(lines, linenum, pos) ==
                if stack.Some? && stack.value != [] && num < |lines| - 1 then
                  EndLines(lines, num + 1, 0, stack.value) else None
      decreases |lines| - num
    {
      num := num + 1;
      line := lines[num];
      endPos, stack := FindEndOfExpressionInLine(line, 0, stack.value);
      if endPos > -1 {
        return line, num, endPos;
      }
    }
    return line, |lines|, -1;
  }

  // ---------- Backward, one line ----------

  // The outcome at position i, and the position to go on with.
  function StartStep(line: Line, i: nat, stack: seq<char>): (Outcome, int)
    requires i < |line|
  {
    var c := line[i];
    if IsClose(c) then (More(stack + [c]), i - 1)
    else if c == '>' then
      if i > 0 && (line[i - 1] == '-' || SpacedGreaterEqual(line, i) || EndsWithOperator(line[..i]))
      then (More(stack), i - 2)
      else (More(stack + ['>']), i - 1)
    else if c == '<' then
      if i > 0 && line[i - 1] == '<' then (More(stack), i - 2)
      else if stack != [] && Last(stack) == '>' then (Closed(stack, i), i - 1)
      else (More(stack), i - 1)
    else if IsOpen(c) then
      var s := PopAngles(stack, '>');
      if s == [] || Closer(c) != Last(s) then (Fail, i - 1) else (Closed(s, i), i - 1)
    else if c == ';' then
      var s := PopAngles(stack, '>');
      if s == [] then (Fail, i - 1) else (More(s), i - 1)
    else (More(stack), i - 1)
  }

  function StartScan(line: Line, i: int, stack: seq<char>): Outcome
    requires i < |line|
    decreases i + 2
  {
    if i < 0 then More(stack)
    else
      var (r, j) := StartStep(line, i, stack);
      if r.More? then StartScan(line, j, r.stack) else r
  }

  lemma StartScanNext(line: Line, i: int, stack: seq<char>)
    requires i < |line|
    ensures StartScan(line, i, stack) ==
            if i < 0 then More(stack)
            else var (r, j) := StartStep(line, i, stack); if r.More? then StartScan(line, j, r.stack) else r
  {
  }

  method FindStartOfExpressionInLine(line: Line, endpos: int, stack: seq<char>)
    returns (pos: int, stack': Option<seq<char>>)
    requires -1 <= endpos < |line|
    ensures (pos, stack') == Result(StartScan(line, endpos, stack))
  {
    hide StartScan, EndsWithOperator, SpacedGreaterEqual, PopAngles;
    var s := stack;
    var i := endpos;
    while i >= 0
      invariant i < |line| && StartScan(line, i, s) == StartScan(line, endpos, stack)
      decreases i + 2
    {
      StartScanNext(line, i, s);
      var c := line[i];
      if c in ")]}" {
        s := s + [c];
      } else if c == '>' {
        if i > 0 && (line[i - 1] == '-' || SpacedGreaterEqual(line, i) || EndsWithOperator(line[..i])) {
          i := i - 1;
        } else {
          s := s + ['>'];
        }
      } else if c == '<' {
        if i > 0 && line[i - 1] == '<' {
          i := i - 1;
        } else if s != [] && s[|s| - 1] == '>' {
          s := s[..|s| - 1];
          if s == [] {
            return i, None;
          }
        }
      } else if c in "([{" {
        s := PopWhile(s, '>');
        if s == [] {
          return -1, None;
        }
        if (c == '(' && s[|s| - 1] == ')') || (c == '[' && s[|s| - 1] == ']') || (c == '{' && s[|s| - 1] == '}') {
          s := s[..|s| - 1];
          if s == [] {
            return i, None;
          }
        } else {
          return -1, None;
        }
      } else if c == ';' {
        s := PopWhile(s, '>');
        if s == [] {
          return -1, None;
        }
      }
      i := i - 1;
    }
    StartScanNext(line, i, s);
    return -1, Some(s);
  }

  // ---------- Backward, over the lines ----------

  function StartLines(lines: seq<Line>, l: nat, i: int, stack: seq<char>): Option<Place>
    requires l < |lines| && i < |lines[l]|
    decreases l
  {
    match StartScan(lines[l], i, stack)
    case Found(p) => Some(Place(l, p))
    case Fail => None
    case More(s) => if s != [] && l > 0 then StartLines(lines, l - 1, |lines[l - 1]| - 1, s) else None
  }

  // Where the expression that ends here starts; None if it does not.
  function OpenOf(lines: seq<Line>, l: nat, pos: nat): Option<Place>
    requires l < |lines| && pos < |lines[l]|
  {
    if IsClose(lines[l][pos]) || lines[l][pos] == '>' then StartLines(lines, l, pos, []) else None
  }

  // The line, its number and the position of the opening bracket; 0 and -1 if
  // there is none.
  method ReverseCloseExpression(lines: seq<Line>, linenum: nat, pos: nat) returns (line: Line, num: nat, start: int)
    requires linenum < |lines| && pos < |lines[linenum]|
    ensures var r := OpenOf(lines, linenum, pos);
            if r.Some? then num == r.value.line < |lines| && start == r.value.pos && line == lines[num]
            else num == 0 && start == -1
  {
    hide StartStep, StartScan;
    line := lines[linenum];
    if line[pos] !in ")}]>" {
      return line, 0, -1;
    }
    var startPos, stack := FindStartOfExpressionInLine(line, pos, []);
    if startPos > -1 {
      return line, linenum, startPos;
    }
    num := linenum;
    while stack.Some? && stack.value != [] && num > 0
      invariant num < |lines| && line == lines[num]
      invariant OpenOf(lines, linenum, pos) ==
                if stack.Some? && stack.value != [] && num > 0 then
                  StartLines(lines, num - 1, |lines[num - 1]| - 1, stack.value)
                else None
      decreases num
    {
      num := num - 1;
      line := lines[num];
      startPos, stack := FindStartOfExpressionInLine(line, |line| - 1, stack.value);
      if startPos > -1 {
        return line, num, startPos;
      }
    }
    return line, 0, -1;
  }

  // ---------- What is found closes what was given ----------

  lemma EndStepBottom(line: Line, i: nat, stack: seq<char>)
    requires i < |line| && stack != []
    ensures var r := EndStep(line, i, stack);
            (r.More? ==> r.stack != [] && r.stack[0] == stack[0]) &&
            (r.Found? ==> r.pos == i + 1 && line[i] == Closer(stack[0]))
  {
    hide EndsWithOperator;
  }

  lemma {:induction false} EndScanBottom(line: Line, i: nat, stack: seq<char>)
    requires i <= |line| && stack != []
    ensures var r := EndScan(line, i, stack);
            (r.More? ==> r.stack != [] && r.stack[0] == stack[0]) &&
            (r.Found? ==> i < r.pos <= |line| && line[r.pos - 1] == Closer(stack[0]))
    decreases |line| - i
  {
    hide EndStep;
    if i < |line| {
      EndStepBottom(line, i, stack);
      var r := EndStep(line, i, stack);
      if r.More? { EndScanBottom(line, i + 1, r.stack); }
    }
  }

  lemma {:induction false} EndLinesBottom(lines: seq<Line>, l: nat, i: nat, stack: seq<char>)
    requires l < |lines| && i <= |lines[l]| && stack != []
    ensures var r := EndLines(lines, l, i, stack);
            r.Some? ==>
              l <= r.value.line < |lines| && 0 < r.value.pos <= |lines[r.value.line]| &&
              lines[r.value.line][r.value.pos - 1] == Closer(stack[0])
    decreases |lines| - l
  {
    hide EndScan;
    EndScanBottom(lines[l], i, stack);
    var r := EndScan(lines[l], i, stack);
    if r.More? && l < |lines| - 1 { EndLinesBottom(lines, l + 1, 0, r.stack); }
  }

  // The '<' of a shift operator or of an operator's name is not pushed.
  predicate IsPushed(line: Line, pos: nat)
    requires pos < |line|
  {
    IsOpen(line[pos]) || (line[pos] == '<' && !(pos > 0 && (line[pos - 1] == '<' || EndsWithOperator(line[..pos]))))
  }

  // The first bracket from position i on that is pushed; None if a closing
  // bracket, a semicolon or the end of the line comes first.
  function FirstPushed(line: Line, i: nat): (q: Option<nat>)
    requires i <= |line|
    ensures q.Some? ==> i <= q.value < |line| && IsPushed(line, q.value)
    decreases |line| - i
  {
    if i == |line| then None
    else if IsPushed(line, i) then Some(i)
    else if IsClose(line[i]) || line[i] == ';' then None
    else FirstPushed(line, i + 1)
  }

  lemma EndStepFromNothing(line: Line, i: nat)
    requires i < |line|
    ensures EndStep(line, i, []) ==
            if IsPushed(line, i) then More([line[i]])
            else if IsClose(line[i]) || line[i] == ';' then Fail
            else More([])
  {
    hide EndsWithOperator;
    assert [] + [line[i]] == [line[i]];
  }

  // A scan with nothing pending starts at the first bracket that is pushed.
  lemma {:induction false} EndScanFromNothing(line: Line, i: nat)
    requires i <= |line|
    ensures var q := FirstPushed(line, i);
            if q.Some? then EndScan(line, i, []) == EndScan(line, q.value + 1, [line[q.value]])
            else EndScan(line, i, []) == Fail || EndScan(line, i, []) == More([])
    decreases |line| - i
  {
    hide EndStep, IsPushed;
    if i < |line| {
      EndStepFromNothing(line, i);
      if !IsPushed(line, i) && !IsClose(line[i]) && line[i] != ';' { EndScanFromNothing(line, i + 1); }
    }
  }

  lemma EndLinesFromNothing(lines: seq<Line>, l: nat, i: nat)
    requires l < |lines| && i <= |lines[l]|
    ensures var q := FirstPushed(lines[l], i);
            EndLines(lines, l, i, []) ==
            if q.Some? then EndLines(lines, l, q.value + 1, [lines[l][q.value]]) else None
  {
    hide EndScan, FirstPushed;
    EndScanFromNothing(lines[l], i);
  }

  // What CloseExpression answers for the bracket that is first pushed is what
  // it answers for the given one.
  lemma ClosesFirstPushed(lines: seq<Line>, l: nat, pos: nat)
    requires l < |lines| && pos < |lines[l]| && StartsExpression(lines[l], pos)
    ensures var q := FirstPushed(lines[l], pos);
            (q.None? ==> CloseOf(lines, l, pos) == None) &&
            (q.Some? && StartsExpression(lines[l], q.value) ==> CloseOf(lines, l, pos) == CloseOf(lines, l, q.value))
  {
    hide EndScan;
    EndLinesFromNothing(lines, l, pos);
    var q := FirstPushed(lines[l], pos);
    if q.Some? { EndLinesFromNothing(lines, l, q.value); }
  }

  // The place is just past a bracket c.
  predicate JustPast(lines: seq<Line>, p: Place, c: char) {
    p.line < |lines| && 0 < p.pos <= |lines[p.line]| && lines[p.line][p.pos - 1] == c
  }

  // On any lines, templates and operators included: nothing is returned if no
  // bracket is pushed, and otherwise what is returned is just past a bracket of
  // the kind that closes the given one, if and only if the bracket that is first
  // pushed is of the same kind.
  lemma ClosesSameKind(lines: seq<Line>, l: nat, pos: nat)
    requires l < |lines| && pos < |lines[l]| && StartsExpression(lines[l], pos)
    ensures var r, q := CloseOf(lines, l, pos), FirstPushed(lines[l], pos);
            (q.None? ==> r.None?) &&
            (r.Some? ==>
               (JustPast(lines, r.value, Closer(lines[l][pos])) <==> lines[l][q.value] == lines[l][pos]))
    ensures CloseOf(lines, l, pos).Some? ==> l <= CloseOf(lines, l, pos).value.line
  {
    hide EndsWithOperator, EndScan, FirstPushed;
    EndLinesFromNothing(lines, l, pos);
    var q := FirstPushed(lines[l], pos);
    if q.Some? { EndLinesBottom(lines, l, q.value + 1, [lines[l][q.value]]); }
  }

  // Where the scan with the given bracket on the stack ends: the end of the
  // group that this bracket starts.
  function OwnEnd(lines: seq<Line>, l: nat, pos: nat): Option<Place>
    requires l < |lines| && pos < |lines[l]|
  {
    EndLines(lines, l, pos + 1, [lines[l][pos]])
  }

  lemma BelowStep(line: Line, i: nat, stack: seq<char>)
    requires i < |line| && stack != []
    ensures var r, r' := EndStep(line, i, stack), EndStep(line, i, ['<'] + stack);
            (r.More? ==> r.stack != [] && r' == More(['<'] + r.stack)) && (r.Found? ==> r' == More(['<']))
  {
    hide EndsWithOperator;
    BelowPop(stack, '<');
    assert Pop(['<'] + stack) == ['<'] + Pop(stack);
    assert ['<'] + (stack + [line[i]]) == ['<'] + stack + [line[i]];
  }

  lemma {:induction false} BelowPop(stack: seq<char>, angle: char)
    ensures PopAngles(stack, angle) != [] ==>
              PopAngles([angle] + stack, angle) == [angle] + PopAngles(stack, angle) &&
              Last([angle] + PopAngles(stack, angle)) == Last(PopAngles(stack, angle)) &&
              Pop([angle] + PopAngles(stack, angle)) == [angle] + Pop(PopAngles(stack, angle))
  {
    if stack != [] && Last(stack) == angle {
      BelowPop(Pop(stack), angle);
      assert Pop([angle] + stack) == [angle] + Pop(stack);
    }
  }

  // With one more '<' at the bottom the scan goes on where it ended.
  lemma {:induction false} BelowScan(line: Line, i: nat, stack: seq<char>)
    requires i <= |line| && stack != []
    ensures var r, r' := EndScan(line, i, stack), EndScan(line, i, ['<'] + stack);
            (r.More? ==> r.stack != [] && r' == More(['<'] + r.stack)) &&
            (r.Found? ==> i < r.pos <= |line| && r' == EndScan(line, r.pos, ['<']))
    decreases |line| - i
  {
    hide EndStep;
    if i < |line| {
      BelowStep(line, i, stack);
      EndScanBottom(line, i, stack);
      var r := EndStep(line, i, stack);
      if r.More? {
        BelowScan(line, i + 1, r.stack);
      } else if r.Found? {
        EndStepBottom(line, i, stack);
      }
    }
  }

  predicate Before(p: Place, p': Place) { p.line < p'.line || (p.line == p'.line && p.pos < p'.pos) }

  // An end is never before the place where its scan started.
  lemma {:induction false} EndIsAfter(lines: seq<Line>, l: nat, i: nat, stack: seq<char>)
    requires l < |lines| && i <= |lines[l]| && stack != []
    ensures var r := EndLines(lines, l, i, stack); r.Some? ==> Before(Place(l, i), r.value)
    decreases |lines| - l
  {
    hide EndScan;
    EndScanBottom(lines[l], i, stack);
    var r := EndScan(lines[l], i, stack);
    if r.More? && l < |lines| - 1 { EndIsAfter(lines, l + 1, 0, r.stack); }
  }

  // One more '<' at the bottom makes the end later, if there is one.
  lemma {:induction false} BelowLines(lines: seq<Line>, l: nat, i: nat, stack: seq<char>)
    requires l < |lines| && i <= |lines[l]| && stack != []
    ensures var r, r' := EndLines(lines, l, i, stack), EndLines(lines, l, i, ['<'] + stack);
            r.Some? && r'.Some? ==> Before(r.value, r'.value)
    decreases |lines| - l
  {
    hide EndScan;
    BelowScan(lines[l], i, stack);
    var r := EndScan(lines[l], i, stack);
    if r.More? && l < |lines| - 1 {
      BelowLines(lines, l + 1, 0, r.stack);
    } else if r.Found? {
      EndIsAfter(lines, l, r.pos, ['<']);
    }
  }

  // Up to the bracket that is first pushed, a '<' on the stack is closed,
  // given up or still there.
  lemma {:induction false} OwnUntilPushed(line: Line, i: nat)
    requires i <= |line| && FirstPushed(line, i).Some?
    ensures var q, r := FirstPushed(line, i).value, EndScan(line, i, ['<']);
            r == Fail || (r.Found? && r.pos <= q) || r == EndScan(line, q + 1, ['<'] + [line[q]])
    decreases |line| - i
  {
    hide EndsWithOperator;
    EndScanNext(line, i, ['<']);
    if !IsPushed(line, i) { OwnUntilPushed(line, i + 1); }
  }

  // The end that CloseExpression returns is the end of the given bracket's own
  // group if and only if that bracket is pushed.
  lemma ClosesOwn(lines: seq<Line>, l: nat, pos: nat)
    requires l < |lines| && pos < |lines[l]| && StartsExpression(lines[l], pos)
    ensures var r, own := CloseOf(lines, l, pos), OwnEnd(lines, l, pos);
            (IsPushed(lines[l], pos) ==> r == own) && (!IsPushed(lines[l], pos) && r.Some? ==> r != own)
  {
    hide EndsWithOperator, EndScan, FirstPushed;
    var line, q := lines[l], FirstPushed(lines[l], pos);
    EndLinesFromNothing(lines, l, pos);
    if IsPushed(line, pos) {
      OpenIsPushed(line, pos);
    } else if q.Some? {
      PushedLater(line, pos);
      OwnUntilPushed(line, pos + 1);
      EndIsAfter(lines, l, q.value + 1, [line[q.value]]);
      BelowLines(lines, l, q.value + 1, [line[q.value]]);
    }
  }

  lemma PushedLater(line: Line, pos: nat)
    requires pos < |line| && !IsPushed(line, pos) && FirstPushed(line, pos).Some?
    ensures FirstPushed(line, pos + 1) == FirstPushed(line, pos)
  {
  }

  lemma OpenIsPushed(line: Line, pos: nat)
    requires pos < |line| && IsPushed(line, pos)
    ensures FirstPushed(line, pos) == Some(pos)
  {
  }

  lemma FirstStep(lines: seq<Line>, l: nat, pos: nat)
    requires l < |lines| && pos < |lines[l]| && EndStep(lines[l], pos, []) == More([lines[l][pos]])
    ensures EndLines(lines, l, pos, []) == EndLines(lines, l, pos + 1, [lines[l][pos]])
  {
    hide EndStep;
  }

  // From the second '<' of a shift operator, the end of an unrelated group is returned.
  lemma ShiftOperatorIsNotClosed()
    ensures var lines := ["a<<(b)"];
            CloseOf(lines, 0, 2) == Some(Place(0, 6)) && lines[0][5] == ')' != Closer(lines[0][2])
  {
    hide EndScan, EndsWithOperator;
    var line := "a<<(b)";
    assert [] + ['('] == ['('];
    EndScanNext(line, 2, []);
    EndScanNext(line, 3, []);
    EndScanNext(line, 4, ['(']);
    EndScanNext(line, 5, ['(']);
  }

  // ---------- What each character does ----------

  // n pending angle brackets.
  function Angles(n: nat, angle: char): (r: seq<char>)
    ensures |r| == n && forall i :: 0 <= i < n ==> r[i] == angle
  {
    seq(n, _ => angle)
  }

  // A stack whose last bracket other than pending angles is c.
  function Pending(base: seq<char>, c: char, n: nat, angle: char): seq<char> { base + [c] + Angles(n, angle) }

  lemma {:induction false} PopsAngles(base: seq<char>, n: nat, angle: char)
    requires base == [] || Last(base) != angle
    ensures PopAngles(base + Angles(n, angle), angle) == base
  {
    var s := base + Angles(n, angle);
    if n == 0 {
      assert s == base;
    } else {
      assert Pop(s) == base + Angles(n - 1, angle);
      PopsAngles(base, n - 1, angle);
    }
  }

  predicate Blank(c: char) { c in " \t\n\r\U{000B}\U{000C}" }

  predicate WordCharacter(c: char) {
    c in "abcdefghijklmnopqrstuvwxyz" || c in "ABCDEFGHIJKLMNOPQRSTUVWXYZ" || c in "0123456789_"
  }

  lemma SpaceIsBlank(c: char)
    ensures IsSpace(c) <==> Blank(c)
  {
  }

  lemma WordCharacters(c: char)
    ensures IsWordChar(c) <==> WordCharacter(c)
  {
  }

  predicate Blanks(s: Line) { forall i :: 0 <= i < |s| ==> Blank(s[i]) }

  // The word "operator" with blanks after it ends with an operator's name if
  // and only if it does not follow a word character ...
  lemma OperatorName(p: Line, blanks: Line)
    requires Blanks(blanks)
    ensures EndsWithOperator(p + "operator" + blanks) <==> p == [] || !WordCharacter(p[|p| - 1])
  {
    hide IsSpace, IsWordChar, WordCharacter, Blank;
    var s, k := p + "operator" + blanks, |p|;
    assert s[k..k + 8] == "operator";
    if k > 0 {
      WordCharacters(p[k - 1]);
      assert s[k - 1] == p[k - 1];
    }
    forall i | k + 8 <= i < |s| ensures IsSpace(s[i]) {
      assert s[i] == blanks[i - k - 8];
      SpaceIsBlank(s[i]);
    }
    forall k': nat | k' < |s| && OperatorAt(s, k') ensures k' == k { OnlyOperator(p, blanks, k'); }
    assert OperatorAt(s, k) <==> p == [] || !WordCharacter(p[k - 1]);
  }

  lemma OnlyOperator(p: Line, blanks: Line, k: nat)
    requires Blanks(blanks) && OperatorAt(p + "operator" + blanks, k)
    ensures k == |p|
  {
    hide IsWordChar, WordCharacter, Blank, IsSpace;
    var s := p + "operator" + blanks;
    RIsNoBlank();
    assert s[|p| + 7] == 'r';
  }

  lemma RIsNoBlank()
    ensures !IsSpace('r') && !Blank('r')
  {
  }

  // ... and no other text does.
  lemma OperatorNameParts(s: Line) returns (p: Line, blanks: Line)
    requires EndsWithOperator(s)
    ensures s == p + "operator" + blanks && Blanks(blanks)
  {
    hide IsWordChar, WordCharacter, Blank, IsSpace;
    var k: nat :| k < |s| && OperatorAt(s, k);
    p, blanks := s[..k], s[k + 8..];
    assert s == p + s[k..k + 8] + blanks;
    forall i | 0 <= i < |blanks| ensures Blank(blanks[i]) {
      assert IsSpace(s[k + 8 + i]);
      SpaceIsBlank(blanks[i]);
    }
  }

  // An expression starts with one of ( { [ and <, but not with << or <=.
  lemma WhatStarts(lines: seq<Line>, l: nat, pos: nat)
    requires l < |lines| && pos < |lines[l]|
    ensures var line := lines[l];
            CloseOf(lines, l, pos) ==
            if line[pos] !in "({[<" || (line[pos] == '<' && pos + 1 < |line| && line[pos + 1] in "<=") then None
            else EndLines(lines, l, pos, [])
    ensures OpenOf(lines, l, pos) == if lines[l][pos] !in ")}]>" then None else StartLines(lines, l, pos, [])
  {
    hide EndLines, StartLines;
  }

  predicate Pair(open: char, close: char) {
    (open == '(' && close == ')') || (open == '[' && close == ']') || (open == '{' && close == '}')
  }

  // A bracket of another kind is pushed.
  lemma OpenRule(line: Line, i: nat, stack: seq<char>)
    requires i < |line| && line[i] in "([{"
    ensures EndScan(line, i, stack) == EndScan(line, i + 1, stack + [line[i]])
  {
    hide EndScan, EndsWithOperator, PopAngles;
    EndScanNext(line, i, stack);
  }

  // A closing bracket drops the pending '<' and takes its opening one off the
  // stack, which is the end if it is the last one; it fails if another one ...
  lemma CloseRule(line: Line, i: nat, base: seq<char>, n: nat, c: char)
    requires i < |line| && line[i] in ")]}" && c in "([{"
    ensures EndScan(line, i, Pending(base, c, n, '<')) ==
            if !Pair(c, line[i]) then Fail else if base == [] then Found(i + 1) else EndScan(line, i + 1, base)
  {
    hide EndScan, EndsWithOperator, PopAngles;
    EndScanNext(line, i, Pending(base, c, n, '<'));
    PopsAngles(base + [c], n, '<');
    assert Pop(base + [c]) == base;
  }

  // ... or none is there.
  lemma LonelyCloseRule(line: Line, i: nat, n: nat)
    requires i < |line| && line[i] in ")]}"
    ensures EndScan(line, i, Angles(n, '<')) == Fail
  {
    hide EndScan, EndsWithOperator, PopAngles;
    EndScanNext(line, i, Angles(n, '<'));
    PopsAngles([], n, '<');
    assert [] + Angles(n, '<') == Angles(n, '<');
  }

  // A '<' is pushed, unless an operator's name ends there; the second one of a
  // shift takes the first one off the stack and fails if nothing is left.
  lemma LessRules(line: Line, i: nat, stack: seq<char>)
    requires i < |line| && line[i] == '<'
    ensures EndScan(line, i, stack) ==
            if i > 0 && line[i - 1] == '<' then
              if stack == ['<'] then Fail
              else if stack != [] && stack[|stack| - 1] == '<' then EndScan(line, i + 1, stack[..|stack| - 1])
              else EndScan(line, i + 1, stack)
            else if i > 0 && EndsWithOperator(line[..i]) then EndScan(line, i + 1, stack)
            else EndScan(line, i + 1, stack + ['<'])
  {
    hide EndScan, EndsWithOperator;
    EndScanNext(line, i, stack);
  }

  // The '>' of an arrow or after an operator's name does nothing; any other one
  // takes a pending '<' off the stack, which is the end if it is the last one.
  lemma GreaterRules(line: Line, i: nat, stack: seq<char>)
    requires i < |line| && line[i] == '>'
    ensures EndScan(line, i, stack) ==
            if i > 0 && (line[i - 1] == '-' || EndsWithOperator(line[..i - 1])) then EndScan(line, i + 1, stack)
            else if stack == ['<'] then Found(i + 1)
            else if stack != [] && stack[|stack| - 1] == '<' then EndScan(line, i + 1, stack[..|stack| - 1])
            else EndScan(line, i + 1, stack)
  {
    hide EndScan, EndsWithOperator;
    EndScanNext(line, i, stack);
  }

  // A semicolon drops the pending '<' and fails if nothing is left; a character
  // that is no bracket and no semicolon does nothing.
  lemma OtherRules(line: Line, i: nat, base: seq<char>, n: nat, stack: seq<char>)
    requires i < |line| && line[i] !in "([{<>}])"
    ensures line[i] == ';' && (base == [] || base[|base| - 1] != '<') ==>
              EndScan(line, i, base + Angles(n, '<')) == if base == [] then Fail else EndScan(line, i + 1, base)
    ensures line[i] != ';' ==> EndScan(line, i, stack) == EndScan(line, i + 1, stack)
  {
    hide EndScan, EndsWithOperator;
    EndScanNext(line, i, base + Angles(n, '<'));
    EndScanNext(line, i, stack);
    if base == [] || base[|base| - 1] != '<' { PopsAngles(base, n, '<'); }
  }

  lemma {:induction false} EndScanAtCloser(line: Line, i: nat, stack: seq<char>)
    requires i <= |line|
    ensures var r := EndScan(line, i, stack);
            r.Found? ==>
              i < r.pos <= |line| && line[r.pos - 1] in ")]}>" &&
              (line[r.pos - 1] == '>' && r.pos >= 2 ==>
                 line[r.pos - 2] != '-' && !EndsWithOperator(line[..r.pos - 2]))
    decreases |line| - i
  {
    hide EndsWithOperator, PopAngles;
    if i < |line| {
      var r := EndStep(line, i, stack);
      if r.More? { EndScanAtCloser(line, i + 1, r.stack); }
    }
  }

  lemma {:induction false} EndLinesAtCloser(lines: seq<Line>, l: nat, i: nat, stack: seq<char>)
    requires l < |lines| && i <= |lines[l]|
    ensures var r := EndLines(lines, l, i, stack);
            r.Some? ==>
              r.value.line < |lines| && 0 < r.value.pos <= |lines[r.value.line]| &&
              var line, p := lines[r.value.line], r.value.pos;
              line[p - 1] in ")]}>" &&
              (line[p - 1] == '>' && p >= 2 ==> line[p - 2] != '-' && !EndsWithOperator(line[..p - 2]))
    decreases |lines| - l
  {
    hide EndScan, EndsWithOperator;
    EndScanAtCloser(lines[l], i, stack);
    var r := EndScan(lines[l], i, stack);
    if r.More? && r.stack != [] && l < |lines| - 1 { EndLinesAtCloser(lines, l + 1, 0, r.stack); }
  }

  // Whatever CloseExpression returns is just past a closing bracket or a '>' that
  // is neither part of an arrow nor after an operator's name.
  lemma EndIsCloser(lines: seq<Line>, l: nat, pos: nat)
    requires l < |lines| && pos < |lines[l]| && CloseOf(lines, l, pos).Some?
    ensures var p := CloseOf(lines, l, pos).value;
            p.line < |lines| && 0 < p.pos <= |lines[p.line]| &&
            var line := lines[p.line];
            line[p.pos - 1] in ")]}>" &&
            (line[p.pos - 1] == '>' && p.pos >= 2 ==>
               line[p.pos - 2] != '-' && !EndsWithOperator(line[..p.pos - 2]))
  {
    hide EndLines, EndsWithOperator;
    EndLinesAtCloser(lines, l, pos, []);
  }

  // ---------- What each character does, backward ----------

  // Backward, brackets change their roles.
  lemma CloseRuleBack(line: Line, i: nat, stack: seq<char>)
    requires i < |line| && line[i] in ")]}"
    ensures StartScan(line, i, stack) == StartScan(line, i - 1, stack + [line[i]])
  {
    hide StartScan, EndsWithOperator, SpacedGreaterEqual, PopAngles;
    StartScanNext(line, i, stack);
  }

  lemma OpenRuleBack(line: Line, i: nat, base: seq<char>, n: nat, c: char)
    requires i < |line| && line[i] in "([{" && c in ")]}"
    ensures StartScan(line, i, Pending(base, c, n, '>')) ==
            if !Pair(line[i], c) then Fail else if base == [] then Found(i) else StartScan(line, i - 1, base)
  {
    hide StartScan, EndsWithOperator, SpacedGreaterEqual, PopAngles;
    StartScanNext(line, i, Pending(base, c, n, '>'));
    PopsAngles(base + [c], n, '>');
    assert Pop(base + [c]) == base;
  }

  lemma LonelyOpenRuleBack(line: Line, i: nat, n: nat)
    requires i < |line| && line[i] in "([{"
    ensures StartScan(line, i, Angles(n, '>')) == Fail
  {
    hide StartScan, EndsWithOperator, SpacedGreaterEqual, PopAngles;
    StartScanNext(line, i, Angles(n, '>'));
    PopsAngles([], n, '>');
    assert [] + Angles(n, '>') == Angles(n, '>');
  }

  // The '>' of an arrow, of a spaced ">=" or of an operator's name is skipped
  // with the character before it; any other one is pushed.
  lemma GreaterRulesBack(line: Line, i: nat, stack: seq<char>)
    requires i < |line| && line[i] == '>'
    ensures StartScan(line, i, stack) ==
            if i > 0 &&
               (line[i - 1] == '-' || EndsWithOperator(line[..i]) ||
                (i + 2 < |line| && Blank(line[i - 1]) && line[i + 1] == '=' && Blank(line[i + 2])))
            then StartScan(line, i - 2, stack)
            else StartScan(line, i - 1, stack + ['>'])
  {
    hide StartScan, EndsWithOperator;
    StartScanNext(line, i, stack);
  }

  // Both characters of a shift are skipped; any other '<' takes a pending '>'
  // off the stack, which is the start if it is the last one.
  lemma LessRulesBack(line: Line, i: nat, stack: seq<char>)
    requires i < |line| && line[i] == '<'
    ensures StartScan(line, i, stack) ==
            if i > 0 && line[i - 1] == '<' then StartScan(line, i - 2, stack)
            else if stack == ['>'] then Found(i)
            else if stack != [] && stack[|stack| - 1] == '>' then StartScan(line, i - 1, stack[..|stack| - 1])
            else StartScan(line, i - 1, stack)
  {
    hide StartScan, EndsWithOperator, SpacedGreaterEqual;
    StartScanNext(line, i, stack);
  }

  lemma OtherRulesBack(line: Line, i: nat, base: seq<char>, n: nat, stack: seq<char>)
    requires i < |line| && line[i] !in "([{<>}])"
    ensures line[i] == ';' && (base == [] || base[|base| - 1] != '>') ==>
              StartScan(line, i, base + Angles(n, '>')) == if base == [] then Fail else StartScan(line, i - 1, base)
    ensures line[i] != ';' ==> StartScan(line, i, stack) == StartScan(line, i - 1, stack)
  {
    hide StartScan, EndsWithOperator, SpacedGreaterEqual;
    StartScanNext(line, i, base + Angles(n, '>'));
    StartScanNext(line, i, stack);
    if base == [] || base[|base| - 1] != '>' { PopsAngles(base, n, '>'); }
  }

  lemma {:induction false} StartScanAtOpener(line: Line, i: int, stack: seq<char>)
    requires i < |line|
    ensures var r := StartScan(line, i, stack);
            r.Found? ==>
              r.pos <= i && line[r.pos] in "([{<" && (line[r.pos] == '<' && r.pos > 0 ==> line[r.pos - 1] != '<')
    decreases i + 2
  {
    hide EndsWithOperator, SpacedGreaterEqual, PopAngles;
    if i >= 0 {
      var (r, j) := StartStep(line, i, stack);
      if r.More? { StartScanAtOpener(line, j, r.stack); }
    }
  }

  lemma {:induction false} StartLinesAtOpener(lines: seq<Line>, l: nat, i: int, stack: seq<char>)
    requires l < |lines| && i < |lines[l]|
    ensures var r := StartLines(lines, l, i, stack);
            r.Some? ==>
              r.value.line < |lines| && r.value.pos < |lines[r.value.line]| &&
              var line, p := lines[r.value.line], r.value.pos;
              line[p] in "([{<" && (line[p] == '<' && p > 0 ==> line[p - 1] != '<')
    decreases l
  {
    hide StartScan;
    StartScanAtOpener(lines[l], i, stack);
    var r := StartScan(lines[l], i, stack);
    if r.More? && r.stack != [] && l > 0 { StartLinesAtOpener(lines, l - 1, |lines[l - 1]| - 1, r.stack); }
  }

  // Whatever ReverseCloseExpression returns is an opening bracket or a '<' that
  // does not follow another one.
  lemma StartIsOpener(lines: seq<Line>, l: nat, pos: nat)
    requires l < |lines| && pos < |lines[l]| && OpenOf(lines, l, pos).Some?
    ensures var p := OpenOf(lines, l, pos).value;
            p.line < |lines| && p.pos < |lines[p.line]| &&
            var line := lines[p.line];
            line[p.pos] in "([{<" && (line[p.pos] == '<' && p.pos > 0 ==> line[p.pos - 1] != '<')
  {
    hide StartLines;
    StartLinesAtOpener(lines, l, pos, []);
  }

  // ---------- Lines without angle brackets ----------

  predicate NoAngles(s: seq<char>) { forall i :: 0 <= i < |s| ==> s[i] != '<' && s[i] != '>' }

  predicate AngleFree(lines: seq<Line>) { forall l :: 0 <= l < |lines| ==> NoAngles(lines[l]) }

  lemma PopsNothing(stack: seq<char>, angle: char)
    requires NoAngles(stack) && (angle == '<' || angle == '>')
    ensures PopAngles(stack, angle) == stack
  {
  }

  lemma EndStepIsStep(line: Line, i: nat, stack: seq<char>)
    requires i < |line| && NoAngles(line) && NoAngles(stack)
    ensures EndStep(line, i, stack) == Shift(Step(stack, line[i]), i + 1)
    ensures Step(stack, line[i]).More? ==> NoAngles(Step(stack, line[i]).stack)
  {
    PopsNothing(stack, '<');
  }

  lemma {:induction false} EndScanIsRun(line: Line, i: nat, stack: seq<char>)
    requires i <= |line| && NoAngles(line) && NoAngles(stack)
    ensures EndScan(line, i, stack) == Shift(Run(line[i..], stack), i + 1)
    ensures EndScan(line, i, stack).More? ==> NoAngles(EndScan(line, i, stack).stack)
    decreases |line| - i
  {
    hide EndStep, Step, NoAngles;
    if i < |line| {
      assert line[i..][1..] == line[i + 1..];
      EndStepIsStep(line, i, stack);
      StepFinds(stack, line[i]);
      var r := EndStep(line, i, stack);
      if r.More? { EndScanIsRun(line, i + 1, r.stack); }
    }
  }

  lemma StepFinds(stack: seq<char>, c: char)
    ensures Step(stack, c).Found? ==> Step(stack, c).pos == 0
    ensures StepBack(stack, c).Found? ==> StepBack(stack, c).pos == 0
  {
  }

  // ---------- The lines as one text ----------

  function Joined(lines: seq<Line>, l: nat): seq<char>
    requires l <= |lines|
  {
    if l == 0 then [] else Joined(lines, l - 1) + lines[l - 1]
  }

  function Whole(lines: seq<Line>): seq<char> { Joined(lines, |lines|) }

  function Offset(lines: seq<Line>, p: Place): nat
    requires p.line <= |lines|
  {
    |Joined(lines, p.line)| + p.pos
  }

  lemma {:induction false} JoinedIsPrefix(lines: seq<Line>, l: nat, m: nat)
    requires l <= m <= |lines|
    ensures Joined(lines, l) <= Joined(lines, m)
  {
    if l < m { JoinedIsPrefix(lines, l, m - 1); }
  }

  // The text from a place on, and the text before it.
  lemma TextAround(lines: seq<Line>, l: nat, i: nat)
    requires l < |lines| && i <= |lines[l]|
    ensures var t, o := Whole(lines), Offset(lines, Place(l, i));
            o <= |t| && Offset(lines, Place(l + 1, 0)) <= |t| &&
            t[o..] == lines[l][i..] + t[Offset(lines, Place(l + 1, 0))..] &&
            t[..o] == t[..Offset(lines, Place(l, 0))] + lines[l][..i] &&
            (i < |lines[l]| ==> o < |t| && t[o] == lines[l][i])
  {
    JoinedIsPrefix(lines, l + 1, |lines|);
    var t, before := Whole(lines), Joined(lines, l);
    var rest := t[|before| + |lines[l]|..];
    assert t == before + lines[l] + rest;
  }

  lemma {:induction false} EndLinesIsRun(lines: seq<Line>, l: nat, i: nat, stack: seq<char>)
    requires AngleFree(lines) && l < |lines| && i <= |lines[l]| && stack != [] && NoAngles(stack)
    requires Offset(lines, Place(l, i)) <= |Whole(lines)|
    ensures var r, run := EndLines(lines, l, i, stack), Run(Whole(lines)[Offset(lines, Place(l, i))..], stack);
            (r.Some? <==> run.Found?) &&
            (r.Some? ==>
               r.value.line < |lines| && 0 < r.value.pos <= |lines[r.value.line]| &&
               Offset(lines, r.value) == Offset(lines, Place(l, i)) + run.pos + 1)
    decreases |lines| - l
  {
    hide EndScan, Run, NoAngles, Offset, Whole;
    TextAround(lines, l, i);
    var line, after := lines[l][i..], Whole(lines)[Offset(lines, Place(l + 1, 0))..];
    EndScanIsRun(lines[l], i, stack);
    RunConcat(line, after, stack);
    RunInside(line, stack);
    var r := Run(line, stack);
    if r.Found? {
      OffsetAdds(lines, l, i, r.pos + 1);
    } else if r.More? {
      if l < |lines| - 1 {
        EndLinesIsRun(lines, l + 1, 0, r.stack);
        OffsetOfNext(lines, l, i);
      } else {
        NothingAfter(lines);
        RunNothing(r.stack);
      }
    }
  }

  lemma OffsetAdds(lines: seq<Line>, l: nat, i: nat, n: nat)
    requires l <= |lines|
    ensures Offset(lines, Place(l, i + n)) == Offset(lines, Place(l, i)) + n
  {
  }

  lemma OffsetOfNext(lines: seq<Line>, l: nat, i: nat)
    requires l < |lines| && i <= |lines[l]|
    ensures Offset(lines, Place(l + 1, 0)) == Offset(lines, Place(l, i)) + |lines[l][i..]|
  {
  }

  lemma NothingAfter(lines: seq<Line>)
    ensures Offset(lines, Place(|lines|, 0)) == |Whole(lines)|
  {
  }

  // CloseExpression succeeds exactly when the bracket has a properly nested
  // match, and the place it returns is just past that match.
  lemma CloseFindsNested(lines: seq<Line>, l: nat, pos: nat, k: nat)
    requires AngleFree(lines) && l < |lines| && pos < |lines[l]| && IsOpen(lines[l][pos])
    ensures var r := CloseOf(lines, l, pos);
            (r.Some? ==> r.value.line < |lines| && 0 < r.value.pos <= |lines[r.value.line]|) &&
            (r.Some? ==> Offset(lines, r.value) > Offset(lines, Place(l, pos))) &&
            (Nested(Whole(lines), Offset(lines, Place(l, pos)), k) <==> r.Some? && Offset(lines, r.value) == k + 1)
  {
    hide EndScan, Run, Whole, Offset, Nested;
    var c := lines[l][pos];
    assert EndStep(lines[l], pos, []) == More([c]);
    FirstStep(lines, l, pos);
    TextAround(lines, l, pos);
    OffsetAdds(lines, l, pos, 1);
    EndLinesIsRun(lines, l, pos + 1, [c]);
    RunFindsNested(Whole(lines), Offset(lines, Place(l, pos)), k);
  }

  // ---------- Backward ----------

  lemma StartStepBottom(line: Line, i: nat, stack: seq<char>)
    requires i < |line| && stack != []
    ensures var (r, j) := StartStep(line, i, stack);
            (r.More? ==> r.stack != [] && r.stack[0] == stack[0]) &&
            (r.Found? ==> r.pos == i && Closer(line[i]) == stack[0]) && j < i
  {
    hide EndsWithOperator, SpacedGreaterEqual;
  }

  lemma {:induction false} StartScanBottom(line: Line, i: int, stack: seq<char>)
    requires i < |line| && stack != []
    ensures var r := StartScan(line, i, stack);
            (r.More? ==> r.stack != [] && r.stack[0] == stack[0]) &&
            (r.Found? ==> r.pos < |line| && Closer(line[r.pos]) == stack[0])
    decreases i + 2
  {
    hide StartStep;
    if i >= 0 {
      StartStepBottom(line, i, stack);
      var (r, j) := StartStep(line, i, stack);
      if r.More? { StartScanBottom(line, j, r.stack); }
    }
  }

  lemma {:induction false} StartLinesBottom(lines: seq<Line>, l: nat, i: int, stack: seq<char>)
    requires l < |lines| && i < |lines[l]| && stack != []
    ensures var r := StartLines(lines, l, i, stack);
            r.Some? ==>
              r.value.line <= l && r.value.pos < |lines[r.value.line]| &&
              Closer(lines[r.value.line][r.value.pos]) == stack[0]
    decreases l
  {
    hide StartScan;
    StartScanBottom(lines[l], i, stack);
    var r := StartScan(lines[l], i, stack);
    if r.More? && l > 0 { StartLinesBottom(lines, l - 1, |lines[l - 1]| - 1, r.stack); }
  }

  // The '>' of an arrow, a comparison or an operator's name is not pushed.
  predicate IsPushedBack(line: Line, pos: nat)
    requires pos < |line|
  {
    IsClose(line[pos]) ||
    (line[pos] == '>' &&
     !(pos > 0 && (line[pos - 1] == '-' || SpacedGreaterEqual(line, pos) || EndsWithOperator(line[..pos]))))
  }

  // The first bracket from position i backward that is pushed; None if an
  // opening bracket, a semicolon or the start of the line comes first.
  function FirstPushedBack(line: Line, i: int): (q: Option<nat>)
    requires i < |line|
    ensures q.Some? ==> q.value <= i && IsPushedBack(line, q.value)
    decreases i + 2
  {
    if i < 0 then None
    else if IsPushedBack(line, i) then Some(i)
    else if IsOpen(line[i]) || line[i] == ';' then None
    else FirstPushedBack(line, NextBack(line, i))
  }

  // An operator's character before the angle bracket is skipped with it.
  function NextBack(line: Line, i: nat): (j: int)
    requires i < |line|
    ensures j < i
  {
    if line[i] == '>' || (line[i] == '<' && i > 0 && line[i - 1] == '<') then i - 2 else i - 1
  }

  lemma StartStepFromNothing(line: Line, i: nat)
    requires i < |line|
    ensures var (r, j) := StartStep(line, i, []);
            if IsPushedBack(line, i) then r == More([line[i]]) && j == i - 1
            else if IsOpen(line[i]) || line[i] == ';' then r == Fail
            else r == More([]) && j == NextBack(line, i)
  {
    hide EndsWithOperator, SpacedGreaterEqual;
    assert [] + [line[i]] == [line[i]];
  }

  lemma {:induction false} StartScanFromNothing(line: Line, i: int)
    requires i < |line|
    ensures var q := FirstPushedBack(line, i);
            if q.Some? then StartScan(line, i, []) == StartScan(line, q.value - 1, [line[q.value]])
            else StartScan(line, i, []) == Fail || StartScan(line, i, []) == More([])
    decreases i + 2
  {
    hide StartStep, IsPushedBack;
    if i >= 0 {
      StartStepFromNothing(line, i);
      if !IsPushedBack(line, i) && !IsOpen(line[i]) && line[i] != ';' { StartScanFromNothing(line, NextBack(line, i)); }
    }
  }

  lemma StartLinesFromNothing(lines: seq<Line>, l: nat, i: int)
    requires l < |lines| && i < |lines[l]|
    ensures var q := FirstPushedBack(lines[l], i);
            StartLines(lines, l, i, []) ==
            if q.Some? then StartLines(lines, l, q.value - 1, [lines[l][q.value]]) else None
  {
    hide StartScan, FirstPushedBack;
    StartScanFromNothing(lines[l], i);
  }

  // What ReverseCloseExpression answers for the bracket that is first pushed
  // is what it answers for the given one.
  lemma OpensFirstPushed(lines: seq<Line>, l: nat, pos: nat)
    requires l < |lines| && pos < |lines[l]| && (IsClose(lines[l][pos]) || lines[l][pos] == '>')
    ensures var q := FirstPushedBack(lines[l], pos);
            if q.None? then OpenOf(lines, l, pos) == None else OpenOf(lines, l, pos) == OpenOf(lines, l, q.value)
  {
    hide StartScan;
    StartLinesFromNothing(lines, l, pos);
    var q := FirstPushedBack(lines[l], pos);
    if q.Some? { StartLinesFromNothing(lines, l, q.value); }
  }

  // The place holds a bracket that c closes.
  predicate StandsAtOpener(lines: seq<Line>, p: Place, c: char) {
    p.line < |lines| && p.pos < |lines[p.line]| && Closer(lines[p.line][p.pos]) == c
  }

  // On any lines: nothing is returned if no bracket is pushed, and otherwise
  // what is returned is a bracket of the kind that opens the given one, if and
  // only if the bracket that is first pushed is of the same kind.
  lemma OpensSameKind(lines: seq<Line>, l: nat, pos: nat)
    requires l < |lines| && pos < |lines[l]| && (IsClose(lines[l][pos]) || lines[l][pos] == '>')
    ensures var r, q := OpenOf(lines, l, pos), FirstPushedBack(lines[l], pos);
            (q.None? ==> r.None?) &&
            (r.Some? ==> (StandsAtOpener(lines, r.value, lines[l][pos]) <==> lines[l][q.value] == lines[l][pos]))
    ensures OpenOf(lines, l, pos).Some? ==> OpenOf(lines, l, pos).value.line <= l
  {
    hide EndsWithOperator, SpacedGreaterEqual, StartScan, FirstPushedBack;
    StartLinesFromNothing(lines, l, pos);
    var q := FirstPushedBack(lines[l], pos);
    if q.Some? { StartLinesBottom(lines, l, (q.value as int) - 1, [lines[l][q.value]]); }
  }

  // Where the backward scan with the given bracket on the stack ends: the start
  // of the group that this bracket ends.
  function OwnStart(lines: seq<Line>, l: nat, pos: nat): Option<Place>
    requires l < |lines| && pos < |lines[l]|
  {
    StartLines(lines, l, pos - 1, [lines[l][pos]])
  }

  lemma BelowStepBack(line: Line, i: nat, stack: seq<char>)
    requires i < |line| && stack != []
    ensures var (r, j) := StartStep(line, i, stack);
            var (r', j') := StartStep(line, i, ['>'] + stack);
            j' == j && (r.More? ==> r.stack != [] && r' == More(['>'] + r.stack)) &&
            (r.Found? ==> r' == More(['>']) && r.pos == i && j == i - 1)
  {
    hide EndsWithOperator, SpacedGreaterEqual;
    BelowPop(stack, '>');
    assert Pop(['>'] + stack) == ['>'] + Pop(stack);
    assert ['>'] + (stack + [line[i]]) == ['>'] + stack + [line[i]];
  }

  // With one more '>' at the bottom the scan goes on where it ended.
  lemma {:induction false} BelowScanBack(line: Line, i: int, stack: seq<char>)
    requires i < |line| && stack != []
    ensures var r, r' := StartScan(line, i, stack), StartScan(line, i, ['>'] + stack);
            (r.More? ==> r.stack != [] && r' == More(['>'] + r.stack)) &&
            (r.Found? ==> r.pos <= i && r' == StartScan(line, r.pos - 1, ['>']))
    decreases i + 2
  {
    hide StartStep;
    if i >= 0 {
      BelowStepBack(line, i, stack);
      StartStepBottom(line, i, stack);
      var (r, j) := StartStep(line, i, stack);
      if r.More? { BelowScanBack(line, j, r.stack); }
    }
  }

  // A start is never after the place where its scan began.
  lemma {:induction false} StartIsBefore(lines: seq<Line>, l: nat, i: int, stack: seq<char>)
    requires l < |lines| && i < |lines[l]| && stack != []
    ensures var r := StartLines(lines, l, i, stack);
            r.Some? ==> r.value.line < l || (r.value.line == l && r.value.pos <= i)
    decreases l
  {
    hide StartScan;
    BelowScanBack(lines[l], i, stack);
    var r := StartScan(lines[l], i, stack);
    if r.More? && l > 0 { StartIsBefore(lines, l - 1, |lines[l - 1]| - 1, r.stack); }
  }

  // One more '>' at the bottom makes the start earlier, if there is one.
  lemma {:induction false} BelowLinesBack(lines: seq<Line>, l: nat, i: int, stack: seq<char>)
    requires l < |lines| && i < |lines[l]| && stack != []
    ensures var r, r' := StartLines(lines, l, i, stack), StartLines(lines, l, i, ['>'] + stack);
            r.Some? && r'.Some? ==> Before(r'.value, r.value)
    decreases l
  {
    hide StartScan;
    BelowScanBack(lines[l], i, stack);
    var r := StartScan(lines[l], i, stack);
    if r.More? && l > 0 {
      BelowLinesBack(lines, l - 1, |lines[l - 1]| - 1, r.stack);
    } else if r.Found? {
      StartIsBefore(lines, l, r.pos - 1, ['>']);
    }
  }

  // Back to the bracket that is first pushed, a '>' on the stack is opened,
  // given up or still there.
  lemma {:induction false} OwnUntilPushedBack(line: Line, i: int)
    requires i < |line| && FirstPushedBack(line, i).Some?
    ensures var q, r := FirstPushedBack(line, i).value, StartScan(line, i, ['>']);
            r == Fail || (r.Found? && r.pos >= q) || r == StartScan(line, q - 1, ['>'] + [line[q]])
    decreases i + 2
  {
    hide EndsWithOperator, SpacedGreaterEqual;
    StartScanNext(line, i, ['>']);
    if !IsPushedBack(line, i) { OwnUntilPushedBack(line, NextBack(line, i)); }
  }

  // The start that ReverseCloseExpression returns is the start of the given
  // bracket's own group if and only if that bracket is pushed.
  lemma OpensOwn(lines: seq<Line>, l: nat, pos: nat)
    requires l < |lines| && pos < |lines[l]| && (IsClose(lines[l][pos]) || lines[l][pos] == '>')
    ensures var r, own := OpenOf(lines, l, pos), OwnStart(lines, l, pos);
            (IsPushedBack(lines[l], pos) ==> r == own) && (!IsPushedBack(lines[l], pos) && r.Some? ==> r != own)
  {
    hide EndsWithOperator, SpacedGreaterEqual, StartScan, FirstPushedBack, IsPushedBack;
    var line, q := lines[l], FirstPushedBack(lines[l], pos);
    StartLinesFromNothing(lines, l, pos);
    FirstPushedBackNext(line, pos);
    if !IsPushedBack(line, pos) && q.Some? {
      SkippedCharacter(line, pos);
      OwnUntilPushedBack(line, pos - 2);
      StartIsBefore(lines, l, (q.value as int) - 1, [line[q.value]]);
      BelowLinesBack(lines, l, (q.value as int) - 1, [line[q.value]]);
    }
  }

  lemma FirstPushedBackNext(line: Line, pos: nat)
    requires pos < |line| && (IsClose(line[pos]) || line[pos] == '>')
    ensures FirstPushedBack(line, pos) ==
            if IsPushedBack(line, pos) then Some(pos) else FirstPushedBack(line, pos - 2)
  {
    hide EndsWithOperator, SpacedGreaterEqual;
  }

  // The character before a '>' that is not pushed is no bracket and no semicolon.
  lemma SkippedCharacter(line: Line, pos: nat)
    requires pos < |line| && (IsClose(line[pos]) || line[pos] == '>') && !IsPushedBack(line, pos)
    ensures line[pos] == '>' && StartScan(line, pos - 1, ['>']) == StartScan(line, pos - 2, ['>'])
  {
    hide StartScan, EndsWithOperator;
    var c := line[pos - 1];
    if EndsWithOperator(line[..pos]) { OperatorEnds(line[..pos]); }
    assert c == '-' || IsSpace(c) || c == 'r';
    StartScanNext(line, pos - 1, ['>']);
  }

  lemma OperatorEnds(s: Line)
    requires EndsWithOperator(s)
    ensures s != [] && (IsSpace(s[|s| - 1]) || s[|s| - 1] == 'r')
  {
    var k: nat :| k < |s| && OperatorAt(s, k);
    assert s[k..k + 8][7] == 'r';
  }

  // From the '>' of an arrow, the start of the group before it is returned.
  lemma ArrowIsNotOpened()
    ensures var lines := ["(x)->y"];
            OpenOf(lines, 0, 4) == Some(Place(0, 0)) && Closer(lines[0][0]) == ')' != lines[0][4]
  {
    hide StartScan, EndsWithOperator, SpacedGreaterEqual;
    var line := "(x)->y";
    assert [] + [')'] == [')'];
    StartScanNext(line, 4, []);
    StartScanNext(line, 2, []);
    StartScanNext(line, 1, [')']);
    StartScanNext(line, 0, [')']);
  }

  lemma FirstStepBack(lines: seq<Line>, l: nat, pos: nat)
    requires l < |lines| && pos < |lines[l]| && StartStep(lines[l], pos, []) == (More([lines[l][pos]]), pos - 1)
    ensures StartLines(lines, l, pos, []) == StartLines(lines, l, pos - 1, [lines[l][pos]])
  {
    hide StartStep;
  }

  lemma StartStepIsStepBack(line: Line, i: nat, stack: seq<char>)
    requires i < |line| && NoAngles(line) && NoAngles(stack)
    ensures StartStep(line, i, stack) == (Shift(StepBack(stack, line[i]), i), i - 1)
    ensures StepBack(stack, line[i]).More? ==> NoAngles(StepBack(stack, line[i]).stack)
  {
    PopsNothing(stack, '>');
  }

  lemma {:induction false} StartScanIsRunBack(line: Line, n: nat, stack: seq<char>)
    requires n <= |line| && (n as int) - 1 < |line| && NoAngles(line) && NoAngles(stack)
    ensures StartScan(line, n - 1, stack) == RunBack(line[..n], stack)
    ensures StartScan(line, n - 1, stack).More? ==> NoAngles(StartScan(line, n - 1, stack).stack)
  {
    hide StartStep, StepBack, NoAngles;
    if n > 0 {
      assert line[..n] == line[..n - 1] + [line[n - 1]];
      RunBackSnoc(line[..n - 1], line[n - 1], stack);
      StartStepIsStepBack(line, n - 1, stack);
      StepFinds(stack, line[n - 1]);
      var r := StartStep(line, n - 1, stack).0;
      if r.More? { StartScanIsRunBack(line, n - 1, r.stack); }
    }
  }

  lemma {:induction false} StartLinesIsRunBack(lines: seq<Line>, l: nat, n: nat, stack: seq<char>)
    requires AngleFree(lines) && l < |lines| && n <= |lines[l]| && (n as int) - 1 < |lines[l]|
    requires stack != [] && NoAngles(stack) && Offset(lines, Place(l, n)) <= |Whole(lines)|
    ensures var r := StartLines(lines, l, n - 1, stack);
            var run := RunBack(Whole(lines)[..Offset(lines, Place(l, n))], stack);
            (r.Some? <==> run.Found?) &&
            (r.Some? ==>
               r.value.line < |lines| && r.value.pos < |lines[r.value.line]| && Offset(lines, r.value) == run.pos)
    decreases l
  {
    hide StartScan, RunBack, NoAngles, Offset, Whole;
    TextAround(lines, l, n);
    TextAround(lines, l, 0);
    var line, before := lines[l][..n], Whole(lines)[..Offset(lines, Place(l, 0))];
    StartScanIsRunBack(lines[l], n, stack);
    RunBackConcat(before, line, stack);
    RunBackInside(line, stack);
    var r := RunBack(line, stack);
    if r.Found? {
      OffsetAdds(lines, l, 0, r.pos);
    } else if r.More? {
      if l > 0 {
        OffsetOfNext(lines, l - 1, |lines[l - 1]|);
        StartLinesIsRunBack(lines, l - 1, |lines[l - 1]|, r.stack);
      } else {
        NothingBefore(lines);
        RunBackNothing(r.stack);
      }
    }
  }

  lemma NothingBefore(lines: seq<Line>)
    ensures Offset(lines, Place(0, 0)) == 0
  {
  }

  // ReverseCloseExpression succeeds exactly when the bracket has a properly
  // nested match, and the place it returns is that match.
  lemma ReverseFindsNested(lines: seq<Line>, l: nat, pos: nat, o: nat)
    requires AngleFree(lines) && l < |lines| && pos < |lines[l]| && IsClose(lines[l][pos])
    ensures var r := OpenOf(lines, l, pos);
            (r.Some? ==> r.value.line < |lines| && r.value.pos < |lines[r.value.line]|) &&
            (r.Some? ==> Offset(lines, r.value) < Offset(lines, Place(l, pos))) &&
            (Nested(Whole(lines), o, Offset(lines, Place(l, pos))) <==> r.Some? && Offset(lines, r.value) == o)
  {
    hide StartScan, RunBack, Whole, Offset, Nested;
    var c := lines[l][pos];
    assert [] + [c] == [c];
    assert StartStep(lines[l], pos, []) == (More([c]), pos - 1);
    FirstStepBack(lines, l, pos);
    TextAround(lines, l, pos);
    StartLinesIsRunBack(lines, l, pos, [c]);
    RunBackInside(Whole(lines)[..Offset(lines, Place(l, pos))], [c]);
    RunBackFindsNested(Whole(lines), o, Offset(lines, Place(l, pos)));
  }

  // ---------- Round trip ----------

  // Different places have different offsets.
  lemma OffsetsDiffer(lines: seq<Line>, p: Place, q: Place)
    requires p.line < |lines| && p.pos < |lines[p.line]| && q.line < |lines| && q.pos < |lines[q.line]|
    requires Offset(lines, p) == Offset(lines, q)
    ensures p == q
  {
    if p.line < q.line {
      JoinedIsPrefix(lines, p.line + 1, q.line);
    } else if q.line < p.line {
      JoinedIsPrefix(lines, q.line + 1, p.line);
    }
  }

  // CloseExpression from an opening bracket returns the place just past a
  // closing one if and only if ReverseCloseExpression from that closing
  // bracket returns the opening one, across any number of lines.
  lemma RoundTrip(lines: seq<Line>, p: Place, q: Place)
    requires AngleFree(lines)
    requires p.line < |lines| && p.pos < |lines[p.line]| && IsOpen(lines[p.line][p.pos])
    requires q.line < |lines| && q.pos < |lines[q.line]| && IsClose(lines[q.line][q.pos])
    ensures CloseOf(lines, p.line, p.pos) == Some(Place(q.line, q.pos + 1)) <==> OpenOf(lines, q.line, q.pos) == Some(p)
  {
    hide CloseOf, OpenOf, Offset, Whole, Nested;
    var o, k := Offset(lines, p), Offset(lines, q);
    OffsetAdds(lines, q.line, q.pos, 1);
    CloseFindsNested(lines, p.line, p.pos, k);
    ReverseFindsNested(lines, q.line, q.pos, o);
    var r, r' := CloseOf(lines, p.line, p.pos), OpenOf(lines, q.line, q.pos);
    if r.Some? && Offset(lines, r.value) == k + 1 {
      var before := Place(r.value.line, r.value.pos - 1);
      OffsetAdds(lines, before.line, before.pos, 1);
      OffsetsDiffer(lines, before, q);
    }
    if r'.Some? && Offset(lines, r'.value) == o {
      OffsetsDiffer(lines, r'.value, p);
    }
  }
}
