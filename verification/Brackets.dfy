// Properly nested brackets, and the stack machines that match them from the
// left and from the right.
module Brackets {
  predicate IsOpen(c: char) { c == '(' || c == '[' || c == '{' }

  predicate IsClose(c: char) { c == ')' || c == ']' || c == '}' }

  function Closer(c: char): char {
    match c
    case '(' => ')'
    case '[' => ']'
    case '{' => '}'
    case '<' => '>'
    case _ => '\0'
  }

  // ---------- What proper nesting means ----------

  // A text without brackets at its start, or a bracketed group, and the rest.
  datatype Nest = Empty | Plain(c: char, rest: Nest) | Group(open: char, inner: Nest, rest: Nest)

  predicate WellFormed(n: Nest) {
    match n
    case Empty => true
    case Plain(c, rest) => !IsOpen(c) && !IsClose(c) && WellFormed(rest)
    case Group(open, inner, rest) => IsOpen(open) && WellFormed(inner) && WellFormed(rest)
  }

  function Text(n: Nest): seq<char> {
    match n
    case Empty => []
    case Plain(c, rest) => [c] + Text(rest)
    case Group(open, inner, rest) => [open] + Text(inner) + [Closer(open)] + Text(rest)
  }

  ghost predicate Balanced(t: seq<char>) { exists n :: WellFormed(n) && Text(n) == t }

  // The bracket at o is closed at k, with nothing but properly nested text between.
  ghost predicate Nested(t: seq<char>, o: nat, k: nat) {
    o < k < |t| && IsOpen(t[o]) && t[k] == Closer(t[o]) && Balanced(t[o + 1..k])
  }

  function Append(a: Nest, b: Nest): (r: Nest)
    requires WellFormed(a) && WellFormed(b)
    ensures WellFormed(r) && Text(r) == Text(a) + Text(b)
  {
    match a
    case Empty => b
    case Plain(c, rest) => Plain(c, Append(rest, b))
    case Group(open, inner, rest) => Group(open, inner, Append(rest, b))
  }

  // ---------- The stack machine from the left ----------

  datatype Outcome = More(stack: seq<char>) | Found(pos: nat) | Fail

  function Last(s: seq<char>): char
    requires s != []
  {
    s[|s| - 1]
  }

  function Pop(s: seq<char>): (r: seq<char>)
    requires s != []
    ensures |r| == |s| - 1
  {
    s[..|s| - 1]
  }

  function Shift(r: Outcome, n: nat): Outcome { if r.Found? then Found(r.pos + n) else r }

  // One character: Found means that it closes the bottom of the stack.
  function Step(s: seq<char>, c: char): Outcome {
    if IsOpen(c) then More(s + [c])
    else if IsClose(c) then
      if s == [] || Closer(Last(s)) != c then Fail else if |s| == 1 then Found(0) else More(Pop(s))
    else if c == ';' && s == [] then Fail
    else More(s)
  }

  function Run(t: seq<char>, s: seq<char>): Outcome {
    if t == [] then More(s)
    else
      var r := Step(s, t[0]);
      if r.More? then Shift(Run(t[1..], r.stack), 1) else r
  }

  lemma {:induction false} RunInside(t: seq<char>, s: seq<char>)
    ensures Run(t, s).Found? ==> Run(t, s).pos < |t|
    ensures s != [] && Run(t, s).More? ==> Run(t, s).stack != []
  {
    if t != [] && Step(s, t[0]).More? { RunInside(t[1..], Step(s, t[0]).stack); }
  }

  lemma {:induction false} RunConcat(a: seq<char>, b: seq<char>, s: seq<char>)
    ensures Run(a + b, s) == if Run(a, s).More? then Shift(Run(b, Run(a, s).stack), |a|) else Run(a, s)
  {
    hide Step;
    if a == [] {
      assert a + b == b;
    } else {
      assert (a + b)[1..] == a[1..] + b;
      if Step(s, a[0]).More? { RunConcat(a[1..], b, Step(s, a[0]).stack); }
    }
  }

  lemma RunGroup(open: char, inner: seq<char>, rest: seq<char>, s: seq<char>)
    requires IsOpen(open) && s != [] && Run(inner, s + [open]) == More(s + [open])
    ensures Run([open] + inner + [Closer(open)] + rest, s) == Shift(Run(rest, s), |inner| + 2)
  {
    hide Run;
    var close, s' := Closer(open), s + [open];
    assert [open] + inner + [close] + rest == [open] + (inner + ([close] + rest));
    RunConcat([open], inner + ([close] + rest), s);
    RunConcat(inner, [close] + rest, s');
    RunConcat([close], rest, s');
    RunOne(open, s);
    RunOne(close, s');
    assert Pop(s') == s;
  }

  // Properly nested text leaves the stack as it was.
  lemma {:induction false} RunPasses(n: Nest, s: seq<char>)
    requires WellFormed(n) && s != []
    ensures Run(Text(n), s) == More(s)
  {
    match n
    case Empty =>
    case Plain(c, rest) =>
      RunPasses(rest, s);
      assert Text(n)[1..] == Text(rest);
    case Group(open, inner, rest) =>
      hide Run;
      RunPasses(inner, s + [open]);
      RunPasses(rest, s);
      RunGroup(open, Text(inner), Text(rest), s);
  }

  lemma RunOne(c: char, s: seq<char>)
    ensures Run([c], s) == Step(s, c)
  {
    assert [c][1..] == [];
  }

  lemma RunCons(t: seq<char>, s: seq<char>)
    requires t != []
    ensures Run(t, s) == if Step(s, t[0]).More? then Shift(Run(t[1..], Step(s, t[0]).stack), 1) else Step(s, t[0])
  {
  }

  // Where the pieces of a group and of the text after it lie.
  lemma GroupSlices(t: seq<char>, i: nat, j: nat)
    requires i + 1 < |t| && j < |t| - i - 2
    ensures var rest := t[1..];
            var after := rest[i + 1..];
            t[..i + 2 + j] == [t[0]] + rest[..i] + [rest[i]] + after[..j] &&
            after[j] == t[i + 2 + j] && after[j + 1..] == t[i + 2 + j + 1..]
  {
  }

  lemma PlainSlices(t: seq<char>, j: nat)
    requires j + 1 < |t|
    ensures var rest := t[1..];
            t[..j + 1] == [t[0]] + rest[..j] && rest[j] == t[j + 1] && rest[j + 1..] == t[j + 2..]
  {
  }

  lemma Grouped(c: char, inner: Nest, rest: Nest) returns (n: Nest)
    requires IsOpen(c) && WellFormed(inner) && WellFormed(rest)
    ensures WellFormed(n) && Text(n) == [c] + Text(inner) + [Closer(c)] + Text(rest)
  {
    n := Group(c, inner, rest);
  }

  lemma Prefixed(c: char, rest: Nest) returns (n: Nest)
    requires !IsOpen(c) && !IsClose(c) && WellFormed(rest)
    ensures WellFormed(n) && Text(n) == [c] + Text(rest)
  {
    n := Plain(c, rest);
  }

  lemma EmptyText()
    ensures WellFormed(Empty) && Text(Empty) == []
  {
  }

  // A run that ends at k has closed the top of the stack at some j, after
  // properly nested text.
  lemma {:induction false} RunCloses(t: seq<char>, s: seq<char>) returns (j: nat, n: Nest)
    requires s != [] && Run(t, s).Found?
    ensures j <= Run(t, s).pos < |t| && WellFormed(n) && Text(n) == t[..j] && t[j] == Closer(Last(s)) && IsClose(t[j])
    ensures |s| == 1 ==> j == Run(t, s).pos
    ensures |s| > 1 ==> Run(t, s) == Shift(Run(t[j + 1..], Pop(s)), j + 1)
    decreases |t|
  {
    hide Run, Text, WellFormed, IsOpen, IsClose, Closer;
    RunInside(t, s);
    assert t != [] by { RunNothing(s); }
    RunCons(t, s);
    var c, rest := t[0], t[1..];
    if IsOpen(c) {
      var j1, n1 := RunCloses(rest, s + [c]);
      assert Pop(s + [c]) == s;
      var j2, n2 := RunCloses(rest[j1 + 1..], s);
      j := j1 + 2 + j2;
      n := Grouped(c, n1, n2);
      GroupSlices(t, j1, j2);
    } else if IsClose(c) {
      j, n := 0, Empty;
      EmptyText();
    } else {
      var j1, n1 := RunCloses(rest, s);
      j := j1 + 1;
      n := Prefixed(c, n1);
      PlainSlices(t, j1);
    }
  }

  lemma RunNothing(s: seq<char>)
    ensures Run([], s) == More(s)
  {
  }

  // From an opening bracket, the machine stops exactly at its proper match.
  lemma RunFindsNested(t: seq<char>, o: nat, k: nat)
    requires o < |t| && IsOpen(t[o])
    ensures Nested(t, o, k) <==> k > o && Run(t[o + 1..], [t[o]]) == Found(k - o - 1)
  {
    hide Run, Text, WellFormed;
    var rest, s := t[o + 1..], [t[o]];
    if Nested(t, o, k) {
      var n :| WellFormed(n) && Text(n) == t[o + 1..k];
      RunPasses(n, s);
      assert rest == t[o + 1..k] + ([t[k]] + t[k + 1..]);
      RunConcat(t[o + 1..k], [t[k]] + t[k + 1..], s);
      RunConcat([t[k]], t[k + 1..], s);
      RunOne(t[k], s);
    }
    if k > o && Run(rest, s) == Found(k - o - 1) {
      var j, n := RunCloses(rest, s);
      assert rest[..j] == t[o + 1..k];
    }
  }

  // ---------- The stack machine from the right ----------

  function StepBack(s: seq<char>, c: char): Outcome {
    if IsClose(c) then More(s + [c])
    else if IsOpen(c) then
      if s == [] || Closer(c) != Last(s) then Fail else if |s| == 1 then Found(0) else More(Pop(s))
    else if c == ';' && s == [] then Fail
    else More(s)
  }

  // Reads the text backwards; a match is reported by its position in the text.
  function RunBack(t: seq<char>, s: seq<char>): Outcome {
    if t == [] then More(s)
    else
      var r := StepBack(s, t[|t| - 1]);
      if r.More? then RunBack(t[..|t| - 1], r.stack) else if r.Found? then Found(|t| - 1) else Fail
  }

  lemma RunBackSnoc(t: seq<char>, c: char, s: seq<char>)
    ensures RunBack(t + [c], s) ==
            var r := StepBack(s, c);
            if r.More? then RunBack(t, r.stack) else if r.Found? then Found(|t|) else Fail
  {
    assert (t + [c])[..|t|] == t;
  }

  lemma {:induction false} RunBackInside(t: seq<char>, s: seq<char>)
    ensures RunBack(t, s).Found? ==> RunBack(t, s).pos < |t|
    ensures s != [] && RunBack(t, s).More? ==> RunBack(t, s).stack != []
  {
    if t != [] && StepBack(s, Last(t)).More? { RunBackInside(Pop(t), StepBack(s, Last(t)).stack); }
  }

  // Reading b after a backwards: first b, then a.
  lemma {:induction false} RunBackConcat(a: seq<char>, b: seq<char>, s: seq<char>)
    ensures RunBack(a + b, s) == if RunBack(b, s).More? then RunBack(a, RunBack(b, s).stack)
            else Shift(RunBack(b, s), |a|)
  {
    hide StepBack;
    if b == [] {
      assert a + b == a;
    } else {
      assert a + b == (a + Pop(b)) + [Last(b)] && b == Pop(b) + [Last(b)];
      RunBackSnoc(a + Pop(b), Last(b), s);
      RunBackSnoc(Pop(b), Last(b), s);
      if StepBack(s, Last(b)).More? { RunBackConcat(a, Pop(b), StepBack(s, Last(b)).stack); }
    }
  }

  lemma RunBackOne(c: char, s: seq<char>)
    ensures RunBack([c], s) == StepBack(s, c)
  {
    assert [c][..0] == [];
  }

  lemma {:induction false} RunBackPasses(n: Nest, s: seq<char>)
    requires WellFormed(n) && s != []
    ensures RunBack(Text(n), s) == More(s)
  {
    match n
    case Empty =>
    case Plain(c, rest) =>
      RunBackPasses(rest, s);
      RunBackConcat([c], Text(rest), s);
      RunBackOne(c, s);
    case Group(open, inner, rest) =>
      var close := Closer(open);
      RunBackPasses(rest, s);
      RunBackPasses(inner, s + [close]);
      RunBackConcat([open] + Text(inner) + [close], Text(rest), s);
      RunBackConcat([open] + Text(inner), [close], s);
      RunBackConcat([open], Text(inner), s + [close]);
      RunBackOne(close, s);
      RunBackOne(open, s + [close]);
      assert Pop(s + [close]) == s;
  }

  lemma GroupSlicesBack(t: seq<char>, i: nat, j: nat)
    requires j < i < |t| - 1
    ensures var rest := Pop(t);
            var before := rest[..i];
            t[j + 1..] == before[j + 1..] + [rest[i]] + rest[i + 1..] + [Last(t)] &&
            before[j] == t[j] && before[..j] == t[..j]
  {
  }

  lemma PlainSlicesBack(t: seq<char>, j: nat)
    requires j + 1 < |t|
    ensures var rest := Pop(t);
            t[j + 1..] == rest[j + 1..] + [Last(t)] && rest[j] == t[j] && rest[..j] == t[..j]
  {
  }

  lemma {:induction false} RunBackOpens(t: seq<char>, s: seq<char>) returns (j: nat, n: Nest)
    requires s != [] && RunBack(t, s).Found?
    ensures RunBack(t, s).pos <= j < |t| && WellFormed(n) && Text(n) == t[j + 1..] && Last(s) == Closer(t[j]) &&
            IsOpen(t[j])
    ensures |s| == 1 ==> j == RunBack(t, s).pos
    ensures |s| > 1 ==> RunBack(t, s) == RunBack(t[..j], Pop(s))
    decreases |t|
  {
    hide RunBack, Text, WellFormed, Append, IsOpen, IsClose, Closer;
    RunBackInside(t, s);
    assert t != [] by { RunBackNothing(s); }
    var c, rest := Last(t), Pop(t);
    assert t == rest + [c];
    RunBackSnoc(rest, c, s);
    EmptyText();
    if IsClose(c) {
      var i, inner := RunBackOpens(rest, s + [c]);
      assert Pop(s + [c]) == s;
      var j2, before := RunBackOpens(rest[..i], s);
      j := j2;
      var group := Grouped(t[i], inner, Empty);
      n := Append(before, group);
      GroupSlicesBack(t, i, j);
    } else if IsOpen(c) {
      j, n := |t| - 1, Empty;
      assert t[j + 1..] == [];
    } else {
      var j1, before := RunBackOpens(rest, s);
      var plain := Prefixed(c, Empty);
      j, n := j1, Append(before, plain);
      PlainSlicesBack(t, j);
    }
  }

  lemma RunBackNothing(s: seq<char>)
    ensures RunBack([], s) == More(s)
  {
  }

  // From a closing bracket, the machine stops exactly at its proper match.
  lemma RunBackFindsNested(t: seq<char>, o: nat, k: nat)
    requires k < |t| && IsClose(t[k])
    ensures Nested(t, o, k) <==> o < k && RunBack(t[..k], [t[k]]) == Found(o)
  {
    hide RunBack, Text, WellFormed;
    var before, s := t[..k], [t[k]];
    if Nested(t, o, k) {
      var n :| WellFormed(n) && Text(n) == t[o + 1..k];
      RunBackPasses(n, s);
      assert before == (t[..o] + [t[o]]) + t[o + 1..k];
      RunBackConcat(t[..o] + [t[o]], t[o + 1..k], s);
      RunBackConcat(t[..o], [t[o]], s);
      RunBackOne(t[o], s);
    }
    if o < k && RunBack(before, s) == Found(o) {
      var j, n := RunBackOpens(before, s);
      assert before[j + 1..] == t[o + 1..k];
    }
  }

  // What the machine from the left finds, the machine from the right finds
  // again, and the other way round.
  lemma MachinesAgree(t: seq<char>, o: nat, k: nat)
    requires o < k < |t| && IsOpen(t[o]) && IsClose(t[k])
    ensures Run(t[o + 1..], [t[o]]) == Found(k - o - 1) <==> RunBack(t[..k], [t[k]]) == Found(o)
  {
    hide Run, RunBack, Nested;
    RunFindsNested(t, o, k);
    RunBackFindsNested(t, o, k);
  }
}
