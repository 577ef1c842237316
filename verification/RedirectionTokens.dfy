/** How one token reads: exactly which texts are redirections, and what each of them says. */
module RedirectionTokens {
  import opened Sequences
  import opened Decimal
  import opened RedirectionParser

  predicate NoNewline(s: string) {
    '\n' !in s
  }

  /** The token is digits, perhaps none, then an operator, then the rest of the line; a longer operator
      is never read as a shorter one with more behind it. */
  predicate Shape(token: string, digits: string, op: string, rest: string) {
    && token == digits + op + rest && AllDigits(digits)
    && op in {">", ">>", ">&", "<"}
    && (op == ">" && rest != "" ==> rest[0] != '>' && rest[0] != '&')
  }

  function Meaning(op: string): Operator
    requires op in {">", ">>", ">&", "<"}
  {
    if op == ">" then Write else if op == ">>" then Append else if op == "<" then Read else Duplicate
  }

  lemma {:induction false} PrefixIs(digits: string, more: string)
    requires AllDigits(digits) && (more == "" || !IsDigit(more[0]))
    ensures DigitPrefix(digits + more) == |digits|
  {
    if digits == "" {
      assert digits + more == more;
    } else {
      assert (digits + more)[0] == digits[0] && (digits + more)[1..] == digits[1..] + more;
      assert IsDigit(digits[0]);
      PrefixIs(digits[1..], more);
    }
  }

  lemma OperatorIs(op: string, rest: string)
    requires op in {">", ">>", ">&", "<"} && (op == ">" && rest != "" ==> rest[0] != '>' && rest[0] != '&')
    ensures OperatorAt(op + rest) == Some((Meaning(op), |op|))
  {
    var s := op + rest;
    assert s[0] == op[0];
    if |op| == 2 {
      assert s[..2] == op;
    } else if rest != "" {
      assert s[..2] == [op[0], rest[0]];
    }
  }

  lemma ShapeParts(token: string, digits: string, op: string, rest: string)
    requires Shape(token, digits, op, rest)
    ensures var n := |digits|;
            && DigitPrefix(token) == n && n <= |token| && token[..n] == digits && token[n..] == op + rest
            && OperatorAt(token[n..]) == Some((Meaning(op), |op|)) && token[n..][|op|..] == rest
  {
    assert !IsDigit((op + rest)[0]);
    Regroup(digits, op, rest);
    Slices(digits, op + rest);
    Slices(op, rest);
    hide IsDigit, DigitPrefix, OperatorAt;
    PrefixIs(digits, op + rest);
    OperatorIs(op, rest);
  }

  lemma Regroup(a: string, b: string, c: string)
    ensures a + b + c == a + (b + c)
  {
  }

  lemma Slices(a: string, b: string)
    ensures (a + b)[..|a|] == a && (a + b)[|a|..] == b
  {
  }

  lemma ShapeReadsLine(token: string, digits: string, op: string, rest: string)
    requires Shape(token, digits, op, rest) && ToLineEnd(rest).Some?
    ensures Extract(token)
            == Some((Meaning(op), if digits == "" then None else Some(FromDecimal(digits)), ToLineEnd(rest).value))
  {
    ShapeParts(token, digits, op, rest);
    hide Shape, DigitPrefix, OperatorAt, FromDecimal, AllDigits, ToLineEnd;
    assert op in {">", ">>", ">&", "<"} by { ShapeOperator(token, digits, op, rest); }
  }

  /** Main result: what a redirection token says. */
  lemma ShapeReads(token: string, digits: string, op: string, rest: string)
    requires Shape(token, digits, op, rest) && NoNewline(rest)
    ensures Extract(token) == Some((Meaning(op), if digits == "" then None else Some(FromDecimal(digits)), rest))
  {
    assert ToLineEnd(rest) == Some(rest);
    hide Shape, ToLineEnd, Extract, FromDecimal;
    ShapeReadsLine(token, digits, op, rest);
  }

  /** Main result: on one line these are the only redirection tokens. */
  lemma OnlyShapesRead(token: string)
    requires NoNewline(token)
    ensures Extract(token).Some? <==> exists digits, op, rest :: Shape(token, digits, op, rest)
  {
    if exists digits, op, rest :: Shape(token, digits, op, rest) {
      var digits, op, rest :| Shape(token, digits, op, rest);
      RestIsOnLine(token, digits, op, rest);
      ShapeReads(token, digits, op, rest);
    }
    hide Shape;
    if Extract(token).Some? {
      var digits, op, rest := ShapeOf(token);
    }
  }

  lemma RestIsOnLine(token: string, digits: string, op: string, rest: string)
    requires Shape(token, digits, op, rest) && NoNewline(token)
    ensures NoNewline(rest)
  {
    assert forall c :: c in rest ==> c in token;
  }

  lemma ShapeOf(token: string) returns (digits: string, op: string, rest: string)
    requires Extract(token).Some?
    ensures Shape(token, digits, op, rest)
  {
    var n := DigitPrefix(token);
    var s := token[n..];
    assert OperatorAt(s).Some?;
    hide Extract, FromDecimal;
    var k := OperatorAt(s).value.1;
    OperatorText(s);
    OperatorIsLongest(s);
    hide OperatorAt;
    digits, op, rest := token[..n], s[..k], s[k..];
    assert token == digits + op + rest;
  }

  lemma OperatorText(s: string)
    requires OperatorAt(s).Some?
    ensures s[..OperatorAt(s).value.1] in {">", ">>", ">&", "<"}
  {
    assert |s| >= 1 ==> s[..1] == [s[0]];
  }

  lemma OperatorIsLongest(s: string)
    requires OperatorAt(s).Some?
    ensures var k := OperatorAt(s).value.1; var rest := s[k..];
            s[..k] == ">" && rest != "" ==> rest[0] != '>' && rest[0] != '&'
  {
    assert |s| >= 2 ==> s[..2] == [s[0], s[1]];
  }

  /** Main result: what the line makes of it, with the target in the token or behind it: `n>f`, `n>>f`,
      `n<f`, `n>&m`, `n>&-`. A copy of anything that is no number is left as a word. */
  lemma TokenParses(token: string, digits: string, op: string, rest: string, next: Option<string>)
    requires Shape(token, digits, op, rest) && NoNewline(rest)
    ensures var target := if rest != "" then Some(rest) else next;
            var used := if rest != "" then 1 else 2;
            var fd := if digits == "" then (if op == "<" then 0 else 1) else FromDecimal(digits);
            Step(token, next)
            == if target.None? then (1, [token], [])
               else if op == ">" then (used, [], [ToFile(fd, target.value, false)])
               else if op == ">>" then (used, [], [ToFile(fd, target.value, true)])
               else if op == "<" then (used, [], [FromFile(fd, target.value)])
               else if target.value == "-" then (used, [], [])
               else if IsDigits(target.value) then (used, [], [Dup(fd, FromDecimal(target.value))])
               else (1, [token], [])
  {
    ShapeReads(token, digits, op, rest);
    hide Extract, FromDecimal, Shape;
    assert op in {">", ">>", ">&", "<"} by { ShapeOperator(token, digits, op, rest); }
  }

  lemma ShapeOperator(token: string, digits: string, op: string, rest: string)
    requires Shape(token, digits, op, rest)
    ensures op in {">", ">>", ">&", "<"}
  {
  }

  /** A newline at the very end of a token is not part of what it says. */
  lemma FinalNewline(token: string, digits: string, op: string, rest: string)
    requires Shape(token, digits, op, rest + "\n") && NoNewline(rest)
    ensures Extract(token) == Some((Meaning(op), if digits == "" then None else Some(FromDecimal(digits)), rest))
  {
    LineEndBefore(rest);
    hide Shape, Extract, FromDecimal, ToLineEnd;
    ShapeReadsLine(token, digits, op, rest + "\n");
  }

  lemma LineEndBefore(rest: string)
    requires NoNewline(rest)
    ensures ToLineEnd(rest + "\n") == Some(rest)
  {
    var longer := rest + "\n";
    assert longer[..|rest|] == rest && longer[|rest|] == '\n';
  }

  /** And every other token on one line stays a word. */
  lemma OthersStay(token: string, next: Option<string>)
    requires NoNewline(token) && !exists digits, op, rest :: Shape(token, digits, op, rest)
    ensures Step(token, next) == (1, [token], [])
  {
    OnlyShapesRead(token);
  }

  // ---------------------------------------------------------------- which tokens are glued

  predicate Word(t: string) {
    t !in {"|", ";", "&&", "||"}
  }

  /** How many tokens at the head of a line are glued into one: `n >& w`, `n > & w`, `n > &`, `n >` and
      `> &`, where `w` does not separate commands, and `>` may be `>>`. */
  function GluedCount(tokens: seq<string>): (k: nat)
    requires tokens != []
    ensures 1 <= k <= |tokens|
  {
    var n := |tokens|;
    if IsDigits(tokens[0]) then
      if n >= 3 && tokens[1] == ">&" && Word(tokens[2]) then 3
      else if n >= 3 && (tokens[1] == ">" || tokens[1] == ">>") && tokens[2] == "&" then
        if n >= 4 && Word(tokens[3]) then 4 else 3
      else if n >= 2 && (tokens[1] == ">" || tokens[1] == ">>" || tokens[1] == ">&") then 2
      else 1
    else if n >= 2 && (tokens[0] == ">" || tokens[0] == ">>") && tokens[1] == "&" then 2
    else 1
  }

  /** Main result: merging glues exactly those tokens, to their concatenation, and goes on behind them. */
  lemma MergeGlues(tokens: seq<string>)
    requires tokens != []
    ensures var k := GluedCount(tokens); Merge(tokens) == [Concat(tokens[..k])] + Merge(tokens[k..])
  {
    var k := GluedCount(tokens);
    GluedIsCombined(tokens);
    if Combine(tokens).Some? {
      CombineGlues(tokens);
    } else {
      assert k == 1 && tokens[..1] == [tokens[0]];
      assert Concat([tokens[0]]) == tokens[0] + "" == tokens[0];
    }
    hide Combine, GluedCount, Concat;
  }

  lemma GluedIsCombined(tokens: seq<string>)
    requires tokens != []
    ensures Combine(tokens).Some? <==> GluedCount(tokens) > 1
    ensures Combine(tokens).Some? ==> Combine(tokens).value.1 == GluedCount(tokens)
  {
    hide IsDigits;
    OperatorsAreNoNumbers();
  }

  lemma OperatorsAreNoNumbers()
    ensures !IsDigits(">") && !IsDigits(">>")
  {
    assert !IsDigit(">"[0]) && !IsDigit(">>"[0]);
  }
}
