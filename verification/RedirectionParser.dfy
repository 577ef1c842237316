/** cowrie-shell-source/parser.py: gluing redirection tokens back together and parsing them. */
module RedirectionParser {
  import opened Sequences
  import opened Decimal

  const SEPARATORS := {"|", ";", "&&", "||"}

  // ---------------------------------------------------------------- merge_redirection_tokens

  function Token(tokens: seq<string>, i: nat): Option<string> {
    if i < |tokens| then Some(tokens[i]) else None
  }

  predicate Joinable(t: Option<string>) {
    t.Some? && t.value !in SEPARATORS
  }

  predicate IsOp(t: Option<string>) {
    t == Some(">") || t == Some(">>") || t == Some(">&")
  }

  /** `_combine_redir_sequence` at the head of `tokens`: the glued token and how many it replaces. */
  function Combine(tokens: seq<string>): (r: Option<(string, nat)>)
    requires tokens != []
    ensures r.Some? ==> 2 <= r.value.1 <= |tokens|
  {
    var tok, nxt, nxt2, nxt3 := tokens[0], Token(tokens, 1), Token(tokens, 2), Token(tokens, 3);
    if IsDigits(tok) && IsOp(nxt) then
      var combined := tok + nxt.value;
      if nxt.value == ">&" && Joinable(nxt2) then Some((combined + nxt2.value, 3))
      else if nxt.value != ">&" && nxt2 == Some("&") then
        if Joinable(nxt3) then Some((combined + "&" + nxt3.value, 4)) else Some((combined + "&", 3))
      else Some((combined, 2))
    else if (tok == ">" || tok == ">>") && nxt == Some("&") then Some((tok + "&", 2))
    else None
  }

  function Merge(tokens: seq<string>): seq<string>
    decreases |tokens|
  {
    if tokens == [] then []
    else
      var c := Combine(tokens);
      if c.Some? then [c.value.0] + Merge(tokens[c.value.1..]) else [tokens[0]] + Merge(tokens[1..])
  }

  method MergeRedirectionTokens(tokens: seq<string>) returns (merged: seq<string>)
    ensures merged == Merge(tokens)
  {
    hide Combine, Merge;
    merged := [];
    var i := 0;
    assert tokens[0..] == tokens && [] + Merge(tokens) == Merge(tokens);
    while i < |tokens|
      invariant i <= |tokens| && merged + Merge(tokens[i..]) == Merge(tokens)
    {
      MergeStep(merged, tokens, i);
      var c := Combine(tokens[i..]);
      if c.Some? {
        merged := merged + [c.value.0];
        i := i + c.value.1;
        continue;
      }
      merged := merged + [tokens[i]];
      i := i + 1;
    }
    assert tokens[i..] == [];
    MergeNothing(merged);
  }

  lemma MergeNothing(merged: seq<string>)
    ensures merged + Merge([]) == merged
  {
    assert merged + [] == merged;
  }

  lemma MergeStep(merged: seq<string>, tokens: seq<string>, i: nat)
    requires i < |tokens|
    ensures var c := Combine(tokens[i..]);
            var n := if c.Some? then c.value.1 else 1;
            var head := if c.Some? then c.value.0 else tokens[i];
            merged + Merge(tokens[i..]) == (merged + [head]) + Merge(tokens[i + n..])
  {
    hide Combine;
    var c := Combine(tokens[i..]);
    var n := if c.Some? then c.value.1 else 1;
    assert tokens[i..][n..] == tokens[i + n..];
  }

  function Concat(tokens: seq<string>): string {
    if tokens == [] then "" else tokens[0] + Concat(tokens[1..])
  }

  lemma {:induction false} ConcatAppend(a: seq<string>, b: seq<string>)
    ensures Concat(a + b) == Concat(a) + Concat(b)
  {
    if a == [] {
      assert a + b == b;
    } else {
      assert (a + b)[1..] == a[1..] + b;
      ConcatAppend(a[1..], b);
    }
  }

  lemma CombineGlues(tokens: seq<string>)
    requires tokens != [] && Combine(tokens).Some?
    ensures Combine(tokens).value.0 == Concat(tokens[..Combine(tokens).value.1])
  {
    var n := Combine(tokens).value.1;
    ConcatFew(tokens[0], tokens[1], if n > 2 then tokens[2] else "", if n > 3 then tokens[3] else "");
    if n == 2 {
      assert tokens[..n] == [tokens[0], tokens[1]];
    } else if n == 3 {
      assert tokens[..n] == [tokens[0], tokens[1], tokens[2]];
    } else {
      assert tokens[..n] == [tokens[0], tokens[1], tokens[2], tokens[3]];
    }
  }

  lemma ConcatFew(a: string, b: string, c: string, d: string)
    ensures Concat([a, b]) == a + b && Concat([a, b, c]) == a + b + c && Concat([a, b, c, d]) == a + b + c + d
  {
    ConcatCons(a, [b]);
    ConcatCons(a, [b, c]);
    ConcatCons(a, [b, c, d]);
    ConcatCons(b, [c]);
    ConcatCons(b, [c, d]);
    ConcatCons(c, [d]);
    assert Concat([b]) == b + "" && Concat([c]) == c + "" && Concat([d]) == d + "";
    assert a + (b + c) == a + b + c && a + (b + (c + d)) == a + b + c + d;
  }

  lemma ConcatCons(token: string, tokens: seq<string>)
    ensures Concat([token] + tokens) == token + Concat(tokens)
  {
    assert ([token] + tokens)[1..] == tokens;
  }

  /** Merging only moves token boundaries: no character is lost, added or reordered. */
  lemma {:induction false} MergePreservesText(tokens: seq<string>)
    ensures Concat(Merge(tokens)) == Concat(tokens)
    decreases |tokens|
  {
    if tokens != [] {
      var c := Combine(tokens);
      var n := if c.Some? then c.value.1 else 1;
      var head := if c.Some? then c.value.0 else tokens[0];
      MergePreservesText(tokens[n..]);
      assert tokens[..n] + tokens[n..] == tokens;
      ConcatAppend(tokens[..n], tokens[n..]);
      if c.Some? {
        CombineGlues(tokens);
      } else {
        assert tokens[..1] == [tokens[0]] && Concat([tokens[0]]) == tokens[0] + "";
      }
      assert Merge(tokens)[1..] == Merge(tokens[n..]);
    }
  }

  /** What the first token of a merged list tells about the list itself. */
  lemma MergeHead(tokens: seq<string>)
    requires tokens != []
    ensures Merge(tokens) != []
    ensures var m := Merge(tokens)[0];
            && (m in {">", ">>", "&"} ==> m == tokens[0] && Combine(tokens).None?)
            && (m == ">&" ==> tokens[0] in {">", ">&"})
            && (IsDigits(m) ==> m == tokens[0] && Combine(tokens).None?)
  {
    var c := Combine(tokens);
    if c.Some? {
      CombinedShape(tokens);
    }
  }

  /** A glued token is never a bare operator or a number. */
  lemma CombinedShape(tokens: seq<string>)
    requires tokens != [] && Combine(tokens).Some?
    ensures var m := Combine(tokens).value.0;
            && m !in {">", ">>", "&"} && !IsDigits(m)
            && (m == ">&" ==> tokens[0] == ">")
  {
    var m, tok := Combine(tokens).value.0, tokens[0];
    assert |m| > |tok| > 0;
    assert m[..|tok|] == tok;
    if IsDigits(tok) {
      assert m[0] == tok[0] && IsDigit(m[0]);
      assert m[|tok|] == '>';
    } else {
      assert m == tok + "&";
    }
  }

  /** Main result: merging twice is merging once, on any tokens. */
  lemma {:induction false} MergeIdempotent(tokens: seq<string>)
    ensures Merge(Merge(tokens)) == Merge(tokens)
    decreases |tokens|
  {
    if tokens != [] {
      var c := Combine(tokens);
      var n := if c.Some? then c.value.1 else 1;
      var rest := tokens[n..];
      MergeIdempotent(rest);
      var m := Merge(tokens);
      assert m[1..] == Merge(rest);
      assert Combine(m).None? by {
        NothingLeftToCombine(tokens);
      }
    }
  }

  lemma NothingLeftToCombine(tokens: seq<string>)
    requires tokens != []
    ensures Merge(tokens) != [] && Combine(Merge(tokens)).None?
  {
    var c := Combine(tokens);
    var n := if c.Some? then c.value.1 else 1;
    var rest, m := tokens[n..], Merge(tokens);
    MergeHead(tokens);
    assert m[1..] == Merge(rest);
    if rest != [] {
      MergeHead(rest);
      assert m[1] == Merge(rest)[0];
      if c.None? {
        assert Token(tokens, 1) == Some(rest[0]);
      }
    }
  }

  // ---------------------------------------------------------------- parse_redirections

  datatype Operator = Write | Append | Read | Duplicate

  /** One parsed redirection, in the order given. */
  datatype Redirection =
    | ToFile(fd: nat, target: string, append: bool)
    | FromFile(fd: nat, target: string)
    | Dup(fd: nat, source: nat)

  function DigitPrefix(s: string): (n: nat)
    ensures n <= |s| && AllDigits(s[..n]) && (n < |s| ==> !IsDigit(s[n]))
  {
    if s == "" || !IsDigit(s[0]) then 0
    else
      var n := DigitPrefix(s[1..]);
      assert s[..n + 1] == [s[0]] + s[1..][..n];
      n + 1
  }

  /** The operator at the head of `s`, and its length; the longer ones first. */
  function OperatorAt(s: string): (r: Option<(Operator, nat)>)
    ensures r.Some? ==> 1 <= r.value.1 <= |s|
  {
    if |s| >= 2 && s[..2] == ">>" then Some((Append, 2))
    else if |s| >= 2 && s[..2] == ">&" then Some((Duplicate, 2))
    else if |s| >= 1 && s[0] == '>' then Some((Write, 1))
    else if |s| >= 1 && s[0] == '<' then Some((Read, 1))
    else None
  }

  /** The group `(.*)$`: a dot is no newline, but `$` also matches before a final one. */
  function ToLineEnd(s: string): Option<string> {
    if '\n' !in s then Some(s)
    else if s[|s| - 1] == '\n' && '\n' !in s[..|s| - 1] then Some(s[..|s| - 1])
    else None
  }

  /** `_extract_redir_op`. */
  function Extract(token: string): Option<(Operator, Option<nat>, string)> {
    var n := DigitPrefix(token);
    var op := OperatorAt(token[n..]);
    if op.None? then None
    else
      var inline := ToLineEnd(token[n..][op.value.1..]);
      if inline.None? then None
      else Some((op.value.0, if n == 0 then None else Some(FromDecimal(token[..n])), inline.value))
  }

  function Or(fd: Option<nat>, default: nat): nat {
    if fd.Some? then fd.value else default
  }

  /** What one token contributes: how many tokens it uses up, and the words and operations it adds. */
  function Step(tok: string, next: Option<string>): (r: (nat, seq<string>, seq<Redirection>))
    ensures 1 <= r.0 <= 2 && (next.None? ==> r.0 == 1)
  {
    var redir := Extract(tok);
    if redir.None? then (1, [tok], [])
    else
      var (op, fd, inline) := redir.value;
      var target := if inline != "" then Some(inline) else next;
      var used := if inline != "" then 1 else 2;
      if target.None? then (1, [tok], [])
      else match op
        case Write => (used, [], [ToFile(Or(fd, 1), target.value, false)])
        case Append => (used, [], [ToFile(Or(fd, 1), target.value, true)])
        case Read => (used, [], [FromFile(Or(fd, 0), target.value)])
        case Duplicate =>
          if target.value == "-" then (used, [], [])
          else if IsDigits(target.value) then (used, [], [Dup(Or(fd, 1), FromDecimal(target.value))])
          else (1, [tok], [])
  }

  function Parse(arguments: seq<string>): (seq<string>, seq<Redirection>)
    decreases |arguments|
  {
    if arguments == [] then ([], [])
    else
      var (used, words, ops) := Step(arguments[0], Token(arguments, 1));
      var rest := Parse(arguments[used..]);
      (words + rest.0, ops + rest.1)
  }

  method ParseRedirections(arguments: seq<string>) returns (cleaned: seq<string>, ops: seq<Redirection>)
    ensures (cleaned, ops) == Parse(arguments)
  {
    hide Step, Parse;
    cleaned, ops := [], [];
    var i := 0;
    assert arguments[0..] == arguments;
    assert [] + Parse(arguments).0 == Parse(arguments).0 && [] + Parse(arguments).1 == Parse(arguments).1;
    while i < |arguments|
      invariant i <= |arguments|
      invariant Parse(arguments) == (cleaned + Parse(arguments[i..]).0, ops + Parse(arguments[i..]).1)
    {
      ParseStep(cleaned, ops, arguments, i);
      var next := if i + 1 < |arguments| then Some(arguments[i + 1]) else None;
      var used, words, more := ApplyToken(arguments[i], next);
      cleaned := cleaned + words;
      ops := ops + more;
      i := i + used;
    }
    assert arguments[i..] == [];
    ParseNothing(cleaned, ops);
  }

  lemma ParseNothing(cleaned: seq<string>, ops: seq<Redirection>)
    ensures (cleaned + Parse([]).0, ops + Parse([]).1) == (cleaned, ops)
  {
    assert cleaned + [] == cleaned && ops + [] == ops;
  }

  lemma ParseStep(cleaned: seq<string>, ops: seq<Redirection>, arguments: seq<string>, i: nat)
    requires i < |arguments|
    ensures var (used, words, more) := Step(arguments[i], if i + 1 < |arguments| then Some(arguments[i + 1]) else None);
            && i + used <= |arguments|
            && cleaned + Parse(arguments[i..]).0 == (cleaned + words) + Parse(arguments[i + used..]).0
            && ops + Parse(arguments[i..]).1 == (ops + more) + Parse(arguments[i + used..]).1
  {
    hide Step;
    var (used, words, more) := Step(arguments[i], if i + 1 < |arguments| then Some(arguments[i + 1]) else None);
    assert arguments[i..][used..] == arguments[i + used..];
  }

  /** The loop body: `_apply_redirection` on a redirection token, or a plain word. */
  method ApplyToken(tok: string, next: Option<string>) returns (used: nat, words: seq<string>, ops: seq<Redirection>)
    ensures (used, words, ops) == Step(tok, next)
  {
    var redir := Extract(tok);
    if redir.None? {
      return 1, [tok], [];
    }
    var (op, fd, inline) := redir.value;
    var target := if inline != "" then Some(inline) else next;
    if target.None? {
      return 1, [tok], [];
    }
    var consume := if inline != "" then 1 else 2;
    if op == Write || op == Append {
      return consume, [], [ToFile(Or(fd, 1), target.value, op == Append)];
    }
    if op == Read {
      return consume, [], [FromFile(Or(fd, 0), target.value)];
    }
    if target.value == "-" {
      return consume, [], [];
    }
    if IsDigits(target.value) {
      return consume, [], [Dup(Or(fd, 1), FromDecimal(target.value))];
    }
    return 1, [tok], [];
  }
}
