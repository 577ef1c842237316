/** Printing words and redirections as shell tokens, and getting them back through the parser. */
module RedirectionRoundTrip {
  import opened Sequences
  import opened Decimal
  import opened RedirectionParser

  const OPS := {">", ">>", ">&"}

  /** One thing on a command line. A redirection may leave its file descriptor implicit. */
  datatype Item =
    | Plain(word: string)
    | Output(fd: Option<nat>, append: bool, target: string)
    | Input(target: string)
    | Copy(fd: Option<nat>, source: nat)
  {
    function Op(): string {
      if Copy? then ">&" else if Output? && append then ">>" else ">"
    }

    function Print(): (tokens: seq<string>)
      ensures tokens != []
    {
      match this
      case Plain(word) => [word]
      case Output(None, _, target) => [Op(), target]
      case Output(Some(n), _, target) => [ToDecimal(n), Op(), target]
      case Input(target) => ["<", target]
      case Copy(None, source) => [Op(), ToDecimal(source)]
      case Copy(Some(n), source) => [ToDecimal(n), Op(), ToDecimal(source)]
    }

    /** The tokens once merged. */
    function Glued(): seq<string> {
      match this
      case Plain(word) => [word]
      case Output(None, _, target) => [Op(), target]
      case Output(Some(n), _, target) => [ToDecimal(n) + Op(), target]
      case Input(target) => ["<", target]
      case Copy(None, source) => [Op(), ToDecimal(source)]
      case Copy(Some(n), source) => [ToDecimal(n) + Op() + ToDecimal(source)]
    }

    function Words(): seq<string> {
      if Plain? then [word] else []
    }

    function Redirections(): seq<Redirection> {
      match this
      case Plain(_) => []
      case Output(fd, append, target) => [ToFile(Or(fd, 1), target, append)]
      case Input(target) => [FromFile(0, target)]
      case Copy(fd, source) => [Dup(Or(fd, 1), source)]
    }

    /** A word does not look like a redirection, and a target is not an operator. */
    predicate Printable() {
      match this
      case Plain(word) => Extract(word).None?
      case Output(_, _, target) => target !in {">", ">>", "&"}
      case Input(target) => target !in {">", ">>", "&"}
      case Copy(_, _) => true
    }

    predicate Implicit() {
      (Output? || Copy?) && fd.None?
    }

    /** Its last token is a number that a following operator would take for its descriptor. */
    predicate EndsInNumber() {
      match this
      case Plain(word) => IsDigits(word)
      case Output(_, _, target) => IsDigits(target)
      case Input(target) => IsDigits(target)
      case Copy(fd, _) => fd.None?
    }
  }

  function PrintAll(items: seq<Item>): seq<string> {
    if items == [] then [] else items[0].Print() + PrintAll(items[1..])
  }

  function GluedAll(items: seq<Item>): seq<string> {
    if items == [] then [] else items[0].Glued() + GluedAll(items[1..])
  }

  function WordsOf(items: seq<Item>): seq<string> {
    if items == [] then [] else items[0].Words() + WordsOf(items[1..])
  }

  function RedirectionsOf(items: seq<Item>): seq<Redirection> {
    if items == [] then [] else items[0].Redirections() + RedirectionsOf(items[1..])
  }

  /** An operator without a descriptor directly after a number. */
  predicate Clash(a: Item, b: Item) {
    a.EndsInNumber() && b.Implicit()
  }

  predicate Unambiguous(items: seq<Item>) {
    forall i :: 0 <= i < |items| - 1 ==> !Clash(items[i], items[i + 1])
  }

  predicate AllPrintable(items: seq<Item>) {
    forall i :: 0 <= i < |items| ==> items[i].Printable()
  }

  predicate HeadClash(items: seq<Item>) {
    |items| > 1 && Clash(items[0], items[1])
  }

  lemma UnambiguousHead(items: seq<Item>)
    requires items != []
    ensures Unambiguous(items) <==> !HeadClash(items) && Unambiguous(items[1..])
    ensures AllPrintable(items) ==> AllPrintable(items[1..]) && items[0].Printable()
  {
    var rest := items[1..];
    if Unambiguous(items) {
      forall i | 0 <= i < |rest| - 1
        ensures !Clash(rest[i], rest[i + 1])
      {
        assert !Clash(items[i + 1], items[i + 1 + 1]);
      }
    }
    if !HeadClash(items) && Unambiguous(rest) {
      forall i | 0 <= i < |items| - 1
        ensures !Clash(items[i], items[i + 1])
      {
        assert i > 0 ==> !Clash(rest[i - 1], rest[i]);
      }
    }
  }

  // ---------------------------------------------------------------- printed tokens, taken apart

  lemma {:induction false} DigitPrefixOf(digits: string, rest: string)
    requires AllDigits(digits) && (rest == "" || !IsDigit(rest[0]))
    ensures DigitPrefix(digits + rest) == |digits|
  {
    if digits == "" {
      assert digits + rest == rest;
    } else {
      assert (digits + rest)[1..] == digits[1..] + rest;
      DigitPrefixOf(digits[1..], rest);
    }
  }

  lemma ExtractPrinted(digits: string, opText: string, op: Operator, inline: string)
    requires AllDigits(digits) && '\n' !in inline
    requires OperatorAt(opText + inline) == Some((op, |opText|)) && opText != "" && !IsDigit(opText[0])
    ensures Extract(digits + opText + inline)
         == Some((op, if digits == "" then None else Some(FromDecimal(digits)), inline))
  {
    hide DigitPrefix, OperatorAt, FromDecimal, AllDigits, IsDigit;
    var rest := opText + inline;
    var token := digits + opText + inline;
    assert rest[0] == opText[0];
    DigitPrefixOf(digits, rest);
    assert token == digits + rest && token[..|digits|] == digits && token[|digits|..] == rest;
    assert rest[|opText|..] == inline;
    assert ToLineEnd(inline) == Some(inline);
    hide ToLineEnd;
  }

  lemma ExtractBare(op: string)
    requires op in {">", ">>", ">&", "<"}
    ensures Extract(op) ==
            Some((if op == ">" then Write else if op == ">>" then Append
                  else if op == ">&" then Duplicate else Read, None, ""))
  {
    assert op + "" == op && "" + op == op;
    assert OperatorAt(op).Some?;
    ExtractPrinted("", op, OperatorAt(op).value.0, "");
  }

  lemma ExtractWithFd(digits: string, op: string)
    requires IsDigits(digits) && op in {">", ">>"}
    ensures Extract(digits + op) == Some((if op == ">" then Write else Append, Some(FromDecimal(digits)), ""))
  {
    assert op + "" == op && digits + op + "" == digits + op;
    ExtractPrinted(digits, op, if op == ">" then Write else Append, "");
  }

  lemma ExtractDup(digits: string, source: nat)
    requires IsDigits(digits)
    ensures Extract(digits + ">&" + ToDecimal(source))
         == Some((Duplicate, Some(FromDecimal(digits)), ToDecimal(source)))
  {
    RoundTrip(source);
    var s := ToDecimal(source);
    assert (">&" + s)[..2] == ">&";
    assert '\n' !in s by {
      forall i | 0 <= i < |s|
        ensures s[i] != '\n'
      {
        assert IsDigit(s[i]);
      }
    }
    ExtractPrinted(digits, ">&", Duplicate, s);
  }

  // ---------------------------------------------------------------- merging what was printed

  lemma NumberIsNoOp(n: nat)
    ensures ToDecimal(n) !in OPS + {"&", "<"} && IsDigits(ToDecimal(n))
  {
    RoundTrip(n);
    assert IsDigit(ToDecimal(n)[0]);
  }

  /** Only an implicit redirection begins with a bare operator. */
  lemma FirstToken(items: seq<Item>)
    requires items != [] && items[0].Printable()
    ensures PrintAll(items) != []
    ensures PrintAll(items)[0] in OPS ==> items[0].Implicit()
  {
    var tok := items[0].Print()[0];
    match items[0]
    case Plain(word) =>
      if word in OPS {
        ExtractBare(word);
      }
    case Output(Some(n), _, _) => NumberIsNoOp(n);
    case Copy(Some(n), _) => NumberIsNoOp(n);
    case _ =>
  }

  /** A token that is no operator, and no number before one, stays as it is. */
  lemma TokenStays(tok: string, rest: seq<string>)
    requires tok !in {">", ">>"} || rest == [] || rest[0] != "&"
    requires IsDigits(tok) ==> rest == [] || rest[0] !in OPS
    ensures Merge([tok] + rest) == [tok] + Merge(rest)
  {
    var tokens := [tok] + rest;
    assert tokens[1..] == rest;
    assert Token(tokens, 1) == if rest == [] then None else Some(rest[0]);
  }

  lemma LastTokenStays(item: Item, tok: string, items: seq<Item>)
    requires AllPrintable(items) && !HeadClash([item] + items)
    requires tok !in {">", ">>"} && (IsDigits(tok) ==> item.EndsInNumber())
    ensures Merge([tok] + PrintAll(items)) == [tok] + Merge(PrintAll(items))
  {
    if items != [] {
      FirstToken(items);
    }
    TokenStays(tok, PrintAll(items));
  }

  lemma NumberTakesOperator(digits: string, op: string, target: string, rest: seq<string>)
    requires IsDigits(digits) && op in {">", ">>"} && target != "&"
    ensures Merge([digits, op, target] + rest) == [digits + op] + Merge([target] + rest)
  {
    var tokens := [digits, op, target] + rest;
    assert tokens[2..] == [target] + rest;
    assert Combine(tokens) == Some((digits + op, 2));
  }

  lemma NumberTakesCopy(digits: string, source: nat, rest: seq<string>)
    requires IsDigits(digits)
    ensures Merge([digits, ">&", ToDecimal(source)] + rest) == [digits + ">&" + ToDecimal(source)] + Merge(rest)
  {
    NumberIsNoOp(source);
    var tokens := [digits, ">&", ToDecimal(source)] + rest;
    assert tokens[3..] == rest;
    assert IsDigit(ToDecimal(source)[0]);
    assert ToDecimal(source) !in SEPARATORS;
    assert Combine(tokens) == Some((digits + ">&" + ToDecimal(source), 3));
  }

  lemma MergePrinted(item: Item, items: seq<Item>)
    requires item.Printable() && AllPrintable(items) && !HeadClash([item] + items)
    ensures Merge(item.Print() + PrintAll(items)) == item.Glued() + Merge(PrintAll(items))
  {
    hide Combine, Merge, Extract, ToDecimal, PrintAll;
    var rest := PrintAll(items);
    assert !IsDigit(item.Op()[0]) && !IsDigit("<"[0]);
    match item
    case Plain(word) =>
      if word in {">", ">>"} { ExtractBare(word); }
      LastTokenStays(item, word, items);
    case Output(None, _, target) =>
      LastTokenStays(item, target, items);
      TokenStays(item.Op(), [target] + rest);
      assert item.Print() + rest == [item.Op()] + ([target] + rest);
    case Output(Some(n), _, target) =>
      LastTokenStays(item, target, items);
      NumberIsNoOp(n);
      NumberTakesOperator(ToDecimal(n), item.Op(), target, rest);
    case Input(target) =>
      LastTokenStays(item, target, items);
      TokenStays("<", [target] + rest);
      assert item.Print() + rest == ["<"] + ([target] + rest);
    case Copy(None, source) =>
      NumberIsNoOp(source);
      LastTokenStays(item, ToDecimal(source), items);
      TokenStays(">&", [ToDecimal(source)] + rest);
      assert item.Print() + rest == [">&"] + ([ToDecimal(source)] + rest);
    case Copy(Some(n), source) =>
      NumberIsNoOp(n);
      NumberTakesCopy(ToDecimal(n), source, rest);
  }

  // ---------------------------------------------------------------- parsing what was merged

  lemma ParseOneToken(tok: string, rest: seq<string>)
    requires Step(tok, Token([tok] + rest, 1)).0 == 1
    ensures var (_, words, ops) := Step(tok, Token([tok] + rest, 1));
            Parse([tok] + rest) == (words + Parse(rest).0, ops + Parse(rest).1)
  {
    hide Step;
    assert ([tok] + rest)[1..] == rest;
  }

  lemma ParseTwoTokens(tok: string, target: string, rest: seq<string>)
    requires Step(tok, Some(target)).0 == 2
    ensures var (_, words, ops) := Step(tok, Some(target));
            Parse([tok, target] + rest) == (words + Parse(rest).0, ops + Parse(rest).1)
  {
    hide Step;
    assert ([tok, target] + rest)[2..] == rest && Token([tok, target] + rest, 1) == Some(target);
  }

  lemma ParseGlued(item: Item, rest: seq<string>)
    requires item.Printable()
    ensures Parse(item.Glued() + rest) == (item.Words() + Parse(rest).0, item.Redirections() + Parse(rest).1)
  {
    hide Extract, ToDecimal, FromDecimal, IsDigits, Parse;
    match item
    case Plain(word) =>
      ParseOneToken(word, rest);
    case Output(None, _, target) =>
      ExtractBare(item.Op());
      ParseTwoTokens(item.Op(), target, rest);
    case Output(Some(n), _, target) =>
      NotDash(n);
      ExtractWithFd(ToDecimal(n), item.Op());
      ParseTwoTokens(ToDecimal(n) + item.Op(), target, rest);
    case Input(target) =>
      ExtractBare("<");
      ParseTwoTokens("<", target, rest);
    case Copy(None, source) =>
      ExtractBare(">&");
      NotDash(source);
      ParseTwoTokens(">&", ToDecimal(source), rest);
    case Copy(Some(n), source) =>
      NotDash(n);
      ExtractDup(ToDecimal(n), source);
      NotDash(source);
      ParseOneToken(ToDecimal(n) + ">&" + ToDecimal(source), rest);
  }

  lemma NotDash(n: nat)
    ensures ToDecimal(n) != "-" && ToDecimal(n) != "" && IsDigits(ToDecimal(n)) && FromDecimal(ToDecimal(n)) == n
  {
    RoundTrip(n);
    assert IsDigit(ToDecimal(n)[0]);
  }

  /** What comes of a line. */
  function Reading(items: seq<Item>): (seq<string>, seq<Redirection>) {
    Parse(Merge(PrintAll(items)))
  }

  /** An item that does not clash with the next is read back as it was meant. */
  lemma ReadHead(items: seq<Item>)
    requires items != [] && AllPrintable(items) && !HeadClash(items)
    ensures var rest := Reading(items[1..]);
            Reading(items) == (items[0].Words() + rest.0, items[0].Redirections() + rest.1)
  {
    hide Parse, Merge, HeadClash;
    UnambiguousHead(items);
    assert items == [items[0]] + items[1..];
    MergePrinted(items[0], items[1..]);
    ParseGlued(items[0], Merge(PrintAll(items[1..])));
  }

  lemma {:induction false} ReadUnambiguous(items: seq<Item>)
    requires AllPrintable(items) && Unambiguous(items)
    ensures Reading(items) == (WordsOf(items), RedirectionsOf(items))
  {
    if items != [] {
      hide Reading;
      UnambiguousHead(items);
      ReadUnambiguous(items[1..]);
      ReadHead(items);
    }
  }

  // ---------------------------------------------------------------- what a clash does

  /** The token that a number before an operator becomes part of is longer than the number. */
  lemma NumberGrows(digits: string, b: Item, rest: seq<string>)
    requires IsDigits(digits) && b.Implicit()
    ensures var m := Merge([digits] + b.Print() + rest);
            m != [] && m[0] != digits && !IsDigits(m[0]) && m[0] != "-" && m[0] !in {">", ">>"}
  {
    var tokens := [digits] + b.Print() + rest;
    assert tokens[0] == digits && tokens[1] == b.Op();
    assert Token(tokens, 1) == Some(b.Op());
    assert Combine(tokens).Some?;
    CombinedShape(tokens);
    var m := Combine(tokens).value.0;
    assert |m| > |digits| && m[0] == digits[0] && IsDigit(m[0]);
  }

  /** After an operator the number is the start of the target: what is read is another file. */
  lemma ClashAfterTarget(a: Item, b: Item, rest: seq<string>)
    requires (a.Output? || a.Input?) && a.Printable() && Clash(a, b)
    ensures var ops := Parse(Merge(a.Print() + b.Print() + rest)).1;
            ops != [] && ops[0] != a.Redirections()[0]
  {
    hide Extract, ToDecimal, FromDecimal, Combine, Merge, Parse, IsDigits;
    var target := a.target;
    var more := Merge([target] + b.Print() + rest);
    NumberGrows(target, b, rest);
    var op := if a.Input? then "<" else if a.fd.None? then a.Op() else ToDecimal(a.fd.value) + a.Op();
    var tail := [target] + b.Print() + rest;
    if a.Output? && a.fd.Some? {
      NumberIsNoOp(a.fd.value);
      NotDash(a.fd.value);
      assert a.Print() + b.Print() + rest == [ToDecimal(a.fd.value), a.Op(), target] + (b.Print() + rest);
      assert [target] + (b.Print() + rest) == tail;
      NumberTakesOperator(ToDecimal(a.fd.value), a.Op(), target, b.Print() + rest);
      ExtractWithFd(ToDecimal(a.fd.value), a.Op());
    } else {
      assert a.Print() + b.Print() + rest == [op] + tail;
      assert !IsDigits(op) by { OpIsNoNumber(op); }
      TokenStays(op, tail);
      ExtractBare(op);
    }
    assert more == [more[0]] + more[1..];
    assert [op] + more == [op, more[0]] + more[1..];
    ParseTwoTokens(op, more[0], more[1..]);
  }

  lemma OpIsNoNumber(op: string)
    requires op in {">", ">>", ">&", "<"}
    ensures !IsDigits(op)
  {
    assert !IsDigit(op[0]);
  }

  /** After `>&` the number is no descriptor any more, and the operator becomes a word. */
  lemma ClashAfterCopy(a: Item, b: Item, rest: seq<string>)
    requires a.Copy? && Clash(a, b)
    ensures ">&" in Parse(Merge(a.Print() + b.Print() + rest)).0
  {
    hide Extract, ToDecimal, FromDecimal, Combine, Merge, Parse, IsDigits;
    var digits := ToDecimal(a.source);
    NumberIsNoOp(a.source);
    var tail := [digits] + b.Print() + rest;
    var more := Merge(tail);
    NumberGrows(digits, b, rest);
    assert a.Print() + b.Print() + rest == [">&"] + tail;
    OpIsNoNumber(">&");
    TokenStays(">&", tail);
    ExtractBare(">&");
    assert Token([">&"] + more, 1) == Some(more[0]);
    ParseOneToken(">&", more);
  }

  /** Where the head of a merged list is the first token, nothing was glued to it. */
  lemma HeadStays(tok: string, rest: seq<string>)
    requires Merge([tok] + rest)[0] == tok
    ensures Merge([tok] + rest) == [tok] + Merge(rest)
  {
    var tokens := [tok] + rest;
    assert tokens[1..] == rest;
    CombinedIsLonger(tokens);
  }

  lemma CombinedIsLonger(tokens: seq<string>)
    requires tokens != []
    ensures Combine(tokens).Some? ==> |Combine(tokens).value.0| > |tokens[0]|
  {
  }

  /** A number that is a word becomes the descriptor: either the operation differs, or the word is
      gone and the rest is read as without it. */
  lemma ClashAfterWord(word: string, b: Item, rest: seq<string>)
    requires IsDigits(word) && b.Implicit() && b.Printable()
    ensures var (words, ops) := Parse(Merge([word] + b.Print() + rest));
            && ops != []
            && (ops[0] == b.Redirections()[0] ==> words == Parse(Merge(rest)).0 && ops[1..] == Parse(Merge(rest)).1)
  {
    hide Extract, ToDecimal, FromDecimal, Combine, Merge, Parse, IsDigits;
    match b
    case Output(_, append, target) =>
      var op, more := b.Op(), Merge([target] + rest);
      assert [word] + b.Print() + rest == [word, op, target] + rest;
      NumberTakesOperator(word, op, target, rest);
      ExtractWithFd(word, op);
      MergeHead([target] + rest);
      assert more == [more[0]] + more[1..];
      assert [word + op] + more == [word + op, more[0]] + more[1..];
      ParseTwoTokens(word + op, more[0], more[1..]);
      if more[0] == target {
        HeadStays(target, rest);
        assert more[1..] == Merge(rest);
      }
    case Copy(_, source) =>
      assert [word] + b.Print() + rest == [word, ">&", ToDecimal(source)] + rest;
      NumberTakesCopy(word, source, rest);
      ExtractDup(word, source);
      NotDash(source);
      ParseOneToken(word + ">&" + ToDecimal(source), Merge(rest));
  }

  // ---------------------------------------------------------------- the exact condition

  /** If a line is read with the right operations, and `>&` is not read as a word, then no word is
      read that is not there, and one is missing where there is a clash. */
  lemma {:induction false} ClashLosesWord(items: seq<Item>)
    requires AllPrintable(items) && Reading(items).1 == RedirectionsOf(items) && ">&" !in Reading(items).0
    ensures |Reading(items).0| <= |WordsOf(items)|
    ensures !Unambiguous(items) ==> |Reading(items).0| < |WordsOf(items)|
    decreases |items|, 1
  {
    hide Reading, Clash;
    if items == [] {
      ReadNothing();
    } else {
      UnambiguousHead(items);
      if HeadClash(items) {
        ClashAtHead(items);
      } else {
        ReadHead(items);
        assert RedirectionsOf(items)[|items[0].Redirections()|..] == RedirectionsOf(items[1..]);
        ClashLosesWord(items[1..]);
      }
    }
  }

  lemma ReadNothing()
    ensures Reading([]) == ([], [])
  {
  }

  lemma ClashAtHead(items: seq<Item>)
    requires AllPrintable(items) && HeadClash(items)
    requires Reading(items).1 == RedirectionsOf(items) && ">&" !in Reading(items).0
    ensures |Reading(items).0| < |WordsOf(items)|
    decreases |items|, 0
  {
    hide Parse, Merge, FromDecimal, ToDecimal, IsDigits;
    var a, b, rest := items[0], items[1], items[2..];
    ClashShape(items);
    if a.Output? || a.Input? {
      ClashAfterTarget(a, b, PrintAll(rest));
    } else if a.Copy? {
      ClashAfterCopy(a, b, PrintAll(rest));
    } else {
      ClashAfterWord(a.word, b, PrintAll(rest));
      ClashLosesWord(rest);
    }
  }

  lemma HeadItem(items: seq<Item>)
    requires items != []
    ensures PrintAll(items) == items[0].Print() + PrintAll(items[1..])
    ensures WordsOf(items) == items[0].Words() + WordsOf(items[1..])
    ensures RedirectionsOf(items) == items[0].Redirections() + RedirectionsOf(items[1..])
  {
  }

  lemma Regroup<T>(a: seq<T>, b: seq<T>, c: seq<T>)
    ensures a + (b + c) == a + b + c
  {
  }

  lemma TwoItems(items: seq<Item>)
    requires |items| > 1
    ensures var a, b, rest := items[0], items[1], items[2..];
            && PrintAll(items) == a.Print() + b.Print() + PrintAll(rest)
            && WordsOf(items) == a.Words() + b.Words() + WordsOf(rest)
            && RedirectionsOf(items) == a.Redirections() + b.Redirections() + RedirectionsOf(rest)
  {
    var a, b, rest := items[0], items[1], items[2..];
    HeadItem(items);
    HeadItem(items[1..]);
    assert items[1..][0] == b && items[1..][1..] == rest;
    hide *;
    Regroup(a.Print(), b.Print(), PrintAll(rest));
    Regroup(a.Words(), b.Words(), WordsOf(rest));
    Regroup(a.Redirections(), b.Redirections(), RedirectionsOf(rest));
  }

  /** A line with a clash at its head, taken apart. */
  lemma ClashShape(items: seq<Item>)
    requires AllPrintable(items) && HeadClash(items)
    ensures var a, b, rest := items[0], items[1], items[2..];
            && a.Printable() && b.Printable() && AllPrintable(rest)
            && PrintAll(items) == a.Print() + b.Print() + PrintAll(rest)
            && WordsOf(items) == a.Words() + WordsOf(rest)
            && RedirectionsOf(items) == a.Redirections() + b.Redirections() + RedirectionsOf(rest)
            && |b.Redirections()| == 1 && (a.Plain? || |a.Redirections()| == 1)
  {
    hide PrintAll, WordsOf, RedirectionsOf;
    TwoItems(items);
    var a := items[0];
    assert items[1].Words() == [] && a.Words() + [] == a.Words();
  }

  lemma {:induction false} WordsAreNoOperators(items: seq<Item>)
    requires AllPrintable(items)
    ensures ">&" !in WordsOf(items)
  {
    if items != [] {
      UnambiguousHead(items);
      WordsAreNoOperators(items[1..]);
      ExtractBare(">&");
    }
  }

  /** Main result: words and redirections in any order, printed, merged and parsed, come back as
      exactly the words and exactly the operations, each in order, if and only if no redirection
      without a descriptor directly follows a number. */
  lemma PrintMergeParse(items: seq<Item>)
    requires AllPrintable(items)
    ensures Parse(Merge(PrintAll(items))) == (WordsOf(items), RedirectionsOf(items)) <==> Unambiguous(items)
  {
    if Unambiguous(items) {
      ReadUnambiguous(items);
    } else if Reading(items) == (WordsOf(items), RedirectionsOf(items)) {
      WordsAreNoOperators(items);
      ClashLosesWord(items);
    }
  }

  // ---------------------------------------------------------------- a number taken for a descriptor

  lemma {:induction false} PrintConcat(a: seq<Item>, b: seq<Item>)
    ensures PrintAll(a + b) == PrintAll(a) + PrintAll(b)
  {
    if a == [] {
      assert a + b == b;
    } else {
      assert (a + b)[1..] == a[1..] + b;
      PrintConcat(a[1..], b);
    }
  }

  /** The same redirection with its descriptor written out. */
  function WithFd(b: Item, n: nat): Item {
    match b
    case Output(_, append, target) => Output(Some(n), append, target)
    case Copy(_, source) => Copy(Some(n), source)
    case _ => b
  }

  /** What a clash with a word is read as, anywhere on a line: the word of `echo 5 > f` is taken for
      the descriptor, since both lines have the same tokens. */
  lemma NumberBeforeOperatorIsLost(before: seq<Item>, n: nat, b: Item, after: seq<Item>)
    requires b.Implicit() && AllPrintable(before + [WithFd(b, n)] + after)
    requires Unambiguous(before + [WithFd(b, n)] + after)
    ensures var meant := before + [WithFd(b, n)] + after;
            Parse(Merge(PrintAll(before + [Plain(ToDecimal(n)), b] + after))) == (WordsOf(meant), RedirectionsOf(meant))
  {
    hide Parse, Merge, ToDecimal;
    var word, with := Plain(ToDecimal(n)), WithFd(b, n);
    PrintConcat(before + [word, b], after);
    PrintConcat(before, [word, b]);
    PrintConcat(before + [with], after);
    PrintConcat(before, [with]);
    assert [with][1..] == [] && [word, b][1..] == [b] && [b][1..] == [];
    assert PrintAll([with]) == with.Print() + [] == [ToDecimal(n)] + b.Print() == PrintAll([word, b]) by {
      assert PrintAll([b]) == b.Print() + [];
      assert b.Print() + [] == b.Print();
    }
    PrintMergeParse(before + [with] + after);
  }
}
